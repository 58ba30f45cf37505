/** `dt_colorspaces_cygm_apply_coeffs_to_rgb` of src/common/colorspaces.c: white balance
    coefficients of the four camera channels applied to RGB pixels. */
module WhiteBalance {
  import opened GramMatrix
  import opened Pseudoinverse
  import opened CameraMatrices

  ghost predicate Shapes(rgbToCam: array2<real>, camToRgb: array2<real>, coeffs: array<real>) {
    && rgbToCam.Length0 == 4 && rgbToCam.Length1 == 3 && camToRgb.Length0 == 3 && camToRgb.Length1 == 4
    && coeffs.Length == 4
  }

  /** Row `a` of the RGB to white balanced RGB matrix: to camera, times coefficients, back. */
  ghost function BalanceRow(rgbToCam: array2<real>, camToRgb: array2<real>, coeffs: array<real>, a: nat): Vec
    requires Shapes(rgbToCam, camToRgb, coeffs) && a < 3
    reads rgbToCam, camToRgb, coeffs
  {
    Vec(BalanceAt(rgbToCam, camToRgb, coeffs, a, 0), BalanceAt(rgbToCam, camToRgb, coeffs, a, 1),
        BalanceAt(rgbToCam, camToRgb, coeffs, a, 2))
  }

  ghost function BalanceAt(rgbToCam: array2<real>, camToRgb: array2<real>, coeffs: array<real>, a: nat, b: nat): real
    requires Shapes(rgbToCam, camToRgb, coeffs) && a < 3 && b < 3
    reads rgbToCam, camToRgb, coeffs
  {
    camToRgb[a, 0] * coeffs[0] * rgbToCam[0, b] + camToRgb[a, 1] * coeffs[1] * rgbToCam[1, b]
    + camToRgb[a, 2] * coeffs[2] * rgbToCam[2, b] + camToRgb[a, 3] * coeffs[3] * rgbToCam[3, b]
  }

  /** The colour of pixel `i` in a buffer of four values a pixel. */
  function Pixel(buf: seq<real>, i: nat): Vec
    requires 4 * i + 3 < |buf|
  {
    Vec(buf[4 * i], buf[4 * i + 1], buf[4 * i + 2])
  }

  /** The response of camera channel `c` to a colour. */
  ghost function Response(rgbToCam: array2<real>, v: Vec, c: nat): real
    requires rgbToCam.Length0 == 4 && rgbToCam.Length1 == 3 && c < 4
    reads rgbToCam
  {
    rgbToCam[c, 0] * v.x + rgbToCam[c, 1] * v.y + rgbToCam[c, 2] * v.z
  }

  /** Channel `a` of a colour taken to the camera, each channel there times its coefficient,
      and back. */
  ghost function ThroughCamera(rgbToCam: array2<real>, camToRgb: array2<real>, coeffs: array<real>, v: Vec,
                               a: nat): real
    requires Shapes(rgbToCam, camToRgb, coeffs) && a < 3
    reads rgbToCam, camToRgb, coeffs
  {
    camToRgb[a, 0] * (coeffs[0] * Response(rgbToCam, v, 0)) + camToRgb[a, 1] * (coeffs[1] * Response(rgbToCam, v, 1))
    + camToRgb[a, 2] * (coeffs[2] * Response(rgbToCam, v, 2)) + camToRgb[a, 3] * (coeffs[3] * Response(rgbToCam, v, 3))
  }

  /** The one matrix does what the three steps do. */
  lemma BalanceIsThroughCamera(rgbToCam: array2<real>, camToRgb: array2<real>, coeffs: array<real>, v: Vec, a: nat)
    requires Shapes(rgbToCam, camToRgb, coeffs) && a < 3
    ensures Dot(BalanceRow(rgbToCam, camToRgb, coeffs, a), v) == ThroughCamera(rgbToCam, camToRgb, coeffs, v, a)
  {
    ghost var x, k, m := camToRgb, coeffs, rgbToCam;
    ghost var p, q, r, s := x[a, 0] * k[0], x[a, 1] * k[1], x[a, 2] * k[2], x[a, 3] * k[3];
    FourTerms(p * m[0, 0], q * m[1, 0], r * m[2, 0], s * m[3, 0], v.x);
    FourTerms(p * m[0, 1], q * m[1, 1], r * m[2, 1], s * m[3, 1], v.y);
    FourTerms(p * m[0, 2], q * m[1, 2], r * m[2, 2], s * m[3, 2], v.z);
    OneChannel(x[a, 0], k[0], m[0, 0], m[0, 1], m[0, 2], v);
    OneChannel(x[a, 1], k[1], m[1, 0], m[1, 1], m[1, 2], v);
    OneChannel(x[a, 2], k[2], m[2, 0], m[2, 1], m[2, 2], v);
    OneChannel(x[a, 3], k[3], m[3, 0], m[3, 1], m[3, 2], v);
  }

  lemma FourTerms(p: real, q: real, r: real, s: real, v: real)
    ensures (p + q + r + s) * v == p * v + q * v + r * v + s * v
  {
  }

  lemma OneChannel(x: real, k: real, m0: real, m1: real, m2: real, v: Vec)
    ensures x * (k * (m0 * v.x + m1 * v.y + m2 * v.z)) == x * k * m0 * v.x + x * k * m1 * v.y + x * k * m2 * v.z
  {
    var y := x * k;
    assert y * m0 * v.x == y * (m0 * v.x) && y * m1 * v.y == y * (m1 * v.y) && y * m2 * v.z == y * (m2 * v.z);
  }

  /** Equal coefficients make the matrix that multiple of the identity. */
  lemma EqualCoefficients(rgbToCam: array2<real>, camToRgb: array2<real>, coeffs: array<real>, k: real, a: nat)
    requires Shapes(rgbToCam, camToRgb, coeffs) && a < 3
    requires LeftInverse(camToRgb, Matrix(rgbToCam)) && coeffs[..] == [k, k, k, k]
    ensures BalanceRow(rgbToCam, camToRgb, coeffs, a) == Scale(k, Unit(a))
  {
    assert coeffs[0] == coeffs[..][0] && coeffs[1] == coeffs[..][1];
    assert coeffs[2] == coeffs[..][2] && coeffs[3] == coeffs[..][3];
    forall b | 0 <= b < 3 ensures BalanceAt(rgbToCam, camToRgb, coeffs, a, b) == k * At(Unit(a), b) {
      ghost var m := Matrix(rgbToCam);
      assert ProductAt(camToRgb, m, a, b) == At(Unit(a), b);
      hide LeftInverse, Matrix;
      forall c | 0 <= c < 4 ensures At(m[c], b) == rgbToCam[c, b] {
        MatrixEntry(rgbToCam, c, b);
      }
      PullOut(k, camToRgb[a, 0], camToRgb[a, 1], camToRgb[a, 2], camToRgb[a, 3],
              rgbToCam[0, b], rgbToCam[1, b], rgbToCam[2, b], rgbToCam[3, b]);
    }
  }

  lemma PullOut(k: real, x0: real, x1: real, x2: real, x3: real, a0: real, a1: real, a2: real, a3: real)
    ensures x0 * k * a0 + x1 * k * a1 + x2 * k * a2 + x3 * k * a3 == k * (x0 * a0 + x1 * a1 + x2 * a2 + x3 * a3)
  {
    assert x0 * k * a0 == k * (x0 * a0) && x1 * k * a1 == k * (x1 * a1);
    assert x2 * k * a2 == k * (x2 * a2) && x3 * k * a3 == k * (x3 * a3);
  }

  function Weigh(x: real, coeff: real): real {
    x * coeff
  }

  /** The camera to RGB matrix with the coefficients applied to its columns. */
  method Weighted(camToRgb: array2<real>, coeffs: array<real>) returns (wb: array2<real>)
    requires camToRgb.Length0 == 3 && camToRgb.Length1 == 4 && coeffs.Length == 4
    ensures fresh(wb) && wb.Length0 == 3 && wb.Length1 == 4
    ensures forall r, c :: 0 <= r < 3 && 0 <= c < 4 ==> wb[r, c] == Weigh(camToRgb[r, c], coeffs[c])
  {
    hide Weigh;
    wb := new real[3, 4];
    for a := 0 to 3
      invariant forall r, c :: 0 <= r < a && 0 <= c < 4 ==> wb[r, c] == Weigh(camToRgb[r, c], coeffs[c])
    {
      for b := 0 to 4
        invariant forall r, c :: 0 <= r < a && 0 <= c < 4 ==> wb[r, c] == Weigh(camToRgb[r, c], coeffs[c])
        invariant forall c :: 0 <= c < b ==> wb[a, c] == Weigh(camToRgb[a, c], coeffs[c])
      {
        wb[a, b] := Weigh(camToRgb[a, b], coeffs[b]);
      }
    }
  }

  method BuildMatrix(rgbToCam: array2<real>, camToRgb: array2<real>, coeffs: array<real>) returns (m: array2<real>)
    requires Shapes(rgbToCam, camToRgb, coeffs)
    ensures fresh(m) && m.Length0 == 3 && m.Length1 == 3
    ensures forall a :: 0 <= a < 3 ==> Vec(m[a, 0], m[a, 1], m[a, 2]) == BalanceRow(rgbToCam, camToRgb, coeffs, a)
  {
    hide BalanceAt, Weigh;
    var wb := Weighted(camToRgb, coeffs);
    m := new real[3, 3];
    for a := 0 to 3
      invariant forall r, c :: 0 <= r < 3 && 0 <= c < 4 ==> wb[r, c] == Weigh(camToRgb[r, c], coeffs[c])
      invariant forall r, c :: 0 <= r < a && 0 <= c < 3 ==> m[r, c] == BalanceAt(rgbToCam, camToRgb, coeffs, r, c)
    {
      for b := 0 to 3
        invariant forall r, c :: 0 <= r < 3 && 0 <= c < 4 ==> wb[r, c] == Weigh(camToRgb[r, c], coeffs[c])
        invariant forall r, c :: 0 <= r < a && 0 <= c < 3 ==> m[r, c] == BalanceAt(rgbToCam, camToRgb, coeffs, r, c)
        invariant forall c :: 0 <= c < b ==> m[a, c] == BalanceAt(rgbToCam, camToRgb, coeffs, a, c)
      {
        m[a, b] := MatrixEntryOf(wb, rgbToCam, camToRgb, coeffs, a, b);
      }
    }
  }

  method MatrixEntryOf(wb: array2<real>, rgbToCam: array2<real>, ghost camToRgb: array2<real>,
                       ghost coeffs: array<real>, a: nat, b: nat)
    returns (sum: real)
    requires Shapes(rgbToCam, camToRgb, coeffs) && a < 3 && b < 3 && wb.Length0 == 3 && wb.Length1 == 4
    requires forall r, c :: 0 <= r < 3 && 0 <= c < 4 ==> wb[r, c] == Weigh(camToRgb[r, c], coeffs[c])
    ensures sum == BalanceAt(rgbToCam, camToRgb, coeffs, a, b)
  {
    sum := 0.0;
    sum := sum + wb[a, 0] * rgbToCam[0, b];
    sum := sum + wb[a, 1] * rgbToCam[1, b];
    sum := sum + wb[a, 2] * rgbToCam[2, b];
    sum := sum + wb[a, 3] * rgbToCam[3, b];
  }

  /** What a pixel becomes under the rows `m`. Where input and output are the same buffer
      the source clears the output before it reads the input, and the pixel turns black. */
  function Applied(m: seq<Vec>, v: Vec, same: bool): Vec
    requires |m| == 3
  {
    if same then ZERO else OutRow(m, v)
  }

  method ApplyPixel(out: array<real>, input: array<real>, m: array2<real>, i: nat)
    requires m.Length0 == 3 && m.Length1 == 3 && 4 * i + 3 < out.Length == input.Length
    modifies out
    ensures Pixel(out[..], i) == Applied(Matrix(m), old(Pixel(input[..], i)), out == input)
    ensures forall k :: 0 <= k < out.Length && !(4 * i <= k < 4 * i + 3) ==> out[k] == old(out[k])
  {
    ghost var r := Matrix(m);
    ghost var v := if out == input then ZERO else Pixel(input[..], i);
    ghost var d0, d1, d2 := Dot(r[0], v), Dot(r[1], v), Dot(r[2], v);
    assert out == input ==> d0 == 0.0 && d1 == 0.0 && d2 == 0.0;
    hide Dot;
    var p := 4 * i;
    out[p], out[p + 1], out[p + 2] := 0.0, 0.0, 0.0;
    for a := 0 to 3
      invariant out[p] == (if a > 0 then d0 else 0.0) && out[p + 1] == (if a > 1 then d1 else 0.0)
      invariant out[p + 2] == if a > 2 then d2 else 0.0
      invariant forall k :: 0 <= k < out.Length && !(p <= k < p + 3) ==> out[k] == old(out[k])
      invariant out != input ==> v == Pixel(input[..], i)
    {
      ApplyEntry(out, input, m, p, a, v);
      assert Matrix(m)[a] == r[a];
    }
  }

  /** The sum over the three input channels for one output channel of the pixel at `p`. */
  method ApplyEntry(out: array<real>, input: array<real>, m: array2<real>, p: nat, a: nat, ghost v: Vec)
    requires m.Length0 == 3 && m.Length1 == 3 && p + 3 < out.Length == input.Length && a < 3
    requires out[p + a] == 0.0
    requires v == if out == input then ZERO else Vec(input[p], input[p + 1], input[p + 2])
    requires out == input ==> out[p] == 0.0 && out[p + 1] == 0.0 && out[p + 2] == 0.0
    modifies out
    ensures out[p + a] == Dot(Matrix(m)[a], v)
    ensures forall k :: 0 <= k < out.Length && k != p + a ==> out[k] == old(out[k])
  {
    var j := p + a;
    ghost var row := Vec(m[a, 0], m[a, 1], m[a, 2]);
    assert Matrix(m)[a] == row;
    hide Matrix;
    ghost var e, f, g := row.x * v.x, row.y * v.y, row.z * v.z;
    out[j] := out[j] + m[a, 0] * input[p];
    assert out[j] == e;
    assert out == input ==> out[j] == 0.0;
    out[j] := out[j] + m[a, 1] * input[p + 1];
    assert out[j] == e + f;
    assert out == input ==> out[j] == 0.0;
    out[j] := out[j] + m[a, 2] * input[p + 2];
    assert out[j] == e + f + g;
  }

  /** Apply the coefficients to `num` pixels of four values; the fourth value is kept. */
  method ApplyCoeffsToRgb(out: array<real>, input: array<real>, num: nat, rgbToCam: array2<real>,
                          camToRgb: array2<real>, coeffs: array<real>)
    requires out.Length == input.Length && 4 * num <= out.Length && Shapes(rgbToCam, camToRgb, coeffs)
    requires out != coeffs
    modifies out
    ensures forall i :: 0 <= i < num ==>
              Pixel(out[..], i) ==
              Applied([BalanceRow(rgbToCam, camToRgb, coeffs, 0), BalanceRow(rgbToCam, camToRgb, coeffs, 1),
                       BalanceRow(rgbToCam, camToRgb, coeffs, 2)], old(Pixel(input[..], i)), out == input)
    ensures out != input ==>
              forall i, a :: 0 <= i < num && 0 <= a < 3 ==>
                At(Pixel(out[..], i), a) == ThroughCamera(rgbToCam, camToRgb, coeffs, Pixel(input[..], i), a)
    ensures out == input ==> forall i :: 0 <= i < num ==> Pixel(out[..], i) == Vec(0.0, 0.0, 0.0)
    ensures forall k :: 0 <= k < out.Length && (k >= 4 * num || k % 4 == 3) ==> out[k] == old(out[k])
  {
    hide BalanceRow, ThroughCamera, Dot;
    var m := BuildMatrix(rgbToCam, camToRgb, coeffs);
    ghost var r := [BalanceRow(rgbToCam, camToRgb, coeffs, 0), BalanceRow(rgbToCam, camToRgb, coeffs, 1),
                    BalanceRow(rgbToCam, camToRgb, coeffs, 2)];
    assert Matrix(m) == r;
    ghost var src, dst := input[..], out[..];
    assert AppliedTo(dst, dst, src, r, out == input, 0);
    for i := 0 to num
      invariant Matrix(m) == r && (out != input ==> input[..] == src)
      invariant AppliedTo(out[..], dst, src, r, out == input, i)
    {
      hide Matrix, Applied, AppliedTo;
      ghost var before := out[..];
      PixelUntouched(before, dst, src, r, out == input, i);
      ApplyPixel(out, input, m, i);
      NextPixel(before, out[..], dst, src, r, out == input, i);
    }
    forall i, a | 0 <= i < num && 0 <= a < 3
      ensures Dot(r[a], Pixel(src, i)) == ThroughCamera(rgbToCam, camToRgb, coeffs, Pixel(src, i), a)
    {
      BalanceIsThroughCamera(rgbToCam, camToRgb, coeffs, Pixel(src, i), a);
    }
  }

  /** The first `n` pixels are done, the fourth values and the rest as they were. */
  ghost predicate AppliedTo(out: seq<real>, dst: seq<real>, src: seq<real>, r: seq<Vec>, same: bool, n: nat) {
    && |out| == |dst| == |src| && 4 * n <= |out| && |r| == 3
    && (forall i :: 0 <= i < n ==> Pixel(out, i) == Applied(r, Pixel(src, i), same))
    && (forall k :: 0 <= k < |out| && (k >= 4 * n || k % 4 == 3) ==> out[k] == dst[k])
  }

  lemma PixelUntouched(out: seq<real>, dst: seq<real>, src: seq<real>, r: seq<Vec>, same: bool, n: nat)
    requires AppliedTo(out, dst, src, r, same, n) && 4 * n + 3 < |out|
    ensures |out| == |dst| && Pixel(out, n) == Pixel(dst, n)
  {
  }

  lemma NextPixel(before: seq<real>, after: seq<real>, dst: seq<real>, src: seq<real>, r: seq<Vec>, same: bool, n: nat)
    requires AppliedTo(before, dst, src, r, same, n) && 4 * n + 3 < |before| == |after| == |src|
    requires |r| == 3 && Pixel(after, n) == Applied(r, Pixel(src, n), same)
    requires forall k :: 0 <= k < |after| && !(4 * n <= k < 4 * n + 3) ==> after[k] == before[k]
    ensures AppliedTo(after, dst, src, r, same, n + 1)
  {
    hide Applied;
    assert forall i :: 0 <= i < n ==> Pixel(after, i) == Pixel(before, i);
  }

  /** What equal coefficients `k` make of a pixel: `k` times it, if and only if input and
      output are different buffers or that is black anyway. */
  lemma EqualCoefficientsScale(rgbToCam: array2<real>, camToRgb: array2<real>, coeffs: array<real>, k: real, v: Vec,
                               same: bool)
    requires Shapes(rgbToCam, camToRgb, coeffs)
    requires LeftInverse(camToRgb, Matrix(rgbToCam)) && coeffs[..] == [k, k, k, k]
    ensures Applied([BalanceRow(rgbToCam, camToRgb, coeffs, 0), BalanceRow(rgbToCam, camToRgb, coeffs, 1),
                     BalanceRow(rgbToCam, camToRgb, coeffs, 2)], v, same) == Scale(k, v)
            <==> !same || k == 0.0 || v == ZERO
  {
    hide BalanceRow, LeftInverse;
    EqualCoefficients(rgbToCam, camToRgb, coeffs, k, 0);
    EqualCoefficients(rgbToCam, camToRgb, coeffs, k, 1);
    EqualCoefficients(rgbToCam, camToRgb, coeffs, k, 2);
    ScaleZero(k, v);
    hide Dot, Scale;
    forall a | 0 <= a < 3 ensures Dot(Scale(k, Unit(a)), v) == At(Scale(k, v), a) {
      DotScale(k, Unit(a), v);
      DotUnit(a, v);
      AtScale(k, v, a);
    }
  }

  lemma ScaleZero(k: real, v: Vec)
    ensures Scale(k, v) == ZERO <==> k == 0.0 || v == ZERO
  {
    ZeroProduct(k, v.x);
    ZeroProduct(k, v.y);
    ZeroProduct(k, v.z);
  }

  lemma ZeroProduct(x: real, y: real)
    ensures x * y == 0.0 <==> x == 0.0 || y == 0.0
  {
    if x != 0.0 {
      assert x * y / x == y;
    }
  }
}
