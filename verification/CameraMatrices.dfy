/** The camera colour matrices of src/common/colorspaces.c: conversion between a camera's
    four channels and three colour coordinates, and white balance in RGB. */
module CameraMatrices {
  import opened Common
  import opened GramMatrix
  import opened Pseudoinverse

  /** `ZeroRowSum` and `Degenerate`: the source divides by zero and stores non-numbers. */
  datatype Conversion = NotFound | ZeroRowSum | Degenerate | Found

  /** Entry (i, j) of the three by four matrix `x` times the four by three matrix `a`. */
  function ProductAt(x: array2<real>, a: seq<Vec>, i: nat, j: nat): real
    requires x.Length0 == 3 && x.Length1 == 4 && |a| == 4 && i < 3 && j < 3
    reads x
  {
    x[i, 0] * At(a[0], j) + x[i, 1] * At(a[1], j) + x[i, 2] * At(a[2], j) + x[i, 3] * At(a[3], j)
  }

  /** `x` is a left inverse of `a`. */
  ghost predicate LeftInverse(x: array2<real>, a: seq<Vec>)
    requires x.Length0 == 3 && x.Length1 == 4 && |a| == 4
    reads x
  {
    forall i, j :: 0 <= i < 3 && 0 <= j < 3 ==> ProductAt(x, a, i, j) == At(Unit(i), j)
  }

  lemma CrossOfFour(b: seq<Vec>, a: seq<Vec>, j: nat, l: nat)
    requires |a| == |b| == 4 && j < 3 && l < 3
    ensures Cross(b, a, j, l) ==
            Entry(b[0], a[0], j, l) + Entry(b[1], a[1], j, l) + Entry(b[2], a[2], j, l) + Entry(b[3], a[3], j, l)
  {
    hide Entry, Cross;
    CrossUnfolds(b, a, j, l, 4);
    CrossUnfolds(b, a, j, l, 3);
    CrossUnfolds(b, a, j, l, 2);
    CrossUnfolds(b, a, j, l, 1);
  }

  lemma CrossUnfolds(b: seq<Vec>, a: seq<Vec>, j: nat, l: nat, k: nat)
    requires |a| == |b| && 0 < k <= |a| && j < 3 && l < 3
    ensures Cross(b[..k], a[..k], j, l) == Cross(b[..k - 1], a[..k - 1], j, l) + Entry(b[k - 1], a[k - 1], j, l)
    ensures Cross(b[..0], a[..0], j, l) == 0.0 && b[..|a|] == b && a[..|a|] == a
  {
    assert a[..k][..k - 1] == a[..k - 1] && b[..k][..k - 1] == b[..k - 1];
  }

  /** Invert a four by three matrix into a three by four one. */
  method Invert(m: array2<real>, x: array2<real>) returns (ok: bool)
    requires m.Length0 == 4 && m.Length1 == 3 && x.Length0 == 3 && x.Length1 == 4 && m != x
    modifies x
    ensures ok <==> Independent(Matrix(m))
    ensures ok ==> LeftInverse(x, Matrix(m))
  {
    hide Independent, IsPseudoinverse;
    var inverse := new real[4, 3];
    ok := Pseudoinvert(m, inverse);
    if ok {
      ghost var a, b := Matrix(m), Matrix(inverse);
      Transpose(inverse, x);
      PseudoinverseIsLeftInverse(b, a);
      forall i, j | 0 <= i < 3 && 0 <= j < 3 ensures ProductAt(x, a, i, j) == At(Unit(i), j) {
        hide Matrix;
        CrossOfFour(b, a, i, j);
        ProductIsCross(x, a, inverse, i, j);
      }
    }
  }

  lemma PseudoinverseIsLeftInverse(b: seq<Vec>, a: seq<Vec>)
    requires IsPseudoinverse(b, a)
    ensures |b| == |a| && forall j, l :: 0 <= j < 3 && 0 <= l < 3 ==> Cross(b, a, j, l) == At(Unit(j), l)
  {
  }

  lemma ProductIsCross(x: array2<real>, a: seq<Vec>, inverse: array2<real>, i: nat, j: nat)
    requires |a| == 4 && x.Length0 == 3 && x.Length1 == 4
    requires inverse.Length0 == 4 && inverse.Length1 == 3 && i < 3 && j < 3
    requires forall r, c :: 0 <= r < 3 && 0 <= c < 4 ==> x[r, c] == inverse[c, r]
    ensures |Matrix(inverse)| == 4
    ensures var b := Matrix(inverse);
            ProductAt(x, a, i, j) ==
            Entry(b[0], a[0], i, j) + Entry(b[1], a[1], i, j) + Entry(b[2], a[2], i, j) + Entry(b[3], a[3], i, j)
  {
    hide Matrix, At;
    MatrixLength(inverse);
    forall k | 0 <= k < 4 ensures At(Matrix(inverse)[k], i) == x[i, k] {
      MatrixEntry(inverse, k, i);
    }
  }

  method Transpose(inverse: array2<real>, x: array2<real>)
    requires inverse.Length0 == 4 && inverse.Length1 == 3 && x.Length0 == 3 && x.Length1 == 4 && inverse != x
    modifies x
    ensures forall i, j :: 0 <= i < 3 && 0 <= j < 4 ==> x[i, j] == inverse[j, i]
  {
    for i := 0 to 3
      invariant forall r, c :: 0 <= r < i && 0 <= c < 4 ==> x[r, c] == inverse[c, r]
    {
      for j := 0 to 4
        invariant forall r, c :: 0 <= r < i && 0 <= c < 4 ==> x[r, c] == inverse[c, r]
        invariant forall c :: 0 <= c < j ==> x[i, c] == inverse[c, i]
      {
        x[i, j] := inverse[j, i];
      }
    }
  }

  // ----- camera to XYZ -----

  /** The four rows: three given ones and a zero row, or the table's twelve numbers. */
  function XyzRows(given: Option<seq<real>>, table: Option<seq<real>>): Option<seq<Vec>>
    requires given.Some? ==> |given.value| == 9
    requires table.Some? ==> |table.value| == 12
  {
    if given.Some? then
      var v := given.value;
      Some([Vec(v[0], v[1], v[2]), Vec(v[3], v[4], v[5]), Vec(v[6], v[7], v[8]), ZERO])
    else if table.Some? then
      var v := table.value;
      Some([Vec(v[0], v[1], v[2]), Vec(v[3], v[4], v[5]), Vec(v[6], v[7], v[8]), Vec(v[9], v[10], v[11])])
    else None
  }

  /** `given` is None where its first entry is NaN, `table` where the camera is unknown. */
  method ConversionMatricesXyz(given: Option<seq<real>>, table: Option<seq<real>>,
                               xyzToCam: array2<real>, camToXyz: array2<real>) returns (r: Conversion)
    requires given.Some? ==> |given.value| == 9
    requires table.Some? ==> |table.value| == 12
    requires xyzToCam.Length0 == 4 && xyzToCam.Length1 == 3
    requires camToXyz.Length0 == 3 && camToXyz.Length1 == 4 && xyzToCam != camToXyz
    modifies xyzToCam, camToXyz
    ensures r.NotFound? <==> XyzRows(given, table).None?
    ensures r != NotFound ==> Matrix(xyzToCam) == XyzRows(given, table).value
    ensures given.Some? ==> forall k :: 0 <= k < 9 ==> xyzToCam[k / 3, k % 3] == given.value[k]
    ensures given.Some? ==> xyzToCam[3, 0] == xyzToCam[3, 1] == xyzToCam[3, 2] == 0.0
    ensures given.None? && table.Some? ==> forall k :: 0 <= k < 12 ==> xyzToCam[k / 3, k % 3] == table.value[k]
    ensures r.Found? <==> XyzRows(given, table).Some? && Independent(XyzRows(given, table).value)
    ensures r.Found? ==> LeftInverse(camToXyz, XyzRows(given, table).value)
  {
    hide Independent, LeftInverse;
    if given.Some? {
      LoadGiven(given.value, xyzToCam);
    } else {
      if table.None? {
        return NotFound;
      }
      LoadTable(table.value, xyzToCam);
    }
    assert Matrix(xyzToCam) == XyzRows(given, table).value;
    EntriesOfRows(xyzToCam, given, table);
    var ok := Invert(xyzToCam, camToXyz);
    r := if ok then Found else Degenerate;
  }

  lemma EntriesOfRows(m: array2<real>, given: Option<seq<real>>, table: Option<seq<real>>)
    requires given.Some? ==> |given.value| == 9
    requires table.Some? ==> |table.value| == 12
    requires m.Length0 == 4 && m.Length1 == 3 && XyzRows(given, table) == Some(Matrix(m))
    ensures given.Some? ==> forall k :: 0 <= k < 9 ==> m[k / 3, k % 3] == given.value[k]
    ensures given.Some? ==> m[3, 0] == m[3, 1] == m[3, 2] == 0.0
    ensures given.None? ==> table.Some? && forall k :: 0 <= k < 12 ==> m[k / 3, k % 3] == table.value[k]
  {
    hide Matrix;
    forall i, j | 0 <= i < 4 && 0 <= j < 3
      ensures |Matrix(m)| == 4 && m[i, j] == At(Matrix(m)[i], j)
    {
      MatrixLength(m);
      MatrixEntry(m, i, j);
    }
  }

  method LoadGiven(v: seq<real>, m: array2<real>)
    requires |v| == 9 && m.Length0 == 4 && m.Length1 == 3
    modifies m
    ensures Matrix(m) == [Vec(v[0], v[1], v[2]), Vec(v[3], v[4], v[5]), Vec(v[6], v[7], v[8]), ZERO]
  {
    for i := 0 to 9
      invariant forall k :: 0 <= k < i ==> m[k / 3, k % 3] == v[k]
    {
      m[i / 3, i % 3] := v[i];
    }
    assert forall k :: 0 <= k < 9 ==> m[k / 3, k % 3] == v[k];
    ghost var n := seq(9, k requires 0 <= k < 9 reads m => m[k / 3, k % 3]);
    assert n == v;
    assert n[0] == m[0, 0] && n[1] == m[0, 1] && n[2] == m[0, 2] && n[3] == m[1, 0] && n[4] == m[1, 1];
    assert n[5] == m[1, 2] && n[6] == m[2, 0] && n[7] == m[2, 1] && n[8] == m[2, 2];
    for i := 0 to 3
      invariant forall c :: 0 <= c < i ==> m[3, c] == 0.0
      invariant m[0, 0] == v[0] && m[0, 1] == v[1] && m[0, 2] == v[2] && m[1, 0] == v[3] && m[1, 1] == v[4]
      invariant m[1, 2] == v[5] && m[2, 0] == v[6] && m[2, 1] == v[7] && m[2, 2] == v[8]
    {
      m[3, i] := 0.0;
    }
  }

  method LoadTable(v: seq<real>, m: array2<real>)
    requires |v| == 12 && m.Length0 == 4 && m.Length1 == 3
    modifies m
    ensures Matrix(m) ==
            [Vec(v[0], v[1], v[2]), Vec(v[3], v[4], v[5]), Vec(v[6], v[7], v[8]), Vec(v[9], v[10], v[11])]
  {
    for i := 0 to 4
      invariant forall r, c :: 0 <= r < i && 0 <= c < 3 ==> m[r, c] == v[3 * r + c]
    {
      for j := 0 to 3
        invariant forall r, c :: 0 <= r < i && 0 <= c < 3 ==> m[r, c] == v[3 * r + c]
        invariant forall c :: 0 <= c < j ==> m[i, c] == v[3 * i + c]
      {
        m[i, j] := v[3 * i + j];
      }
    }
  }

  // ----- camera to RGB -----

  /** sRGB primaries with a D65 white point, by columns. */
  const RGB_TO_XYZ := Mat(Vec(0.412453, 0.212671, 0.019334), Vec(0.357580, 0.715160, 0.119193),
                          Vec(0.180423, 0.072169, 0.950227))

  function Sum(v: Vec): real {
    v.x + v.y + v.z
  }

  /** The camera's response to each RGB primary, before normalization. */
  function RgbRow(table: seq<real>, i: nat): Vec
    requires |table| == 12 && i < 4
  {
    Times(Vec(table[3 * i], table[3 * i + 1], table[3 * i + 2]), RGB_TO_XYZ)
  }

  /** Rows that are the response scaled so that white, (1, 1, 1), maps to one. */
  ghost predicate Balanced(a: seq<Vec>, table: seq<real>) {
    && |table| == 12 && |a| == 4
    && forall i :: 0 <= i < 4 ==> Whitened(a[i], RgbRow(table, i))
  }

  predicate Whitened(v: Vec, u: Vec) {
    Sum(v) == 1.0 && Scale(Sum(u), v) == u
  }

  /** A balanced row times the table row's response to the D65 white point is its response to
      the sRGB primaries. */
  lemma BalancedEntries(a: seq<Vec>, table: seq<real>, i: nat)
    requires Balanced(a, table) && i < 4
    ensures var x, y, z := table[3 * i], table[3 * i + 1], table[3 * i + 2];
            var white := x * 0.950456 + y + z * 1.088754;
            && white * a[i].x == x * 0.412453 + y * 0.212671 + z * 0.019334
            && white * a[i].y == x * 0.357580 + y * 0.715160 + z * 0.119193
            && white * a[i].z == x * 0.180423 + y * 0.072169 + z * 0.950227
            && a[i].x + a[i].y + a[i].z == 1.0
  {
    RgbResponse(table, i);
    assert Whitened(a[i], RgbRow(table, i));
    hide RgbRow, Balanced;
  }

  lemma RgbResponse(table: seq<real>, i: nat)
    requires |table| == 12 && i < 4
    ensures var x, y, z, r := table[3 * i], table[3 * i + 1], table[3 * i + 2], RgbRow(table, i);
            && r.x == x * 0.412453 + y * 0.212671 + z * 0.019334
            && r.y == x * 0.357580 + y * 0.715160 + z * 0.119193
            && r.z == x * 0.180423 + y * 0.072169 + z * 0.950227
            && Sum(r) == x * 0.950456 + y + z * 1.088754
  {
  }

  ghost predicate SomeSumZero(table: seq<real>)
    requires |table| == 12
  {
    exists i :: 0 <= i < 4 && Sum(RgbRow(table, i)) == 0.0
  }

  /** The inverse of the camera matrix, which maps the camera's white to white. */
  ghost predicate CamToRgb(x: array2<real>, a: seq<Vec>)
    reads x
  {
    && x.Length0 == 3 && x.Length1 == 4 && |a| == 4 && LeftInverse(x, a)
    && forall i :: 0 <= i < 3 ==> x[i, 0] + x[i, 1] + x[i, 2] + x[i, 3] == 1.0
  }

  /** A left inverse of balanced rows takes the camera's white back to white. */
  lemma WhiteComesBack(x: array2<real>, a: seq<Vec>, i: nat)
    requires x.Length0 == 3 && x.Length1 == 4 && |a| == 4 && i < 3
    requires LeftInverse(x, a) && forall k :: 0 <= k < 4 ==> Sum(a[k]) == 1.0
    ensures x[i, 0] + x[i, 1] + x[i, 2] + x[i, 3] == 1.0
  {
    var p, q, r, s := x[i, 0], x[i, 1], x[i, 2], x[i, 3];
    assert ProductAt(x, a, i, 0) + ProductAt(x, a, i, 1) + ProductAt(x, a, i, 2) == 1.0;
    hide LeftInverse;
    SumDistributes(p, a[0]);
    SumDistributes(q, a[1]);
    SumDistributes(r, a[2]);
    SumDistributes(s, a[3]);
  }

  lemma SumDistributes(p: real, v: Vec)
    requires Sum(v) == 1.0
    ensures p * At(v, 0) + p * At(v, 1) + p * At(v, 2) == p
  {
    assert p * v.x + p * v.y + p * v.z == p * (v.x + v.y + v.z);
  }

  /** `mul[i]` undoes the normalization of row `i`. */
  ghost predicate Multipliers(mul: seq<real>, table: seq<real>) {
    |mul| == 4 && |table| == 12 && forall i :: 0 <= i < 4 ==> Reciprocal(mul[i], Sum(RgbRow(table, i)))
  }

  /** `table` is None where the camera is unknown; each output may be null. */
  method ConversionMatricesRgb(table: Option<seq<real>>, outRgbToCam: array2?<real>, outCamToRgb: array2?<real>,
                               mul: array?<real>) returns (r: Conversion, ghost rows: seq<Vec>)
    requires table.Some? ==> |table.value| == 12
    requires outRgbToCam != null ==> outRgbToCam.Length0 == 4 && outRgbToCam.Length1 == 3
    requires outCamToRgb != null ==> outCamToRgb.Length0 == 3 && outCamToRgb.Length1 == 4
    requires mul != null ==> mul.Length == 4
    requires outRgbToCam != null ==> outRgbToCam != outCamToRgb
    modifies if outRgbToCam != null then {outRgbToCam} else {}
    modifies if outCamToRgb != null then {outCamToRgb} else {}
    modifies if mul != null then {mul} else {}
    ensures r.NotFound? <==> table.None?
    ensures r.ZeroRowSum? <==> table.Some? && SomeSumZero(table.value)
    ensures r.Found? || r.Degenerate? ==> Balanced(rows, table.value)
    ensures (r.Found? || r.Degenerate?) && outRgbToCam != null ==> Matrix(outRgbToCam) == rows
    ensures (r.Found? || r.Degenerate?) && mul != null ==> Multipliers(mul[..], table.value)
    ensures r.Degenerate? ==> outCamToRgb != null && !Independent(rows)
    ensures r.Found? && outCamToRgb != null ==> Independent(rows) && CamToRgb(outCamToRgb, rows)
  {
    hide Independent, CamToRgb, Balanced, Multipliers, SomeSumZero, RgbRow;
    rows := [];
    if table.None? {
      return NotFound, rows;
    }
    var m, num := new real[4, 3], new real[4];
    MultiplyRgb(table.value, m);
    var ok := NormalizeRows(table.value, m, num);
    if !ok {
      return ZeroRowSum, rows;
    }
    rows := Matrix(m);
    if mul != null {
      for i := 0 to 4
        invariant forall k :: 0 <= k < i ==> mul[k] == num[k]
        invariant Matrix(m) == rows && Multipliers(num[..], table.value)
      {
        mul[i] := num[i];
      }
      assert mul[..] == num[..];
    }
    if outRgbToCam != null {
      CopyRows(m, outRgbToCam);
    }
    r := Found;
    if outCamToRgb != null {
      ok := Invert(m, outCamToRgb);
      if ok {
        InverseOfBalanced(outCamToRgb, rows, table.value);
      } else {
        r := Degenerate;
      }
    }
  }

  lemma InverseOfBalanced(x: array2<real>, a: seq<Vec>, table: seq<real>)
    requires x.Length0 == 3 && x.Length1 == 4 && Balanced(a, table) && LeftInverse(x, a)
    ensures CamToRgb(x, a)
  {
    hide LeftInverse, RgbRow;
    forall i | 0 <= i < 3 ensures x[i, 0] + x[i, 1] + x[i, 2] + x[i, 3] == 1.0 {
      WhiteComesBack(x, a, i);
    }
  }

  method CopyRows(m: array2<real>, out: array2<real>)
    requires m.Length0 == 4 && m.Length1 == 3 && out.Length0 == 4 && out.Length1 == 3 && m != out
    modifies out
    ensures Matrix(out) == Matrix(m)
  {
    for i := 0 to 4
      invariant forall r, c :: 0 <= r < i && 0 <= c < 3 ==> out[r, c] == m[r, c]
    {
      for j := 0 to 3
        invariant forall r, c :: 0 <= r < i && 0 <= c < 3 ==> out[r, c] == m[r, c]
        invariant forall c :: 0 <= c < j ==> out[i, c] == m[i, c]
      {
        out[i, j] := m[i, j];
      }
    }
  }

  function MatEntry(m: Mat, k: nat, j: nat): real
    requires k < 3 && j < 3
  {
    At(Column(m, j), k)
  }

  method MultiplyRgb(table: seq<real>, m: array2<real>)
    requires |table| == 12 && m.Length0 == 4 && m.Length1 == 3
    modifies m
    ensures forall i :: 0 <= i < 4 ==> Vec(m[i, 0], m[i, 1], m[i, 2]) == RgbRow(table, i)
  {
    for i := 0 to 4
      invariant forall r, c :: 0 <= r < i && 0 <= c < 3 ==> m[r, c] == At(RgbRow(table, r), c)
    {
      for j := 0 to 3
        invariant forall r, c :: 0 <= r < i && 0 <= c < 3 ==> m[r, c] == At(RgbRow(table, r), c)
        invariant forall c :: 0 <= c < j ==> m[i, c] == At(RgbRow(table, i), c)
      {
        var sum := RowTimesColumn(table, i, j);
        hide RgbRow;
        m[i, j] := sum;
      }
    }
    hide RgbRow;
    forall i | 0 <= i < 4 ensures Vec(m[i, 0], m[i, 1], m[i, 2]) == RgbRow(table, i) {
      assert m[i, 0] == At(RgbRow(table, i), 0) && m[i, 1] == At(RgbRow(table, i), 1);
      assert m[i, 2] == At(RgbRow(table, i), 2);
    }
  }

  method RowTimesColumn(table: seq<real>, i: nat, j: nat) returns (sum: real)
    requires |table| == 12 && i < 4 && j < 3
    ensures sum == At(RgbRow(table, i), j)
  {
    ghost var v, c := Vec(table[3 * i], table[3 * i + 1], table[3 * i + 2]), Column(RGB_TO_XYZ, j);
    assert At(RgbRow(table, i), j) == Dot(v, c);
    sum := 0.0;
    for k := 0 to 3
      invariant sum == (if k > 0 then v.x * c.x else 0.0) + (if k > 1 then v.y * c.y else 0.0)
                       + (if k > 2 then v.z * c.z else 0.0)
    {
      sum := sum + table[3 * i + k] * MatEntry(RGB_TO_XYZ, k, j);
    }
  }

  /** Divide each row by its sum; `inv` receives the reciprocals. */
  method NormalizeRows(table: seq<real>, m: array2<real>, inv: array<real>) returns (ok: bool)
    requires |table| == 12 && m.Length0 == 4 && m.Length1 == 3 && inv.Length == 4
    requires forall i :: 0 <= i < 4 ==> Vec(m[i, 0], m[i, 1], m[i, 2]) == RgbRow(table, i)
    modifies m, inv
    ensures ok <==> !SomeSumZero(table)
    ensures ok ==> Balanced(Matrix(m), table) && Multipliers(inv[..], table)
  {
    hide RgbRow, Whitened, Sum;
    for i := 0 to 4
      invariant forall k :: i <= k < 4 ==> Vec(m[k, 0], m[k, 1], m[k, 2]) == RgbRow(table, k)
      invariant forall k :: 0 <= k < i ==> Sum(RgbRow(table, k)) != 0.0 && Reciprocal(inv[k], Sum(RgbRow(table, k)))
      invariant forall k :: 0 <= k < i ==> Whitened(Vec(m[k, 0], m[k, 1], m[k, 2]), RgbRow(table, k))
    {
      hide Reciprocal;
      var u := Vec(m[i, 0], m[i, 1], m[i, 2]);
      var num := Sum(u);
      if num == 0.0 {
        return false;
      }
      var v := NormalizeRow(u, num);
      m[i, 0], m[i, 1], m[i, 2] := v.x, v.y, v.z;
      inv[i] := 1.0 / num;
    }
    ok := true;
  }

  predicate Reciprocal(x: real, num: real) {
    x * num == 1.0
  }

  method NormalizeRow(u: Vec, num: real) returns (v: Vec)
    requires num == Sum(u) && num != 0.0
    ensures Whitened(v, u) && Reciprocal(1.0 / num, num)
  {
    v := Vec(u.x / num, u.y / num, u.z / num);
    assert num * v.x == u.x && num * v.y == u.y && num * v.z == u.z;
    assert num * (v.x + v.y + v.z) == num;
    OneFactor(num, v.x + v.y + v.z);
  }

  lemma OneFactor(num: real, s: real)
    requires num != 0.0 && num * s == num
    ensures s == 1.0
  {
    CancelFactor(num, s, num);
  }
}
