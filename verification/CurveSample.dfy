/** `CurveDataSample` of src/common/curve_tools.c: a table of samples of the chosen curve. */
module CurveSample {
  import opened Tridiagonal
  import opened CubicSpline
  import opened HermiteMath
  import opened MonotoneHermite
  import opened HermiteCurve
  import opened HermiteShape

  const CUBIC_SPLINE := 0
  const CATMULL_ROM := 1
  const MONOTONE_HERMITE := 2

  const CT_SUCCESS := 0
  const CT_ERROR := 100

  datatype Anchor = Anchor(x: real, y: real)

  datatype CurveData = CurveData(splineType: nat, minX: real, maxX: real, minY: real, maxY: real, anchors: seq<Anchor>)

  function IntoBox(a: real, lo: real, hi: real): real {
    a * (hi - lo) + lo
  }

  /** The knots: the anchors scaled into the box, or the box's diagonal without anchors. */
  function Xs(c: CurveData): seq<real> {
    if c.anchors == [] then [c.minX, c.maxX]
    else seq(|c.anchors|, i requires 0 <= i < |c.anchors| => IntoBox(c.anchors[i].x, c.minX, c.maxX))
  }

  function Ys(c: CurveData): seq<real> {
    if c.anchors == [] then [c.minY, c.maxY]
    else seq(|c.anchors|, i requires 0 <= i < |c.anchors| => IntoBox(c.anchors[i].y, c.minY, c.maxY))
  }

  /** Conversion of a float to an int drops the fraction. */
  function Trunc(r: real): int {
    if r >= 0.0 then r.Floor else -((-r).Floor)
  }

  /** A coordinate on a grid of `res` points, before conversion to an int. */
  function Grid(r: real, res: nat): real {
    r * (res - 1) as real
  }

  /** The position of sample `i`. */
  function Position(i: nat, res: nat): real
    requires res >= 2
  {
    i as real * (1.0 / (res - 1) as real)
  }

  /** Conversion of an int to an unsigned short. */
  function Short(v: int): nat {
    v % 0x1_0000
  }

  // ----- Catmull-Rom tangents -----

  /** The tangent at an interior knot is the slope of the chord across it. */
  ghost predicate CatmullRom(x: seq<real>, y: seq<real>, m: seq<real>) {
    && Knots(|x|, x, y) && |m| == |x|
    && m[0] == Secant(x, y, 0) && m[|x| - 1] == Secant(x, y, |x| - 2)
    && (forall i :: 0 < i < |x| - 1 ==> Across(x, y, m[i], i))
  }

  ghost predicate Across(x: seq<real>, y: seq<real>, tangent: real, i: nat)
    requires 0 < i < |x| - 1 && |x| == |y|
  {
    tangent * (x[i + 1] - x[i - 1]) == y[i + 1] - y[i - 1]
  }

  lemma QuotientIsAcross(x: seq<real>, y: seq<real>, i: nat)
    requires Knots(|x|, x, y) && 0 < i < |x| - 1
    ensures x[i - 1] < x[i] < x[i + 1] && Across(x, y, (y[i + 1] - y[i - 1]) / (x[i + 1] - x[i - 1]), i)
  {
  }

  method CatmullRomSet(n: int, x: array<real>, y: array<real>) returns (ok: bool, m: array<real>)
    requires n <= x.Length && n <= y.Length
    ensures ok <==> n >= 2 && Increasing(x[..n])
    ensures ok ==> fresh(m) && m.Length == n && CatmullRom(x[..n], y[..n], m[..])
  {
    m := new real[0];
    if n <= 1 {
      return false, m;
    }
    ok := CheckKnots(n, x);
    if !ok {
      return;
    }
    ghost var X, Y := x[..n], y[..n];
    assert X[0] < X[1] && X[n - 2] < X[n - 1];
    hide Across, Increasing;
    m := new real[n](_ => 0.0);
    m[0] := (y[1] - y[0]) / (x[1] - x[0]);
    for i := 1 to n - 1
      invariant x[..n] == X && y[..n] == Y && m[0] == Secant(X, Y, 0)
      invariant forall j :: 0 < j < i ==> Across(X, Y, m[j], j)
    {
      QuotientIsAcross(X, Y, i);
      m[i] := (y[i + 1] - y[i - 1]) / (x[i + 1] - x[i - 1]);
    }
    m[n - 1] := (y[n - 1] - y[n - 2]) / (x[n - 1] - x[n - 2]);
  }

  /** A Catmull-Rom tangent lies between the slopes of the two intervals at its knot. */
  lemma CatmullRomBetween(x: seq<real>, y: seq<real>, m: seq<real>, i: nat)
    requires CatmullRom(x, y, m) && 0 < i < |x| - 1
    ensures x[i - 1] < x[i] < x[i + 1]
    ensures Secant(x, y, i - 1) <= m[i] <= Secant(x, y, i) || Secant(x, y, i) <= m[i] <= Secant(x, y, i - 1)
  {
    var g, h := x[i] - x[i - 1], x[i + 1] - x[i];
    var p, q := Secant(x, y, i - 1), Secant(x, y, i);
    assert p * g == y[i] - y[i - 1] && q * h == y[i + 1] - y[i];
    WeightedMean(g, h, p, q, m[i]);
  }

  lemma WeightedMean(g: real, h: real, p: real, q: real, m: real)
    requires g > 0.0 && h > 0.0 && m * (g + h) == p * g + q * h
    ensures p <= m <= q || q <= m <= p
  {
    assert (m - p) * (g + h) == (q - p) * h && (q - m) * (g + h) == (q - p) * g;
    SameSign(m - p, g + h, q - p, h);
    SameSign(q - m, g + h, q - p, g);
  }

  lemma SameSign(a: real, k: real, b: real, h: real)
    requires k > 0.0 && h > 0.0 && a * k == b * h
    ensures (a >= 0.0 <==> b >= 0.0) && (a <= 0.0 <==> b <= 0.0)
  {
  }

  // ----- dispatch over the curve types -----

  /** The parameters the chosen set routine computes. */
  ghost predicate Params(kind: nat, eps: real, x: seq<real>, y: seq<real>, p: seq<real>) {
    && Knots(|x|, x, y)
    && if kind == CUBIC_SPLINE then IsSpline(|x|, x, y, Ends(2, 0.0, 2, 0.0), p)
       else if kind == CATMULL_ROM then CatmullRom(x, y, p)
       else LimitedTo(x, y, eps, p, |x|) && LimitedBy(x, y, eps, p, |x|)
  }

  ghost function CurveAt(kind: nat, x: seq<real>, y: seq<real>, p: seq<real>, v: real): real
    requires Knots(|x|, x, y) && |p| >= |x|
  {
    if kind == CUBIC_SPLINE then SplineAt(|x|, x, y, p[..|x|], v) else HermiteAt(x, y, p[..|x|], v)
  }

  method InterpolateSet(n: int, x: array<real>, y: array<real>, kind: nat, sqrt: real -> real, eps: real)
    returns (ok: bool, p: array<real>)
    requires n <= x.Length && n <= y.Length && kind < 3 && IsSqrt(sqrt) && eps > 0.0
    ensures ok <==> n >= 2 && Increasing(x[..n]) && (kind == CUBIC_SPLINE ==> n <= ANCHORS_MAX)
    ensures ok ==> p.Length >= n && Params(kind, eps, x[..n], y[..n], p[..])
  {
    hide IsSpline, CatmullRom, LimitedTo, LimitedBy, Increasing, IsSqrt;
    if kind == CUBIC_SPLINE {
      ok, p := SplineCubicSet(n, x, y);
    } else if kind == CATMULL_ROM {
      ok, p := CatmullRomSet(n, x, y);
    } else {
      ok, p := MonotoneHermiteSet(n, x, y, sqrt, eps);
    }
  }

  method InterpolateVal(n: nat, x: array<real>, v: real, y: array<real>, p: array<real>, kind: nat) returns (r: real)
    requires n <= x.Length && n <= y.Length && n <= p.Length && Knots(n, x[..n], y[..n])
    ensures r == CurveAt(kind, x[..n], y[..n], p[..], v)
    ensures forall k: nat :: Covers(x[..n], k, v) ==>
              x[k] < x[k + 1] &&
              r == if kind == CUBIC_SPLINE then Eval(Piece(x[..n], y[..n], p[..n], k), v - x[k])
                   else PieceAt(x[..n], y[..n], p[..n], k, v)
  {
    hide SplineAt, HermiteAt, Increasing, Eval, Piece, PieceAt;
    assert p[..][..n] == p[..n];
    forall k: nat | Covers(x[..n], k, v)
      ensures x[k] < x[k + 1]
      ensures SplineAt(n, x[..n], y[..n], p[..n], v) == Eval(Piece(x[..n], y[..n], p[..n], k), v - x[k])
      ensures HermiteAt(x[..n], y[..n], p[..n], v) == PieceAt(x[..n], y[..n], p[..n], k, v)
    {
      StepUp(x[..n], k);
      SplineCovered(x[..n], y[..n], p[..n], k, v);
      HermiteCovered(x[..n], y[..n], p[..n], k, v);
    }
    if kind == CUBIC_SPLINE {
      r := SplineCubicVal(n, x, v, y, p);
    } else {
      r := CatmullRomVal(n, x, v, y, p);
    }
  }

  // ----- the table -----

  /** Interval `k` is where `v` is looked up: it contains `v`, or is the end interval on the side
      `v` lies beyond. */
  predicate Covers(x: seq<real>, k: nat, v: real) {
    k + 1 < |x| && (k == 0 || x[k] <= v) && (k + 2 == |x| || v <= x[k + 1])
  }

  lemma IntervalCovers(x: seq<real>, k: nat, v: real) returns (i: nat)
    requires Increasing(x) && |x| >= 2 && Covers(x, k, v)
    ensures i == IntervalFrom(x, v, 0) && (i == k || (i == k + 1 && v == x[i]))
  {
    i := IntervalFrom(x, v, 0);
    if i < k {
      IncreasingOrEqual(x, i + 1, k);
    } else if i > k + 1 {
      IncreasingApart(x, k + 1, i);
    }
  }

  lemma SplineCovered(x: seq<real>, y: seq<real>, q: seq<real>, k: nat, v: real)
    requires Knots(|x|, x, y) && |q| == |x| && Covers(x, k, v)
    ensures SplineAt(|x|, x, y, q, v) == Eval(Piece(x, y, q, k), v - x[k])
  {
    var i := IntervalCovers(x, k, v);
    hide Eval, Piece, Slope, Bend, Secant, OpeningSlope, ClosingSlope;
    if i == k + 1 {
      PieceFacts(x, y, q, k);
      PieceFacts(x, y, q, i);
    }
  }

  lemma HermiteCovered(x: seq<real>, y: seq<real>, m: seq<real>, k: nat, v: real)
    requires Curve(x, y, m) && Covers(x, k, v)
    ensures HermiteAt(x, y, m, v) == PieceAt(x, y, m, k, v)
  {
    hide PieceAt;
    var i := IntervalCovers(x, k, v);
    if i == k + 1 {
      PieceJoins(x, y, m, k);
      PieceJoins(x, y, m, i);
    }
  }

  /** A value of the curve, rounded to the output grid and kept in the box. */
  function Rounded(c: CurveData, outputRes: nat, v: real): int {
    Clamp(Trunc(Grid(v, outputRes) + 0.5), Trunc(Grid(c.minY, outputRes)), Trunc(Grid(c.maxY, outputRes)))
  }

  /** What the table holds at index `i`: the first point's value before its grid position, the
      last point's after its; in between the value of the piece that covers the position, of
      the spline by its second derivatives, of the other curves by their tangents. */
  ghost predicate Stores(c: CurveData, p: seq<real>, samplingRes: nat, outputRes: nat, i: nat, sample: nat) {
    var x, y, n := Xs(c), Ys(c), |Xs(c)|;
    && Knots(n, x, y) && |p| >= n && samplingRes >= 2 && outputRes >= 1
    && var v := Position(i, samplingRes);
       var first, last := Trunc(Grid(x[0], samplingRes)), Trunc(Grid(x[n - 1], samplingRes));
       && (i < first ==> sample == Short(Trunc(Grid(y[0], outputRes))))
       && (first <= i && i > last ==> sample == Short(Trunc(Grid(y[n - 1], outputRes))))
       && (first <= i <= last && c.splineType == CUBIC_SPLINE ==>
             forall k: nat :: Covers(x, k, v) ==>
               sample == Short(Rounded(c, outputRes, Eval(Piece(x, y, p, k), v - x[k]))))
       && (first <= i <= last && c.splineType != CUBIC_SPLINE ==>
             forall k: nat :: Covers(x, k, v) ==>
               sample == Short(Rounded(c, outputRes, PieceAt(x, y, p, k, v))))
  }

  /** The sample at index `i`: flat before the first and after the last point, the clamped
      and rounded curve in between. */
  ghost function SampleAt(c: CurveData, p: seq<real>, samplingRes: nat, outputRes: nat, i: nat): int
    requires Knots(|Xs(c)|, Xs(c), Ys(c)) && |p| >= |Xs(c)| && samplingRes >= 2 && outputRes >= 1
  {
    var x, y, n := Xs(c), Ys(c), |Xs(c)|;
    if i < Trunc(Grid(x[0], samplingRes)) then Trunc(Grid(y[0], outputRes))
    else if i > Trunc(Grid(x[n - 1], samplingRes)) then Trunc(Grid(y[n - 1], outputRes))
    else
      var v := CurveAt(c.splineType, x, y, p, Position(i, samplingRes));
      Clamp(Trunc(Grid(v, outputRes) + 0.5), Trunc(Grid(c.minY, outputRes)), Trunc(Grid(c.maxY, outputRes)))
  }

  function Clamp(v: int, lo: int, hi: int): int {
    var w := if v > hi then hi else v;
    if w < lo then lo else w
  }

  method CurveDataSample(c: CurveData, samplingRes: nat, outputRes: nat, samples: array<nat>, sqrt: real -> real,
                         eps: real)
    returns (r: int, ghost p: seq<real>)
    requires |c.anchors| <= ANCHORS_MAX && c.splineType < 3 && IsSqrt(sqrt) && eps > 0.0
    requires samplingRes != 1 && outputRes >= 1 && samples.Length == samplingRes
    modifies samples
    ensures r == CT_SUCCESS || r == CT_ERROR
    ensures r == CT_SUCCESS <==> |c.anchors| != 1 && Increasing(Xs(c))
    ensures r == CT_SUCCESS ==> Params(c.splineType, eps, Xs(c), Ys(c), p) && |p| >= |Xs(c)|
    ensures r == CT_SUCCESS ==>
              forall i :: 0 <= i < samplingRes ==> samples[i] == Short(SampleAt(c, p, samplingRes, outputRes, i))
    ensures r == CT_SUCCESS ==>
              forall i :: 0 <= i < samplingRes ==> Stores(c, p, samplingRes, outputRes, i, samples[i])
    ensures r == CT_ERROR ==> samples[..] == old(samples[..])
  {
    hide Increasing, Params, IsSqrt, CurveAt, Xs, Ys, SampleAt, Short, Stores;
    p := [];
    var x, y := new real[20](_ => 0.0), new real[20](_ => 0.0);
    var n := BuildKnots(c, x, y);
    var ok, ypp := InterpolateSet(n, x, y, c.splineType, sqrt, eps);
    if !ok {
      return CT_ERROR, p;
    }
    p := ypp[..];
    for i := 0 to samplingRes
      invariant x[..n] == Xs(c) && y[..n] == Ys(c) && ypp[..] == p
      invariant forall j :: 0 <= j < i ==> samples[j] == Short(SampleAt(c, p, samplingRes, outputRes, j))
      invariant forall j :: 0 <= j < i ==> Stores(c, p, samplingRes, outputRes, j, samples[j])
    {
      SampleStores(c, p, samplingRes, outputRes, i);
      var val := SampleOne(c, n, x, y, ypp, samplingRes, outputRes, i);
      samples[i] := Short(val);
    }
    r := CT_SUCCESS;
  }

  lemma SampleStores(c: CurveData, p: seq<real>, samplingRes: nat, outputRes: nat, i: nat)
    requires Knots(|Xs(c)|, Xs(c), Ys(c)) && |p| >= |Xs(c)| && samplingRes >= 2 && outputRes >= 1
    ensures Stores(c, p, samplingRes, outputRes, i, Short(SampleAt(c, p, samplingRes, outputRes, i)))
  {
    hide Xs, Ys, Position, Grid, Trunc, Clamp, Short, PieceAt, Eval, SplineAt, HermiteAt, Increasing;
    var x, y, v := Xs(c), Ys(c), Position(i, samplingRes);
    var q := p[..|x|];
    forall k: nat | Covers(x, k, v)
      ensures x[k] < x[k + 1]
      ensures SplineAt(|x|, x, y, q, v) == Eval(Piece(x, y, p, k), v - x[k])
      ensures HermiteAt(x, y, q, v) == PieceAt(x, y, p, k, v)
    {
      StepUp(x, k);
      SplineCovered(x, y, q, k, v);
      HermiteCovered(x, y, q, k, v);
      SamePiece(x, y, p, q, k, v);
    }
  }

  lemma StepUp(x: seq<real>, k: nat)
    requires Increasing(x) && k + 1 < |x|
    ensures x[k] < x[k + 1]
  {
  }

  lemma SamePiece(x: seq<real>, y: seq<real>, p: seq<real>, q: seq<real>, k: nat, v: real)
    requires Curve(x, y, p) && q == p[..|x|] && k + 1 < |x|
    ensures PieceAt(x, y, q, k, v) == PieceAt(x, y, p, k, v)
  {
    hide H00, H01, H10, H11;
  }

  /** The value stored for index `i`, before its conversion to an unsigned short. */
  method SampleOne(c: CurveData, n: nat, x: array<real>, y: array<real>, ypp: array<real>,
                   samplingRes: nat, outputRes: nat, i: nat) returns (val: int)
    requires n <= x.Length && n <= y.Length && n <= ypp.Length && samplingRes >= 2 && outputRes >= 1
    requires x[..n] == Xs(c) && y[..n] == Ys(c) && Knots(n, x[..n], y[..n])
    ensures val == SampleAt(c, ypp[..], samplingRes, outputRes, i)
  {
    hide Trunc, Grid, Position, CurveAt, Increasing, Xs, Ys;
    var firstPointX, firstPointY := Trunc(Grid(x[0], samplingRes)), Trunc(Grid(y[0], outputRes));
    var lastPointX, lastPointY := Trunc(Grid(x[n - 1], samplingRes)), Trunc(Grid(y[n - 1], outputRes));
    var maxY, minY := Trunc(Grid(c.maxY, outputRes)), Trunc(Grid(c.minY, outputRes));
    assert x[..n][0] == x[0] && x[..n][n - 1] == x[n - 1] && y[..n][0] == y[0] && y[..n][n - 1] == y[n - 1];
    if i < firstPointX {
      val := firstPointY;
    } else if i > lastPointX {
      val := lastPointY;
    } else {
      var v := InterpolateVal(n, x, Position(i, samplingRes), y, ypp, c.splineType);
      val := Trunc(Grid(v, outputRes) + 0.5);
      val := if val > maxY then maxY else val;
      val := if val < minY then minY else val;
    }
  }

  method BuildKnots(c: CurveData, x: array<real>, y: array<real>) returns (n: nat)
    requires |c.anchors| <= 20 && x.Length == 20 && y.Length == 20 && x != y
    modifies x, y
    ensures n == if c.anchors == [] then 2 else |c.anchors|
    ensures 1 <= n <= 20 && n == |Xs(c)| == |Ys(c)| && x[..n] == Xs(c) && y[..n] == Ys(c)
  {
    hide IntoBox;
    if |c.anchors| == 0 {
      x[0], y[0], x[1], y[1] := c.minX, c.minY, c.maxX, c.maxY;
      n := 2;
    } else {
      for i := 0 to |c.anchors|
        invariant forall j :: 0 <= j < i ==> x[j] == Xs(c)[j] && y[j] == Ys(c)[j]
      {
        x[i] := IntoBox(c.anchors[i].x, c.minX, c.maxX);
        y[i] := IntoBox(c.anchors[i].y, c.minY, c.maxY);
      }
      n := |c.anchors|;
    }
  }

  // ----- what the table satisfies -----

  ghost predicate InUnitBox(c: CurveData) {
    c.minY <= c.maxY && forall i :: 0 <= i < |c.anchors| ==> 0.0 <= c.anchors[i].y <= 1.0
  }

  lemma TruncMonotone(a: real, b: real)
    requires a <= b
    ensures Trunc(a) <= Trunc(b)
  {
  }

  lemma GridMonotone(a: real, b: real, res: nat)
    requires a <= b && res >= 1
    ensures Grid(a, res) <= Grid(b, res)
  {
    Product(b - a, (res - 1) as real);
    Distribute((res - 1) as real, b, a);
  }

  lemma IntoBoxBounds(a: real, b: real, lo: real, hi: real)
    requires 0.0 <= a <= b <= 1.0 && lo <= hi
    ensures lo <= IntoBox(a, lo, hi) <= IntoBox(b, lo, hi) <= hi
  {
    Product(a, hi - lo);
    Product(b - a, hi - lo);
    Product(1.0 - b, hi - lo);
    Distribute(hi - lo, b, a);
    Distribute(hi - lo, 1.0, b);
  }

  lemma YsInBox(c: CurveData, i: nat)
    requires InUnitBox(c) && i < |Ys(c)|
    ensures c.minY <= Ys(c)[i] <= c.maxY
  {
    if c.anchors != [] {
      IntoBoxBounds(c.anchors[i].y, c.anchors[i].y, c.minY, c.maxY);
    }
  }

  lemma GridBetween(lo: real, v: real, hi: real, res: nat)
    requires lo <= v <= hi && res >= 1
    ensures Trunc(Grid(lo, res)) <= Trunc(Grid(v, res)) <= Trunc(Grid(hi, res))
  {
    hide Grid, Trunc;
    GridMonotone(lo, v, res);
    GridMonotone(v, hi, res);
    TruncMonotone(Grid(lo, res), Grid(v, res));
    TruncMonotone(Grid(v, res), Grid(hi, res));
  }

  /** With anchors in the unit box every sample lies between the box's bottom and top. */
  lemma SamplesInRange(c: CurveData, p: seq<real>, samplingRes: nat, outputRes: nat, i: nat)
    requires Knots(|Xs(c)|, Xs(c), Ys(c)) && |p| >= |Xs(c)| && samplingRes >= 2 && outputRes >= 1
    requires InUnitBox(c)
    ensures Trunc(Grid(c.minY, outputRes)) <= SampleAt(c, p, samplingRes, outputRes, i)
    ensures SampleAt(c, p, samplingRes, outputRes, i) <= Trunc(Grid(c.maxY, outputRes))
  {
    hide Grid, Trunc, CurveAt, Xs, Ys, Position, InUnitBox, Increasing;
    var y, n := Ys(c), |Ys(c)|;
    YsInBox(c, 0);
    YsInBox(c, n - 1);
    GridBetween(c.minY, y[0], c.maxY, outputRes);
    GridBetween(c.minY, y[n - 1], c.maxY, outputRes);
  }

  /** A box that fits the sample type is stored without wrap-around. */
  lemma SamplesStoredExactly(c: CurveData, p: seq<real>, samplingRes: nat, outputRes: nat, i: nat)
    requires Knots(|Xs(c)|, Xs(c), Ys(c)) && |p| >= |Xs(c)| && samplingRes >= 2 && outputRes >= 1
    requires InUnitBox(c) && c.minY >= 0.0 && Trunc(Grid(c.maxY, outputRes)) < 0x1_0000
    ensures Short(SampleAt(c, p, samplingRes, outputRes, i)) == SampleAt(c, p, samplingRes, outputRes, i)
  {
    hide SampleAt, Xs, Ys, InUnitBox, Increasing;
    SamplesInRange(c, p, samplingRes, outputRes, i);
    Product(c.minY, (outputRes - 1) as real);
  }

  lemma AnchorsRiseYsRise(c: CurveData)
    requires InUnitBox(c) && forall i :: 0 <= i < |c.anchors| - 1 ==> c.anchors[i].y <= c.anchors[i + 1].y
    ensures Nondecreasing(Ys(c))
  {
    forall i | 0 <= i < |Ys(c)| - 1 ensures Ys(c)[i] <= Ys(c)[i + 1] {
      if c.anchors != [] {
        IntoBoxBounds(c.anchors[i].y, c.anchors[i + 1].y, c.minY, c.maxY);
      }
    }
  }

  /** An index whose position lies within the knots is sampled from the curve. */
  lemma WithinKnots(x0: real, x1: real, samplingRes: nat, i: nat)
    requires samplingRes >= 2 && x0 <= Position(i, samplingRes) <= x1
    ensures Trunc(Grid(x0, samplingRes)) <= i <= Trunc(Grid(x1, samplingRes))
  {
    GridMonotone(x0, Position(i, samplingRes), samplingRes);
    GridMonotone(Position(i, samplingRes), x1, samplingRes);
    PositionGrid(i, samplingRes);
  }

  lemma PositionGrid(i: nat, res: nat)
    requires res >= 2
    ensures Grid(Position(i, res), res) == i as real
  {
    var s := (res - 1) as real;
    assert 1.0 / s * s == 1.0;
    assert i as real * (1.0 / s) * s == i as real * (1.0 / s * s);
  }

  lemma PositionMonotone(i: nat, j: nat, res: nat)
    requires res >= 2 && i <= j
    ensures Position(i, res) <= Position(j, res)
  {
    var s := (res - 1) as real;
    DivideOrder(0.0, 1.0, s);
    Product((j - i) as real, 1.0 / s);
    Distribute(1.0 / s, j as real, i as real);
  }

  lemma CurveRisesBetween(c: CurveData, eps: real, p: seq<real>, v: real, w: real)
    requires c.splineType == MONOTONE_HERMITE && Params(c.splineType, eps, Xs(c), Ys(c), p) && Nondecreasing(Ys(c))
    requires Xs(c)[0] <= v <= w <= Xs(c)[|Xs(c)| - 1]
    ensures |p| >= |Xs(c)|
    ensures CurveAt(c.splineType, Xs(c), Ys(c), p, v) <= CurveAt(c.splineType, Xs(c), Ys(c), p, w)
  {
    hide PieceAt;
    var x, y := Xs(c), Ys(c);
    LimitedCurveRises(x, y, eps, p, v, w);
    SameTangents(x, y, p, v);
    SameTangents(x, y, p, w);
  }

  lemma SameTangents(x: seq<real>, y: seq<real>, p: seq<real>, v: real)
    requires Curve(x, y, p)
    ensures HermiteAt(x, y, p[..|x|], v) == HermiteAt(x, y, p, v)
  {
  }

  /** With monotone Hermite and nondecreasing anchors, the samples are nondecreasing over
      all indices whose position lies within the anchors. */
  lemma SamplesRise(c: CurveData, eps: real, p: seq<real>, samplingRes: nat, outputRes: nat, i: nat, j: nat)
    requires c.splineType == MONOTONE_HERMITE && Params(c.splineType, eps, Xs(c), Ys(c), p)
    requires |p| >= |Xs(c)| && samplingRes >= 2 && outputRes >= 1 && Nondecreasing(Ys(c)) && i <= j
    requires Xs(c)[0] <= Position(i, samplingRes) && Position(j, samplingRes) <= Xs(c)[|Xs(c)| - 1]
    ensures SampleAt(c, p, samplingRes, outputRes, i) <= SampleAt(c, p, samplingRes, outputRes, j)
  {
    assert Knots(|Xs(c)|, Xs(c), Ys(c));
    hide Grid, Trunc, CurveAt, Xs, Ys, Position, Params, Increasing, Nondecreasing;
    var x, n := Xs(c), |Xs(c)|;
    var v, w := Position(i, samplingRes), Position(j, samplingRes);
    PositionMonotone(i, j, samplingRes);
    CurveRisesBetween(c, eps, p, v, w);
    WithinKnots(x[0], x[n - 1], samplingRes, i);
    WithinKnots(x[0], x[n - 1], samplingRes, j);
    var f, g := CurveAt(c.splineType, x, Ys(c), p, v), CurveAt(c.splineType, x, Ys(c), p, w);
    GridMonotone(f, g, outputRes);
    TruncMonotone(Grid(f, outputRes) + 0.5, Grid(g, outputRes) + 0.5);
  }

  /** The table itself: with monotone Hermite, nondecreasing anchors in the unit box and a box
      that fits the sample type, what is stored is nondecreasing over those indices. */
  lemma StoredSamplesRise(c: CurveData, eps: real, p: seq<real>, samplingRes: nat, outputRes: nat, i: nat, j: nat)
    requires c.splineType == MONOTONE_HERMITE && Params(c.splineType, eps, Xs(c), Ys(c), p)
    requires |p| >= |Xs(c)| && samplingRes >= 2 && outputRes >= 1 && i <= j
    requires InUnitBox(c) && c.minY >= 0.0 && Trunc(Grid(c.maxY, outputRes)) < 0x1_0000
    requires forall k :: 0 <= k < |c.anchors| - 1 ==> c.anchors[k].y <= c.anchors[k + 1].y
    requires Xs(c)[0] <= Position(i, samplingRes) && Position(j, samplingRes) <= Xs(c)[|Xs(c)| - 1]
    ensures Short(SampleAt(c, p, samplingRes, outputRes, i)) <= Short(SampleAt(c, p, samplingRes, outputRes, j))
  {
    hide Xs, Ys, Grid, Trunc, Position, SampleAt, Short, InUnitBox, Nondecreasing;
    AnchorsRiseYsRise(c);
    SamplesRise(c, eps, p, samplingRes, outputRes, i, j);
    SamplesStoredExactly(c, p, samplingRes, outputRes, i);
    SamplesStoredExactly(c, p, samplingRes, outputRes, j);
  }
}
