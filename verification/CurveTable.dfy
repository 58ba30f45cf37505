/** The table of samples of src/common/curve_tools.c in terms of the anchors and the box. */
module CurveTable {
  import opened CubicSpline
  import opened HermiteMath
  import opened MonotoneHermite
  import opened HermiteCurve
  import opened HermiteShape
  import opened CurveSample

  /** Conversion to an int goes toward zero, by less than one. */
  lemma TruncMeaning(r: real)
    ensures r >= 0.0 ==> 0 <= Trunc(r) && Trunc(r) as real <= r < Trunc(r) as real + 1.0
    ensures r <= 0.0 ==> Trunc(r) <= 0 && Trunc(r) as real - 1.0 < r <= Trunc(r) as real
  {
  }

  /** Rounding to the output grid: within the box to the nearest point, upwards where two are
      equally near; a value beyond the box becomes its edge. */
  lemma RoundedMeaning(c: CurveData, outputRes: nat, v: real, g: real, lo: int, hi: int)
    requires outputRes >= 1 && c.minY <= c.maxY && v >= 0.0 && g == v * (outputRes - 1) as real
    requires lo == Trunc(c.minY * (outputRes - 1) as real) && hi == Trunc(c.maxY * (outputRes - 1) as real)
    ensures var r := Rounded(c, outputRes, v);
            && lo <= r <= hi
            && (lo < r < hi ==> r as real - 0.5 <= g < r as real + 0.5)
            && (r == lo < hi ==> g < r as real + 0.5)
            && (r == hi > lo ==> r as real - 0.5 <= g)
  {
    hide Grid, Trunc, Clamp;
    OnGrid(v, outputRes, g);
    OnGrid(c.minY, outputRes, c.minY * (outputRes - 1) as real);
    OnGrid(c.maxY, outputRes, c.maxY * (outputRes - 1) as real);
    Product(v, (outputRes - 1) as real);
    GridBetween(c.minY, c.minY, c.maxY, outputRes);
    Nearest(g, lo, hi);
  }

  lemma OnGrid(x: real, res: nat, g: real)
    requires g == x * (res - 1) as real
    ensures Grid(x, res) == g
  {
  }

  lemma Nearest(g: real, lo: int, hi: int)
    requires g >= 0.0 && lo <= hi
    ensures var r := Clamp(Trunc(g + 0.5), lo, hi);
            && lo <= r <= hi
            && (lo < r < hi ==> r as real - 0.5 <= g < r as real + 0.5)
            && (r == lo < hi ==> g < r as real + 0.5)
            && (r == hi > lo ==> r as real - 0.5 <= g)
  {
    hide Trunc;
    TruncMeaning(g + 0.5);
  }

  // ----- at the anchors -----

  /** For every kind of curve, the value at a knot is the knot's. */
  lemma PieceAtKnot(c: CurveData, eps: real, p: seq<real>, k: nat) returns (j: nat)
    requires Params(c.splineType, eps, Xs(c), Ys(c), p) && |p| >= |Xs(c)| && k < |Xs(c)|
    ensures Knots(|Xs(c)|, Xs(c), Ys(c)) && Covers(Xs(c), j, Xs(c)[k]) && Xs(c)[j] < Xs(c)[j + 1]
    ensures Eval(Piece(Xs(c), Ys(c), p, j), Xs(c)[k] - Xs(c)[j]) == Ys(c)[k]
    ensures PieceAt(Xs(c), Ys(c), p, j, Xs(c)[k]) == Ys(c)[k]
  {
    var x, y, n := Xs(c), Ys(c), |Xs(c)|;
    assert Knots(n, x, y);
    hide Xs, Ys, Params, PieceAt, Eval, Piece, Slope, Bend, Secant, OpeningSlope, ClosingSlope;
    j := if k + 1 < n then k else k - 1;
    assert x[j] < x[j + 1];
    var q := p[..n];
    PieceFacts(x, y, q, j);
    SameSplinePiece(x, y, p, q, j);
    PieceJoins(x, y, p, j);
  }

  lemma SameSplinePiece(x: seq<real>, y: seq<real>, p: seq<real>, q: seq<real>, j: nat)
    requires Knots(|x|, x, y) && |p| >= |x| && q == p[..|x|] && j + 1 < |x| && x[j] < x[j + 1]
    ensures Piece(x, y, q, j) == Piece(x, y, p, j)
  {
  }

  /** For every kind of curve, the sample at an anchor's grid point is the anchor, rounded. */
  lemma AnchorSample(c: CurveData, eps: real, p: seq<real>, samplingRes: nat, outputRes: nat, i: nat, s: nat, k: nat)
    requires samplingRes >= 2 && Params(c.splineType, eps, Xs(c), Ys(c), p)
    requires Stores(c, p, samplingRes, outputRes, i, s)
    requires k < |c.anchors|
    requires (c.anchors[k].x * (c.maxX - c.minX) + c.minX) * (samplingRes - 1) as real == i as real
    ensures s == Short(Rounded(c, outputRes, c.anchors[k].y * (c.maxY - c.minY) + c.minY))
  {
    hide Params, Stores, Rounded, Short, Position;
    var x, y := Xs(c), Ys(c);
    assert x[k] * (samplingRes - 1) as real == i as real && y[k] == c.anchors[k].y * (c.maxY - c.minY) + c.minY;
    PositionOf(i, samplingRes, x[k]);
    KnotSample(c, eps, p, samplingRes, outputRes, i, s, k);
  }

  lemma PositionOf(i: nat, res: nat, v: real)
    requires res >= 2 && v * (res - 1) as real == i as real
    ensures Position(i, res) == v
  {
    var s := (res - 1) as real;
    assert s * (1.0 / s) == 1.0;
    assert v * s * (1.0 / s) == v * (s * (1.0 / s));
  }

  lemma KnotSample(c: CurveData, eps: real, p: seq<real>, samplingRes: nat, outputRes: nat, i: nat, s: nat, k: nat)
    requires samplingRes >= 2 && Params(c.splineType, eps, Xs(c), Ys(c), p)
    requires Stores(c, p, samplingRes, outputRes, i, s)
    requires |Xs(c)| == |Ys(c)| && k < |Xs(c)| && Position(i, samplingRes) == Xs(c)[k]
    ensures s == Short(Rounded(c, outputRes, Ys(c)[k]))
  {
    hide Xs, Ys, Params, Position, Rounded, Short, PieceAt, Eval, Piece, Increasing;
    InKnots(c, Xs(c)[k], k);
    var j := PieceAtKnot(c, eps, p, k);
    CoveredSample(c, p, samplingRes, outputRes, i, s, Xs(c)[k], j);
  }

  lemma CoveredSample(c: CurveData, p: seq<real>, samplingRes: nat, outputRes: nat, i: nat, s: nat, v: real, k: nat)
    requires samplingRes >= 2 && Position(i, samplingRes) == v && Stores(c, p, samplingRes, outputRes, i, s)
    requires Covers(Xs(c), k, v) && Xs(c)[0] <= v <= Xs(c)[|Xs(c)| - 1]
    ensures Knots(|Xs(c)|, Xs(c), Ys(c)) && |p| >= |Xs(c)| && Xs(c)[k] < Xs(c)[k + 1]
    ensures s == Short(Rounded(c, outputRes,
                               if c.splineType == CUBIC_SPLINE then Eval(Piece(Xs(c), Ys(c), p, k), v - Xs(c)[k])
                               else PieceAt(Xs(c), Ys(c), p, k, v)))
  {
    hide Xs, Ys, Position, Grid, Trunc, Rounded, Short, PieceAt, Eval, Piece, Increasing;
    StepUp(Xs(c), k);
    WithinKnots(Xs(c)[0], Xs(c)[|Xs(c)| - 1], samplingRes, i);
  }

  lemma InKnots(c: CurveData, v: real, k: nat)
    requires Knots(|Xs(c)|, Xs(c), Ys(c)) && k < |Xs(c)| && v == Xs(c)[k]
    ensures Xs(c)[0] <= v <= Xs(c)[|Xs(c)| - 1]
  {
    IncreasingOrEqual(Xs(c), 0, k);
    IncreasingOrEqual(Xs(c), k, |Xs(c)| - 1);
  }

  // ----- beyond the anchors -----

  /** An anchor in the box. */
  lemma AnchorAt(c: CurveData, k: nat, x: real, y: real)
    requires k < |c.anchors|
    requires x == c.anchors[k].x * (c.maxX - c.minX) + c.minX && y == c.anchors[k].y * (c.maxY - c.minY) + c.minY
    ensures |Xs(c)| == |Ys(c)| == |c.anchors| && Xs(c)[k] == x && Ys(c)[k] == y
  {
  }

  lemma StoresFlat(c: CurveData, p: seq<real>, samplingRes: nat, outputRes: nat, i: nat, s: nat)
    requires Stores(c, p, samplingRes, outputRes, i, s)
    ensures var x, y, n := Xs(c), Ys(c), |Xs(c)|;
            && Knots(n, x, y)
            && (i < Trunc(Grid(x[0], samplingRes)) ==> s == Short(Trunc(Grid(y[0], outputRes))))
            && (Trunc(Grid(x[0], samplingRes)) <= i && i > Trunc(Grid(x[n - 1], samplingRes)) ==>
                  s == Short(Trunc(Grid(y[n - 1], outputRes))))
  {
    hide Xs, Ys, Grid, Trunc, Short, Rounded, Eval, Piece, PieceAt, Position;
  }

  /** Before the first anchor, by whole steps of the sampling grid, the table is flat. */
  lemma FlatStart(c: CurveData, p: seq<real>, samplingRes: nat, outputRes: nat, i: nat, s: nat, x: real, y: real)
    requires Stores(c, p, samplingRes, outputRes, i, s) && c.anchors != []
    requires x == c.anchors[0].x * (c.maxX - c.minX) + c.minX && y == c.anchors[0].y * (c.maxY - c.minY) + c.minY
    requires (i + 1) as real <= x * (samplingRes - 1) as real
    ensures s == Short(Trunc(y * (outputRes - 1) as real))
  {
    hide Stores, Xs, Ys, Trunc, Short, Grid;
    AnchorAt(c, 0, x, y);
    OnGrid(x, samplingRes, x * (samplingRes - 1) as real);
    OnGrid(y, outputRes, y * (outputRes - 1) as real);
    TruncMeaning(Grid(x, samplingRes));
    StoresFlat(c, p, samplingRes, outputRes, i, s);
  }

  /** After the last anchor it is flat too; sample 0 only if that is a whole step before it. */
  lemma FlatEnd(c: CurveData, p: seq<real>, samplingRes: nat, outputRes: nat, i: nat, s: nat, x: real, y: real)
    requires Stores(c, p, samplingRes, outputRes, i, s) && c.anchors != []
    requires var last := c.anchors[|c.anchors| - 1];
             x == last.x * (c.maxX - c.minX) + c.minX && y == last.y * (c.maxY - c.minY) + c.minY
    requires x * (samplingRes - 1) as real < i as real && (i == 0 ==> x * (samplingRes - 1) as real <= -1.0)
    ensures s == Short(Trunc(y * (outputRes - 1) as real))
  {
    hide Xs, Ys, Trunc, Short, Grid, Rounded, Eval, Piece, PieceAt, Position;
    AnchorAt(c, |c.anchors| - 1, x, y);
    OnGrid(x, samplingRes, x * (samplingRes - 1) as real);
    OnGrid(y, outputRes, y * (outputRes - 1) as real);
    AfterLast(c, samplingRes, i, Grid(x, samplingRes));
    StoresFlat(c, p, samplingRes, outputRes, i, s);
  }

  lemma AfterLast(c: CurveData, samplingRes: nat, i: nat, g: real)
    requires Knots(|Xs(c)|, Xs(c), Ys(c)) && samplingRes >= 2 && g == Grid(Xs(c)[|Xs(c)| - 1], samplingRes)
    requires g < i as real && (i == 0 ==> g <= -1.0)
    ensures Trunc(Grid(Xs(c)[0], samplingRes)) <= i && i > Trunc(g)
  {
    hide Xs, Ys, Grid;
    InKnots(c, Xs(c)[0], 0);
    GridMonotone(Xs(c)[0], Xs(c)[|Xs(c)| - 1], samplingRes);
    TruncMonotone(Grid(Xs(c)[0], samplingRes), g);
    TruncMeaning(g);
  }

  // ----- without anchors -----

  /** The curve without anchors, at `t` of the way across the box. */
  function Diagonal(c: CurveData, t: real): real {
    c.minY + t * (c.maxY - c.minY)
  }

  /** What a box too flat for the monotone curve is sampled as. */
  function Eased(c: CurveData, t: real): real {
    c.minY + t * t * (3.0 - 2.0 * t) * (c.maxY - c.minY)
  }

  /** The box's diagonal counts as flat but is not level. */
  predicate Slight(c: CurveData, eps: real)
    requires c.minX < c.maxX
  {
    var slope := (c.maxY - c.minY) / (c.maxX - c.minX);
    slope != 0.0 && Abs(slope) < eps
  }

  /** Without anchors every kind of curve is the diagonal of the box, but for the monotone one
      over a box that counts as flat, which eases in and out. */
  lemma DiagonalSample(c: CurveData, eps: real, p: seq<real>, samplingRes: nat, outputRes: nat, i: nat, s: nat, t: real)
    requires samplingRes >= 2 && c.splineType < 3 && Params(c.splineType, eps, Xs(c), Ys(c), p) && c.anchors == []
    requires Stores(c, p, samplingRes, outputRes, i, s) && eps > 0.0
    requires 0.0 <= t <= 1.0 && (c.minX + t * (c.maxX - c.minX)) * (samplingRes - 1) as real == i as real
    ensures c.minX < c.maxX
    ensures s == Short(Rounded(c, outputRes,
                               if c.splineType == MONOTONE_HERMITE && Slight(c, eps) then Eased(c, t)
                               else Diagonal(c, t)))
  {
    hide Params, Stores, Rounded, Short, Position, Eased, Diagonal, Slight;
    BoxKnots(c, eps, p, samplingRes, outputRes, i, s);
    hide Xs, Ys;
    var v := Within(t, c.minX, c.maxX);
    PositionOf(i, samplingRes, v);
    DiagonalAt(c, eps, p, samplingRes, outputRes, i, s, v, t);
  }

  lemma DiagonalAt(c: CurveData, eps: real, p: seq<real>, samplingRes: nat, outputRes: nat, i: nat, s: nat, v: real,
                   t: real)
    requires samplingRes >= 2 && c.splineType < 3 && Params(c.splineType, eps, Xs(c), Ys(c), p) && c.anchors == []
    requires Stores(c, p, samplingRes, outputRes, i, s) && eps > 0.0 && Position(i, samplingRes) == v
    requires c.minX <= v <= c.maxX && v == c.minX + t * (c.maxX - c.minX)
    ensures c.minX < c.maxX
    ensures s == Short(Rounded(c, outputRes,
                               if c.splineType == MONOTONE_HERMITE && Slight(c, eps) then Eased(c, t)
                               else Diagonal(c, t)))
  {
    hide Xs, Ys, Params, Position, Rounded, Short, PieceAt, Eval, Piece, Eased, Diagonal, Slight, Stores;
    BoxKnots(c, eps, p, samplingRes, outputRes, i, s);
    DiagonalPiece(c, eps, p, v, t);
    CoveredSample(c, p, samplingRes, outputRes, i, s, v, 0);
  }

  lemma BoxKnots(c: CurveData, eps: real, p: seq<real>, samplingRes: nat, outputRes: nat, i: nat, s: nat)
    requires c.anchors == [] && Params(c.splineType, eps, Xs(c), Ys(c), p)
    requires Stores(c, p, samplingRes, outputRes, i, s)
    ensures Xs(c) == [c.minX, c.maxX] && Ys(c) == [c.minY, c.maxY] && c.minX < c.maxX && |p| >= 2
  {
    hide IsSpline, CatmullRom, LimitedTo, LimitedBy;
    assert Xs(c)[0] < Xs(c)[1];
  }

  lemma Within(t: real, lo: real, hi: real) returns (v: real)
    requires 0.0 <= t <= 1.0 && lo < hi
    ensures v == lo + t * (hi - lo) && lo <= v <= hi
  {
    v := lo + t * (hi - lo);
    Product(t, hi - lo);
    Product(1.0 - t, hi - lo);
    Distribute(hi - lo, 1.0, t);
  }

  /** The value of the one piece of the curve without anchors. */
  lemma DiagonalPiece(c: CurveData, eps: real, p: seq<real>, v: real, t: real)
    requires Params(c.splineType, eps, [c.minX, c.maxX], [c.minY, c.maxY], p) && c.splineType < 3
    requires |p| >= 2 && c.minX < c.maxX && eps > 0.0 && v == c.minX + t * (c.maxX - c.minX)
    ensures var x, y := [c.minX, c.maxX], [c.minY, c.maxY];
            && Knots(2, x, y)
            && (c.splineType == CUBIC_SPLINE ==> Eval(Piece(x, y, p, 0), v - c.minX) == Diagonal(c, t))
            && (c.splineType != CUBIC_SPLINE ==>
                  PieceAt(x, y, p, 0, v) ==
                  if c.splineType == MONOTONE_HERMITE && Slight(c, eps) then Eased(c, t) else Diagonal(c, t))
  {
    hide IsSpline, CatmullRom, LimitedTo, LimitedBy, PieceAt, Eval, Piece, Increasing;
    var x, y := [c.minX, c.maxX], [c.minY, c.maxY];
    var slope := Quotient(c.maxY - c.minY, c.maxX - c.minX);
    if c.splineType == CUBIC_SPLINE {
      NaturalLine(x, y, p, v, slope, t);
    } else if c.splineType == CATMULL_ROM {
      CatmullEnds(x, y, p, slope);
      LinearPiece(x, y, p, v, slope, t);
    } else {
      MonotoneDiagonal(x, y, eps, p, v, slope, t);
    }
  }

  lemma MonotoneDiagonal(x: seq<real>, y: seq<real>, eps: real, m: seq<real>, v: real, slope: real, t: real)
    requires |x| == |y| == 2 && Knots(2, x, y) && LimitedBy(x, y, eps, m, 2) && eps > 0.0
    requires slope * (x[1] - x[0]) == y[1] - y[0] && x[0] < x[1]
    requires t * (x[1] - x[0]) == v - x[0]
    ensures Curve(x, y, m)
    ensures PieceAt(x, y, m, 0, v) ==
            if slope != 0.0 && Abs(slope) < eps then y[0] + t * t * (3.0 - 2.0 * t) * (y[1] - y[0])
            else y[0] + t * (y[1] - y[0])
  {
    hide PieceAt, LimitedBy, Increasing;
    DiagonalTangents(x, y, eps, m, slope);
    if Abs(slope) < eps && slope != 0.0 {
      LevelEnds(x, y, m, v, t);
    } else {
      LinearPiece(x, y, m, v, slope, t);
    }
  }

  lemma Quotient(a: real, h: real) returns (q: real)
    requires h > 0.0
    ensures q == a / h && q * h == a
  {
    q := a / h;
  }

  lemma CatmullEnds(x: seq<real>, y: seq<real>, m: seq<real>, slope: real)
    requires |x| == |y| == 2 && Knots(2, x, y) && CatmullRom(x, y, m)
    requires slope == (y[1] - y[0]) / (x[1] - x[0])
    ensures |m| >= 2 && m[0] == m[1] == slope
  {
  }

  lemma NaturalLine(x: seq<real>, y: seq<real>, p: seq<real>, v: real, slope: real, t: real)
    requires |x| == |y| == 2 && Knots(2, x, y) && IsSpline(2, x, y, Ends(2, 0.0, 2, 0.0), p)
    requires slope == (y[1] - y[0]) / (x[1] - x[0]) && t * (x[1] - x[0]) == v - x[0]
    ensures Eval(Piece(x, y, p, 0), v - x[0]) == y[0] + t * (y[1] - y[0])
  {
    var h, u := x[1] - x[0], v - x[0];
    PieceFacts(x, y, p, 0);
    assert p[0] == 0.0 && p[1] == 0.0;
    assert (0.0 - 0.0) / (6.0 * h) == 0.0;
    assert Piece(x, y, p, 0) == Cubic(y[0], slope, 0.0, 0.0);
    assert Eval(Cubic(y[0], slope, 0.0, 0.0), u) == y[0] + u * slope;
    assert u * slope == t * h * slope == t * (slope * h);
    assert slope * h == y[1] - y[0];
  }

  lemma LinearPiece(x: seq<real>, y: seq<real>, m: seq<real>, v: real, slope: real, t: real)
    requires |x| == |y| == 2 && Curve(x, y, m) && m[0] == m[1] == slope
    requires slope * (x[1] - x[0]) == y[1] - y[0] && t * (x[1] - x[0]) == v - x[0]
    ensures PieceAt(x, y, m, 0, v) == y[0] + t * (y[1] - y[0])
  {
    hide PieceAt, Increasing, HermiteShape.Straight;
    var base := LineThrough(x, y, slope);
    LinePiece(x, y, m, base, slope, 0, v);
    AlongLine(x[0], v, x[1] - x[0], y[1] - y[0], slope, t);
  }

  lemma LineThrough(x: seq<real>, y: seq<real>, slope: real) returns (base: real)
    requires |x| == |y| == 2 && slope * (x[1] - x[0]) == y[1] - y[0]
    ensures base == y[0] - slope * x[0] && HermiteShape.Straight(x, y, base, slope)
  {
    base := y[0] - slope * x[0];
    Distribute(slope, x[1], x[0]);
  }

  lemma AlongLine(x0: real, v: real, h: real, d: real, slope: real, t: real)
    requires slope * h == d && t * h == v - x0
    ensures slope * v - slope * x0 == t * d
  {
    Distribute(slope, v, x0);
    assert slope * (t * h) == t * (slope * h);
  }

  lemma LevelEnds(x: seq<real>, y: seq<real>, m: seq<real>, v: real, t: real)
    requires |x| == |y| == 2 && Curve(x, y, m) && m[0] == m[1] == 0.0
    requires t * (x[1] - x[0]) == v - x[0]
    ensures PieceAt(x, y, m, 0, v) == y[0] + t * t * (3.0 - 2.0 * t) * (y[1] - y[0])
  {
    var h := x[1] - x[0];
    assert t * h / h == t;
    PieceAtNamed(x, y, m, 0, v, h, t);
    assert h * 0.0 == 0.0;
    BasisInPowers(y[0], y[1], 0.0, 0.0, t);
    var d := y[1] - y[0];
    assert t * (t * (3.0 * d + t * (-2.0 * d))) == t * t * (3.0 - 2.0 * t) * d;
  }

  lemma DiagonalTangents(x: seq<real>, y: seq<real>, eps: real, m: seq<real>, slope: real)
    requires |x| == |y| == 2 && Knots(2, x, y) && LimitedBy(x, y, eps, m, 2) && slope * (x[1] - x[0]) == y[1] - y[0]
    ensures |m| >= 2 && m[0] == m[1] == if Abs(slope) >= eps then slope else 0.0
  {
    var base := LineThrough(x, y, slope);
    hide LimitedBy, HermiteShape.Straight;
    StraightTangents(x, y, eps, m, base, slope, 0);
    StraightTangents(x, y, eps, m, base, slope, 1);
  }

  // ----- without anchors, in the unit box -----

  /** Over the unit box the table without anchors is the rounded line from 0 to the top of the
      output range, for every kind of curve. */
  lemma UnitDiagonal(c: CurveData, eps: real, p: seq<real>, samplingRes: nat, outputRes: nat, i: nat, s: nat)
    requires samplingRes >= 2 && 1 <= outputRes <= 0x1_0000 && i < samplingRes && 0.0 < eps <= 1.0
    requires c.splineType < 3 && c.anchors == [] && c.minX == c.minY == 0.0 && c.maxX == c.maxY == 1.0
    requires Params(c.splineType, eps, Xs(c), Ys(c), p) && Stores(c, p, samplingRes, outputRes, i, s)
    ensures s == (2 * i * (outputRes - 1) + (samplingRes - 1)) / (2 * (samplingRes - 1))
  {
    hide Params, Stores, Xs, Ys, Trunc;
    var n, m := samplingRes - 1, outputRes - 1;
    var v := UnitPosition(i, n);
    DiagonalSample(c, eps, p, samplingRes, outputRes, i, s, v);
    UnitRounded(c, outputRes, v, i, n);
  }

  lemma UnitPosition(i: nat, n: nat) returns (v: real)
    requires n >= 1 && i <= n
    ensures 0.0 <= v <= 1.0 && v * n as real == i as real
  {
    v := i as real / n as real;
  }

  lemma UnitRounded(c: CurveData, outputRes: nat, v: real, i: nat, n: nat)
    requires c.minY == 0.0 && c.maxY == 1.0 && 1 <= outputRes <= 0x1_0000
    requires n >= 1 && 0.0 <= v <= 1.0 && v * n as real == i as real
    ensures Short(Rounded(c, outputRes, v)) == (2 * i * (outputRes - 1) + n) / (2 * n)
  {
    var m := outputRes - 1;
    var g := v * m as real;
    var q := Trunc(g + 0.5);
    assert 0.0 <= g <= m as real by {
      Product(v, m as real);
      Product(1.0 - v, m as real);
      Distribute(m as real, 1.0, v);
    }
    FloorOfRatio(v, i, n, m, q);
    UnitClamped(c, outputRes, v, g, q);
  }

  lemma UnitClamped(c: CurveData, outputRes: nat, v: real, g: real, q: int)
    requires c.minY == 0.0 && c.maxY == 1.0 && 1 <= outputRes <= 0x1_0000
    requires g == v * (outputRes - 1) as real && 0.0 <= g <= (outputRes - 1) as real && q == Trunc(g + 0.5)
    ensures Short(Rounded(c, outputRes, v)) == q
  {
    assert Grid(v, outputRes) == g && Grid(0.0, outputRes) == 0.0 && Grid(1.0, outputRes) == (outputRes - 1) as real;
    hide Grid;
  }

  lemma FloorOfRatio(v: real, i: nat, n: nat, m: nat, q: int)
    requires n >= 1 && v * n as real == i as real && q as real <= v * m as real + 0.5 < q as real + 1.0
    ensures q == (2 * i * m + n) / (2 * n)
  {
    var w, N, M := v * m as real + 0.5, n as real, m as real;
    assert w * (2.0 * N) == 2.0 * (v * N) * M + N;
    assert (2 * i * m + n) as real == 2.0 * i as real * M + N;
    assert (q * (2 * n)) as real == q as real * (2.0 * N);
    Scaled(q as real, w, 2.0 * N);
    Scaled(w, q as real + 1.0, 2.0 * N);
    DivisionIs(2 * i * m + n, 2 * n, q);
  }

  lemma Scaled(a: real, b: real, s: real)
    requires a <= b && s > 0.0
    ensures a * s <= b * s && (a < b ==> a * s < b * s)
  {
    assert a < b ==> (b - a) * s > 0.0;
    Distribute(s, b, a);
  }

  lemma DivisionIs(a: int, b: int, q: int)
    requires b > 0 && q * b <= a < q * b + b
    ensures a / b == q
  {
    var d := a / b;
    assert d * b <= a < d * b + b;
    Multiples(q, d, b);
    Multiples(d, q, b);
  }

  lemma Multiples(p: int, q: int, b: int)
    requires b > 0
    ensures p < q ==> p * b + b <= q * b
  {
    var d := q - p - 1;
    assert q * b == p * b + b + d * b;
    if p < q {
      assert d * b >= 0;
    }
  }
}
