/** The cubic spline of src/common/curve_tools.c: set-up of the tridiagonal system, its
    solvability, and what the resulting curve satisfies. */
module CubicSpline {
  import opened Tridiagonal

  // ----- cubic polynomials -----

  /** a + b u + c u^2 + d u^3. */
  datatype Cubic = Cubic(a: real, b: real, c: real, d: real)

  function Eval(p: Cubic, u: real): real {
    p.a + u * (p.b + u * (p.c + u * p.d))
  }

  function Slope(p: Cubic, u: real): real {
    p.b + u * (2.0 * p.c + u * (3.0 * p.d))
  }

  function Bend(p: Cubic, u: real): real {
    2.0 * p.c + u * (6.0 * p.d)
  }

  /** `Slope` and `Bend` are the first and second derivative: the expansion of `Eval`. */
  lemma Taylor(p: Cubic, u: real, e: real)
    ensures Eval(p, u + e) == Eval(p, u) + e * Slope(p, u) + e * e * (Bend(p, u) / 2.0 + e * p.d)
  {
    var v := u + e;
    assert v * v * v == u * u * u + 3.0 * u * u * e + 3.0 * u * e * e + e * e * e;
    assert Eval(p, v) == p.a + p.b * v + p.c * (v * v) + p.d * (v * v * v);
  }

  // ----- knots and pieces -----

  ghost predicate Increasing(t: seq<real>) {
    forall i :: 0 <= i < |t| - 1 ==> t[i] < t[i + 1]
  }

  /** The piece between knots 0 and 1 apart, from end values and second derivatives. */
  function PieceOf(h: real, y0: real, y1: real, q0: real, q1: real): Cubic
    requires h != 0.0
  {
    Cubic(y0, (y1 - y0) / h - (q1 / 6.0 + q0 / 3.0) * h, 0.5 * q0, (q1 - q0) / (6.0 * h))
  }

  function Piece(t: seq<real>, y: seq<real>, ypp: seq<real>, i: nat): Cubic
    requires i + 1 < |t| <= |y| && |t| <= |ypp| && t[i] != t[i + 1]
  {
    PieceOf(t[i + 1] - t[i], y[i], y[i + 1], ypp[i], ypp[i + 1])
  }

  /** A piece runs from value to value and from second derivative to second derivative;
      its end slopes are what the tridiagonal rows speak about. */
  lemma PieceEnds(h: real, y0: real, y1: real, q0: real, q1: real)
    requires h != 0.0
    ensures var p := PieceOf(h, y0, y1, q0, q1);
            && Eval(p, 0.0) == y0 && Eval(p, h) == y1
            && Bend(p, 0.0) == q0 && Bend(p, h) == q1
            && Slope(p, 0.0) == (y1 - y0) / h - (q1 / 6.0 + q0 / 3.0) * h
            && Slope(p, h) == (y1 - y0) / h + (q0 / 6.0 + q1 / 3.0) * h
  {
    var p := PieceOf(h, y0, y1, q0, q1);
    var s := (y1 - y0) / h;
    assert s * h == y1 - y0;
    assert p.d * h == (q1 - q0) / 6.0 by { SixthOf(q1 - q0, h); }
    assert Bend(p, h) == q0 + 6.0 * (p.d * h);
    assert h * (3.0 * p.d) == (q1 - q0) / 2.0;
    assert Slope(p, h) == p.b + h * (q0 + (q1 - q0) / 2.0);
    assert h * p.d == (q1 - q0) / 6.0;
    assert Eval(p, h) == y0 + h * (p.b + h * (0.5 * q0 + (q1 - q0) / 6.0));
    assert h * p.b == y1 - y0 - (q1 / 6.0 + q0 / 3.0) * h * h;
    assert h * (h * (0.5 * q0 + (q1 - q0) / 6.0)) == (q1 / 6.0 + q0 / 3.0) * h * h;
  }

  lemma SixthOf(v: real, h: real)
    requires h != 0.0
    ensures v / (6.0 * h) * h == v / 6.0
  {
    var w := v / (6.0 * h);
    assert w * (6.0 * h) == v;
    assert w * (6.0 * h) == 6.0 * (w * h);
  }

  // ----- the linear system -----

  /** The boundary conditions: flag and value at each end. */
  datatype Ends = Ends(ibcbeg: int, ybcbeg: real, ibcend: int, ybcend: real)

  predicate ValidEnds(e: Ends) {
    0 <= e.ibcbeg <= 2 && 0 <= e.ibcend <= 2
  }

  ghost predicate Knots(n: nat, t: seq<real>, y: seq<real>) {
    n >= 2 && |t| == n && |y| == n && Increasing(t)
  }

  function SupEntry(t: seq<real>, e: Ends, i: nat): real
    requires 1 <= i < |t|
  {
    if i > 1 || e.ibcbeg == 1 then (t[i] - t[i - 1]) / 6.0
    else if e.ibcbeg == 0 then -1.0 else 0.0
  }

  function DiagEntry(t: seq<real>, e: Ends, i: nat): real
    requires i < |t| && |t| >= 2
  {
    if i == 0 then (if e.ibcbeg == 1 then (t[1] - t[0]) / 3.0 else 1.0)
    else if i == |t| - 1 then (if e.ibcend == 1 then (t[i] - t[i - 1]) / 3.0 else 1.0)
    else (t[i + 1] - t[i - 1]) / 3.0
  }

  function SubEntry(t: seq<real>, e: Ends, i: nat): real
    requires i + 1 < |t|
  {
    if i + 2 < |t| || e.ibcend == 1 then (t[i + 1] - t[i]) / 6.0
    else if e.ibcend == 0 then -1.0 else 0.0
  }

  function Secant(t: seq<real>, y: seq<real>, i: nat): real
    requires i + 1 < |t| <= |y| && t[i] < t[i + 1]
  {
    (y[i + 1] - y[i]) / (t[i + 1] - t[i])
  }

  ghost function RightEntry(t: seq<real>, y: seq<real>, e: Ends, i: nat): real
    requires Knots(|t|, t, y) && i < |t|
  {
    if i == 0 then
      (if e.ibcbeg == 0 then 0.0 else if e.ibcbeg == 1 then Secant(t, y, 0) - e.ybcbeg else e.ybcbeg)
    else if i == |t| - 1 then
      (if e.ibcend == 0 then 0.0 else if e.ibcend == 1 then e.ybcend - Secant(t, y, i - 1) else e.ybcend)
    else Secant(t, y, i) - Secant(t, y, i - 1)
  }

  /** `a` and `b` hold the spline system for these knots and ends. */
  ghost predicate SplineSystem(n: nat, t: seq<real>, y: seq<real>, e: Ends, a: seq<real>, b: seq<real>) {
    && Knots(n, t, y) && Sized(n, a, b)
    && (forall i :: 1 <= i < n ==> Sup(a, i) == SupEntry(t, e, i))
    && (forall i :: 0 <= i < n ==> Diag(a, i) == DiagEntry(t, e, i))
    && (forall i :: 0 <= i < n - 1 ==> Sub(a, i) == SubEntry(t, e, i))
    && (forall i :: 0 <= i < n ==> b[i] == RightEntry(t, y, e, i))
  }

  /** The one singular case, which the source answers without solving. */
  predicate Straight(n: nat, e: Ends) {
    n == 2 && e.ibcbeg == 0 && e.ibcend == 0
  }

  // ----- every pivot is positive -----

  lemma RatioBound(s: real, p: real, u: real)
    requires s >= 0.0 && p > 0.0 && u < p
    ensures s / p * u <= s
  {
    var m := s / p;
    assert m * p == s;
    assert m >= 0.0;
    assert m * (p - u) >= 0.0;
  }

  lemma PivotUnfolds(a: seq<real>, i: nat)
    requires 3 * i + 1 < |a|
    ensures i == 0 ==> Pivot(a, 0) == Diag(a, 0)
    ensures i > 0 && Pivot(a, i - 1) != 0.0 ==> Pivot(a, i) == Diag(a, i) - Sub(a, i - 1) / Pivot(a, i - 1) * Sup(a, i)
  {
  }

  /** A row between the ends, in terms of the two intervals beside its knot. */
  lemma InteriorRow(n: nat, t: seq<real>, y: seq<real>, e: Ends, a: seq<real>, b: seq<real>, i: nat)
    requires SplineSystem(n, t, y, e, a, b) && 0 < i < n - 1
    ensures t[i - 1] < t[i] < t[i + 1] && |t| == n && |a| == 3 * n
    ensures Sub(a, i - 1) == (t[i] - t[i - 1]) / 6.0 && Diag(a, i) == (t[i + 1] - t[i - 1]) / 3.0
    ensures Sup(a, i + 1) == (t[i + 1] - t[i]) / 6.0
  {
  }

  /** The first and the last row. */
  lemma EndRows(n: nat, t: seq<real>, y: seq<real>, e: Ends, a: seq<real>, b: seq<real>)
    requires SplineSystem(n, t, y, e, a, b)
    ensures n >= 2 && |t| == n && |a| == 3 * n && t[0] < t[1] && t[n - 2] < t[n - 1]
    ensures Diag(a, 0) == DiagEntry(t, e, 0) && Sup(a, 1) == SupEntry(t, e, 1)
    ensures Diag(a, n - 1) == DiagEntry(t, e, n - 1) && Sub(a, n - 2) == SubEntry(t, e, n - 2)
    ensures Sup(a, n - 1) == SupEntry(t, e, n - 1) && Knots(n, t, y) && |b| == n
    ensures b[0] == RightEntry(t, y, e, 0) && b[n - 1] == RightEntry(t, y, e, n - 1)
  {
  }

  lemma InteriorPivot(h0: real, h1: real, p: real, u: real)
    requires h0 > 0.0 && h1 > 0.0 && p > 0.0 && u < p
    ensures (h0 + h1) / 3.0 - h0 / 6.0 / p * u > h1 / 6.0
  {
    RatioBound(h0 / 6.0, p, u);
  }

  /** Every pivot but the last is positive and greater than the superdiagonal entry to
      its right. */
  lemma {:induction false} PivotDominates(n: nat, t: seq<real>, y: seq<real>, e: Ends, a: seq<real>, b: seq<real>,
                                          i: nat)
    requires SplineSystem(n, t, y, e, a, b) && ValidEnds(e) && i + 1 < n
    ensures |a| == 3 * n && Pivot(a, i) > 0.0 && Pivot(a, i) > Sup(a, i + 1)
  {
    hide SplineSystem, Pivot;
    EndRows(n, t, y, e, a, b);
    PivotUnfolds(a, i);
    if i > 0 {
      PivotDominates(n, t, y, e, a, b, i - 1);
      InteriorRow(n, t, y, e, a, b, i);
      InteriorPivot(t[i] - t[i - 1], t[i + 1] - t[i], Pivot(a, i - 1), Sup(a, i));
    }
  }

  lemma OpposedRatio(s: real, p: real, u: real)
    requires s <= 0.0 && p > 0.0 && u >= 0.0
    ensures s / p * u <= 0.0
  {
    var m := s / p;
    assert m * p == s;
    assert m <= 0.0;
  }

  lemma LastPivotPositive(n: nat, t: seq<real>, y: seq<real>, e: Ends, a: seq<real>, b: seq<real>)
    requires SplineSystem(n, t, y, e, a, b) && ValidEnds(e) && !Straight(n, e)
    ensures |a| == 3 * n && n >= 2 && Pivot(a, n - 1) > 0.0
  {
    hide SplineSystem, Pivot;
    EndRows(n, t, y, e, a, b);
    PivotUnfolds(a, n - 1);
    PivotDominates(n, t, y, e, a, b, n - 2);
    if e.ibcend == 0 {
      OpposedRatio(Sub(a, n - 2), Pivot(a, n - 2), Sup(a, n - 1));
    } else {
      RatioBound(Sub(a, n - 2), Pivot(a, n - 2), Sup(a, n - 1));
    }
  }

  /** The spline system never has a zero pivot, whatever the boundary conditions. */
  lemma SplinePivotsPositive(n: nat, t: seq<real>, y: seq<real>, e: Ends, a: seq<real>, b: seq<real>)
    requires SplineSystem(n, t, y, e, a, b) && ValidEnds(e) && !Straight(n, e)
    ensures |a| == 3 * n && forall i :: 0 <= i < n ==> Pivot(a, i) > 0.0
  {
    hide Pivot, SplineSystem;
    EndRows(n, t, y, e, a, b);
    forall i | 0 <= i < n ensures Pivot(a, i) > 0.0 {
      if i + 1 < n {
        PivotDominates(n, t, y, e, a, b, i);
      } else {
        LastPivotPositive(n, t, y, e, a, b);
      }
    }
  }

  // ----- what a solution of the system means -----

  /** The slope of a piece at its first and at its last knot, from its chord's slope. */
  function OpeningSlope(h: real, s: real, q0: real, q1: real): real {
    s - (q1 / 6.0 + q0 / 3.0) * h
  }

  function ClosingSlope(h: real, s: real, q0: real, q1: real): real {
    s + (q0 / 6.0 + q1 / 3.0) * h
  }

  lemma PieceFacts(t: seq<real>, y: seq<real>, q: seq<real>, i: nat)
    requires i + 1 < |t| == |y| == |q| && t[i] < t[i + 1]
    ensures var p, h := Piece(t, y, q, i), t[i + 1] - t[i];
            && Eval(p, 0.0) == y[i] && Eval(p, h) == y[i + 1] && Bend(p, 0.0) == q[i] && Bend(p, h) == q[i + 1]
            && Slope(p, 0.0) == OpeningSlope(h, Secant(t, y, i), q[i], q[i + 1])
            && Slope(p, h) == ClosingSlope(h, Secant(t, y, i), q[i], q[i + 1])
            && (p.d == 0.0 <==> q[i] == q[i + 1])
  {
    var h := t[i + 1] - t[i];
    PieceEnds(h, y[i], y[i + 1], q[i], q[i + 1]);
    QuadraticIff(h, q[i], q[i + 1]);
    hide Eval, Slope, Bend;
  }

  /** The left hand side of a row. */
  function RowSum(sub: real, d: real, sup: real, x0: real, x1: real, x2: real): real {
    sub * x0 + d * x1 + sup * x2
  }

  lemma InteriorRowSum(n: nat, a: seq<real>, b: seq<real>, x: seq<real>, i: nat)
    requires Sized(n, a, b) && |x| == n && 0 < i < n - 1
    ensures Row(n, a, b, x, i) <==> RowSum(Sub(a, i - 1), Diag(a, i), Sup(a, i + 1), x[i - 1], x[i], x[i + 1]) == b[i]
  {
    hide Sub, Diag, Sup;
  }

  lemma EndRowSums(n: nat, a: seq<real>, b: seq<real>, x: seq<real>)
    requires Sized(n, a, b) && |x| == n >= 2
    ensures Row(n, a, b, x, 0) <==> RowSum(0.0, Diag(a, 0), Sup(a, 1), 0.0, x[0], x[1]) == b[0]
    ensures Row(n, a, b, x, n - 1) <==> RowSum(Sub(a, n - 2), Diag(a, n - 1), 0.0, x[n - 2], x[n - 1], 0.0) == b[n - 1]
  {
    hide Sub, Diag, Sup;
  }

  /** Interior rows say exactly that the slopes of adjacent pieces agree at their knot. */
  lemma RowIffSlopesAgree(n: nat, t: seq<real>, y: seq<real>, e: Ends, a: seq<real>, b: seq<real>, q: seq<real>, i: nat)
    requires SplineSystem(n, t, y, e, a, b) && |q| == n && 0 < i < n - 1
    ensures t[i - 1] < t[i] < t[i + 1]
    ensures Row(n, a, b, q, i) <==> Slope(Piece(t, y, q, i - 1), t[i] - t[i - 1]) == Slope(Piece(t, y, q, i), 0.0)
  {
    assert b[i] == RightEntry(t, y, e, i);
    hide SplineSystem, Slope, Piece, Row, RowSum, Secant, OpeningSlope, ClosingSlope, Sub, Diag, Sup;
    InteriorRow(n, t, y, e, a, b, i);
    var h0, h1 := t[i] - t[i - 1], t[i + 1] - t[i];
    PieceFacts(t, y, q, i - 1);
    PieceFacts(t, y, q, i);
    InteriorRowSum(n, a, b, q, i);
    SlopeArithmetic(h0, h1, q[i - 1], q[i], q[i + 1], Secant(t, y, i - 1), Secant(t, y, i));
    assert Diag(a, i) == (h0 + h1) / 3.0;
  }

  lemma SlopeArithmetic(h0: real, h1: real, q0: real, q1: real, q2: real, s0: real, s1: real)
    ensures RowSum(h0 / 6.0, (h0 + h1) / 3.0, h1 / 6.0, q0, q1, q2) == s1 - s0
       <==> ClosingSlope(h0, s0, q0, q1) == OpeningSlope(h1, s1, q1, q2)
  {
  }

  /** The boundary condition at the left end. */
  ghost predicate LeftEnd(n: nat, t: seq<real>, y: seq<real>, e: Ends, q: seq<real>)
    requires Knots(n, t, y) && |q| == n
  {
    var p := Piece(t, y, q, 0);
    if e.ibcbeg == 0 then p.d == 0.0
    else if e.ibcbeg == 1 then Slope(p, 0.0) == e.ybcbeg
    else Bend(p, 0.0) == e.ybcbeg
  }

  /** The boundary condition at the right end. */
  ghost predicate RightEnd(n: nat, t: seq<real>, y: seq<real>, e: Ends, q: seq<real>)
    requires Knots(n, t, y) && |q| == n
  {
    var p, h := Piece(t, y, q, n - 2), t[n - 1] - t[n - 2];
    if e.ibcend == 0 then p.d == 0.0
    else if e.ibcend == 1 then Slope(p, h) == e.ybcend
    else Bend(p, h) == e.ybcend
  }

  lemma QuadraticIff(h: real, q0: real, q1: real)
    requires h > 0.0
    ensures (q1 - q0) / (6.0 * h) == 0.0 <==> q0 == q1
  {
    SixthOf(q1 - q0, h);
  }

  /** The rows of the boundary conditions, on numbers. */
  lemma EndArithmetic(h: real, s: real, v: real, q0: real, q1: real)
    ensures RowSum(0.0, h / 3.0, h / 6.0, 0.0, q0, q1) == s - v <==> OpeningSlope(h, s, q0, q1) == v
    ensures RowSum(h / 6.0, h / 3.0, 0.0, q0, q1, 0.0) == v - s <==> ClosingSlope(h, s, q0, q1) == v
    ensures RowSum(0.0, 1.0, -1.0, 0.0, q0, q1) == 0.0 <==> q0 == q1
    ensures RowSum(-1.0, 1.0, 0.0, q0, q1, 0.0) == 0.0 <==> q0 == q1
    ensures RowSum(0.0, 1.0, 0.0, 0.0, q0, q1) == q0 && RowSum(0.0, 1.0, 0.0, q0, q1, 0.0) == q1
  {
  }

  lemma FirstRowIffLeftEnd(n: nat, t: seq<real>, y: seq<real>, e: Ends, a: seq<real>, b: seq<real>, q: seq<real>)
    requires SplineSystem(n, t, y, e, a, b) && |q| == n && ValidEnds(e)
    ensures Row(n, a, b, q, 0) <==> LeftEnd(n, t, y, e, q)
  {
    hide SplineSystem, Slope, Bend, Eval, Piece, Row, RowSum, Secant, OpeningSlope, ClosingSlope, Sub, Diag, Sup;
    EndRows(n, t, y, e, a, b);
    EndRowSums(n, a, b, q);
    PieceFacts(t, y, q, 0);
    EndArithmetic(t[1] - t[0], Secant(t, y, 0), e.ybcbeg, q[0], q[1]);
  }

  lemma LastRowIffRightEnd(n: nat, t: seq<real>, y: seq<real>, e: Ends, a: seq<real>, b: seq<real>, q: seq<real>)
    requires SplineSystem(n, t, y, e, a, b) && |q| == n && ValidEnds(e)
    ensures Row(n, a, b, q, n - 1) <==> RightEnd(n, t, y, e, q)
  {
    hide SplineSystem, Slope, Bend, Eval, Piece, Row, RowSum, Secant, OpeningSlope, ClosingSlope, Sub, Diag, Sup;
    EndRows(n, t, y, e, a, b);
    EndRowSums(n, a, b, q);
    PieceFacts(t, y, q, n - 2);
    EndArithmetic(t[n - 1] - t[n - 2], Secant(t, y, n - 2), e.ybcend, q[n - 2], q[n - 1]);
  }

  /** Adjacent pieces agree in value, slope and second derivative at the interior knot `i`. */
  ghost predicate SmoothAt(n: nat, t: seq<real>, y: seq<real>, q: seq<real>, i: nat)
    requires Knots(n, t, y) && |q| == n && 0 < i < n - 1
  {
    var p0, p1, h := Piece(t, y, q, i - 1), Piece(t, y, q, i), t[i] - t[i - 1];
    && Eval(p0, h) == Eval(p1, 0.0) == y[i]
    && Slope(p0, h) == Slope(p1, 0.0)
    && Bend(p0, h) == Bend(p1, 0.0)
  }

  /** A spline through the points: twice continuously differentiable, with these ends. */
  ghost predicate IsSpline(n: nat, t: seq<real>, y: seq<real>, e: Ends, q: seq<real>)
    requires Knots(n, t, y)
  {
    && |q| == n
    && (forall i :: 0 < i < n - 1 ==> SmoothAt(n, t, y, q, i))
    && LeftEnd(n, t, y, e, q) && RightEnd(n, t, y, e, q)
  }

  lemma SmoothIffSlopesAgree(n: nat, t: seq<real>, y: seq<real>, q: seq<real>, i: nat)
    requires Knots(n, t, y) && |q| == n && 0 < i < n - 1
    ensures t[i - 1] < t[i] < t[i + 1]
    ensures SmoothAt(n, t, y, q, i) <==> Slope(Piece(t, y, q, i - 1), t[i] - t[i - 1]) == Slope(Piece(t, y, q, i), 0.0)
  {
    hide Slope, Bend, Eval, Piece, Secant, OpeningSlope, ClosingSlope;
    PieceFacts(t, y, q, i - 1);
    PieceFacts(t, y, q, i);
  }

  /** The second derivatives solve the system if and only if they make a spline. */
  lemma SolvesIffSpline(n: nat, t: seq<real>, y: seq<real>, e: Ends, a: seq<real>, b: seq<real>, q: seq<real>)
    requires SplineSystem(n, t, y, e, a, b) && ValidEnds(e)
    ensures Knots(n, t, y) && Sized(n, a, b)
    ensures Solves(n, a, b, q) <==> IsSpline(n, t, y, e, q)
  {
    if |q| == n {
      forall i | 0 < i < n - 1 ensures Row(n, a, b, q, i) <==> SmoothAt(n, t, y, q, i) {
        hide SplineSystem, Row, SmoothAt;
        RowIffSlopesAgree(n, t, y, e, a, b, q, i);
        SmoothIffSlopesAgree(n, t, y, q, i);
      }
      FirstRowIffLeftEnd(n, t, y, e, a, b, q);
      LastRowIffRightEnd(n, t, y, e, a, b, q);
      hide Row, SmoothAt, LeftEnd, RightEnd;
    }
  }

  // ----- the source's routines -----

  /** The first row and the interior rows below `k` are in place. */
  ghost predicate Filled(n: nat, t: seq<real>, y: seq<real>, e: Ends, a: seq<real>, b: seq<real>, k: int) {
    && Knots(n, t, y) && Sized(n, a, b) && 1 <= k < n
    && Diag(a, 0) == DiagEntry(t, e, 0) && b[0] == RightEntry(t, y, e, 0)
    && (forall i :: 1 <= i <= k ==> Sup(a, i) == SupEntry(t, e, i))
    && (forall i :: 0 <= i < k - 1 ==> Sub(a, i) == SubEntry(t, e, i))
    && (forall i :: 1 <= i < k ==> Diag(a, i) == DiagEntry(t, e, i) && b[i] == RightEntry(t, y, e, i))
  }

  lemma FilledNext(n: nat, t: seq<real>, y: seq<real>, e: Ends, a: seq<real>, b: seq<real>, i: nat)
    requires Filled(n, t, y, e, a, b, i) && i < n - 1
    ensures Filled(n, t, y, e,
                   a[3 * (i - 1) + 2 := (t[i] - t[i - 1]) / 6.0][3 * i + 1 := (t[i + 1] - t[i - 1]) / 3.0]
                    [3 * (i + 1) := (t[i + 1] - t[i]) / 6.0],
                   b[i := Secant(t, y, i) - Secant(t, y, i - 1)], i + 1)
  {
    hide Secant;
    var a' := a[3 * (i - 1) + 2 := (t[i] - t[i - 1]) / 6.0][3 * i + 1 := (t[i + 1] - t[i - 1]) / 3.0]
               [3 * (i + 1) := (t[i + 1] - t[i]) / 6.0];
    assert forall j :: 0 <= j < n && j != i - 1 ==> Sub(a', j) == Sub(a, j);
    assert forall j :: 0 <= j < n && j != i ==> Diag(a', j) == Diag(a, j);
    assert forall j :: 0 <= j < n && j != i + 1 ==> Sup(a', j) == Sup(a, j);
  }

  lemma FilledIsSystem(n: nat, t: seq<real>, y: seq<real>, e: Ends, a: seq<real>, b: seq<real>)
    requires Filled(n, t, y, e, a, b, n - 1)
    requires Sub(a, n - 2) == SubEntry(t, e, n - 2) && Diag(a, n - 1) == DiagEntry(t, e, n - 1)
    requires b[n - 1] == RightEntry(t, y, e, n - 1)
    ensures SplineSystem(n, t, y, e, a, b)
  {
  }

  method FillFirst(n: nat, t: array<real>, y: array<real>, e: Ends, a: array<real>, b: array<real>)
    requires a.Length == 3 * n && b.Length == n && a != b && a != t && a != y && b != t && b != y
    requires n <= t.Length && n <= y.Length && Knots(n, t[..n], y[..n]) && ValidEnds(e)
    modifies a, b
    ensures Filled(n, t[..n], y[..n], e, a[..], b[..], 1)
  {
    ghost var T, Y := t[..n], y[..n];
    if e.ibcbeg == 0 {
      b[0], a[1 + 0 * 3], a[0 + 1 * 3] := 0.0, 1.0, -1.0;
    } else if e.ibcbeg == 1 {
      assert T[0] < T[1];
      b[0] := (y[1] - y[0]) / (t[1] - t[0]) - e.ybcbeg;
      a[1 + 0 * 3], a[0 + 1 * 3] := (t[1] - t[0]) / 3.0, (t[1] - t[0]) / 6.0;
      assert b[0] == Secant(T, Y, 0) - e.ybcbeg;
    } else {
      b[0], a[1 + 0 * 3], a[0 + 1 * 3] := e.ybcbeg, 1.0, 0.0;
    }
  }

  method ChordSlope(n: nat, t: array<real>, y: array<real>, i: nat) returns (s: real)
    requires i + 1 < n && n <= t.Length && n <= y.Length && t[i] < t[i + 1]
    ensures s == Secant(t[..n], y[..n], i)
  {
    s := (y[i + 1] - y[i]) / (t[i + 1] - t[i]);
  }

  method FillInterior(n: nat, t: array<real>, y: array<real>, ghost e: Ends, a: array<real>, b: array<real>)
    requires a != b && a != t && a != y && b != t && b != y && n <= t.Length && n <= y.Length
    requires Filled(n, t[..n], y[..n], e, a[..], b[..], 1)
    modifies a, b
    ensures Filled(n, t[..n], y[..n], e, a[..], b[..], n - 1)
  {
    ghost var T, Y := t[..n], y[..n];
    for i := 1 to n - 1
      invariant t[..n] == T && y[..n] == Y
      invariant Filled(n, T, Y, e, a[..], b[..], i)
    {
      ghost var a0, b0 := a[..], b[..];
      FilledNext(n, T, Y, e, a0, b0, i);
      assert T[i - 1] < T[i] < T[i + 1];
      hide Filled, Knots, Increasing, Secant;
      var next := ChordSlope(n, t, y, i);
      var last := ChordSlope(n, t, y, i - 1);
      b[i] := next - last;
      a[2 + (i - 1) * 3] := (t[i] - t[i - 1]) / 6.0;
      a[1 + i * 3] := (t[i + 1] - t[i - 1]) / 3.0;
      a[0 + (i + 1) * 3] := (t[i + 1] - t[i]) / 6.0;
      assert b[..] == b0[i := Secant(T, Y, i) - Secant(T, Y, i - 1)];
      assert a[..] == a0[3 * (i - 1) + 2 := (T[i] - T[i - 1]) / 6.0][3 * i + 1 := (T[i + 1] - T[i - 1]) / 3.0]
                        [3 * (i + 1) := (T[i + 1] - T[i]) / 6.0];
    }
  }

  method FillLast(n: nat, t: array<real>, y: array<real>, e: Ends, a: array<real>, b: array<real>)
    requires a != b && a != t && a != y && b != t && b != y && n <= t.Length && n <= y.Length && ValidEnds(e)
    requires Filled(n, t[..n], y[..n], e, a[..], b[..], n - 1)
    modifies a, b
    ensures SplineSystem(n, t[..n], y[..n], e, a[..], b[..])
  {
    ghost var T, Y := t[..n], y[..n];
    assert T[n - 2] < T[n - 1];
    if e.ibcend == 0 {
      b[n - 1], a[2 + (n - 2) * 3], a[1 + (n - 1) * 3] := 0.0, -1.0, 1.0;
    } else if e.ibcend == 1 {
      b[n - 1] := e.ybcend - (y[n - 1] - y[n - 2]) / (t[n - 1] - t[n - 2]);
      a[2 + (n - 2) * 3] := (t[n - 1] - t[n - 2]) / 6.0;
      a[1 + (n - 1) * 3] := (t[n - 1] - t[n - 2]) / 3.0;
      assert b[n - 1] == e.ybcend - Secant(T, Y, n - 2);
    } else {
      b[n - 1], a[2 + (n - 2) * 3], a[1 + (n - 1) * 3] := e.ybcend, 0.0, 1.0;
    }
    FilledIsSystem(n, T, Y, e, a[..], b[..]);
  }

  /** Strictly increasing knots, as the routines test them. */
  method CheckKnots(n: nat, t: array<real>) returns (ok: bool)
    requires n <= t.Length
    ensures ok <==> Increasing(t[..n])
  {
    var i := 0;
    while i + 1 < n
      invariant forall j :: 0 <= j < i && j + 1 < n ==> t[j] < t[j + 1]
    {
      if t[i + 1] <= t[i] {
        assert !(t[..n][i] < t[..n][i + 1]);
        return false;
      }
      i := i + 1;
    }
    ok := true;
  }

  /** The second derivatives of the spline; `ok` is false where the source returns NULL. */
  method SplineCubicSetInternal(n: int, t: array<real>, y: array<real>, e: Ends) returns (ok: bool, ypp: array<real>)
    requires n <= t.Length && n <= y.Length
    ensures ok <==> 2 <= n <= ANCHORS_MAX && Increasing(t[..n]) && ValidEnds(e)
    ensures ok ==> ypp.Length == n && IsSpline(n, t[..n], y[..n], e, ypp[..])
  {
    ypp := new real[0];
    if n <= 1 {
      return false, ypp;
    }
    var sorted := CheckKnots(n, t);
    if !sorted || !ValidEnds(e) {
      return false, ypp;
    }
    hide Increasing, IsSpline, Pivot, Solves, SplineSystem;
    var a, b := new real[3 * n](_ => 0.0), new real[n](_ => 0.0);
    FillFirst(n, t, y, e, a, b);
    FillInterior(n, t, y, e, a, b);
    FillLast(n, t, y, e, a, b);
    ghost var A, B, T, Y := a[..], b[..], t[..n], y[..n];
    if n == 2 && e.ibcbeg == 0 && e.ibcend == 0 {
      ypp := new real[2](_ => 0.0);
      StraightIsSpline(T, Y, e, ypp[..]);
      return true, ypp;
    }
    SplinePivotsPositive(n, T, Y, e, A, B);
    DiagNonzero(n, T, Y, e, A, B);
    var r;
    r, ypp := D3NpFs(n, a, b);
    ok := r.Solved?;
    if ok {
      SolvesIffSpline(n, T, Y, e, A, B, ypp[..]);
    }
  }

  /** The natural spline: zero second derivative at both ends. */
  method SplineCubicSet(n: int, t: array<real>, y: array<real>) returns (ok: bool, ypp: array<real>)
    requires n <= t.Length && n <= y.Length
    ensures ok <==> 2 <= n <= ANCHORS_MAX && Increasing(t[..n])
    ensures ok ==> ypp.Length == n && IsSpline(n, t[..n], y[..n], Ends(2, 0.0, 2, 0.0), ypp[..])
    ensures ok ==> ypp[0] == 0.0 && ypp[n - 1] == 0.0
  {
    ok, ypp := SplineCubicSetInternal(n, t, y, Ends(2, 0.0, 2, 0.0));
    if ok {
      ghost var T, Y, q := t[..n], y[..n], ypp[..];
      PieceEnds(T[1] - T[0], Y[0], Y[1], q[0], q[1]);
      PieceEnds(T[n - 1] - T[n - 2], Y[n - 2], Y[n - 1], q[n - 2], q[n - 1]);
    }
  }

  /** Where the pieces are looked up: the first interval whose right knot exceeds `v`, or
      the last interval. */
  function IntervalFrom(t: seq<real>, v: real, i: nat): (k: nat)
    requires i + 1 < |t|
    ensures i <= k && k + 1 < |t|
    ensures k == i || t[k] <= v
    ensures k + 2 == |t| || v < t[k + 1]
    decreases |t| - i
  {
    if i + 2 == |t| || v < t[i + 1] then i else IntervalFrom(t, v, i + 1)
  }

  /** The curve through the knots as a function on the whole line. */
  ghost function SplineAt(n: nat, t: seq<real>, y: seq<real>, ypp: seq<real>, v: real): real
    requires Knots(n, t, y) && |ypp| == n
  {
    var i := IntervalFrom(t, v, 0);
    Eval(Piece(t, y, ypp, i), v - t[i])
  }

  /** The interval search of both evaluation routines; they differ in the loop bound. */
  method FindInterval(n: nat, t: array<real>, v: real, bound: nat) returns (ival: nat)
    requires 2 <= n <= t.Length && n - 2 <= bound <= n - 1
    ensures ival == IntervalFrom(t[..n], v, 0)
  {
    ghost var T := t[..n];
    ival := n - 2;
    var i := 0;
    while i < bound
      invariant 0 <= i <= bound && ival == n - 2
      invariant IntervalFrom(T, v, 0) == IntervalFrom(T, v, if i < n - 1 then i else n - 2)
    {
      if v < t[i + 1] {
        ival := i;
        break;
      }
      i := i + 1;
    }
  }

  method SplineCubicVal(n: nat, t: array<real>, tval: real, y: array<real>, ypp: array<real>) returns (yval: real)
    requires n <= t.Length && n <= y.Length && n <= ypp.Length && Knots(n, t[..n], y[..n])
    ensures yval == SplineAt(n, t[..n], y[..n], ypp[..n], tval)
  {
    var ival := FindInterval(n, t, tval, n - 1);
    ghost var p := Piece(t[..n], y[..n], ypp[..n], ival);
    assert t[..n][ival] < t[..n][ival + 1];
    var dt, h := tval - t[ival], t[ival + 1] - t[ival];
    var b := (y[ival + 1] - y[ival]) / h - (ypp[ival + 1] / 6.0 + ypp[ival] / 3.0) * h;
    var c, d := 0.5 * ypp[ival], (ypp[ival + 1] - ypp[ival]) / (6.0 * h);
    assert p == Cubic(y[ival], b, c, d);
    hide Eval, Piece;
    yval := Eval(Cubic(y[ival], b, c, d), dt);
  }

  lemma {:induction false} IncreasingApart(t: seq<real>, i: nat, j: nat)
    requires Increasing(t) && i < j < |t|
    ensures t[i] < t[j]
  {
    if i + 1 < j {
      IncreasingApart(t, i, j - 1);
    }
  }

  /** The curve goes through every data point. */
  lemma SplineInterpolates(n: nat, t: seq<real>, y: seq<real>, ypp: seq<real>, k: nat)
    requires Knots(n, t, y) && |ypp| == n && k < n
    ensures SplineAt(n, t, y, ypp, t[k]) == y[k]
  {
    var i := IntervalFrom(t, t[k], 0);
    if i > k {
      IncreasingApart(t, k, i);
    } else if i + 1 < k {
      IncreasingApart(t, i + 1, k);
    }
    PieceEnds(t[i + 1] - t[i], y[i], y[i + 1], ypp[i], ypp[i + 1]);
  }

  /** On each interval, both its knots included, the curve is that interval's piece, so
      adjacent pieces meet and `IsSpline` speaks about the curve itself. */
  lemma SplineOnInterval(n: nat, t: seq<real>, y: seq<real>, ypp: seq<real>, i: nat, v: real)
    requires Knots(n, t, y) && |ypp| == n && i + 1 < n && t[i] <= v <= t[i + 1]
    ensures SplineAt(n, t, y, ypp, v) == Eval(Piece(t, y, ypp, i), v - t[i])
  {
    if v == t[i + 1] {
      SplineInterpolates(n, t, y, ypp, i + 1);
      PieceEnds(t[i + 1] - t[i], y[i], y[i + 1], ypp[i], ypp[i + 1]);
    } else {
      var k := IntervalFrom(t, v, 0);
      if k > i + 1 {
        IncreasingApart(t, i + 1, k);
      } else if k + 1 < i {
        IncreasingApart(t, k + 1, i);
      }
    }
  }

  ghost function SystemMatrix(t: seq<real>, e: Ends): seq<real>
    requires |t| >= 2
  {
    seq(3 * |t|, k requires 0 <= k < 3 * |t| =>
      if k % 3 == 1 then DiagEntry(t, e, k / 3)
      else if k % 3 == 0 then (if k / 3 >= 1 then SupEntry(t, e, k / 3) else 0.0)
      else if k / 3 + 1 < |t| then SubEntry(t, e, k / 3) else 0.0)
  }

  ghost function SystemRight(t: seq<real>, y: seq<real>, e: Ends): seq<real>
    requires Knots(|t|, t, y)
  {
    seq(|t|, i requires 0 <= i < |t| => RightEntry(t, y, e, i))
  }

  lemma SystemExists(n: nat, t: seq<real>, y: seq<real>, e: Ends)
    requires Knots(n, t, y)
    ensures SplineSystem(n, t, y, e, SystemMatrix(t, e), SystemRight(t, y, e))
  {
    hide SupEntry, DiagEntry, SubEntry, RightEntry;
  }

  /** There is only one spline through the points with these ends. */
  lemma SplineUnique(n: nat, t: seq<real>, y: seq<real>, e: Ends, q: seq<real>, r: seq<real>)
    requires Knots(n, t, y) && ValidEnds(e) && !Straight(n, e)
    requires IsSpline(n, t, y, e, q) && IsSpline(n, t, y, e, r)
    ensures q == r
  {
    hide IsSpline, SplineSystem, Pivot, Solves, SystemMatrix, SystemRight;
    var a, b := SystemMatrix(t, e), SystemRight(t, y, e);
    SystemExists(n, t, y, e);
    SolvesIffSpline(n, t, y, e, a, b, q);
    SolvesIffSpline(n, t, y, e, a, b, r);
    SplinePivotsPositive(n, t, y, e, a, b);
    SolutionUnique(n, a, b, q, r);
  }

  lemma DiagNonzero(n: nat, t: seq<real>, y: seq<real>, e: Ends, a: seq<real>, b: seq<real>)
    requires SplineSystem(n, t, y, e, a, b) && ValidEnds(e)
    ensures Sized(n, a, b) && forall i :: 0 <= i < n ==> Diag(a, i) != 0.0
  {
    forall i | 0 <= i < n ensures Diag(a, i) != 0.0 {
      if 0 < i < n - 1 {
        InteriorRow(n, t, y, e, a, b, i);
      } else {
        EndRows(n, t, y, e, a, b);
      }
    }
  }

  lemma StraightIsSpline(t: seq<real>, y: seq<real>, e: Ends, q: seq<real>)
    requires Knots(2, t, y) && Straight(2, e) && q == [0.0, 0.0]
    ensures IsSpline(2, t, y, e, q)
  {
    QuadraticIff(t[1] - t[0], 0.0, 0.0);
  }
}
