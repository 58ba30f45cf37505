/** The curve `catmull_rom_val` evaluates, and when limited tangents make it monotone. */
module HermiteCurve {
  import opened CubicSpline
  import opened HermiteMath
  import opened MonotoneHermite

  ghost predicate Curve(x: seq<real>, y: seq<real>, m: seq<real>) {
    Knots(|x|, x, y) && |m| >= |x|
  }

  /** The value of the piece on interval `i`, as the source writes it. */
  ghost function PieceAt(x: seq<real>, y: seq<real>, m: seq<real>, i: nat, v: real): real
    requires Curve(x, y, m) && i + 1 < |x|
  {
    var h := x[i + 1] - x[i];
    var dx := (v - x[i]) / h;
    H00(dx) * y[i] + H10(dx) * h * m[i] + H01(dx) * y[i + 1] + H11(dx) * h * m[i + 1]
  }

  ghost function HermiteAt(x: seq<real>, y: seq<real>, m: seq<real>, v: real): real
    requires Curve(x, y, m)
  {
    PieceAt(x, y, m, IntervalFrom(x, v, 0), v)
  }

  method CatmullRomVal(n: nat, x: array<real>, xval: real, y: array<real>, tangents: array<real>) returns (r: real)
    requires n <= x.Length && n <= y.Length && n <= tangents.Length && Knots(n, x[..n], y[..n])
    ensures r == HermiteAt(x[..n], y[..n], tangents[..n], xval)
  {
    var ival := FindInterval(n, x, xval, n - 2);
    assert x[..n][ival] < x[..n][ival + 1];
    var m0, m1 := tangents[ival], tangents[ival + 1];
    var h := x[ival + 1] - x[ival];
    var dx := (xval - x[ival]) / h;
    var h00, h10, h01, h11 := H00(dx), H10(dx), H01(dx), H11(dx);
    r := h00 * y[ival] + h10 * h * m0 + h01 * y[ival + 1] + h11 * h * m1;
  }

  lemma BasisSum(t: real)
    ensures H00(t) == 1.0 - H01(t)
  {
  }

  /** Where `v` lies in interval `i`, from zero at its left knot to one at its right. */
  ghost function Norm(x: seq<real>, i: nat, v: real): real
    requires i + 1 < |x| && x[i] < x[i + 1]
  {
    (v - x[i]) / (x[i + 1] - x[i])
  }

  /** A tangent in the units of interval `i`. */
  ghost function Pull(x: seq<real>, i: nat, tangent: real): real
    requires i + 1 < |x|
  {
    (x[i + 1] - x[i]) * tangent
  }

  lemma PieceIsRise(x: seq<real>, y: seq<real>, m: seq<real>, i: nat, v: real)
    requires Curve(x, y, m) && i + 1 < |x|
    ensures x[i] < x[i + 1]
    ensures PieceAt(x, y, m, i, v) ==
            y[i] + Rise(y[i + 1] - y[i], Pull(x, i, m[i]), Pull(x, i, m[i + 1]), Norm(x, i, v))
  {
    var h := x[i + 1] - x[i];
    var t := (v - x[i]) / h;
    BasisSum(t);
    hide H00, H01, H10, H11;
    assert H00(t) * y[i] == y[i] - H01(t) * y[i];
    assert H10(t) * h * m[i] == h * m[i] * H10(t);
    assert H11(t) * h * m[i + 1] == h * m[i + 1] * H11(t);
    assert (y[i + 1] - y[i]) * H01(t) == H01(t) * y[i + 1] - H01(t) * y[i];
  }

  lemma RiseEnds(d: real, a: real, b: real)
    ensures Rise(d, a, b, 0.0) == 0.0 && Rise(d, a, b, 1.0) == d
  {
  }

  /** A piece joins the two data points of its interval. */
  lemma PieceJoins(x: seq<real>, y: seq<real>, m: seq<real>, i: nat)
    requires Curve(x, y, m) && i + 1 < |x|
    ensures PieceAt(x, y, m, i, x[i]) == y[i] && PieceAt(x, y, m, i, x[i + 1]) == y[i + 1]
  {
    hide Rise, PieceAt, Pull, Norm;
    PieceIsRise(x, y, m, i, x[i]);
    PieceIsRise(x, y, m, i, x[i + 1]);
    NormOrder(x, i, x[i], x[i + 1]);
    RiseEnds(y[i + 1] - y[i], Pull(x, i, m[i]), Pull(x, i, m[i + 1]));
  }

  /** On each closed interval the curve is that interval's piece. */
  lemma CurveOnInterval(x: seq<real>, y: seq<real>, m: seq<real>, i: nat, v: real)
    requires Curve(x, y, m) && i + 1 < |x| && x[i] <= v <= x[i + 1]
    ensures HermiteAt(x, y, m, v) == PieceAt(x, y, m, i, v)
  {
    hide PieceAt;
    var k := IntervalFrom(x, v, 0);
    if k > i + 1 {
      IncreasingApart(x, i + 1, k);
    } else if k + 1 < i {
      IncreasingApart(x, k + 1, i);
    } else if k == i + 1 {
      PieceJoins(x, y, m, i);
      PieceJoins(x, y, m, k);
    }
  }

  // ----- monotonicity of one piece -----

  ghost predicate PieceRises(x: seq<real>, y: seq<real>, m: seq<real>, i: nat)
    requires Curve(x, y, m) && i + 1 < |x|
  {
    forall v, w :: x[i] <= v <= w <= x[i + 1] ==> PieceAt(x, y, m, i, v) <= PieceAt(x, y, m, i, w)
  }

  lemma NormOrder(x: seq<real>, i: nat, v: real, w: real)
    requires i + 1 < |x| && x[i] < x[i + 1] && x[i] <= v <= w <= x[i + 1]
    ensures 0.0 <= Norm(x, i, v) <= Norm(x, i, w) <= 1.0
    ensures Norm(x, i, x[i]) == 0.0 && Norm(x, i, x[i + 1]) == 1.0
  {
    var h := x[i + 1] - x[i];
    DivideOrder(0.0, v - x[i], h);
    DivideOrder(v - x[i], w - x[i], h);
    DivideOrder(w - x[i], h, h);
  }

  lemma DivideOrder(a: real, b: real, h: real)
    requires h > 0.0 && a <= b
    ensures a / h <= b / h && 0.0 / h == 0.0 && h / h == 1.0
  {
    var p, q := a / h, b / h;
    assert p * h == a && q * h == b;
    if p > q {
      PositiveProduct(p - q, h);
    }
  }

  /** The inverse of `Norm`. */
  ghost function Place(x: seq<real>, i: nat, t: real): real
    requires i + 1 < |x|
  {
    x[i] + t * (x[i + 1] - x[i])
  }

  lemma PlaceOrder(x: seq<real>, i: nat, s: real, t: real)
    requires i + 1 < |x| && x[i] < x[i + 1] && 0.0 <= s <= t <= 1.0
    ensures x[i] <= Place(x, i, s) <= Place(x, i, t) <= x[i + 1]
    ensures Norm(x, i, Place(x, i, s)) == s && Norm(x, i, Place(x, i, t)) == t
  {
    var h := x[i + 1] - x[i];
    var p, q := s * h, t * h;
    ScaleOrder(s, t, h, p, q);
    assert Place(x, i, s) - x[i] == p && Place(x, i, t) - x[i] == q;
  }

  lemma ScaleOrder(s: real, t: real, h: real, p: real, q: real)
    requires h > 0.0 && 0.0 <= s <= t <= 1.0 && p == s * h && q == t * h
    ensures 0.0 <= p <= q <= h && p / h == s && q / h == t
  {
    Product(s, h);
    Product(t - s, h);
    Product(1.0 - t, h);
    assert (t - s) * h == q - p && (1.0 - t) * h == h - q;
    Quotient(p, s, h);
    Quotient(q, t, h);
  }

  lemma Quotient(p: real, s: real, h: real)
    requires h > 0.0 && p == s * h
    ensures p / h == s
  {
    var r := p / h;
    assert r * h == p;
    assert (r - s) * h == 0.0 && (s - r) * h == 0.0;
    if r > s {
      PositiveProduct(r - s, h);
    } else if r < s {
      PositiveProduct(s - r, h);
    }
  }

  /** A piece rises on its interval exactly when its normalized form does. */
  lemma PieceRisesIff(x: seq<real>, y: seq<real>, m: seq<real>, i: nat)
    requires Curve(x, y, m) && i + 1 < |x|
    ensures PieceRises(x, y, m, i) <==> RisesThroughout(y[i + 1] - y[i], Pull(x, i, m[i]), Pull(x, i, m[i + 1]))
  {
    hide Rise, PieceAt, Pull, Norm, Place;
    var d, a, b := y[i + 1] - y[i], Pull(x, i, m[i]), Pull(x, i, m[i + 1]);
    if RisesThroughout(d, a, b) {
      forall v, w | x[i] <= v <= w <= x[i + 1] ensures PieceAt(x, y, m, i, v) <= PieceAt(x, y, m, i, w) {
        NormOrder(x, i, v, w);
        PieceIsRise(x, y, m, i, v);
        PieceIsRise(x, y, m, i, w);
      }
    }
    if PieceRises(x, y, m, i) {
      forall s, t | 0.0 <= s <= t <= 1.0 ensures Rise(d, a, b, s) <= Rise(d, a, b, t) {
        PlaceOrder(x, i, s, t);
        PieceIsRise(x, y, m, i, Place(x, i, s));
        PieceIsRise(x, y, m, i, Place(x, i, t));
      }
    }
  }

  /** The circle condition in the units of the interval. */
  lemma InsideScaled(h: real, a: real, b: real, delta: real, d: real)
    requires h > 0.0 && d == delta * h && a * a + b * b <= 9.0 * delta * delta
    ensures h * a * (h * a) + h * b * (h * b) <= 9.0 * d * d
  {
    Square(h);
    Product(h * h, 9.0 * delta * delta - a * a - b * b);
    assert h * h * (9.0 * delta * delta - a * a - b * b) == 9.0 * d * d - h * a * (h * a) - h * b * (h * b);
  }

  lemma PositiveFactor(h: real, a: real)
    requires h > 0.0
    ensures h * a >= 0.0 <==> a >= 0.0
  {
  }

  /** Knot `k` has a nonnegative limited tangent, told from the data alone. */
  ghost predicate KnotRises(x: seq<real>, y: seq<real>, eps: real, k: nat)
    requires Knots(|x|, x, y) && k < |x|
  {
    Initial(x, y, k) >= 0.0 || Zeroed(x, y, eps, k, |x|)
  }

  lemma KnotRisesIff(x: seq<real>, y: seq<real>, eps: real, m: seq<real>, k: nat)
    requires LimitedTo(x, y, eps, m, |x|) && k < |x|
    ensures m[k] >= 0.0 <==> KnotRises(x, y, eps, k)
  {
    hide Initial, Zeroed;
    assert Shrunk(Initial(x, y, k), m[k]);
  }

  /** Exactly when the curve rises over an interval whose data do: both end knots must. */
  lemma IntervalRisesIff(x: seq<real>, y: seq<real>, eps: real, m: seq<real>, i: nat)
    requires LimitedTo(x, y, eps, m, |x|) && i + 1 < |x| && y[i] <= y[i + 1]
    ensures PieceRises(x, y, m, i) <==> KnotRises(x, y, eps, i) && KnotRises(x, y, eps, i + 1)
  {
    hide PieceRises, KnotRises, RisesThroughout, LimitedTo, Inside, InCircle, Pull;
    LimitedInside(x, y, eps, m, i);
    KnotRisesIff(x, y, eps, m, i);
    KnotRisesIff(x, y, eps, m, i + 1);
    PieceRisesIff(x, y, m, i);
    InsideUnits(x, y, m, i);
    RisesIff(y[i + 1] - y[i], Pull(x, i, m[i]), Pull(x, i, m[i + 1]));
    PullSign(x, i, m[i]);
    PullSign(x, i, m[i + 1]);
  }

  lemma LimitedInside(x: seq<real>, y: seq<real>, eps: real, m: seq<real>, i: nat)
    requires LimitedTo(x, y, eps, m, |x|) && i < |x|
    ensures Knots(|x|, x, y) && |m| == |x| + 1 && Inside(x, y, m, i)
  {
  }

  lemma PullSign(x: seq<real>, i: nat, tangent: real)
    requires i + 1 < |x| && x[i] < x[i + 1]
    ensures Pull(x, i, tangent) >= 0.0 <==> tangent >= 0.0
  {
    PositiveFactor(x[i + 1] - x[i], tangent);
  }

  lemma InsideUnits(x: seq<real>, y: seq<real>, m: seq<real>, i: nat)
    requires Knots(|x|, x, y) && |m| == |x| + 1 && i + 1 < |x| && Inside(x, y, m, i)
    ensures InCircle(y[i + 1] - y[i], Pull(x, i, m[i]), Pull(x, i, m[i + 1]))
  {
    var h, d := x[i + 1] - x[i], y[i + 1] - y[i];
    assert d / h * h == d;
    InsideScaled(h, m[i], m[i + 1], d / h, d);
  }

  // ----- the whole curve -----

  ghost predicate Nondecreasing(y: seq<real>) {
    forall i :: 0 <= i < |y| - 1 ==> y[i] <= y[i + 1]
  }

  ghost predicate CurveRises(x: seq<real>, y: seq<real>, m: seq<real>)
    requires Curve(x, y, m)
  {
    forall v, w :: x[0] <= v <= w <= x[|x| - 1] ==> HermiteAt(x, y, m, v) <= HermiteAt(x, y, m, w)
  }

  lemma {:induction false} NondecreasingApart(y: seq<real>, i: nat, j: nat)
    requires Nondecreasing(y) && i <= j < |y|
    ensures y[i] <= y[j]
  {
    if i < j {
      NondecreasingApart(y, i, j - 1);
    }
  }

  lemma RisingDataRisingKnots(x: seq<real>, y: seq<real>, eps: real, k: nat)
    requires Knots(|x|, x, y) && Nondecreasing(y) && k < |x|
    ensures KnotRises(x, y, eps, k)
  {
    forall i | 0 <= i < |x| ensures Delta(x, y, i) >= 0.0 {
      var j := if i + 1 < |x| then i else |x| - 2;
      DivideOrder(0.0, y[j + 1] - y[j], x[j + 1] - x[j]);
    }
  }

  lemma RisingPieces(x: seq<real>, y: seq<real>, eps: real, m: seq<real>, i: nat)
    requires LimitedTo(x, y, eps, m, |x|) && Nondecreasing(y) && i + 1 < |x|
    ensures PieceRises(x, y, m, i)
  {
    hide LimitedTo, PieceRises, KnotRises;
    assert Knots(|x|, x, y) by { LimitedKnots(x, y, eps, m); }
    RisingDataRisingKnots(x, y, eps, i);
    RisingDataRisingKnots(x, y, eps, i + 1);
    IntervalRisesIff(x, y, eps, m, i);
  }

  lemma LimitedKnots(x: seq<real>, y: seq<real>, eps: real, m: seq<real>)
    requires LimitedTo(x, y, eps, m, |x|)
    ensures Knots(|x|, x, y) && Curve(x, y, m)
  {
  }

  /** Over nondecreasing data the limited curve is nondecreasing on its whole range. */
  lemma LimitedCurveRises(x: seq<real>, y: seq<real>, eps: real, m: seq<real>, v: real, w: real)
    requires LimitedTo(x, y, eps, m, |x|) && Nondecreasing(y) && x[0] <= v <= w <= x[|x| - 1]
    ensures HermiteAt(x, y, m, v) <= HermiteAt(x, y, m, w)
  {
    LimitedKnots(x, y, eps, m);
    hide LimitedTo, PieceAt;
    var i := Located(x, v);
    var k := Located(x, w);
    CurveOnInterval(x, y, m, i, v);
    CurveOnInterval(x, y, m, k, w);
    RisingPieces(x, y, eps, m, i);
    RisingPieces(x, y, eps, m, k);
    PieceJoins(x, y, m, i);
    PieceJoins(x, y, m, k);
    if i < k {
      NondecreasingApart(y, i + 1, k);
    } else if i > k {
      IncreasingOrEqual(x, k + 1, i);
      NondecreasingApart(y, k + 1, i);
    }
  }

  lemma IncreasingOrEqual(x: seq<real>, i: nat, j: nat)
    requires Increasing(x) && i <= j < |x|
    ensures x[i] <= x[j]
  {
    if i < j {
      IncreasingApart(x, i, j);
    }
  }

  /** An interval that contains `v`. */
  lemma Located(x: seq<real>, v: real) returns (i: nat)
    requires Increasing(x) && |x| >= 2 && x[0] <= v <= x[|x| - 1]
    ensures i + 1 < |x| && x[i] <= v <= x[i + 1]
  {
    i := IntervalFrom(x, v, 0);
  }

  /** The curve of limited tangents is nondecreasing if and only if the data are. */
  lemma LimitedCurveRisesIff(x: seq<real>, y: seq<real>, eps: real, m: seq<real>)
    requires LimitedTo(x, y, eps, m, |x|)
    ensures Curve(x, y, m)
    ensures CurveRises(x, y, m) <==> Nondecreasing(y)
  {
    LimitedKnots(x, y, eps, m);
    hide LimitedTo, HermiteAt, PieceAt;
    if Nondecreasing(y) {
      forall v, w | x[0] <= v <= w <= x[|x| - 1] ensures HermiteAt(x, y, m, v) <= HermiteAt(x, y, m, w) {
        LimitedCurveRises(x, y, eps, m, v, w);
      }
    }
    if CurveRises(x, y, m) {
      forall i | 0 <= i < |x| - 1 ensures y[i] <= y[i + 1] {
        IncreasingOrEqual(x, 0, i);
        IncreasingOrEqual(x, i + 1, |x| - 1);
        CurveOnInterval(x, y, m, i, x[i]);
        CurveOnInterval(x, y, m, i, x[i + 1]);
        PieceJoins(x, y, m, i);
        assert HermiteAt(x, y, m, x[i]) <= HermiteAt(x, y, m, x[i + 1]);
      }
    }
  }
}
