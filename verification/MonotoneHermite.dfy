/** `monotone_hermite_set` of src/common/curve_tools.c: limiting the tangents in place brings
    the end tangents of every interval into the circle of three times its slope. */
module MonotoneHermite {
  import opened CubicSpline
  import opened HermiteMath

  /** The slope of interval `i`; the last knot repeats the last interval's. */
  ghost function Delta(x: seq<real>, y: seq<real>, i: nat): real
    requires Knots(|x|, x, y) && i < |x|
  {
    if i + 1 < |x| then Secant(x, y, i) else Secant(x, y, |x| - 2)
  }

  /** The tangents before limiting; the array has one unused place more. */
  ghost function Initial(x: seq<real>, y: seq<real>, i: nat): real
    requires Knots(|x|, x, y) && i <= |x|
  {
    if i == |x| then 0.0
    else if i == 0 || i == |x| - 1 then Delta(x, y, i)
    else (Delta(x, y, i - 1) + Delta(x, y, i)) * 0.5
  }

  ghost predicate Flat(x: seq<real>, y: seq<real>, eps: real, i: nat)
    requires Knots(|x|, x, y) && i < |x|
  {
    Abs(Delta(x, y, i)) < eps
  }

  /** `m` is `m0` scaled by a factor between zero and one. */
  predicate Shrunk(m0: real, m: real) {
    (m0 >= 0.0 ==> 0.0 <= m <= m0) && (m0 <= 0.0 ==> m0 <= m <= 0.0)
  }

  /** Tangent `i` has been set to zero by one of the first `k` iterations. */
  ghost predicate Zeroed(x: seq<real>, y: seq<real>, eps: real, i: nat, k: nat)
    requires Knots(|x|, x, y) && i <= |x| && k <= |x|
  {
    (i < k && Flat(x, y, eps, i)) || (0 < i <= k && Flat(x, y, eps, i - 1))
  }

  /** The end tangents of interval `i` lie in the circle of three times its slope. */
  ghost predicate Inside(x: seq<real>, y: seq<real>, m: seq<real>, i: nat)
    requires Knots(|x|, x, y) && i < |x| && |m| == |x| + 1
  {
    m[i] * m[i] + m[i + 1] * m[i + 1] <= 9.0 * Delta(x, y, i) * Delta(x, y, i)
  }

  /** What the limiting loop has established after `k` iterations. */
  ghost predicate LimitedTo(x: seq<real>, y: seq<real>, eps: real, m: seq<real>, k: nat) {
    && Knots(|x|, x, y) && |m| == |x| + 1 && k <= |x|
    && (forall i :: 0 <= i <= |x| ==> Shrunk(Initial(x, y, i), m[i]))
    && (forall i :: 0 <= i <= |x| ==> (m[i] == 0.0 <==> Initial(x, y, i) == 0.0 || Zeroed(x, y, eps, i, k)))
    && (forall i :: 0 <= i < k ==> Inside(x, y, m, i))
  }

  ghost predicate IsSqrt(f: real -> real) {
    forall v :: v >= 0.0 ==> f(v) >= 0.0 && f(v) * f(v) == v
  }

  lemma SquareMonotone(a: real, c: real)
    requires 0.0 <= a <= c
    ensures a * a <= c * c
  {
    Product(c - a, c + a);
    assert (c - a) * (c + a) == c * c - a * a;
  }

  lemma RootExceeds(s: real)
    requires s >= 0.0 && s * s > 9.0
    ensures s > 3.0
  {
    if s <= 3.0 {
      SquareMonotone(s, 3.0);
    }
  }

  /** Scaling two tangents back onto the circle. */
  lemma ScaledOntoCircle(a: real, b: real, d: real, s: real, p: real, q: real) returns (c: real)
    requires d != 0.0 && s > 3.0 && s * s == a / d * (a / d) + b / d * (b / d)
    requires p == 3.0 * (a / d) * d / s && q == 3.0 * (b / d) * d / s
    ensures 0.0 < c < 1.0 && p == c * a && q == c * b && p * p + q * q == 9.0 * d * d
  {
    c := 3.0 / s;
    var u, v := a / d, b / d;
    assert c * s == 3.0;
    assert u * d == a && v * d == b;
    ScaleOne(c, s, u, d, a, p);
    ScaleOne(c, s, v, d, b, q);
    CircleArithmetic(c, s, u, v, d, a, b);
  }

  lemma ScaleOne(c: real, s: real, u: real, d: real, a: real, p: real)
    requires s > 3.0 && c == 3.0 / s && u * d == a && p == 3.0 * u * d / s
    ensures p == c * a && 0.0 < c < 1.0
  {
    assert 3.0 * u * d == 3.0 * a;
    assert p * s == 3.0 * a;
    assert c * s == 3.0;
    assert c * a * s == 3.0 * a;
    assert (p - c * a) * s == 0.0;
  }

  lemma CircleArithmetic(c: real, s: real, u: real, v: real, d: real, a: real, b: real)
    requires c * s == 3.0 && u * d == a && v * d == b && s * s == u * u + v * v
    ensures c * a * (c * a) + c * b * (c * b) == 9.0 * d * d
  {
    calc {
      c * a * (c * a) + c * b * (c * b);
      c * c * (a * a + b * b);
      { assert a * a == u * u * (d * d) && b * b == v * v * (d * d); }
      c * c * ((u * u + v * v) * (d * d));
      c * c * (s * s * (d * d));
      c * s * (c * s) * (d * d);
      { assert c * s * (c * s) == 9.0; }
      9.0 * (d * d);
    }
  }

  /** `p` is `m` scaled by a positive factor of at most one. */
  predicate Reduced(m: real, p: real) {
    Shrunk(m, p) && (p == 0.0 <==> m == 0.0)
  }

  lemma ScaleReduces(m: real, c: real, p: real)
    requires 0.0 < c < 1.0 && p == c * m
    ensures Reduced(m, p)
  {
    if m >= 0.0 {
      Product(c, m);
      Product(1.0 - c, m);
      assert (1.0 - c) * m == m - p;
    } else {
      Product(c, -m);
      Product(1.0 - c, -m);
      assert (1.0 - c) * -m == p - m;
    }
  }

  lemma ReduceAgain(m0: real, m: real, p: real)
    requires Shrunk(m0, m) && Reduced(m, p)
    ensures Shrunk(m0, p) && (p == 0.0 <==> m == 0.0) && p * p <= m * m
  {
    if m >= 0.0 {
      SquareMonotone(p, m);
    } else {
      SquareMonotone(-p, -m);
    }
  }

  /** The end tangents `p` and `q` an interval of slope `d` gets for `a` and `b`: zero where it
      is flat; `a` and `b` themselves where they lie in the circle; else the point of the circle
      in their direction. */
  ghost predicate Limits(a: real, b: real, d: real, eps: real, p: real, q: real) {
    if Abs(d) < eps then p == 0.0 && q == 0.0
    else if InCircle(d, a, b) then p == a && q == b
    else Rescaled(a, b, d, p, q)
  }

  /** On the circle, in the direction of `a` and `b`. */
  ghost predicate Rescaled(a: real, b: real, d: real, p: real, q: real) {
    p * p + q * q == 9.0 * d * d && p * b == q * a && Reduced(a, p) && Reduced(b, q)
  }

  /** A pair that lies in the circle and has not grown. */
  ghost predicate Confined(a: real, b: real, d: real, p: real, q: real) {
    Reduced(a, p) && Reduced(b, q) && InCircle(d, p, q)
  }

  lemma RescaledConfined(a: real, b: real, d: real, p: real, q: real)
    requires Rescaled(a, b, d, p, q)
    ensures Confined(a, b, d, p, q)
  {
  }

  lemma InsideConfined(a: real, b: real, d: real)
    requires InCircle(d, a, b)
    ensures Confined(a, b, d, a, b)
  {
  }

  /** There is only one such pair. */
  lemma LimitsUnique(a: real, b: real, d: real, eps: real, p: real, q: real, p': real, q': real)
    requires Limits(a, b, d, eps, p, q) && Limits(a, b, d, eps, p', q')
    ensures p == p' && q == q'
  {
    if Abs(d) >= eps && !InCircle(d, a, b) {
      var r := a * a + b * b;
      assert r > 0.0 by {
        Square(d);
      }
      OnCircle(a, b, d, p, q, r);
      OnCircle(a, b, d, p', q', r);
      SameRoot(p, p', r, a);
      SameRoot(q, q', r, b);
    }
  }

  lemma OnCircle(a: real, b: real, d: real, p: real, q: real, r: real)
    requires p * p + q * q == 9.0 * d * d && p * b == q * a && r == a * a + b * b
    ensures p * p * r == 9.0 * d * d * (a * a) && q * q * r == 9.0 * d * d * (b * b)
  {
    assert p * p * (b * b) == p * b * (p * b) && q * q * (a * a) == q * a * (q * a);
    assert p * p * r == p * p * (a * a) + p * p * (b * b);
    assert q * q * r == q * q * (a * a) + q * q * (b * b);
    assert (p * p + q * q) * (a * a) == p * p * (a * a) + q * q * (a * a);
    assert (p * p + q * q) * (b * b) == p * p * (b * b) + q * q * (b * b);
  }

  lemma CancelPositive(u: real, v: real, r: real)
    requires r > 0.0 && u * r == v * r
    ensures u == v
  {
    assert (u - v) * r == 0.0 && (v - u) * r == 0.0;
    if u > v {
      PositiveProduct(u - v, r);
    } else if u < v {
      PositiveProduct(v - u, r);
    }
  }

  lemma SameRoot(p: real, p': real, r: real, a: real)
    requires r > 0.0 && p * p * r == p' * p' * r && Reduced(a, p) && Reduced(a, p')
    ensures p == p'
  {
    CancelPositive(p * p, p' * p', r);
    SquareOrder(p, Abs(p'));
    SquareOrder(-p, Abs(p'));
    SquareOrder(p', Abs(p));
    SquareOrder(-p', Abs(p));
    assert Abs(p) * Abs(p) == p * p && Abs(p') * Abs(p') == p' * p';
  }

  /** Iteration `k` of the loop takes the tangents from `m` to `m'`. */
  ghost predicate Iterates(x: seq<real>, y: seq<real>, eps: real, m: seq<real>, m': seq<real>, k: nat)
    requires Knots(|x|, x, y) && k < |x|
  {
    && |m| == |m'| == |x| + 1 && m' == m[k := m'[k]][k + 1 := m'[k + 1]]
    && Limits(m[k], m[k + 1], Delta(x, y, k), eps, m'[k], m'[k + 1])
  }

  /** The tangents before limiting. */
  ghost predicate Unlimited(x: seq<real>, y: seq<real>, m: seq<real>)
    requires Knots(|x|, x, y)
  {
    |m| == |x| + 1 && forall j :: 0 <= j <= |x| ==> m[j] == Initial(x, y, j)
  }

  /** The tangents before each of the first `k` iterations, and after the last of them. */
  ghost predicate Trace(x: seq<real>, y: seq<real>, eps: real, trace: seq<seq<real>>, k: nat)
    requires Knots(|x|, x, y) && k <= |x|
  {
    && |trace| == k + 1 && Unlimited(x, y, trace[0])
    && forall i :: 0 <= i < k ==> Iterates(x, y, eps, trace[i], trace[i + 1], i)
  }

  /** `m` is what `k` iterations make of the initial tangents. */
  ghost predicate LimitedBy(x: seq<real>, y: seq<real>, eps: real, m: seq<real>, k: nat)
    requires Knots(|x|, x, y) && k <= |x|
  {
    exists trace :: Trace(x, y, eps, trace, k) && trace[k] == m
  }

  lemma {:induction false} TraceUnique(x: seq<real>, y: seq<real>, eps: real, a: seq<seq<real>>, b: seq<seq<real>>,
                                       k: nat, i: nat)
    requires Knots(|x|, x, y) && i <= k <= |x| && Trace(x, y, eps, a, k) && Trace(x, y, eps, b, k)
    ensures a[i] == b[i]
    decreases i
  {
    hide Initial, Delta, Limits, Knots;
    if i > 0 {
      TraceUnique(x, y, eps, a, b, k, i - 1);
      var j := i - 1;
      assert Iterates(x, y, eps, a[j], a[j + 1], j) && Iterates(x, y, eps, b[j], b[j + 1], j);
      LimitsUnique(a[j][j], a[j][i], Delta(x, y, j), eps, a[i][j], a[i][i], b[i][j], b[i][i]);
    }
  }

  /** The data determine the tangents. */
  lemma TangentsUnique(x: seq<real>, y: seq<real>, eps: real, m: seq<real>, m': seq<real>, k: nat)
    requires Knots(|x|, x, y) && k <= |x| && LimitedBy(x, y, eps, m, k) && LimitedBy(x, y, eps, m', k)
    ensures m == m'
  {
    hide Iterates, Unlimited, Knots;
    var a :| Trace(x, y, eps, a, k) && a[k] == m;
    var b :| Trace(x, y, eps, b, k) && b[k] == m';
    TraceUnique(x, y, eps, a, b, k, k);
  }

  lemma LimitedByNext(x: seq<real>, y: seq<real>, eps: real, m: seq<real>, m': seq<real>, k: nat)
    requires Knots(|x|, x, y) && k < |x| && LimitedBy(x, y, eps, m, k) && Iterates(x, y, eps, m, m', k)
    ensures LimitedBy(x, y, eps, m', k + 1)
  {
    hide Iterates, Knots, Unlimited;
    var trace :| Trace(x, y, eps, trace, k) && trace[k] == m;
    var more := trace + [m'];
    assert Trace(x, y, eps, more, k + 1) && more[k + 1] == m';
  }

  lemma LimitedByNone(x: seq<real>, y: seq<real>, eps: real, m: seq<real>)
    requires Knots(|x|, x, y) && Unlimited(x, y, m)
    ensures LimitedBy(x, y, eps, m, 0)
  {
    hide Unlimited, Knots;
    assert Trace(x, y, eps, [m], 0) && [m][0] == m;
  }

  // ----- when the loop changes nothing -----

  /** No interval is flat and the initial tangents of each lie in its circle. */
  ghost predicate NothingToLimit(x: seq<real>, y: seq<real>, eps: real)
    requires Knots(|x|, x, y)
  {
    forall i :: 0 <= i < |x| ==> Kept(x, y, eps, i)
  }

  ghost predicate Kept(x: seq<real>, y: seq<real>, eps: real, i: nat)
    requires Knots(|x|, x, y) && i < |x|
  {
    !Flat(x, y, eps, i) && InCircle(Delta(x, y, i), Initial(x, y, i), Initial(x, y, i + 1))
  }

  lemma {:induction false} KeepsInitial(x: seq<real>, y: seq<real>, eps: real, trace: seq<seq<real>>, k: nat, i: nat)
    requires Knots(|x|, x, y) && i <= k <= |x| && Trace(x, y, eps, trace, k) && NothingToLimit(x, y, eps)
    ensures Unlimited(x, y, trace[i])
    decreases i
  {
    hide Initial, Delta, Knots, InCircle;
    if i > 0 {
      KeepsInitial(x, y, eps, trace, k, i - 1);
      var j := i - 1;
      assert Iterates(x, y, eps, trace[j], trace[j + 1], j) && Kept(x, y, eps, j);
    }
  }

  /** Then the tangents are the initial ones. */
  lemma UnlimitedTangents(x: seq<real>, y: seq<real>, eps: real, m: seq<real>)
    requires Knots(|x|, x, y) && LimitedBy(x, y, eps, m, |x|) && NothingToLimit(x, y, eps)
    ensures Unlimited(x, y, m)
  {
    hide Iterates, Knots, Unlimited, NothingToLimit;
    var trace :| Trace(x, y, eps, trace, |x|) && trace[|x|] == m;
    KeepsInitial(x, y, eps, trace, |x|, |x|);
  }

  /** The initial tangents in terms of the data: the slope of the end interval, or the mean of
      the slopes on both sides. */
  lemma InitialIsAverage(x: seq<real>, y: seq<real>, i: nat)
    requires Knots(|x|, x, y) && i < |x|
    ensures i == 0 ==> x[0] < x[1] && Initial(x, y, i) == (y[1] - y[0]) / (x[1] - x[0])
    ensures i > 0 ==> x[i - 1] < x[i]
    ensures 0 < i == |x| - 1 ==> Initial(x, y, i) == (y[i] - y[i - 1]) / (x[i] - x[i - 1])
    ensures 0 < i < |x| - 1 ==>
              && x[i] < x[i + 1]
              && 2.0 * Initial(x, y, i) ==
                 (y[i] - y[i - 1]) / (x[i] - x[i - 1]) + (y[i + 1] - y[i]) / (x[i + 1] - x[i])
  {
  }

  lemma FlatNext(x: seq<real>, y: seq<real>, eps: real, m: seq<real>, k: nat)
    requires LimitedTo(x, y, eps, m, k) && k < |x| && Flat(x, y, eps, k)
    ensures LimitedTo(x, y, eps, m[k := 0.0][k + 1 := 0.0], k + 1)
  {
    hide Initial, Delta, Flat;
    var m' := m[k := 0.0][k + 1 := 0.0];
    forall i | 0 <= i < k + 1 ensures Inside(x, y, m', i) {
      Square(Delta(x, y, i));
      if i < k {
        assert Inside(x, y, m, i);
        Square(m[i]);
        Square(m[i + 1]);
      }
    }
  }

  lemma ScaleNext(x: seq<real>, y: seq<real>, eps: real, m: seq<real>, k: nat, p: real, q: real)
    requires LimitedTo(x, y, eps, m, k) && k < |x| && !Flat(x, y, eps, k)
    requires Reduced(m[k], p) && Reduced(m[k + 1], q)
    requires InCircle(Delta(x, y, k), p, q)
    ensures LimitedTo(x, y, eps, m[k := p][k + 1 := q], k + 1)
  {
    hide Initial, Delta, Flat, Shrunk, Reduced;
    ReduceAgain(Initial(x, y, k), m[k], p);
    ReduceAgain(Initial(x, y, k + 1), m[k + 1], q);
    var m' := m[k := p][k + 1 := q];
    forall i | 0 <= i < k + 1 ensures Inside(x, y, m', i) {
      if i < k {
        assert Inside(x, y, m, i);
      }
    }
  }

  /** What every iteration establishes and keeps. */
  lemma IterationLimits(x: seq<real>, y: seq<real>, eps: real, m: seq<real>, m': seq<real>, k: nat)
    requires Knots(|x|, x, y) && LimitedTo(x, y, eps, m, k) && k < |x| && Iterates(x, y, eps, m, m', k)
    ensures LimitedTo(x, y, eps, m', k + 1)
  {
    hide Initial, Delta, Reduced, InCircle, Rescaled, Confined, LimitedTo, Knots;
    var p, q, d := m'[k], m'[k + 1], Delta(x, y, k);
    if Flat(x, y, eps, k) {
      FlatNext(x, y, eps, m, k);
    } else {
      if InCircle(d, m[k], m[k + 1]) {
        InsideConfined(m[k], m[k + 1], d);
      } else {
        RescaledConfined(m[k], m[k + 1], d, p, q);
      }
      ConfinedParts(m[k], m[k + 1], d, p, q);
      ScaleNext(x, y, eps, m, k, p, q);
    }
  }

  lemma ConfinedParts(a: real, b: real, d: real, p: real, q: real)
    requires Confined(a, b, d, p, q)
    ensures Reduced(a, p) && Reduced(b, q) && InCircle(d, p, q)
  {
  }

  lemma {:induction false} TraceLimited(x: seq<real>, y: seq<real>, eps: real, trace: seq<seq<real>>, k: nat, i: nat)
    requires Knots(|x|, x, y) && i <= k <= |x| && Trace(x, y, eps, trace, k)
    ensures LimitedTo(x, y, eps, trace[i], i)
    decreases i
  {
    hide LimitedTo, Iterates, Knots, Initial;
    if i == 0 {
      StartLimited(x, y, eps, trace[0]);
    } else {
      TraceLimited(x, y, eps, trace, k, i - 1);
      var j := i - 1;
      assert Iterates(x, y, eps, trace[j], trace[j + 1], j);
      IterationLimits(x, y, eps, trace[j], trace[i], j);
    }
  }

  /** The tangents the loop ends with are the initial ones scaled by factors from zero to one,
      zero exactly where told, and in the circle of every interval. */
  lemma LimitedByIsLimited(x: seq<real>, y: seq<real>, eps: real, m: seq<real>)
    requires Knots(|x|, x, y) && LimitedBy(x, y, eps, m, |x|)
    ensures LimitedTo(x, y, eps, m, |x|)
  {
    hide LimitedTo, Iterates, Knots, Unlimited;
    var trace :| Trace(x, y, eps, trace, |x|) && trace[|x|] == m;
    TraceLimited(x, y, eps, trace, |x|, |x|);
  }

  /** The test of the source: tangents over the slope, squared and summed, at most nine. */
  lemma TestIsInside(a: real, b: real, d: real)
    requires d != 0.0
    ensures Tau(a / d, b / d) <= 9.0 <==> InCircle(d, a, b)
  {
    var u, v := a / d, b / d;
    assert u * d == a && v * d == b;
    assert a * a == u * u * (d * d) && b * b == v * v * (d * d);
    var tau, dd := u * u + v * v, d * d;
    NonzeroSquare(d, dd);
    assert tau * dd == u * u * dd + v * v * dd;
    ScaleTest(tau, dd);
    assert 9.0 * d * d == 9.0 * dd;
  }

  lemma NonzeroSquare(d: real, dd: real)
    requires d != 0.0 && dd == d * d
    ensures dd > 0.0
  {
    if d > 0.0 {
      PositiveFactors(d, d, dd);
    } else {
      PositiveFactors(-d, -d, dd);
    }
  }

  lemma PositiveFactors(x: real, y: real, xy: real)
    requires x > 0.0 && y > 0.0 && xy == x * y
    ensures xy > 0.0
  {
    PositiveProduct(x, y);
  }

  lemma ScaleTest(tau: real, dd: real)
    requires dd > 0.0
    ensures tau <= 9.0 <==> tau * dd <= 9.0 * dd
  {
    assert (9.0 - tau) * dd == 9.0 * dd - tau * dd;
    if tau <= 9.0 {
      Product(9.0 - tau, dd);
    } else {
      assert (tau - 9.0) * dd == tau * dd - 9.0 * dd;
      PositiveProduct(tau - 9.0, dd);
    }
  }

  /** The tangents of a monotone curve; `ok` is false where the source returns NULL. */
  method MonotoneHermiteSet(n: int, x: array<real>, y: array<real>, sqrt: real -> real, eps: real)
    returns (ok: bool, m: array<real>)
    requires n <= x.Length && n <= y.Length && IsSqrt(sqrt) && eps > 0.0
    ensures ok <==> n >= 2 && Increasing(x[..n])
    ensures ok ==> m.Length == n + 1 && LimitedTo(x[..n], y[..n], eps, m[..], n)
    ensures ok ==> LimitedBy(x[..n], y[..n], eps, m[..], n)
  {
    m := new real[0];
    if n <= 1 {
      return false, m;
    }
    ok := CheckKnots(n, x);
    if !ok {
      return;
    }
    ghost var X, Y := x[..n], y[..n];
    var delta := Slopes(n, x, y);
    m := Tangents(n, delta, X, Y);
    StartLimited(X, Y, eps, m[..]);
    LimitedByNone(X, Y, eps, m[..]);
    for i := 0 to n
      invariant LimitedTo(X, Y, eps, m[..], i) && LimitedBy(X, Y, eps, m[..], i)
      invariant delta.Length == n && fresh(delta) && forall j :: 0 <= j < n ==> delta[j] == Delta(X, Y, j)
      invariant m.Length == n + 1 && fresh(m) && delta != m && x[..n] == X && y[..n] == Y
    {
      hide LimitedTo, LimitedBy, Initial, Delta, Iterates, Knots;
      ghost var before := m[..];
      LimitStep(i, delta, m, sqrt, eps, X, Y);
      LimitedByNext(X, Y, eps, before, m[..], i);
    }
  }

  method Slopes(n: nat, x: array<real>, y: array<real>) returns (delta: array<real>)
    requires n <= x.Length && n <= y.Length && Knots(n, x[..n], y[..n])
    ensures fresh(delta) && delta.Length == n
    ensures forall j :: 0 <= j < n ==> delta[j] == Delta(x[..n], y[..n], j)
  {
    ghost var X, Y := x[..n], y[..n];
    delta := new real[n](_ => 0.0);
    for i := 0 to n - 1
      invariant x[..n] == X && y[..n] == Y
      invariant forall j :: 0 <= j < i ==> delta[j] == Secant(X, Y, j)
    {
      assert X[i] < X[i + 1];
      delta[i] := (y[i + 1] - y[i]) / (x[i + 1] - x[i]);
    }
    delta[n - 1] := delta[n - 2];
  }

  method Tangents(n: nat, delta: array<real>, ghost x: seq<real>, ghost y: seq<real>) returns (m: array<real>)
    requires Knots(n, x, y) && delta.Length == n && forall j :: 0 <= j < n ==> delta[j] == Delta(x, y, j)
    ensures fresh(m) && m.Length == n + 1
    ensures forall j :: 0 <= j <= n ==> m[j] == Initial(x, y, j)
  {
    hide Delta;
    m := new real[n + 1](_ => 0.0);
    m[0], m[n - 1] := delta[0], delta[n - 1];
    for i := 1 to n - 1
      invariant forall j :: 0 <= j < i ==> m[j] == Initial(x, y, j)
      invariant m[n - 1] == delta[n - 1] && m[n] == 0.0
      invariant forall j :: 0 <= j < n ==> delta[j] == Delta(x, y, j)
    {
      m[i] := (delta[i - 1] + delta[i]) * 0.5;
    }
  }

  lemma StartLimited(x: seq<real>, y: seq<real>, eps: real, m: seq<real>)
    requires Knots(|x|, x, y) && |m| == |x| + 1
    requires forall j :: 0 <= j <= |x| ==> m[j] == Initial(x, y, j)
    ensures LimitedTo(x, y, eps, m, 0)
  {
    hide Initial;
  }

  lemma LargeRoot(sqrt: real -> real, v: real)
    requires IsSqrt(sqrt) && v > 9.0
    ensures sqrt(v) > 3.0 && sqrt(v) * sqrt(v) == v
  {
    var s := sqrt(v);
    assert s >= 0.0 && s * s == v;
    RootExceeds(s);
  }

  method ScaleBack(a: real, b: real, d: real, alpha: real, beta: real, root: real) returns (p: real, q: real)
    requires d != 0.0 && alpha == a / d && beta == b / d && root > 3.0
    requires root * root == Tau(alpha, beta)
    ensures Rescaled(a, b, d, p, q)
  {
    hide Reduced;
    p, q := 3.0 * alpha * d / root, 3.0 * beta * d / root;
    ghost var c := ScaledOntoCircle(a, b, d, root, p, q);
    ScaleReduces(a, c, p);
    ScaleReduces(b, c, q);
  }

  /** The new end tangents of an interval of slope `d`. */
  method LimitPair(a: real, b: real, d: real, sqrt: real -> real, eps: real) returns (p: real, q: real)
    requires IsSqrt(sqrt) && eps > 0.0
    ensures Limits(a, b, d, eps, p, q) && (Abs(d) < eps ==> p == 0.0 && q == 0.0)
    ensures Abs(d) >= eps ==> Confined(a, b, d, p, q)
  {
    hide Reduced, InCircle, Rescaled, Confined, Tau;
    if Abs(d) < eps {
      return 0.0, 0.0;
    }
    var alpha, beta := a / d, b / d;
    var tau := Tau(alpha, beta);
    TestIsInside(a, b, d);
    if tau > 9.0 {
      LargeRoot(sqrt, tau);
      p, q := ScaleBack(a, b, d, alpha, beta, sqrt(tau));
      RescaledConfined(a, b, d, p, q);
    } else {
      p, q := a, b;
      InsideConfined(a, b, d);
    }
  }

  function Tau(alpha: real, beta: real): real {
    alpha * alpha + beta * beta
  }

  /** One iteration of the limiting loop. */
  method LimitStep(i: nat, delta: array<real>, m: array<real>, sqrt: real -> real, eps: real,
                   ghost x: seq<real>, ghost y: seq<real>)
    requires IsSqrt(sqrt) && eps > 0.0 && LimitedTo(x, y, eps, m[..], i) && i < |x|
    requires delta != m && delta.Length == |x| && forall j :: 0 <= j < |x| ==> delta[j] == Delta(x, y, j)
    modifies m
    ensures LimitedTo(x, y, eps, m[..], i + 1)
    ensures Knots(|x|, x, y) && Iterates(x, y, eps, old(m[..]), m[..], i)
  {
    hide Limits, Initial, Delta, Shrunk, Reduced, IsSqrt;
    ghost var m0 := m[..];
    var p, q := LimitPair(m[i], m[i + 1], delta[i], sqrt, eps);
    if Flat(x, y, eps, i) {
      FlatNext(x, y, eps, m0, i);
    } else {
      ScaleNext(x, y, eps, m0, i, p, q);
    }
    m[i], m[i + 1] := p, q;
    assert m[..] == m0[i := p][i + 1 := q];
  }
}
