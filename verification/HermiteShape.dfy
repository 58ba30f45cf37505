/** What the Hermite pieces of src/common/curve_tools.c are, apart from the basis polynomials:
    the cubic with the given end values and end slopes. And what they make of straight data. */
module HermiteShape {
  import opened CubicSpline
  import opened HermiteMath
  import opened MonotoneHermite
  import opened HermiteCurve

  // ----- the piece of an interval -----

  /** The cubic with these values and slopes at 0 and at `h`. */
  ghost predicate Joins(p: Cubic, h: real, y0: real, y1: real, m0: real, m1: real) {
    Eval(p, 0.0) == y0 && Eval(p, h) == y1 && Slope(p, 0.0) == m0 && Slope(p, h) == m1
  }

  /** In powers of the normalized coordinate. */
  function InPowers(y0: real, d: real, a: real, b: real, t: real): real {
    y0 + t * (a + t * (Quad(d, a, b) + t * Cube(d, a, b)))
  }

  function Quad(d: real, a: real, b: real): real {
    3.0 * d - 2.0 * a - b
  }

  function Cube(d: real, a: real, b: real): real {
    a + b - 2.0 * d
  }

  lemma BasisInPowers(y0: real, y1: real, a: real, b: real, t: real)
    ensures H00(t) * y0 + H10(t) * a + H01(t) * y1 + H11(t) * b == InPowers(y0, y1 - y0, a, b, t)
  {
    var t2 := t * t;
    var t3 := t2 * t;
    assert H00(t) == 2.0 * t3 - 3.0 * t2 + 1.0 && H10(t) == t3 - 2.0 * t2 + t;
    assert H01(t) == -2.0 * t3 + 3.0 * t2 && H11(t) == t3 - t2;
    var c, e, d := 3.0 * (y1 - y0) - 2.0 * a - b, a + b - 2.0 * (y1 - y0), y1 - y0;
    assert t * (a + t * (c + t * e)) == t * a + t2 * c + t3 * e;
  }

  /** Substituting u = t h in a cubic whose coefficients are divided by powers of `h`. */
  lemma Substituted(p: Cubic, c: real, e: real, h: real, s: real, t: real, u: real)
    requires h * s == 1.0 && u == t * h && p.c == c * s * s && p.d == e * s * s * s
    ensures Eval(p, u) == p.a + t * (h * p.b + t * (c + t * e))
  {
    assert u * s == t by {
      assert t * h * s == t * (h * s);
    }
    assert u * p.d == t * e * s * s by {
      assert u * (e * s * s * s) == u * s * (e * s * s);
    }
    assert u * p.c == t * c * s by {
      assert u * (c * s * s) == u * s * (c * s);
    }
    assert u * (u * p.d) == t * (t * e) * s by {
      assert u * (t * e * s * s) == u * s * (t * e * s);
    }
    assert u * (p.c + u * p.d) == u * p.c + u * (u * p.d);
    assert u * (p.b + u * (p.c + u * p.d)) == u * p.b + u * (t * c * s) + u * (t * (t * e) * s);
    assert u * (t * c * s) == u * s * (t * c) && u * (t * (t * e) * s) == u * s * (t * (t * e));
  }

  /** That cubic, given the inverse `s` of the interval's length. */
  function HermiteCubic(y0: real, m0: real, d: real, a: real, b: real, s: real): Cubic {
    Cubic(y0, m0, Quad(d, a, b) * s * s, Cube(d, a, b) * s * s * s)
  }

  lemma CubicInPowers(y0: real, m0: real, d: real, a: real, b: real, h: real, s: real, t: real)
    requires h * s == 1.0 && a == h * m0
    ensures Eval(HermiteCubic(y0, m0, d, a, b, s), t * h) == InPowers(y0, d, a, b, t)
  {
    hide Eval, Quad, Cube;
    Substituted(HermiteCubic(y0, m0, d, a, b, s), Quad(d, a, b), Cube(d, a, b), h, s, t, t * h);
  }

  lemma CubicJoins(y0: real, y1: real, m0: real, m1: real, h: real, s: real)
    requires h * s == 1.0
    ensures Joins(HermiteCubic(y0, m0, y1 - y0, h * m0, h * m1, s), h, y0, y1, m0, m1)
  {
    var d, a, b := y1 - y0, h * m0, h * m1;
    CubicInPowers(y0, m0, d, a, b, h, s, 1.0);
    assert 1.0 * h == h && InPowers(y0, d, a, b, 1.0) == y1;
    var c, e := 3.0 * d - 2.0 * a - b, a + b - 2.0 * d;
    SlopeAtEnd(m0, m1, c, e, h, s, y0);
  }

  /** On its interval, and beyond, a piece is the cubic that joins the two data points with the
      two tangents. */
  lemma PieceIsCubic(x: seq<real>, y: seq<real>, m: seq<real>, i: nat) returns (p: Cubic)
    requires Curve(x, y, m) && i + 1 < |x|
    ensures Joins(p, x[i + 1] - x[i], y[i], y[i + 1], m[i], m[i + 1])
    ensures forall v :: PieceAt(x, y, m, i, v) == Eval(p, v - x[i])
  {
    var h := x[i + 1] - x[i];
    assert h > 0.0;
    var s := 1.0 / h;
    assert h * s == 1.0;
    p := HermiteCubic(y[i], m[i], y[i + 1] - y[i], h * m[i], h * m[i + 1], s);
    hide Eval, PieceAt, HermiteCubic, Joins;
    CubicJoins(y[i], y[i + 1], m[i], m[i + 1], h, s);
    forall v ensures PieceAt(x, y, m, i, v) == Eval(p, v - x[i]) {
      PieceInPowers(x, y, m, i, v, h, s);
    }
  }

  lemma PieceInPowers(x: seq<real>, y: seq<real>, m: seq<real>, i: nat, v: real, h: real, s: real)
    requires Curve(x, y, m) && i + 1 < |x| && h == x[i + 1] - x[i] && h > 0.0 && h * s == 1.0
    ensures PieceAt(x, y, m, i, v) ==
            Eval(HermiteCubic(y[i], m[i], y[i + 1] - y[i], h * m[i], h * m[i + 1], s), v - x[i])
  {
    hide Eval, PieceAt, InPowers, HermiteCubic, H00, H01, H10, H11;
    var d, a, b := y[i + 1] - y[i], h * m[i], h * m[i + 1];
    var t := (v - x[i]) / h;
    assert t * h == v - x[i];
    PieceAtNamed(x, y, m, i, v, h, t);
    BasisInPowers(y[i], y[i + 1], a, b, t);
    CubicInPowers(y[i], m[i], d, a, b, h, s, t);
  }

  lemma PieceAtNamed(x: seq<real>, y: seq<real>, m: seq<real>, i: nat, v: real, h: real, t: real)
    requires Curve(x, y, m) && i + 1 < |x| && h == x[i + 1] - x[i] && h > 0.0 && t == (v - x[i]) / h
    ensures PieceAt(x, y, m, i, v) == H00(t) * y[i] + H10(t) * (h * m[i]) + H01(t) * y[i + 1] + H11(t) * (h * m[i + 1])
  {
    hide H00, H10, H01, H11;
    var p, q := H10(t), H11(t);
    assert p * h * m[i] == p * (h * m[i]) && q * h * m[i + 1] == q * (h * m[i + 1]);
  }

  lemma SlopeAtEnd(m0: real, m1: real, c: real, e: real, h: real, s: real, y0: real)
    requires h * s == 1.0 && h * m0 + 2.0 * c + 3.0 * e == h * m1
    ensures Slope(Cubic(y0, m0, c * s * s, e * s * s * s), h) == m1
  {
    var C, E := c * s * s, e * s * s * s;
    assert h * C == c * s by {
      assert h * (c * s * s) == h * s * (c * s);
    }
    assert h * (h * E) == e * s by {
      assert h * (h * (e * s * s * s)) == h * s * (h * s) * (e * s);
    }
    assert Slope(Cubic(y0, m0, C, E), h) == m0 + 2.0 * (c * s) + 3.0 * (e * s);
    assert s * (h * m0 + 2.0 * c + 3.0 * e) == h * s * m0 + 2.0 * (c * s) + 3.0 * (e * s);
    assert s * (h * m1) == h * s * m1;
  }

  // ----- straight data -----

  ghost predicate Straight(x: seq<real>, y: seq<real>, base: real, slope: real) {
    |x| == |y| && forall i :: 0 <= i < |x| ==> y[i] == base + slope * x[i]
  }

  lemma StraightSlopes(x: seq<real>, y: seq<real>, base: real, slope: real, i: nat)
    requires Knots(|x|, x, y) && Straight(x, y, base, slope) && i < |x|
    ensures Delta(x, y, i) == slope
  {
    var j := if i + 1 < |x| then i else |x| - 2;
    assert x[j] < x[j + 1];
    SlopeOfLine(x[j], x[j + 1], y[j], y[j + 1], base, slope);
  }

  lemma SlopeOfLine(x0: real, x1: real, y0: real, y1: real, base: real, slope: real)
    requires x0 < x1 && y0 == base + slope * x0 && y1 == base + slope * x1
    ensures (y1 - y0) / (x1 - x0) == slope
  {
    var h := x1 - x0;
    assert y1 - y0 == slope * h;
    Quotient(y1 - y0, slope, h);
  }

  lemma StraightInitial(x: seq<real>, y: seq<real>, base: real, slope: real, i: nat)
    requires Knots(|x|, x, y) && Straight(x, y, base, slope) && i < |x|
    ensures Initial(x, y, i) == slope
  {
    hide Delta, Straight;
    StraightSlopes(x, y, base, slope, i);
    if i > 0 {
      StraightSlopes(x, y, base, slope, i - 1);
    }
  }

  lemma StraightKept(x: seq<real>, y: seq<real>, eps: real, base: real, slope: real)
    requires Knots(|x|, x, y) && Straight(x, y, base, slope) && Abs(slope) >= eps
    ensures NothingToLimit(x, y, eps)
  {
    hide Delta, Initial, Straight;
    forall i | 0 <= i < |x| ensures Kept(x, y, eps, i) {
      StraightSlopes(x, y, base, slope, i);
      StraightInitial(x, y, base, slope, i);
      assert Initial(x, y, i + 1) == slope || Initial(x, y, i + 1) == 0.0 by {
        if i + 1 < |x| {
          StraightInitial(x, y, base, slope, i + 1);
        } else {
          InitialBeyond(x, y);
        }
      }
      CircleOfSlope(slope, Initial(x, y, i + 1));
    }
  }

  lemma InitialBeyond(x: seq<real>, y: seq<real>)
    requires Knots(|x|, x, y)
    ensures Initial(x, y, |x|) == 0.0
  {
  }

  lemma CircleOfSlope(d: real, b: real)
    requires b == d || b == 0.0
    ensures InCircle(d, d, b)
  {
    Square(d);
  }

  /** The tangents of straight data: their slope, or zero where it counts as flat. */
  lemma StraightTangents(x: seq<real>, y: seq<real>, eps: real, m: seq<real>, base: real, slope: real, i: nat)
    requires Knots(|x|, x, y) && LimitedBy(x, y, eps, m, |x|) && Straight(x, y, base, slope) && i < |x|
    ensures |m| == |x| + 1 && m[i] == if Abs(slope) >= eps then slope else 0.0
  {
    hide LimitedBy, Straight, Initial, Delta, NothingToLimit;
    LimitedByIsLimited(x, y, eps, m);
    if Abs(slope) >= eps {
      StraightKept(x, y, eps, base, slope);
      UnlimitedTangents(x, y, eps, m);
      StraightInitial(x, y, base, slope, i);
    } else {
      StraightSlopes(x, y, base, slope, i);
      assert Zeroed(x, y, eps, i, |x|);
    }
  }

  lemma LinePiece(x: seq<real>, y: seq<real>, m: seq<real>, base: real, slope: real, i: nat, v: real)
    requires Curve(x, y, m) && Straight(x, y, base, slope) && i + 1 < |x| && m[i] == m[i + 1] == slope
    ensures PieceAt(x, y, m, i, v) == base + slope * v
  {
    var h := x[i + 1] - x[i];
    var t := (v - x[i]) / h;
    assert t * h == v - x[i];
    PieceAtNamed(x, y, m, i, v, h, t);
    BasisInPowers(y[i], y[i + 1], h * slope, h * slope, t);
    var d := y[i + 1] - y[i];
    assert d == h * slope;
    assert InPowers(y[i], d, d, d, t) == y[i] + t * d;
    assert t * (h * slope) == t * h * slope;
  }

  /** A quarter into an interval, a piece with level ends has risen by five parts in 32. */
  lemma LevelPiece(x: seq<real>, y: seq<real>, m: seq<real>, i: nat)
    requires Curve(x, y, m) && i + 1 < |x| && m[i] == m[i + 1] == 0.0
    ensures var v := x[i] + 0.25 * (x[i + 1] - x[i]);
            PieceAt(x, y, m, i, v) == y[i] + 5.0 / 32.0 * (y[i + 1] - y[i])
  {
    var h := x[i + 1] - x[i];
    var v := x[i] + 0.25 * h;
    Quotient(v - x[i], 0.25, h);
    PieceAtNamed(x, y, m, i, v, h, 0.25);
    BasisInPowers(y[i], y[i + 1], h * 0.0, h * 0.0, 0.25);
  }

  ghost predicate IsLine(x: seq<real>, y: seq<real>, m: seq<real>, base: real, slope: real)
    requires Curve(x, y, m)
  {
    forall v :: HermiteAt(x, y, m, v) == base + slope * v
  }

  lemma StraightLine(x: seq<real>, y: seq<real>, m: seq<real>, base: real, slope: real)
    requires Curve(x, y, m) && Straight(x, y, base, slope) && forall i :: 0 <= i < |x| ==> m[i] == slope
    ensures IsLine(x, y, m, base, slope)
  {
    hide PieceAt, Straight, Increasing;
    forall v ensures HermiteAt(x, y, m, v) == base + slope * v {
      LinePiece(x, y, m, base, slope, IntervalFrom(x, v, 0), v);
    }
  }

  /** The curve of straight data is that line if and only if its slope does not count as flat,
      or it is level. */
  lemma StraightIff(x: seq<real>, y: seq<real>, eps: real, m: seq<real>, base: real, slope: real)
    requires Knots(|x|, x, y) && LimitedBy(x, y, eps, m, |x|) && Straight(x, y, base, slope) && eps > 0.0
    ensures Curve(x, y, m)
    ensures IsLine(x, y, m, base, slope) <==> Abs(slope) >= eps || slope == 0.0
  {
    hide LimitedBy, Straight, IsLine, Increasing;
    forall i | 0 <= i < |x|
      ensures |m| == |x| + 1 && m[i] == if Abs(slope) >= eps then slope else 0.0
    {
      StraightTangents(x, y, eps, m, base, slope, i);
    }
    assert |m| == |x| + 1 by {
      StraightTangents(x, y, eps, m, base, slope, 0);
    }
    if Abs(slope) >= eps || slope == 0.0 {
      StraightLine(x, y, m, base, slope);
    } else {
      BentPiece(x, y, m, base, slope);
    }
  }

  lemma BentPiece(x: seq<real>, y: seq<real>, m: seq<real>, base: real, slope: real)
    requires Curve(x, y, m) && Straight(x, y, base, slope) && m[0] == m[1] == 0.0 && slope != 0.0
    ensures !IsLine(x, y, m, base, slope)
  {
    assert x[0] < x[1];
    var h := x[1] - x[0];
    var v := x[0] + 0.25 * h;
    LevelPiece(x, y, m, 0);
    CurveOnInterval(x, y, m, 0, v);
    hide PieceAt;
    var rise := slope * h;
    assert y[1] - y[0] == rise && base + slope * v == y[0] + 0.25 * rise;
    assert rise != 0.0 by {
      if rise == 0.0 {
        Quotient(0.0, slope, h);
      }
    }
    assert HermiteAt(x, y, m, v) != base + slope * v;
  }
}
