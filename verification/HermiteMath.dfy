/** The cubic Hermite piece of src/common/curve_tools.c on one interval, in the normalized
    coordinate: exactly when it is nondecreasing. */
module HermiteMath {

  function H00(t: real): real { 2.0 * t * t * t - 3.0 * t * t + 1.0 }
  function H10(t: real): real { t * t * t - 2.0 * t * t + t }
  function H01(t: real): real { -2.0 * t * t * t + 3.0 * t * t }
  function H11(t: real): real { t * t * t - t * t }

  /** The rise from the left end: `d` is the rise over the interval, `a` and `b` are the
      end tangents times the interval's length. */
  function Rise(d: real, a: real, b: real, t: real): real {
    d * H01(t) + a * H10(t) + b * H11(t)
  }

  lemma Product(x: real, y: real)
    requires x >= 0.0 && y >= 0.0
    ensures x * y >= 0.0
  {
  }

  lemma Square(x: real)
    ensures x * x >= 0.0
  {
    Product(if x >= 0.0 then x else -x, if x >= 0.0 then x else -x);
  }

  // ----- the four extreme curves are nondecreasing on the unit interval -----

  lemma CubeMonotone(u: real, v: real)
    requires u <= v
    ensures u * u * u <= v * v * v
  {
    var q := u * u + u * v + v * v;
    Square(u + v / 2.0);
    Square(v);
    assert q == (u + v / 2.0) * (u + v / 2.0) + 0.75 * (v * v);
    Product(v - u, q);
    assert (v - u) * q == v * v * v - u * u * u;
  }

  lemma SmoothstepMonotone(u: real, v: real)
    requires 0.0 <= u <= v <= 1.0
    ensures H01(u) <= H01(v)
  {
    var q := 3.0 * (u + v) - 2.0 * (u * u + u * v + v * v);
    Product(u, 1.0 - u);
    Product(v, 1.0 - v);
    Product(u, 1.0 - v);
    Product(v, 1.0 - u);
    assert q >= 0.0;
    Product(v - u, q);
    assert H01(v) - H01(u) == (v - u) * q;
  }

  lemma LeftExtremeMonotone(u: real, v: real)
    requires 0.0 <= u <= v <= 1.0
    ensures H01(u) + 3.0 * H10(u) <= H01(v) + 3.0 * H10(v)
  {
    CubeMonotone(1.0 - v, 1.0 - u);
    LeftExtreme(u);
    LeftExtreme(v);
  }

  lemma LeftExtreme(t: real)
    ensures H01(t) + 3.0 * H10(t) == 1.0 - (1.0 - t) * (1.0 - t) * (1.0 - t)
  {
  }

  lemma RightExtremeMonotone(u: real, v: real)
    requires 0.0 <= u <= v <= 1.0
    ensures H01(u) + 3.0 * H11(u) <= H01(v) + 3.0 * H11(v)
  {
    CubeMonotone(u, v);
  }

  lemma BothExtremesMonotone(u: real, v: real)
    requires 0.0 <= u <= v <= 1.0
    ensures H01(u) + 3.0 * H10(u) + 3.0 * H11(u) <= H01(v) + 3.0 * H10(v) + 3.0 * H11(v)
  {
    CubeMonotone(2.0 * u - 1.0, 2.0 * v - 1.0);
    BothExtremes(u);
    BothExtremes(v);
  }

  lemma BothExtremes(t: real)
    ensures H01(t) + 3.0 * H10(t) + 3.0 * H11(t)
         == (1.0 + (2.0 * t - 1.0) * (2.0 * t - 1.0) * (2.0 * t - 1.0)) / 2.0
  {
  }

  // ----- every admissible piece is a mixture of the four -----

  lemma Mixture(d: real, a: real, b: real, p: real, q: real, r: real)
    ensures 9.0 * d * (d * p + a * q + b * r)
         == (3.0 * d - a) * (3.0 * d - b) * p + a * (3.0 * d - b) * (p + 3.0 * q)
            + (3.0 * d - a) * b * (p + 3.0 * r) + a * b * (p + 3.0 * q + 3.0 * r)
  {
    assert (3.0 * d - a) * (3.0 * d - b) * p == 9.0 * d * d * p - 3.0 * d * b * p - 3.0 * d * a * p + a * b * p;
    assert a * (3.0 * d - b) * (p + 3.0 * q) == 3.0 * d * a * p + 9.0 * d * a * q - a * b * p - 3.0 * a * b * q;
    assert (3.0 * d - a) * b * (p + 3.0 * r) == 3.0 * d * b * p + 9.0 * d * b * r - a * b * p - 3.0 * a * b * r;
  }

  lemma MixtureNonnegative(d: real, a: real, b: real, p: real, q: real, r: real)
    requires d > 0.0 && 0.0 <= a <= 3.0 * d && 0.0 <= b <= 3.0 * d
    requires p >= 0.0 && p + 3.0 * q >= 0.0 && p + 3.0 * r >= 0.0 && p + 3.0 * q + 3.0 * r >= 0.0
    ensures d * p + a * q + b * r >= 0.0
  {
    Mixture(d, a, b, p, q, r);
    Product3(3.0 * d - a, 3.0 * d - b, p);
    Product3(a, 3.0 * d - b, p + 3.0 * q);
    Product3(3.0 * d - a, b, p + 3.0 * r);
    Product3(a, b, p + 3.0 * q + 3.0 * r);
    SignOfFactor(9.0 * d, d * p + a * q + b * r);
  }

  lemma Product3(x: real, y: real, z: real)
    requires x >= 0.0 && y >= 0.0 && z >= 0.0
    ensures x * y * z >= 0.0
  {
  }

  lemma SignOfFactor(k: real, v: real)
    requires k > 0.0 && k * v >= 0.0
    ensures v >= 0.0
  {
  }

  /** Tangents inside the circle of radius three times the slope are below three times it. */
  lemma CircleInSquare(d: real, a: real, b: real)
    requires d >= 0.0 && a >= 0.0 && b >= 0.0 && a * a + b * b <= 9.0 * d * d
    ensures a <= 3.0 * d && b <= 3.0 * d
  {
    SquareOrder(a, 3.0 * d);
    SquareOrder(b, 3.0 * d);
  }

  lemma SquareOrder(a: real, c: real)
    requires c >= 0.0 && a * a <= c * c
    ensures a <= c
  {
    assert a * a - c * c == (a - c) * (a + c);
    if a > c {
      PositiveProduct(a - c, a + c);
    }
  }

  lemma PositiveProduct(x: real, y: real)
    requires x > 0.0 && y > 0.0
    ensures x * y > 0.0
  {
  }

  lemma Distribute(k: real, x: real, y: real)
    ensures k * (x - y) == k * x - k * y
  {
  }

  lemma RiseMonotone(d: real, a: real, b: real, u: real, v: real)
    requires d >= 0.0 && a >= 0.0 && b >= 0.0 && a * a + b * b <= 9.0 * d * d
    requires 0.0 <= u <= v <= 1.0
    ensures Rise(d, a, b, u) <= Rise(d, a, b, v)
  {
    hide H01, H10, H11;
    CircleInSquare(d, a, b);
    if d == 0.0 {
      assert a == 0.0 && b == 0.0;
    } else {
      SmoothstepMonotone(u, v);
      LeftExtremeMonotone(u, v);
      RightExtremeMonotone(u, v);
      BothExtremesMonotone(u, v);
      var p, q, r := H01(v) - H01(u), H10(v) - H10(u), H11(v) - H11(u);
      MixtureNonnegative(d, a, b, p, q, r);
      Distribute(d, H01(v), H01(u));
      Distribute(a, H10(v), H10(u));
      Distribute(b, H11(v), H11(u));
    }
  }

  // ----- a negative end tangent makes the piece fall somewhere -----

  function Abs(x: real): real {
    if x >= 0.0 then x else -x
  }

  lemma FallsAtLeft(d: real, a: real, b: real) returns (t: real)
    requires a < 0.0
    ensures 0.0 < t <= 1.0 && Rise(d, a, b, t) < 0.0
  {
    hide Rise;
    var c2, c3 := 3.0 * d - 2.0 * a - b, a + b - 2.0 * d;
    var k := Abs(c2) + Abs(c3) - a;
    t := SmallStep(-a, k);
    BoundedTerms(t, c2, c3, k);
    RiseExpands(d, a, b, t);
    assert Rise(d, a, b, t) == t * a + t * t * c2 + t * t * t * c3;
    assert t * (-a) == -(t * a);
  }

  /** A step so short that its square times `k` is at most half of it times `g`. */
  lemma SmallStep(g: real, k: real) returns (t: real)
    requires 0.0 < g <= k
    ensures 0.0 < t <= 1.0 && t * t * k < t * g
  {
    t := g / (2.0 * k);
    HalfRatio(g, k, t);
    PositiveProduct(t, g);
    assert t * t * k == t * (t * k);
  }

  lemma HalfRatio(g: real, k: real, t: real)
    requires 0.0 < g <= k && t == g / (2.0 * k)
    ensures 0.0 < t <= 1.0 && t * k == g / 2.0
  {
    assert t * (2.0 * k) == g;
    assert (t - 1.0) * k == t * k - k;
    if t > 1.0 {
      PositiveProduct(t - 1.0, k);
    }
  }

  lemma RiseExpands(d: real, a: real, b: real, t: real)
    ensures Rise(d, a, b, t) == t * a + t * t * (3.0 * d - 2.0 * a - b) + t * t * t * (a + b - 2.0 * d)
  {
  }

  lemma BoundedTerms(t: real, c2: real, c3: real, k: real)
    requires 0.0 <= t <= 1.0 && Abs(c2) + Abs(c3) <= k
    ensures t * t * c2 + t * t * t * c3 <= t * t * k
  {
    var s := t * t;
    Square(t);
    Product(t, Abs(c3) - c3);
    Product(1.0 - t, Abs(c3));
    Product(s, k - c2 - t * c3);
    assert s * (k - c2 - t * c3) == s * k - s * c2 - s * (t * c3);
  }

  /** Seen from the right end the piece has the same form with the tangents swapped. */
  lemma RiseMirrored(d: real, a: real, b: real, t: real)
    ensures Rise(d, a, b, 1.0) - Rise(d, a, b, 1.0 - t) == Rise(d, b, a, t)
  {
    var s := 1.0 - t;
    assert s * s == 1.0 - 2.0 * t + t * t;
    assert s * s * s == 1.0 - 3.0 * t + 3.0 * t * t - t * t * t;
    assert H01(s) == 1.0 - H01(t) && H10(s) == -H11(t) && H11(s) == -H10(t);
    assert H01(1.0) == 1.0 && H10(1.0) == 0.0 && H11(1.0) == 0.0;
  }

  ghost predicate RisesThroughout(d: real, a: real, b: real) {
    forall u, v :: 0.0 <= u <= v <= 1.0 ==> Rise(d, a, b, u) <= Rise(d, a, b, v)
  }

  /** The end tangents lie in the circle of three times the slope. */
  ghost predicate InCircle(d: real, a: real, b: real) {
    a * a + b * b <= 9.0 * d * d
  }

  /** Inside the circle, a piece is nondecreasing if and only if both end tangents are
      nonnegative. */
  lemma RisesIff(d: real, a: real, b: real)
    requires d >= 0.0 && InCircle(d, a, b)
    ensures RisesThroughout(d, a, b) <==> a >= 0.0 && b >= 0.0
  {
    if a >= 0.0 && b >= 0.0 {
      forall u, v | 0.0 <= u <= v <= 1.0 ensures Rise(d, a, b, u) <= Rise(d, a, b, v) {
        RiseMonotone(d, a, b, u, v);
      }
    } else if a < 0.0 {
      var t := FallsAtLeft(d, a, b);
      assert Rise(d, a, b, 0.0) == 0.0;
      assert !(Rise(d, a, b, 0.0) <= Rise(d, a, b, t));
    } else {
      var t := FallsAtLeft(d, b, a);
      RiseMirrored(d, a, b, t);
      assert !(Rise(d, a, b, 1.0 - t) <= Rise(d, a, b, 1.0));
    }
  }
}
