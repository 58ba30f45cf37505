/** Three-column matrices with any number of rows, their Gram matrix, and what makes a
    Gauss-Jordan elimination of it succeed. */
module GramMatrix {

  datatype Vec = Vec(x: real, y: real, z: real)

  /** A three by three matrix, by columns. */
  datatype Mat = Mat(c0: Vec, c1: Vec, c2: Vec)

  function At(v: Vec, c: nat): real
    requires c < 3
  {
    if c == 0 then v.x else if c == 1 then v.y else v.z
  }

  function Column(m: Mat, j: nat): Vec
    requires j < 3
  {
    if j == 0 then m.c0 else if j == 1 then m.c1 else m.c2
  }

  function Dot(u: Vec, v: Vec): real {
    u.x * v.x + u.y * v.y + u.z * v.z
  }

  function Plus(u: Vec, v: Vec): Vec {
    Vec(u.x + v.x, u.y + v.y, u.z + v.z)
  }

  function Scale(k: real, v: Vec): Vec {
    Vec(k * v.x, k * v.y, k * v.z)
  }

  function Unit(i: nat): Vec {
    Vec(if i == 0 then 1.0 else 0.0, if i == 1 then 1.0 else 0.0, if i == 2 then 1.0 else 0.0)
  }

  const ZERO := Vec(0.0, 0.0, 0.0)

  /** The row vector `v` times the matrix `m`. */
  function Times(v: Vec, m: Mat): Vec {
    Vec(Dot(v, m.c0), Dot(v, m.c1), Dot(v, m.c2))
  }

  function AddMat(m: Mat, n: Mat): Mat {
    Mat(Plus(m.c0, n.c0), Plus(m.c1, n.c1), Plus(m.c2, n.c2))
  }

  /** The product of a column with a row, the same vector. */
  function Outer(v: Vec): Mat {
    Mat(Scale(v.x, v), Scale(v.y, v), Scale(v.z, v))
  }

  /** The Gram matrix of the columns of `a`. */
  function Gram(a: seq<Vec>): Mat {
    if a == [] then Mat(ZERO, ZERO, ZERO)
    else AddMat(Gram(a[..|a| - 1]), Outer(a[|a| - 1]))
  }

  /** The squared length of `a` times the column vector `v`. */
  function SquaredNorm(a: seq<Vec>, v: Vec): real {
    if a == [] then 0.0
    else SquaredNorm(a[..|a| - 1], v) + Dot(a[|a| - 1], v) * Dot(a[|a| - 1], v)
  }

  /** No combination of the columns but the trivial one vanishes in every row. */
  ghost predicate Independent(a: seq<Vec>) {
    forall v :: Annihilates(a, v) ==> v == ZERO
  }

  ghost predicate Annihilates(a: seq<Vec>, v: Vec) {
    forall k :: 0 <= k < |a| ==> Dot(a[k], v) == 0.0
  }

  // ----- linearity -----

  lemma DotPlus(u: Vec, v: Vec, w: Vec)
    ensures Dot(Plus(u, v), w) == Dot(u, w) + Dot(v, w) && Dot(w, Plus(u, v)) == Dot(w, u) + Dot(w, v)
  {
  }

  lemma DotScale(k: real, u: Vec, v: Vec)
    ensures Dot(Scale(k, u), v) == k * Dot(u, v) && Dot(v, Scale(k, u)) == k * Dot(v, u)
  {
    var s := Scale(k, u);
    assert s.x * v.x == k * (u.x * v.x) && s.y * v.y == k * (u.y * v.y) && s.z * v.z == k * (u.z * v.z);
  }

  lemma DotCommutes(u: Vec, v: Vec)
    ensures Dot(u, v) == Dot(v, u)
  {
  }

  lemma TimesScale(v: Vec, k: real, m: Mat)
    ensures Times(Scale(k, v), m) == Scale(k, Times(v, m))
  {
    hide Dot;
    DotScale(k, v, m.c0);
    DotScale(k, v, m.c1);
    DotScale(k, v, m.c2);
  }

  lemma TimesPlus(u: Vec, v: Vec, m: Mat)
    ensures Times(Plus(u, v), m) == Plus(Times(u, m), Times(v, m))
  {
    hide Dot;
    DotPlus(u, v, m.c0);
    DotPlus(u, v, m.c1);
    DotPlus(u, v, m.c2);
  }

  lemma TimesAddMat(v: Vec, m: Mat, n: Mat)
    ensures Times(v, AddMat(m, n)) == Plus(Times(v, m), Times(v, n))
  {
    hide Dot;
    DotPlus(m.c0, n.c0, v);
    DotPlus(m.c1, n.c1, v);
    DotPlus(m.c2, n.c2, v);
  }

  lemma TimesOuter(v: Vec, r: Vec)
    ensures Times(v, Outer(r)) == Scale(Dot(r, v), r)
  {
    hide Dot;
    DotCommutes(r, v);
    DotScale(r.x, r, v);
    DotScale(r.y, r, v);
    DotScale(r.z, r, v);
  }

  /** The Gram matrix acts on `v` as the matrix followed by its transpose. */
  lemma GramSnoc(a: seq<Vec>, v: Vec)
    requires a != []
    ensures Times(v, Gram(a)) ==
            Plus(Times(v, Gram(a[..|a| - 1])), Scale(Dot(a[|a| - 1], v), a[|a| - 1]))
  {
    var r := a[|a| - 1];
    TimesAddMat(v, Gram(a[..|a| - 1]), Outer(r));
    TimesOuter(v, r);
  }

  lemma {:induction false} QuadraticForm(a: seq<Vec>, v: Vec)
    ensures Dot(Times(v, Gram(a)), v) == SquaredNorm(a, v)
  {
    if a != [] {
      var r := a[|a| - 1];
      hide Times, Gram, Dot, Scale;
      QuadraticForm(a[..|a| - 1], v);
      GramSnoc(a, v);
      DotPlus(Times(v, Gram(a[..|a| - 1])), Scale(Dot(r, v), r), v);
      DotScale(Dot(r, v), r, v);
    } else {
      assert Times(v, Gram(a)) == ZERO;
    }
  }

  lemma DotScalePair(r: Vec, u: Vec, v: Vec)
    ensures Dot(Scale(Dot(r, u), r), v) == Dot(Scale(Dot(r, v), r), u)
  {
    hide Dot, Scale;
    var p, q := Dot(r, u), Dot(r, v);
    DotScale(p, r, v);
    DotScale(q, r, u);
    assert p * q == q * p;
  }

  lemma {:induction false} GramSymmetric(a: seq<Vec>, u: Vec, v: Vec)
    ensures Dot(Times(u, Gram(a)), v) == Dot(Times(v, Gram(a)), u)
  {
    if a != [] {
      var r, b := a[|a| - 1], a[..|a| - 1];
      hide Times, Gram, Scale, Dot, Plus;
      GramSymmetric(b, u, v);
      GramSnoc(a, u);
      GramSnoc(a, v);
      DotPlus(Times(u, Gram(b)), Scale(Dot(r, u), r), v);
      DotPlus(Times(v, Gram(b)), Scale(Dot(r, v), r), u);
      DotScalePair(r, u, v);
    } else {
      assert Times(u, Gram(a)) == ZERO && Times(v, Gram(a)) == ZERO;
    }
  }

  lemma {:induction false} NormZeroAnnihilates(a: seq<Vec>, v: Vec)
    ensures SquaredNorm(a, v) >= 0.0
    ensures SquaredNorm(a, v) == 0.0 <==> Annihilates(a, v)
  {
    if a != [] {
      var n := |a| - 1;
      hide Dot, Annihilates;
      NormZeroAnnihilates(a[..n], v);
      AnnihilatesSnoc(a, v);
      var d := Dot(a[n], v);
      SumOfSquaresZero(SquaredNorm(a[..n], v), d, d * d);
    }
  }

  lemma AnnihilatesSnoc(a: seq<Vec>, v: Vec)
    requires a != []
    ensures Annihilates(a, v) <==> Annihilates(a[..|a| - 1], v) && Dot(a[|a| - 1], v) == 0.0
  {
    hide Dot;
    var n := |a| - 1;
    assert a == a[..n] + [a[n]];
  }

  lemma SumOfSquaresZero(s: real, d: real, q: real)
    requires s >= 0.0 && q == d * d
    ensures s + q >= 0.0 && (s + q == 0.0 <==> s == 0.0 && d == 0.0)
  {
    SquareNonnegative(d, q);
    if s + q == 0.0 {
      SquareZero(d, q);
    }
  }

  lemma SquareNonnegative(d: real, q: real)
    requires q == d * d
    ensures q >= 0.0 && (d == 0.0 ==> q == 0.0)
  {
  }

  lemma SquareZero(d: real, q: real)
    requires q == d * d && q == 0.0
    ensures d == 0.0
  {
    if d != 0.0 {
      CancelFactor(d, d, q);
    }
  }

  lemma CancelFactor(d: real, e: real, q: real)
    requires d != 0.0 && d * e == q
    ensures e == q / d
  {
  }

  lemma {:induction false} AnnihilatedByGram(a: seq<Vec>, v: Vec)
    requires Annihilates(a, v)
    ensures Times(v, Gram(a)) == ZERO
  {
    if a != [] {
      var n := |a| - 1;
      hide Dot, Times, Gram;
      assert Annihilates(a[..n], v) by {
        assert forall k :: 0 <= k < n ==> a[..n][k] == a[k];
      }
      AnnihilatedByGram(a[..n], v);
      GramSnoc(a, v);
      assert Dot(a[n], v) == 0.0;
    }
  }
}
