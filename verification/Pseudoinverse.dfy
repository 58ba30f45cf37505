/** `dt_colorspaces_pseudoinverse` of src/common/colorspaces.c: Gauss-Jordan elimination of
    the Gram matrix, in place on the three by six work array. */
module Pseudoinverse {
  import opened GramMatrix

  /** One row of the work array: its left half and its right half. */
  datatype WorkRow = WorkRow(l: Vec, r: Vec)

  ghost predicate WorkSized(work: array2<real>) {
    work.Length0 == 3 && work.Length1 == 6
  }

  function RowAt(work: array2<real>, i: nat): WorkRow
    requires work.Length0 == 3 && work.Length1 == 6 && i < 3
    reads work
  {
    WorkRow(Vec(work[i, 0], work[i, 1], work[i, 2]), Vec(work[i, 3], work[i, 4], work[i, 5]))
  }

  function Rows(work: array2<real>): (w: seq<WorkRow>)
    requires work.Length0 == 3 && work.Length1 == 6
    reads work
  {
    [RowAt(work, 0), RowAt(work, 1), RowAt(work, 2)]
  }

  /** The key invariant: every left half is its right half times the Gram matrix. */
  ghost predicate Consistent(w: seq<WorkRow>, g: Mat) {
    |w| == 3 && forall i :: 0 <= i < 3 ==> w[i].l == Times(w[i].r, g)
  }

  /** After `k` pivots the first `k` left columns and the last `3 - k` right columns are
      those of the identity. */
  ghost predicate Stage(w: seq<WorkRow>, k: nat) {
    && |w| == 3 && k <= 3
    && (forall i, c :: 0 <= i < 3 && 0 <= c < k ==> At(w[i].l, c) == At(Unit(i), c))
    && (forall i, c :: 0 <= i < 3 && k <= c < 3 ==> At(w[i].r, c) == At(Unit(i), c))
  }

  function ScaleRow(w: WorkRow, k: real): WorkRow {
    WorkRow(Scale(k, w.l), Scale(k, w.r))
  }

  function SubtractRow(w: WorkRow, p: WorkRow, k: real): WorkRow {
    WorkRow(Plus(w.l, Scale(-k, p.l)), Plus(w.r, Scale(-k, p.r)))
  }

  /** One pivot: normalize row `i`, then clear column `i` of the other rows. */
  function PivotStep(w: seq<WorkRow>, i: nat): seq<WorkRow>
    requires |w| == 3 && i < 3 && At(w[i].l, i) != 0.0
  {
    var p := ScaleRow(w[i], 1.0 / At(w[i].l, i));
    seq(3, k requires 0 <= k < 3 => if k == i then p else SubtractRow(w[k], p, At(w[k].l, i)))
  }

  lemma RowOpsConsistent(w: WorkRow, p: WorkRow, k: real, g: Mat)
    requires w.l == Times(w.r, g) && p.l == Times(p.r, g)
    ensures ScaleRow(w, k).l == Times(ScaleRow(w, k).r, g)
    ensures SubtractRow(w, p, k).l == Times(SubtractRow(w, p, k).r, g)
  {
    hide Times, Plus, Scale;
    TimesScale(w.r, k, g);
    TimesScale(p.r, -k, g);
    TimesPlus(w.r, Scale(-k, p.r), g);
  }

  lemma PivotKeepsConsistent(w: seq<WorkRow>, i: nat, g: Mat)
    requires Consistent(w, g) && i < 3 && At(w[i].l, i) != 0.0
    ensures Consistent(PivotStep(w, i), g)
  {
    hide Times, At, ScaleRow, SubtractRow;
    var p := ScaleRow(w[i], 1.0 / At(w[i].l, i));
    RowOpsConsistent(w[i], w[i], 1.0 / At(w[i].l, i), g);
    forall k | 0 <= k < 3 ensures PivotStep(w, i)[k].l == Times(PivotStep(w, i)[k].r, g) {
      RowOpsConsistent(w[k], p, At(w[k].l, i), g);
    }
  }

  lemma AtScale(k: real, v: Vec, c: nat)
    requires c < 3
    ensures At(Scale(k, v), c) == k * At(v, c)
  {
  }

  lemma AtPlus(u: Vec, v: Vec, c: nat)
    requires c < 3
    ensures At(Plus(u, v), c) == At(u, c) + At(v, c)
  {
  }

  /** Entry `c` of a row after the pivot step at `i`. */
  lemma PivotEntries(w: seq<WorkRow>, i: nat, k: nat, c: nat)
    requires |w| == 3 && i < 3 && k < 3 && c < 3 && At(w[i].l, i) != 0.0
    ensures var q := 1.0 / At(w[i].l, i);
            var w' := PivotStep(w, i)[k];
            && (k == i ==> At(w'.l, c) == q * At(w[i].l, c) && At(w'.r, c) == q * At(w[i].r, c))
            && (k != i ==>
                  && At(w'.l, c) == At(w[k].l, c) + -At(w[k].l, i) * (q * At(w[i].l, c))
                  && At(w'.r, c) == At(w[k].r, c) + -At(w[k].l, i) * (q * At(w[i].r, c)))
  {
    hide At, Scale, Plus;
    var q, f := 1.0 / At(w[i].l, i), At(w[k].l, i);
    var p := ScaleRow(w[i], q);
    AtScale(q, w[i].l, c);
    AtScale(q, w[i].r, c);
    AtScale(-f, p.l, c);
    AtScale(-f, p.r, c);
    AtPlus(w[k].l, Scale(-f, p.l), c);
    AtPlus(w[k].r, Scale(-f, p.r), c);
  }

  lemma ClearsColumn(f: real, q: real, d: real)
    requires q * d == 1.0
    ensures f + -f * (q * d) == 0.0
  {
  }

  lemma ZeroTerm(x: real, f: real, q: real, z: real)
    requires z == 0.0
    ensures x + -f * (q * z) == x && q * z == 0.0
  {
  }

  lemma StageEntries(w: seq<WorkRow>, i: nat, k: nat, c: nat)
    requires Stage(w, i) && i < 3 && At(w[i].l, i) != 0.0 && k < 3 && c < 3
    ensures c <= i ==> At(PivotStep(w, i)[k].l, c) == At(Unit(k), c)
    ensures c > i ==> At(PivotStep(w, i)[k].r, c) == At(Unit(k), c)
  {
    hide PivotStep;
    PivotEntries(w, i, k, c);
    var d := At(w[i].l, i);
    var q, f := 1.0 / d, At(w[k].l, i);
    assert q * d == 1.0;
    ClearsColumn(f, q, d);
    if c < i {
      ZeroTerm(At(w[k].l, c), f, q, At(w[i].l, c));
    } else if c > i {
      ZeroTerm(At(w[k].r, c), f, q, At(w[i].r, c));
    }
  }

  lemma PivotAdvancesStage(w: seq<WorkRow>, i: nat)
    requires Stage(w, i) && i < 3 && At(w[i].l, i) != 0.0
    ensures Stage(PivotStep(w, i), i + 1)
  {
    var w' := PivotStep(w, i);
    assert |w'| == 3;
    hide PivotStep, At;
    forall k, c | 0 <= k < 3 && 0 <= c < 3
      ensures c <= i ==> At(w'[k].l, c) == At(Unit(k), c)
      ensures c > i ==> At(w'[k].r, c) == At(Unit(k), c)
    {
      StageEntries(w, i, k, c);
    }
  }

  /** A pivot is the squared length of the matrix applied to its row's right half. */
  lemma PivotIsNorm(w: seq<WorkRow>, i: nat, a: seq<Vec>)
    requires Stage(w, i) && i < 3 && Consistent(w, Gram(a))
    ensures At(w[i].l, i) == SquaredNorm(a, w[i].r)
  {
    hide Gram, SquaredNorm, Times;
    QuadraticForm(a, w[i].r);
    PivotIsDot(w, i);
  }

  lemma PivotIsDot(w: seq<WorkRow>, i: nat)
    requires Stage(w, i) && i < 3
    ensures Dot(w[i].l, w[i].r) == At(w[i].l, i)
  {
    var l, r := w[i].l, w[i].r;
    assert i > 0 ==> At(l, 0) == 0.0;
    assert i > 1 ==> At(l, 1) == 0.0;
    assert i < 2 ==> At(r, 2) == 0.0;
    assert i < 1 ==> At(r, 1) == 0.0;
    assert At(r, i) == 1.0;
    hide Stage;
  }

  // ----- the result -----

  /** Rows whose product with the Gram matrix is the identity. */
  ghost predicate InvertsGram(r: seq<Vec>, a: seq<Vec>) {
    |r| == 3 && forall i :: 0 <= i < 3 ==> Times(r[i], Gram(a)) == Unit(i)
  }

  lemma FinalStageInverts(w: seq<WorkRow>, a: seq<Vec>)
    requires Stage(w, 3) && Consistent(w, Gram(a))
    ensures InvertsGram([w[0].r, w[1].r, w[2].r], a)
  {
    hide Times, Gram;
    forall i | 0 <= i < 3 ensures w[i].l == Unit(i) {
      assert At(w[i].l, 0) == At(Unit(i), 0) && At(w[i].l, 1) == At(Unit(i), 1) && At(w[i].l, 2) == At(Unit(i), 2);
    }
  }

  /** An inverse of the Gram matrix exists only for independent columns. */
  lemma InverseMeansIndependent(r: seq<Vec>, a: seq<Vec>)
    requires InvertsGram(r, a)
    ensures Independent(a)
  {
    hide Annihilates;
    forall v | Annihilates(a, v) ensures v == ZERO {
      hide *;
      CoordinateVanishes(r, a, v, 0);
      CoordinateVanishes(r, a, v, 1);
      CoordinateVanishes(r, a, v, 2);
      AllZero(v);
    }
  }

  lemma AllZero(v: Vec)
    requires At(v, 0) == 0.0 && At(v, 1) == 0.0 && At(v, 2) == 0.0
    ensures v == ZERO
  {
  }

  lemma CoordinateVanishes(r: seq<Vec>, a: seq<Vec>, v: Vec, i: nat)
    requires InvertsGram(r, a) && Annihilates(a, v) && i < 3
    ensures At(v, i) == 0.0
  {
    hide Gram, Times;
    AnnihilatedByGram(a, v);
    GramSymmetric(a, r[i], v);
    DotUnit(i, v);
    assert Dot(ZERO, r[i]) == 0.0;
  }

  /** The inverse of the Gram matrix is symmetric. */
  lemma InverseSymmetric(r: seq<Vec>, a: seq<Vec>, i: nat, j: nat)
    requires InvertsGram(r, a) && i < 3 && j < 3
    ensures At(r[i], j) == At(r[j], i)
  {
    hide Gram, Times;
    GramSymmetric(a, r[i], r[j]);
    DotUnit(i, r[j]);
    DotUnit(j, r[i]);
  }

  lemma DotUnit(i: nat, v: Vec)
    requires i < 3
    ensures Dot(Unit(i), v) == At(v, i)
  {
  }

  /** A row of the pseudoinverse's transpose: the three rows of `r` applied to a row. */
  function OutRow(r: seq<Vec>, v: Vec): Vec
    requires |r| == 3
  {
    Vec(Dot(r[0], v), Dot(r[1], v), Dot(r[2], v))
  }

  /** Entry (j, l) of transpose(b) times a. */
  function Cross(b: seq<Vec>, a: seq<Vec>, j: nat, l: nat): real
    requires |a| == |b| && j < 3 && l < 3
  {
    if a == [] then 0.0
    else Cross(b[..|a| - 1], a[..|a| - 1], j, l) + Entry(b[|a| - 1], a[|a| - 1], j, l)
  }

  /** Entry (j, l) of a column times a row. */
  function Entry(u: Vec, v: Vec, j: nat, l: nat): real
    requires j < 3 && l < 3
  {
    At(u, j) * At(v, l)
  }

  ghost predicate IsOut(b: seq<Vec>, r: seq<Vec>, a: seq<Vec>) {
    |r| == 3 && |b| == |a| && forall k :: 0 <= k < |a| ==> b[k] == OutRow(r, a[k])
  }

  lemma {:induction false} CrossIsTimes(b: seq<Vec>, r: seq<Vec>, a: seq<Vec>, j: nat, l: nat)
    requires IsOut(b, r, a) && j < 3 && l < 3
    ensures Cross(b, a, j, l) == At(Times(r[j], Gram(a)), l)
  {
    if a != [] {
      hide At, Entry, Times, Gram, OutRow;
      var n := |a| - 1;
      assert IsOut(b[..n], r, a[..n]);
      CrossIsTimes(b[..n], r, a[..n], j, l);
      CrossStep(b[n], r, a, j, l);
    }
  }

  lemma CrossStep(out: Vec, r: seq<Vec>, a: seq<Vec>, j: nat, l: nat)
    requires a != [] && |r| == 3 && j < 3 && l < 3 && out == OutRow(r, a[|a| - 1])
    ensures At(Times(r[j], Gram(a)), l) == At(Times(r[j], Gram(a[..|a| - 1])), l) + Entry(out, a[|a| - 1], j, l)
  {
    hide Gram, Times, Dot, Scale, Plus;
    var v := a[|a| - 1];
    GramSnoc(a, r[j]);
    AtPlus(Times(r[j], Gram(a[..|a| - 1])), Scale(Dot(v, r[j]), v), l);
    AtScale(Dot(v, r[j]), v, l);
    DotCommutes(v, r[j]);
  }

  /** `b` is the transpose of the pseudoinverse of `a`: its transpose times `a` is the
      identity, and `a` times its transpose is symmetric. */
  ghost predicate IsPseudoinverse(b: seq<Vec>, a: seq<Vec>) {
    && |b| == |a|
    && (forall j, l :: 0 <= j < 3 && 0 <= l < 3 ==> Cross(b, a, j, l) == At(Unit(j), l))
    && (forall i, k :: 0 <= i < |a| && 0 <= k < |a| ==> Dot(a[i], b[k]) == Dot(a[k], b[i]))
  }

  lemma OutIsPseudoinverse(b: seq<Vec>, r: seq<Vec>, a: seq<Vec>)
    requires InvertsGram(r, a) && IsOut(b, r, a)
    ensures IsPseudoinverse(b, a)
  {
    hide Gram, Times, Dot;
    forall j, l | 0 <= j < 3 && 0 <= l < 3 ensures Cross(b, a, j, l) == At(Unit(j), l) {
      CrossIsTimes(b, r, a, j, l);
    }
    forall i, k | 0 <= i < |a| && 0 <= k < |a| ensures Dot(a[i], b[k]) == Dot(a[k], b[i]) {
      InverseSymmetric(r, a, 0, 1);
      InverseSymmetric(r, a, 0, 2);
      InverseSymmetric(r, a, 1, 2);
      SymmetricForm(r, a[i], a[k]);
    }
  }

  lemma SymmetricForm(r: seq<Vec>, u: Vec, v: Vec)
    requires |r| == 3 && At(r[0], 1) == At(r[1], 0) && At(r[0], 2) == At(r[2], 0) && At(r[1], 2) == At(r[2], 1)
    ensures Dot(u, OutRow(r, v)) == Dot(v, OutRow(r, u))
  {
    var p, q, s := r[0], r[1], r[2];
    assert Dot(u, OutRow(r, v)) ==
           u.x * (p.x * v.x) + u.x * (p.y * v.y) + u.x * (p.z * v.z)
           + u.y * (p.y * v.x) + u.y * (q.y * v.y) + u.y * (q.z * v.z)
           + u.z * (p.z * v.x) + u.z * (q.z * v.y) + u.z * (s.z * v.z);
    assert Dot(v, OutRow(r, u)) ==
           v.x * (p.x * u.x) + v.x * (p.y * u.y) + v.x * (p.z * u.z)
           + v.y * (p.y * u.x) + v.y * (q.y * u.y) + v.y * (q.z * u.z)
           + v.z * (p.z * u.x) + v.z * (q.z * u.y) + v.z * (s.z * u.z);
  }

  // ----- the routine -----

  /** The rows of an array with three columns. */
  function Matrix(m: array2<real>): (a: seq<Vec>)
    requires m.Length1 == 3
    reads m
  {
    seq(m.Length0, k requires 0 <= k < m.Length0 reads m => Vec(m[k, 0], m[k, 1], m[k, 2]))
  }

  lemma MatrixEntry(m: array2<real>, k: nat, c: nat)
    requires m.Length1 == 3 && k < m.Length0 && c < 3
    ensures |Matrix(m)| == m.Length0 && At(Matrix(m)[k], c) == m[k, c]
  {
  }

  lemma MatrixLength(m: array2<real>)
    requires m.Length1 == 3
    ensures |Matrix(m)| == m.Length0
  {
  }

  /** Entry (i, j) of the Gram matrix of the first `k` rows. */
  ghost function GramEntry(a: seq<Vec>, k: nat, i: nat, j: nat): real
    requires k <= |a| && i < 3 && j < 3
  {
    At(Column(Gram(a[..k]), j), i)
  }

  lemma GramEntryEnds(a: seq<Vec>, i: nat, j: nat)
    requires i < 3 && j < 3
    ensures GramEntry(a, 0, i, j) == 0.0 && GramEntry(a, |a|, i, j) == At(Column(Gram(a), j), i)
  {
    assert a[..0] == [] && a[..|a|] == a;
  }

  /** Entry (i, j) of the Gram matrix, one row at a time. */
  lemma GramEntrySnoc(a: seq<Vec>, k: nat, i: nat, j: nat)
    requires k < |a| && i < 3 && j < 3
    ensures GramEntry(a, k + 1, i, j) == GramEntry(a, k, i, j) + At(a[k], i) * At(a[k], j)
  {
    hide Gram, At, Scale, Plus, Column;
    var b := a[..k + 1];
    assert b[..|b| - 1] == a[..k] && b[|b| - 1] == a[k];
    GramUnfolds(b);
    ColumnAdd(Gram(a[..k]), Outer(a[k]), j);
    ColumnOuter(a[k], j);
    AtPlus(Column(Gram(a[..k]), j), Scale(At(a[k], j), a[k]), i);
    AtScale(At(a[k], j), a[k], i);
  }

  lemma ColumnAdd(m: Mat, n: Mat, j: nat)
    requires j < 3
    ensures Column(AddMat(m, n), j) == Plus(Column(m, j), Column(n, j))
  {
  }

  lemma ColumnOuter(v: Vec, j: nat)
    requires j < 3
    ensures Column(Outer(v), j) == Scale(At(v, j), v)
  {
  }

  lemma GramUnfolds(a: seq<Vec>)
    requires a != []
    ensures Gram(a) == AddMat(Gram(a[..|a| - 1]), Outer(a[|a| - 1]))
  {
  }

  /** The sum over all rows of the product of two columns, added to an entry. */
  method Accumulate(input: array2<real>, i: nat, j: nat) returns (sum: real)
    requires input.Length1 == 3 && i < 3 && j < 3
    ensures sum == At(Column(Gram(Matrix(input)), j), i)
  {
    hide Gram, Matrix, GramEntry, At;
    ghost var a := Matrix(input);
    GramEntryEnds(a, i, j);
    MatrixLength(input);
    sum := 0.0;
    for k := 0 to input.Length0
      invariant sum == GramEntry(a, k, i, j)
    {
      GramEntrySnoc(a, k, i, j);
      MatrixEntry(input, k, i);
      MatrixEntry(input, k, j);
      sum := sum + input[k, i] * input[k, j];
    }
  }

  method FillWork(input: array2<real>, work: array2<real>)
    requires input.Length1 == 3 && WorkSized(work) && input != work
    modifies work
    ensures Consistent(Rows(work), Gram(Matrix(input))) && Stage(Rows(work), 0)
  {
    hide Gram;
    ghost var g := Gram(Matrix(input));
    for i := 0 to 3
      invariant g == Gram(Matrix(input))
      invariant forall r :: 0 <= r < i ==>
                  RowAt(work, r) == WorkRow(Vec(At(g.c0, r), At(g.c1, r), At(g.c2, r)), Unit(r))
    {
      FillRow(input, work, i);
    }
    forall r | 0 <= r < 3 ensures Times(Unit(r), g) == Vec(At(g.c0, r), At(g.c1, r), At(g.c2, r)) {
      DotUnit(r, g.c0);
      DotUnit(r, g.c1);
      DotUnit(r, g.c2);
    }
  }

  method FillRow(input: array2<real>, work: array2<real>, i: nat)
    requires input.Length1 == 3 && WorkSized(work) && input != work && i < 3
    modifies work
    ensures var g := Gram(Matrix(input));
            RowAt(work, i) == WorkRow(Vec(At(g.c0, i), At(g.c1, i), At(g.c2, i)), Unit(i))
    ensures forall r :: 0 <= r < 3 && r != i ==> RowAt(work, r) == old(RowAt(work, r))
  {
    hide Gram;
    ghost var g := Gram(Matrix(input));
    for j := 0 to 6
      invariant forall c :: 0 <= c < j ==> work[i, c] == if c == i + 3 then 1.0 else 0.0
      invariant forall r, c :: 0 <= r < 3 && 0 <= c < 6 && r != i ==> work[r, c] == old(work[r, c])
    {
      work[i, j] := if j == i + 3 then 1.0 else 0.0;
    }
    for j := 0 to 3
      invariant forall c :: 0 <= c < j ==> work[i, c] == At(Column(g, c), i)
      invariant forall c :: j <= c < 6 ==> work[i, c] == if c == i + 3 then 1.0 else 0.0
      invariant forall r, c :: 0 <= r < 3 && 0 <= c < 6 && r != i ==> work[r, c] == old(work[r, c])
      invariant g == Gram(Matrix(input))
    {
      var sum := Accumulate(input, i, j);
      work[i, j] := work[i, j] + sum;
    }
  }

  /** Divide row `i` by `num`. */
  method Normalize(work: array2<real>, i: nat, num: real)
    requires WorkSized(work) && i < 3 && num != 0.0
    modifies work
    ensures RowAt(work, i) == ScaleRow(old(RowAt(work, i)), 1.0 / num)
    ensures forall r :: 0 <= r < 3 && r != i ==> RowAt(work, r) == old(RowAt(work, r))
  {
    hide Over;
    for j := 0 to 6
      invariant forall c :: 0 <= c < j ==> work[i, c] == Over(old(work[i, c]), num)
      invariant forall c :: j <= c < 6 ==> work[i, c] == old(work[i, c])
      invariant forall r, c :: 0 <= r < 3 && 0 <= c < 6 && r != i ==> work[r, c] == old(work[r, c])
    {
      work[i, j] := Over(work[i, j], num);
    }
    ghost var q := 1.0 / num;
    DivideVec(old(RowAt(work, i)).l, RowAt(work, i).l, num, q);
    DivideVec(old(RowAt(work, i)).r, RowAt(work, i).r, num, q);
  }

  function Over(x: real, num: real): real
    requires num != 0.0
  {
    x / num
  }

  lemma DivideIsScale(x: real, num: real, q: real)
    requires num != 0.0 && q == 1.0 / num
    ensures Over(x, num) == q * x
  {
  }

  lemma DivideVec(v: Vec, u: Vec, num: real, q: real)
    requires num != 0.0 && q == 1.0 / num && u == Vec(Over(v.x, num), Over(v.y, num), Over(v.z, num))
    ensures u == Scale(q, v)
  {
    hide Over;
    DivideIsScale(v.x, num, q);
    DivideIsScale(v.y, num, q);
    DivideIsScale(v.z, num, q);
  }

  /** Subtract `num` times row `i` from row `k`. */
  method Subtract(work: array2<real>, k: nat, i: nat, num: real)
    requires WorkSized(work) && i < 3 && k < 3 && i != k
    modifies work
    ensures RowAt(work, k) == SubtractRow(old(RowAt(work, k)), old(RowAt(work, i)), num)
    ensures forall r :: 0 <= r < 3 && r != k ==> RowAt(work, r) == old(RowAt(work, r))
  {
    for j := 0 to 6
      invariant forall c :: 0 <= c < j ==> work[k, c] == old(work[k, c]) - old(work[i, c]) * num
      invariant forall c :: j <= c < 6 ==> work[k, c] == old(work[k, c])
      invariant forall r, c :: 0 <= r < 3 && 0 <= c < 6 && r != k ==> work[r, c] == old(work[r, c])
    {
      work[k, j] := work[k, j] - work[i, j] * num;
    }
    forall c | 0 <= c < 6 ensures old(work[k, c]) - old(work[i, c]) * num == old(work[k, c]) + -num * old(work[i, c]) {
      SubtractIsPlus(old(work[k, c]), old(work[i, c]), num);
    }
  }

  lemma SubtractIsPlus(x: real, y: real, num: real)
    ensures x - y * num == x + -num * y
  {
  }

  /** One round of the elimination; a zero pivot, by which the source divides, is reported. */
  method Round(work: array2<real>, i: nat) returns (ok: bool)
    requires WorkSized(work) && i < 3
    modifies work
    ensures ok <==> At(old(Rows(work))[i].l, i) != 0.0
    ensures ok ==> Rows(work) == PivotStep(old(Rows(work)), i)
  {
    hide ScaleRow, SubtractRow;
    ghost var w := Rows(work);
    var num := work[i, i];
    assert num == At(w[i].l, i);
    if num == 0.0 {
      return false;
    }
    Normalize(work, i, num);
    ghost var p := ScaleRow(w[i], 1.0 / num);
    for k := 0 to 3
      invariant RowAt(work, i) == p
      invariant forall r :: 0 <= r < k ==> RowAt(work, r) == PivotStep(w, i)[r]
      invariant forall r :: k <= r < 3 && r != i ==> RowAt(work, r) == w[r]
    {
      if k != i {
        num := work[k, i];
        assert num == At(w[k].l, i);
        Subtract(work, k, i, num);
      }
    }
    ok := true;
  }

  /** The pseudoinverse of `input`, transposed, into `out`; false where the columns are
      dependent, which the source does not detect. */
  method Pseudoinvert(input: array2<real>, out: array2<real>) returns (ok: bool)
    requires input.Length1 == 3 && out.Length1 == 3 && input.Length0 == out.Length0 && input != out
    modifies out
    ensures ok <==> Independent(Matrix(input))
    ensures ok ==> IsPseudoinverse(Matrix(out), Matrix(input))
  {
    hide Gram, Independent, IsPseudoinverse;
    ghost var a := Matrix(input);
    var work := new real[3, 6];
    FillWork(input, work);
    ok := Eliminate(work, a);
    if ok {
      FinalStageInverts(Rows(work), a);
      ghost var r := [RowAt(work, 0).r, RowAt(work, 1).r, RowAt(work, 2).r];
      InverseMeansIndependent(r, a);
      FillOut(input, work, out);
      OutIsPseudoinverse(Matrix(out), r, a);
    }
  }

  method Eliminate(work: array2<real>, ghost a: seq<Vec>) returns (ok: bool)
    requires WorkSized(work) && Consistent(Rows(work), Gram(a)) && Stage(Rows(work), 0)
    modifies work
    ensures ok ==> Consistent(Rows(work), Gram(a)) && Stage(Rows(work), 3)
    ensures !ok ==> !Independent(a)
  {
    hide Gram, Consistent, Stage, Independent, PivotStep;
    for i := 0 to 3
      invariant Consistent(Rows(work), Gram(a)) && Stage(Rows(work), i)
    {
      ghost var w := Rows(work);
      ok := Round(work, i);
      if !ok {
        ZeroPivotMeansDependent(w, i, a);
        return;
      }
      PivotKeepsConsistent(w, i, Gram(a));
      PivotAdvancesStage(w, i);
    }
    ok := true;
  }

  lemma ZeroPivotMeansDependent(w: seq<WorkRow>, i: nat, a: seq<Vec>)
    requires Stage(w, i) && i < 3 && Consistent(w, Gram(a)) && At(w[i].l, i) == 0.0
    ensures !Independent(a)
  {
    hide Gram, SquaredNorm, Annihilates;
    PivotIsNorm(w, i, a);
    NormZeroAnnihilates(a, w[i].r);
    assert At(w[i].r, i) == 1.0;
    assert w[i].r != ZERO;
  }

  method FillOut(input: array2<real>, work: array2<real>, out: array2<real>)
    requires input.Length1 == 3 && out.Length1 == 3 && input.Length0 == out.Length0
    requires input != out && work != out && WorkSized(work)
    modifies out
    ensures IsOut(Matrix(out), [RowAt(work, 0).r, RowAt(work, 1).r, RowAt(work, 2).r], Matrix(input))
  {
    ghost var a, r := Matrix(input), [RowAt(work, 0).r, RowAt(work, 1).r, RowAt(work, 2).r];
    for i := 0 to input.Length0
      invariant Matrix(input) == a && r == [RowAt(work, 0).r, RowAt(work, 1).r, RowAt(work, 2).r]
      invariant forall k :: 0 <= k < i ==> Vec(out[k, 0], out[k, 1], out[k, 2]) == OutRow(r, a[k])
    {
      FillOutRow(input, work, out, i);
    }
  }

  method FillOutRow(input: array2<real>, work: array2<real>, out: array2<real>, i: nat)
    requires input.Length1 == 3 && out.Length1 == 3 && input.Length0 == out.Length0 && i < out.Length0
    requires input != out && work != out && WorkSized(work)
    modifies out
    ensures Vec(out[i, 0], out[i, 1], out[i, 2]) ==
            OutRow([RowAt(work, 0).r, RowAt(work, 1).r, RowAt(work, 2).r], Matrix(input)[i])
    ensures forall k, c :: 0 <= k < out.Length0 && 0 <= c < 3 && k != i ==> out[k, c] == old(out[k, c])
  {
    ghost var v, r := Matrix(input)[i], [RowAt(work, 0).r, RowAt(work, 1).r, RowAt(work, 2).r];
    for j := 0 to 3
      invariant forall c :: 0 <= c < j ==> out[i, c] == Dot(r[c], v)
      invariant forall k, c :: 0 <= k < out.Length0 && 0 <= c < 3 && k != i ==> out[k, c] == old(out[k, c])
      invariant Matrix(input)[i] == v && r == [RowAt(work, 0).r, RowAt(work, 1).r, RowAt(work, 2).r]
    {
      out[i, j] := 0.0;
      out[i, j] := out[i, j] + work[j, 3] * input[i, 0];
      out[i, j] := out[i, j] + work[j, 4] * input[i, 1];
      out[i, j] := out[i, j] + work[j, 5] * input[i, 2];
      assert out[i, j] == Dot(r[j], v);
    }
  }
}
