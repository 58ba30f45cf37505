/** The tridiagonal solver `d3_np_fs` of src/common/curve_tools.c over the reals. */
module Tridiagonal {

  /** The array layout: superdiagonal entry of column `i`, diagonal entry, and the
      subdiagonal entry of column `i`, which lies in row `i + 1`. */
  function Sup(a: seq<real>, i: nat): real
    requires 3 * i < |a|
  {
    a[3 * i]
  }

  function Diag(a: seq<real>, i: nat): real
    requires 3 * i + 1 < |a|
  {
    a[3 * i + 1]
  }

  function Sub(a: seq<real>, i: nat): real
    requires 3 * i + 2 < |a|
  {
    a[3 * i + 2]
  }

  ghost predicate Sized(n: nat, a: seq<real>, b: seq<real>) {
    |a| == 3 * n && |b| == n
  }

  /** Row `i` of the system holds of `x`. */
  ghost predicate Row(n: nat, a: seq<real>, b: seq<real>, x: seq<real>, i: nat)
    requires Sized(n, a, b) && |x| == n && i < n
  {
    (if i > 0 then Sub(a, i - 1) * x[i - 1] else 0.0)
    + Diag(a, i) * x[i]
    + (if i + 1 < n then Sup(a, i + 1) * x[i + 1] else 0.0)
    == b[i]
  }

  ghost predicate Solves(n: nat, a: seq<real>, b: seq<real>, x: seq<real>)
    requires Sized(n, a, b)
  {
    |x| == n && forall i :: 0 <= i < n ==> Row(n, a, b, x, i)
  }

  /** Division, with a value that is never used where the divisor is zero. */
  function Quotient(x: real, y: real): real {
    if y == 0.0 then 0.0 else x / y
  }

  /** The diagonal entry the elimination leaves in row `i`. */
  function Pivot(a: seq<real>, i: nat): real
    requires 3 * i + 1 < |a|
  {
    if i == 0 then Diag(a, 0)
    else Diag(a, i) - Quotient(Sub(a, i - 1), Pivot(a, i - 1)) * Sup(a, i)
  }

  /** The right hand side the elimination leaves in row `i`. */
  function Forward(a: seq<real>, b: seq<real>, i: nat): real
    requires 3 * i + 1 < |a| && i < |b|
  {
    if i == 0 then b[0]
    else b[i] - Quotient(Sub(a, i - 1), Pivot(a, i - 1)) * Forward(a, b, i - 1)
  }

  /** Row `i` of the eliminated system, which is upper bidiagonal. */
  ghost predicate Upper(n: nat, a: seq<real>, b: seq<real>, x: seq<real>, i: nat)
    requires Sized(n, a, b) && |x| == n && i < n
  {
    Pivot(a, i) * x[i] + (if i + 1 < n then Sup(a, i + 1) * x[i + 1] else 0.0) == Forward(a, b, i)
  }

  ghost predicate PivotsNonzero(n: nat, a: seq<real>)
    requires |a| == 3 * n
  {
    forall i :: 0 <= i < n ==> Pivot(a, i) != 0.0
  }

  /** One elimination step on numbers: given the eliminated row above, the row and its
      eliminated form are equivalent. */
  lemma EliminationStep(sub: real, p: real, sup: real, d: real, x0: real, x1: real, tail: real, f: real, b: real)
    requires p != 0.0 && p * x0 + sup * x1 == f
    ensures sub * x0 + d * x1 + tail == b <==> (d - sub / p * sup) * x1 + tail == b - sub / p * f
  {
    var m := sub / p;
    assert m * p == sub;
    assert m * f == m * p * x0 + m * sup * x1;
    assert (d - m * sup) * x1 == d * x1 - m * sup * x1;
  }

  lemma RowIffUpper(n: nat, a: seq<real>, b: seq<real>, x: seq<real>, i: nat)
    requires Sized(n, a, b) && |x| == n && i < n && PivotsNonzero(n, a)
    requires i > 0 ==> Upper(n, a, b, x, i - 1)
    ensures Row(n, a, b, x, i) <==> Upper(n, a, b, x, i)
  {
    if i > 0 {
      var tail := if i + 1 < n then Sup(a, i + 1) * x[i + 1] else 0.0;
      EliminationStep(Sub(a, i - 1), Pivot(a, i - 1), Sup(a, i), Diag(a, i), x[i - 1], x[i], tail,
                      Forward(a, b, i - 1), b[i]);
    }
  }

  lemma {:induction false} UpperFromRows(n: nat, a: seq<real>, b: seq<real>, x: seq<real>, i: nat)
    requires Sized(n, a, b) && i < n && PivotsNonzero(n, a) && Solves(n, a, b, x)
    ensures Upper(n, a, b, x, i)
  {
    hide Row, Upper, Pivot;
    if i > 0 {
      UpperFromRows(n, a, b, x, i - 1);
    }
    RowIffUpper(n, a, b, x, i);
  }

  lemma RowsFromUpper(n: nat, a: seq<real>, b: seq<real>, x: seq<real>)
    requires Sized(n, a, b) && PivotsNonzero(n, a) && |x| == n
    requires forall i :: 0 <= i < n ==> Upper(n, a, b, x, i)
    ensures Solves(n, a, b, x)
  {
    hide Row, Upper, Pivot;
    forall i | 0 <= i < n ensures Row(n, a, b, x, i) {
      RowIffUpper(n, a, b, x, i);
    }
  }

  /** With nonzero pivots the system has at most one solution. */
  lemma SolutionUnique(n: nat, a: seq<real>, b: seq<real>, x: seq<real>, z: seq<real>)
    requires Sized(n, a, b) && PivotsNonzero(n, a) && Solves(n, a, b, x) && Solves(n, a, b, z)
    ensures x == z
  {
    hide Row;
    var k := n;
    while k > 0
      invariant 0 <= k <= n
      invariant forall i :: k <= i < n ==> x[i] == z[i]
    {
      k := k - 1;
      UpperFromRows(n, a, b, x, k);
      UpperFromRows(n, a, b, z, k);
      CancelPivot(Pivot(a, k), x[k], z[k], if k + 1 < n then Sup(a, k + 1) * x[k + 1] else 0.0, Forward(a, b, k));
    }
  }

  lemma CancelPivot(p: real, x: real, z: real, tail: real, f: real)
    requires p != 0.0 && p * x + tail == f && p * z + tail == f
    ensures x == z
  {
    assert p * (x - z) == 0.0;
  }

  const ANCHORS_MAX := 20

  /** `ZeroPivot`: the source divides by zero here and goes on with infinities. */
  datatype Outcome = Null | ZeroPivot | Solved

  ghost predicate Rejected(n: int, a: seq<real>) {
    n <= 0 || n > ANCHORS_MAX || (|a| >= 3 * n && exists i :: 0 <= i < n && Diag(a, i) == 0.0)
  }

  /** Factor and solve; `a` is overwritten by the factorization. */
  method D3NpFs(n: int, a: array<real>, b: array<real>) returns (r: Outcome, x: array<real>)
    requires n > 0 ==> Sized(n, a[..], b[..])
    modifies a
    ensures fresh(x)
    ensures r.Null? <==> Rejected(n, old(a[..]))
    ensures r.Solved? <==> !Rejected(n, old(a[..])) && PivotsNonzero(n, old(a[..]))
    ensures r.Solved? ==> Solves(n, old(a[..]), b[..], x[..])
  {
    x := new real[0];
    if n <= 0 || n > ANCHORS_MAX {
      return Null, x;
    }
    ghost var A, B := a[..], b[..];
    for i := 0 to n
      invariant forall j :: 0 <= j < i ==> Diag(A, j) != 0.0
    {
      if a[1 + i * 3] == 0.0 {
        assert Diag(A, i) == 0.0;
        return Null, x;
      }
    }
    x := new real[n];
    for i := 0 to n
      invariant forall j :: 0 <= j < i ==> x[j] == b[j]
      invariant a[..] == A
    {
      x[i] := b[i];
    }
    r := Eliminate(n, a, x, A, B);
    if r.Solved? {
      r := Substitute(n, a, x, A, B);
    }
  }

  lemma EliminateUnfolds(A: seq<real>, B: seq<real>, i: nat)
    requires 0 < i < |B| && |A| == 3 * |B|
    ensures Pivot(A, 0) == Diag(A, 0) && Forward(A, B, 0) == B[0]
    ensures Pivot(A, i - 1) != 0.0 ==>
              var m := Sub(A, i - 1) / Pivot(A, i - 1);
              Pivot(A, i) == Diag(A, i) - m * Sup(A, i) && Forward(A, B, i) == B[i] - m * Forward(A, B, i - 1)
  {
  }

  /** The arrays after the elimination of the first `i` rows. */
  ghost predicate Eliminated(A: seq<real>, B: seq<real>, a: seq<real>, x: seq<real>, i: nat) {
    && |A| == 3 * |B| && |a| == |A| && |x| == |B| && i <= |B|
    && (forall j :: 0 <= j < i ==> Diag(a, j) == Pivot(A, j) && x[j] == Forward(A, B, j))
    && (forall j :: i <= j < |B| ==> Diag(a, j) == Diag(A, j) && x[j] == B[j])
    && (forall j :: 0 <= j < |B| ==> Sup(a, j) == Sup(A, j) && Sub(a, j) == Sub(A, j))
  }

  lemma EliminatedStart(A: seq<real>, B: seq<real>)
    requires |B| > 0 && |A| == 3 * |B|
    ensures Eliminated(A, B, A, B, 1)
  {
  }

  lemma EliminatedAbove(A: seq<real>, B: seq<real>, a: seq<real>, x: seq<real>, i: nat)
    requires 0 < i && Eliminated(A, B, a, x, i)
    ensures Diag(a, i - 1) == Pivot(A, i - 1)
  {
  }

  lemma EliminatedNext(A: seq<real>, B: seq<real>, a: seq<real>, x: seq<real>, i: nat, m: real, p: real, v: real)
    requires 0 < i < |B| && Eliminated(A, B, a, x, i) && Pivot(A, i - 1) != 0.0
    requires m == Sub(a, i - 1) / Diag(a, i - 1) && p == Diag(a, i) - m * Sup(a, i) && v == x[i] - m * x[i - 1]
    ensures Eliminated(A, B, a[3 * i + 1 := p], x[i := v], i + 1)
  {
    hide Pivot, Forward;
    EliminateUnfolds(A, B, i);
    assert m == Sub(A, i - 1) / Pivot(A, i - 1);
    assert p == Pivot(A, i) && v == Forward(A, B, i);
    var a', x' := a[3 * i + 1 := p], x[i := v];
    assert forall j :: 0 <= j < |B| && j != i ==> Diag(a', j) == Diag(a, j) && x'[j] == x[j];
  }

  /** The forward loop, up to the last division. */
  method Eliminate(n: nat, a: array<real>, x: array<real>, ghost A: seq<real>, ghost B: seq<real>) returns (r: Outcome)
    requires n > 0 && Sized(n, A, B) && a[..] == A && x[..] == B && a != x
    modifies a, x
    ensures r.Solved? || r.ZeroPivot?
    ensures r.Solved? <==> forall j :: 0 <= j < n - 1 ==> Pivot(A, j) != 0.0
    ensures r.Solved? ==> Eliminated(A, B, a[..], x[..], n)
  {
    hide Pivot, Forward, Eliminated;
    EliminatedStart(A, B);
    for i := 1 to n
      invariant forall j :: 0 <= j < i - 1 ==> Pivot(A, j) != 0.0
      invariant Eliminated(A, B, a[..], x[..], i)
    {
      ghost var a0, x0 := a[..], x[..];
      EliminatedAbove(A, B, a0, x0, i);
      if a[1 + (i - 1) * 3] == 0.0 {
        return ZeroPivot;
      }
      var xmult := a[2 + (i - 1) * 3] / a[1 + (i - 1) * 3];
      var p, v := a[1 + i * 3] - xmult * a[0 + i * 3], x[i] - xmult * x[i - 1];
      EliminatedNext(A, B, a0, x0, i, xmult, p, v);
      a[1 + i * 3] := p;
      x[i] := v;
      assert a[..] == a0[3 * i + 1 := p];
      assert x[..] == x0[i := v];
    }
    r := Solved;
  }

  lemma BackStep(p: real, u: real, f: real, x1: real)
    requires p != 0.0
    ensures p * ((f - u * x1) / p) + u * x1 == f
  {
  }

  /** The eliminated rows after `i` hold, the earlier ones still have their right hand side. */
  ghost predicate Substituted(n: nat, A: seq<real>, B: seq<real>, x: seq<real>, i: int)
    requires Sized(n, A, B)
  {
    && |x| == n && -1 <= i < n
    && (forall j :: 0 <= j <= i ==> x[j] == Forward(A, B, j))
    && (forall j :: i < j < n ==> Upper(n, A, B, x, j))
  }

  lemma SubstitutedNext(n: nat, A: seq<real>, B: seq<real>, x: seq<real>, i: nat, v: real)
    requires Sized(n, A, B) && Substituted(n, A, B, x, i) && Pivot(A, i) != 0.0
    requires v == (x[i] - if i + 1 < n then Sup(A, i + 1) * x[i + 1] else 0.0) / Pivot(A, i)
    ensures Substituted(n, A, B, x[i := v], i - 1)
  {
    var x' := x[i := v];
    assert Upper(n, A, B, x', i) by {
      hide Forward;
      if i + 1 < n {
        BackStep(Pivot(A, i), Sup(A, i + 1), Forward(A, B, i), x[i + 1]);
      } else {
        BackStep(Pivot(A, i), 0.0, Forward(A, B, i), 0.0);
      }
    }
    forall j | i < j < n ensures Upper(n, A, B, x', j) {
      hide Pivot, Forward;
      assert Upper(n, A, B, x, j);
    }
  }

  /** The backward loop. */
  method Substitute(n: nat, a: array<real>, x: array<real>, ghost A: seq<real>, ghost B: seq<real>) returns (r: Outcome)
    requires n > 0 && Sized(n, A, B) && a != x && Eliminated(A, B, a[..], x[..], n)
    requires forall j :: 0 <= j < n - 1 ==> Pivot(A, j) != 0.0
    modifies x
    ensures r.Solved? || r.ZeroPivot?
    ensures r.Solved? <==> PivotsNonzero(n, A)
    ensures r.Solved? ==> Solves(n, A, B, x[..])
  {
    hide Pivot, Forward, Upper, Row;
    ghost var a0 := a[..];
    assert a[1 + (n - 1) * 3] == Diag(a0, n - 1) == Pivot(A, n - 1);
    if a[1 + (n - 1) * 3] == 0.0 {
      return ZeroPivot;
    }
    SubstitutedNext(n, A, B, x[..], n - 1, x[n - 1] / a[1 + (n - 1) * 3]);
    ghost var x1 := x[..][n - 1 := x[n - 1] / a[1 + (n - 1) * 3]];
    x[n - 1] := x[n - 1] / a[1 + (n - 1) * 3];
    assert x[..] == x1;
    var i := n - 2;
    while 0 <= i
      invariant -1 <= i <= n - 2
      invariant Substituted(n, A, B, x[..], i)
    {
      ghost var x0 := x[..];
      assert a[0 + (i + 1) * 3] == Sup(a0, i + 1) == Sup(A, i + 1);
      assert a[1 + i * 3] == Diag(a0, i) == Pivot(A, i);
      var v := (x[i] - a[0 + (i + 1) * 3] * x[i + 1]) / a[1 + i * 3];
      SubstitutedNext(n, A, B, x0, i, v);
      x[i] := v;
      assert x[..] == x0[i := v];
      i := i - 1;
    }
    RowsFromUpper(n, A, B, x[..]);
    r := Solved;
  }
}
