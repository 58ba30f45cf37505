/** Sums, minima, maxima and counts, joined in any order and through any number of partial
    results. */
module Reduction {

  /** A real number or an infinity. */
  datatype Ext = NegInf | Fin(r: real) | PosInf

  predicate Le(a: Ext, b: Ext) {
    a.NegInf? || b.PosInf? || (a.Fin? && b.Fin? && a.r <= b.r)
  }

  function Min(a: Ext, b: Ext): Ext {
    if Le(a, b) then a else b
  }

  function Max(a: Ext, b: Ext): Ext {
    if Le(a, b) then b else a
  }

  /** The accumulators of one channel. */
  datatype Cell = Cell(sum: real, min: Ext, max: Ext, count: nat)

  const EMPTY := Cell(0.0, PosInf, NegInf, 0)

  /** One value, with what it adds to the sum. */
  function One(add: real, v: real): Cell {
    Cell(add, Fin(v), Fin(v), 1)
  }

  function Join(a: Cell, b: Cell): Cell {
    Cell(a.sum + b.sum, Min(a.min, b.min), Max(a.max, b.max), a.count + b.count)
  }

  lemma JoinAssoc(a: Cell, b: Cell, c: Cell)
    ensures Join(Join(a, b), c) == Join(a, Join(b, c))
  {
  }

  lemma JoinComm(a: Cell, b: Cell)
    ensures Join(a, b) == Join(b, a)
  {
  }

  lemma JoinEmpty(a: Cell)
    ensures Join(a, EMPTY) == a && Join(EMPTY, a) == a
  {
  }

  /** Move the last of three to the first. */
  lemma JoinSwap(a: Cell, b: Cell, c: Cell)
    ensures Join(Join(a, b), c) == Join(Join(a, c), b)
  {
    hide Join;
    JoinAssoc(a, b, c);
    JoinComm(b, c);
    JoinAssoc(a, c, b);
  }

  // ----- all at once -----

  /** The contributions of all places, joined from the left. */
  function All<P>(f: P -> Cell, ps: seq<P>): Cell {
    if ps == [] then EMPTY else Join(All(f, ps[..|ps| - 1]), f(ps[|ps| - 1]))
  }

  lemma {:induction false} AllConcat<P>(f: P -> Cell, a: seq<P>, b: seq<P>)
    ensures All(f, a + b) == Join(All(f, a), All(f, b))
    decreases |b|
  {
    hide Join;
    if b == [] {
      assert a + b == a;
      JoinEmpty(All(f, a));
    } else {
      var init, p := b[..|b| - 1], b[|b| - 1];
      assert (a + b)[..|a + b| - 1] == a + init;
      AllConcat(f, a, init);
      JoinAssoc(All(f, a), All(f, init), f(p));
    }
  }

  lemma AllOne<P>(f: P -> Cell, p: P)
    ensures All(f, [p]) == f(p)
  {
    assert [p][..0] == [];
    JoinEmpty(f(p));
  }

  /** A place in the middle can be taken last. */
  lemma AllTakeOut<P>(f: P -> Cell, l: seq<P>, p: P, r: seq<P>)
    ensures All(f, l + [p] + r) == Join(All(f, l + r), f(p))
  {
    hide Join, All;
    AllConcat(f, l, r);
    AllConcat(f, l + [p], r);
    AllConcat(f, l, [p]);
    AllOne(f, p);
    JoinSwap(All(f, l), f(p), All(f, r));
  }

  lemma TakeOut<P>(init: seq<P>, p: P, b: seq<P>) returns (l: seq<P>, r: seq<P>)
    requires multiset(init + [p]) == multiset(b)
    ensures b == l + [p] + r && multiset(init) == multiset(l + r)
  {
    assert p in multiset(init + [p]);
    var i :| 0 <= i < |b| && b[i] == p;
    l, r := b[..i], b[i + 1..];
    assert b == l + [p] + r;
    CountsMiddle(init, p, []);
    CountsMiddle(l, p, r);
    assert init + [p] + [] == init + [p] && init + [] == init;
  }

  lemma CountsMiddle<P>(l: seq<P>, p: P, r: seq<P>)
    ensures multiset(l + [p] + r) - multiset{p} == multiset(l + r)
  {
    assert multiset(l + [p] + r) == multiset(l) + multiset{p} + multiset(r);
    assert multiset(l + r) == multiset(l) + multiset(r);
  }

  /** The order of the places does not matter. */
  lemma {:induction false} AllPermuted<P>(f: P -> Cell, a: seq<P>, b: seq<P>)
    requires multiset(a) == multiset(b)
    ensures All(f, a) == All(f, b)
    decreases |a|
  {
    hide Join;
    if a == [] {
      assert |b| == |multiset(b)| == 0;
    } else {
      var init, p := a[..|a| - 1], a[|a| - 1];
      assert a == init + [p];
      var l, r := TakeOut(init, p, b);
      AllPermuted(f, init, l + r);
      AllTakeOut(f, l, p, r);
    }
  }

  // ----- through partial results -----

  /** A place handled by a worker. */
  datatype Step<P> = Step(place: P, worker: nat)

  function Places<P>(steps: seq<Step<P>>): seq<P> {
    if steps == [] then [] else Places(steps[..|steps| - 1]) + [steps[|steps| - 1].place]
  }

  /** What one worker has gathered. */
  function Load<P>(f: P -> Cell, steps: seq<Step<P>>, t: nat): Cell {
    if steps == [] then EMPTY
    else
      var s, l := steps[|steps| - 1], Load(f, steps[..|steps| - 1], t);
      if s.worker == t then Join(l, f(s.place)) else l
  }

  /** The loads of the first `n` workers. */
  function Merged<P>(f: P -> Cell, steps: seq<Step<P>>, n: nat): Cell {
    if n == 0 then EMPTY else Join(Merged(f, steps, n - 1), Load(f, steps, n - 1))
  }

  lemma {:induction false} MergedEmpty<P>(f: P -> Cell, n: nat)
    ensures Merged(f, [], n) == EMPTY
  {
    if n > 0 {
      MergedEmpty(f, n - 1);
    }
  }

  lemma {:induction false} MergedStep<P>(f: P -> Cell, steps: seq<Step<P>>, n: nat)
    requires steps != []
    ensures var init, s := steps[..|steps| - 1], steps[|steps| - 1];
            Merged(f, steps, n) == if s.worker < n then Join(Merged(f, init, n), f(s.place)) else Merged(f, init, n)
    decreases n
  {
    hide Join;
    if n > 0 {
      var init, s := steps[..|steps| - 1], steps[|steps| - 1];
      MergedStep(f, steps, n - 1);
      if s.worker < n - 1 {
        JoinSwap(Merged(f, init, n - 1), f(s.place), Load(f, init, n - 1));
      } else if s.worker == n - 1 {
        JoinAssoc(Merged(f, init, n - 1), Load(f, init, n - 1), f(s.place));
      }
    }
  }

  lemma {:induction false} MergedAll<P>(f: P -> Cell, steps: seq<Step<P>>, n: nat)
    requires forall i :: 0 <= i < |steps| ==> steps[i].worker < n
    ensures Merged(f, steps, n) == All(f, Places(steps))
    decreases |steps|
  {
    hide Join;
    if steps == [] {
      MergedEmpty(f, n);
    } else {
      var init := steps[..|steps| - 1];
      MergedStep(f, steps, n);
      MergedAll(f, init, n);
      assert Places(steps)[..|Places(steps)| - 1] == Places(init);
    }
  }

  /** However the places are shared out and in whatever order they are handled, merging the
      loads gives what handling them all in one pass gives. */
  lemma MergedIsAll<P>(f: P -> Cell, steps: seq<Step<P>>, n: nat, places: seq<P>)
    requires forall i :: 0 <= i < |steps| ==> steps[i].worker < n
    requires multiset(Places(steps)) == multiset(places)
    ensures Merged(f, steps, n) == All(f, places)
  {
    MergedAll(f, steps, n);
    AllPermuted(f, Places(steps), places);
  }

  // ----- what the accumulators mean -----

  predicate IsValue(c: Cell) {
    c == EMPTY || (c.count == 1 && c.min.Fin? && c.max == c.min)
  }

  lemma JoinBounds(a: Cell, b: Cell)
    ensures Le(Join(a, b).min, a.min) && Le(Join(a, b).min, b.min)
    ensures Le(a.max, Join(a, b).max) && Le(b.max, Join(a, b).max)
  {
  }

  lemma LeTransitive(a: Ext, b: Ext, c: Ext)
    requires Le(a, b) && Le(b, c)
    ensures Le(a, c)
  {
  }

  /** The minimum and the maximum bound every value. */
  lemma {:induction false} AllBounds<P>(f: P -> Cell, ps: seq<P>, p: P)
    requires p in ps
    ensures Le(All(f, ps).min, f(p).min) && Le(f(p).max, All(f, ps).max)
  {
    hide Join, Le;
    var init, q := ps[..|ps| - 1], ps[|ps| - 1];
    JoinBounds(All(f, init), f(q));
    if p in init {
      AllBounds(f, init, p);
      LeTransitive(All(f, ps).min, All(f, init).min, f(p).min);
      LeTransitive(f(p).max, All(f, init).max, All(f, ps).max);
    }
  }

  /** And both are values, unless there are none. */
  lemma {:induction false} AllAttains<P>(f: P -> Cell, ps: seq<P>) returns (p: P, q: P)
    requires ps != [] && forall i :: 0 <= i < |ps| ==> IsValue(f(ps[i]))
    ensures p in ps && q in ps && All(f, ps).min == f(p).min && All(f, ps).max == f(q).max
    ensures All(f, ps).count > 0 ==> f(p).count == 1 && f(q).count == 1
    ensures All(f, ps).count == 0 ==> All(f, ps).min == PosInf && All(f, ps).max == NegInf
  {
    hide Join, Le;
    var init, r := ps[..|ps| - 1], ps[|ps| - 1];
    p, q := r, r;
    assert IsValue(f(r));
    if init == [] {
      JoinEmpty(f(r));
    } else {
      var p0, q0 := AllAttains(f, init);
      AttainStep(All(f, init), f(r), f(p0), f(q0));
      p := if f(r).count == 1 && (All(f, init).count == 0 || Le(f(r).min, All(f, init).min)) then r else p0;
      q := if f(r).count == 1 && (All(f, init).count == 0 || Le(All(f, init).max, f(r).max)) then r else q0;
    }
  }

  lemma AttainStep(a: Cell, b: Cell, p: Cell, q: Cell)
    requires IsValue(b) && IsValue(p) && IsValue(q) && a.min == p.min && a.max == q.max
    requires if a.count > 0 then p.count == 1 && q.count == 1 else a.min == PosInf && a.max == NegInf
    ensures Join(a, b).count == a.count + b.count
    ensures Join(a, b).min == if b.count == 1 && (a.count == 0 || Le(b.min, a.min)) then b.min else p.min
    ensures Join(a, b).max == if b.count == 1 && (a.count == 0 || Le(a.max, b.max)) then b.max else q.max
  {
  }

  /** A value adds its share `w` of itself to the sum. */
  predicate Plain(c: Cell, w: real) {
    IsValue(c) && (c.count == 1 ==> c.sum == w * c.min.r) && (c.count == 0 ==> c.sum == 0.0)
  }

  /** The weight of `n` values. */
  function Share(w: real, n: nat): real {
    w * n as real
  }

  predicate Within(c: Cell, w: real, lo: real, hi: real) {
    lo * Share(w, c.count) <= c.sum <= hi * Share(w, c.count)
  }

  lemma ShareAdds(w: real, m: nat, n: nat)
    ensures Share(w, m + n) == Share(w, m) + Share(w, n)
  {
  }

  lemma Distributes(k: real, x: real, y: real)
    ensures k * (x + y) == k * x + k * y
  {
  }

  lemma JoinWithin(a: Cell, b: Cell, w: real, lo: real, hi: real)
    requires Within(a, w, lo, hi) && Within(b, w, lo, hi)
    ensures Within(Join(a, b), w, lo, hi)
  {
    hide Share;
    ShareAdds(w, a.count, b.count);
    Distributes(lo, Share(w, a.count), Share(w, b.count));
    Distributes(hi, Share(w, a.count), Share(w, b.count));
  }

  lemma ScaleKeepsOrder(w: real, x: real, y: real)
    requires w >= 0.0 && x <= y
    ensures x * w <= y * w
  {
    assert (y - x) * w >= 0.0;
  }

  lemma PlainWithin(c: Cell, w: real, lo: Ext, hi: Ext)
    requires w >= 0.0 && Plain(c, w) && lo.Fin? && hi.Fin? && Le(lo, c.min) && Le(c.max, hi)
    ensures Within(c, w, lo.r, hi.r)
  {
    if c.count == 1 {
      ScaleKeepsOrder(w, lo.r, c.min.r);
      ScaleKeepsOrder(w, c.min.r, hi.r);
    }
  }

  lemma {:induction false} AllWithin<P>(f: P -> Cell, ps: seq<P>, w: real, lo: real, hi: real)
    requires forall i :: 0 <= i < |ps| ==> Within(f(ps[i]), w, lo, hi)
    ensures Within(All(f, ps), w, lo, hi)
  {
    if ps != [] {
      hide Within, Join;
      AllWithin(f, ps[..|ps| - 1], w, lo, hi);
      JoinWithin(All(f, ps[..|ps| - 1]), f(ps[|ps| - 1]), w, lo, hi);
    }
  }

  /** The sum lies between the minimum and the maximum, times the weight of the values. */
  lemma SumBetween<P>(f: P -> Cell, ps: seq<P>, w: real)
    requires w >= 0.0 && forall i :: 0 <= i < |ps| ==> Plain(f(ps[i]), w)
    requires All(f, ps).count > 0
    ensures var c := All(f, ps); c.min.Fin? && c.max.Fin? && Within(c, w, c.min.r, c.max.r)
  {
    hide Join, Within, Le;
    assert ps != [];
    var p, q := AllAttains(f, ps);
    var c := All(f, ps);
    assert Plain(f(p), w) && Plain(f(q), w);
    forall i | 0 <= i < |ps|
      ensures Within(f(ps[i]), w, c.min.r, c.max.r)
    {
      AllBounds(f, ps, ps[i]);
      PlainWithin(f(ps[i]), w, c.min, c.max);
    }
    AllWithin(f, ps, w, c.min.r, c.max.r);
  }

  /** The mean lies between the minimum and the maximum. */
  lemma MeanBetween<P>(f: P -> Cell, ps: seq<P>)
    requires forall i :: 0 <= i < |ps| ==> Plain(f(ps[i]), 1.0)
    requires All(f, ps).count > 0
    ensures var c := All(f, ps);
            c.min.Fin? && c.max.Fin? && c.min.r <= c.sum / c.count as real <= c.max.r
  {
    hide All, Within, Plain;
    SumBetween(f, ps, 1.0);
    var c := All(f, ps);
    Divided(c, c.min.r, c.max.r);
  }

  lemma Divided(c: Cell, lo: real, hi: real)
    requires c.count > 0 && Within(c, 1.0, lo, hi)
    ensures lo <= c.sum / c.count as real <= hi
  {
    var n := c.count as real;
    var q := c.sum / n;
    assert q * n == c.sum;
    assert (q - lo) * n >= 0.0 && (hi - q) * n >= 0.0;
  }
}
