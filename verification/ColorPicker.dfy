/** The colour picker of src/common/color_picker.c: its sequential helpers and its threaded
    ones compute the same. */
module ColorPicker {
  import opened PickedMean
  import opened PickerPixels
  import opened Reduction

  // ----- handling one pixel -----

  /** Every accumulator takes the contribution of its channel. */
  ghost predicate Took(after: seq<Cell>, before: seq<Cell>, b: Buffer, w: real, p: Pos) {
    && |after| == |before|
    && forall c :: 0 <= c < |after| ==> after[c] == Join(before[c], Contribution(b, w, p, c))
  }

  method AddValues(w: real, values: seq<real>, acc: array<Cell>)
    requires acc.Length == |values|
    modifies acc
    ensures forall c :: 0 <= c < acc.Length ==> acc[c] == Join(old(acc[c]), Weighted(w, values[c]))
  {
    hide Join, Weighted;
    for m := 0 to |values|
      invariant forall c :: 0 <= c < acc.Length ==>
                  acc[c] == if c < m then Join(old(acc[c]), Weighted(w, values[c])) else old(acc[c])
    {
      acc[m] := Join(acc[m], Weighted(w, values[m]));
    }
  }

  /** Add one pixel to the accumulators, in place. */
  method AddPixel(b: Buffer, box: Box, w: real, p: Pos, acc: array<Cell>)
    requires Fits(b, box) && Inside(p, box) && acc.Length == Channels(b.layout)
    modifies acc
    ensures Took(acc[..], old(acc[..]), b, w, p)
  {
    hide Join, Index, FC, FCxtrans, Weighted;
    PixelInBounds(b, box, p);
    var k := PerPixel(b.layout) * Index(b, p);
    if b.layout.FourChannel? {
      var lab := (b.pixel[k], b.pixel[k + 1], b.pixel[k + 2]);
      if b.layout.lch {
        lab := b.layout.toLch(lab.0, lab.1, lab.2);
      }
      assert lab == Converted(b, p);
      AddValues(w, [lab.0, lab.1, lab.2], acc);
    } else {
      var c := Channel(b, p);
      var v := b.pixel[k];
      acc[c] := Join(acc[c], One(v, v));
      forall d | 0 <= d < acc.Length
        ensures acc[d] == Join(old(acc[d]), Contribution(b, w, p, d))
      {
        JoinEmpty(old(acc[d]));
      }
    }
  }

  /** Every accumulator has taken the contributions of all these pixels. */
  ghost predicate TookAll(after: seq<Cell>, before: seq<Cell>, b: Buffer, w: real, ps: seq<Pos>) {
    && |after| == |before|
    && forall c :: 0 <= c < |after| ==> after[c] == Join(before[c], All(Contributions(b, w, c), ps))
  }

  lemma TookOneMore(c0: seq<Cell>, c1: seq<Cell>, c2: seq<Cell>, b: Buffer, w: real, ps: seq<Pos>, p: Pos)
    requires TookAll(c1, c0, b, w, ps) && Took(c2, c1, b, w, p)
    ensures TookAll(c2, c0, b, w, ps + [p])
  {
    hide Join;
    forall c | 0 <= c < |c2|
      ensures c2[c] == Join(c0[c], All(Contributions(b, w, c), ps + [p]))
    {
      var f := Contributions(b, w, c);
      assert (ps + [p])[..|ps|] == ps;
      JoinAssoc(c0[c], All(f, ps), f(p));
    }
  }

  lemma TookNone(c: seq<Cell>, b: Buffer, w: real)
    ensures TookAll(c, c, b, w, [])
  {
    forall i | 0 <= i < |c|
      ensures c[i] == Join(c[i], All(Contributions(b, w, i), []))
    {
      JoinEmpty(c[i]);
    }
  }

  // ----- one thread -----

  /** The pixel loops of the sequential helpers. */
  method AccumulateSequential(b: Buffer, box: Box, acc: array<Cell>)
    requires Fits(b, box) && acc.Length == Channels(b.layout)
    modifies acc
    ensures TookAll(acc[..], old(acc[..]), b, Weight(box), Pixels(box))
  {
    hide Fits, Took, TookAll, Weight;
    ghost var before := acc[..];
    FitsBox(b, box);
    var w := Weight(box);
    TookNone(before, b, w);
    var j := box.top;
    while j < box.bottom
      invariant box.top <= j <= box.bottom
      invariant TookAll(acc[..], before, b, w, Rows(box, j - box.top))
    {
      var i := box.left;
      ghost var rows := Rows(box, j - box.top);
      assert rows + Row(j, box.left, 0) == rows;
      while i < box.right
        invariant box.left <= i <= box.right
        invariant TookAll(acc[..], before, b, w, rows + Row(j, box.left, i - box.left))
      {
        ghost var now, ps, p := acc[..], rows + Row(j, box.left, i - box.left), Pos(j, i);
        AddPixel(b, box, w, Pos(j, i), acc);
        TookOneMore(before, now, acc[..], b, w, ps, p);
        assert ps + [p] == rows + Row(j, box.left, i + 1 - box.left);
        i := i + 1;
      }
      assert Rows(box, j + 1 - box.top) == rows + Row(j, box.left, box.right - box.left);
      j := j + 1;
    }
  }

  // ----- several threads -----

  /** The steps of all threads in the order they happen: every pixel of the box once, by any
      thread and at any time. */
  ghost predicate Schedule(steps: seq<Step<Pos>>, box: Box, threads: nat)
    requires box.left <= box.right && box.top <= box.bottom
  {
    && (forall n :: 0 <= n < |steps| ==> steps[n].worker < threads)
    && multiset(Places(steps)) == multiset(Pixels(box))
  }

  lemma {:induction false} PlaceListed(steps: seq<Step<Pos>>, n: nat)
    requires n < |steps|
    ensures steps[n].place in Places(steps)
  {
    if n < |steps| - 1 {
      PlaceListed(steps[..|steps| - 1], n);
    }
  }

  lemma ScheduledInside(steps: seq<Step<Pos>>, box: Box, threads: nat, n: nat)
    requires box.left <= box.right && box.top <= box.bottom
    requires Schedule(steps, box, threads) && n < |steps|
    ensures Inside(steps[n].place, box)
  {
    PlaceListed(steps, n);
    assert steps[n].place in multiset(Places(steps));
    RowsInside(box, box.bottom - box.top, steps[n].place);
  }

  /** A thread's accumulators hold what it has gathered. */
  ghost predicate Loaded(cells: seq<Cell>, b: Buffer, w: real, steps: seq<Step<Pos>>, t: nat) {
    forall c :: 0 <= c < |cells| ==> cells[c] == Load(Contributions(b, w, c), steps, t)
  }

  lemma LoadedStep(before: seq<Cell>, after: seq<Cell>, b: Buffer, w: real, steps: seq<Step<Pos>>, n: nat, t: nat)
    requires n < |steps| && Loaded(before, b, w, steps[..n], t)
    requires if steps[n].worker == t then Took(after, before, b, w, steps[n].place) else after == before
    ensures Loaded(after, b, w, steps[..n + 1], t)
  {
    hide Join;
    assert steps[..n + 1][..n] == steps[..n];
  }

  /** The accumulators have taken the loads of the first `n` threads. */
  ghost predicate TookLoads(after: seq<Cell>, before: seq<Cell>, b: Buffer, w: real, steps: seq<Step<Pos>>, n: nat) {
    && |after| == |before|
    && forall c :: 0 <= c < |after| ==> after[c] == Join(before[c], Merged(Contributions(b, w, c), steps, n))
  }

  lemma TookLoad(c0: seq<Cell>, c1: seq<Cell>, c2: seq<Cell>, load: seq<Cell>,
                 b: Buffer, w: real, steps: seq<Step<Pos>>, n: nat)
    requires TookLoads(c1, c0, b, w, steps, n) && Loaded(load, b, w, steps, n)
    requires |load| == |c2| == |c1| && forall c :: 0 <= c < |c2| ==> c2[c] == Join(c1[c], load[c])
    ensures TookLoads(c2, c0, b, w, steps, n + 1)
  {
    hide Join;
    forall c | 0 <= c < |c2|
      ensures c2[c] == Join(c0[c], Merged(Contributions(b, w, c), steps, n + 1))
    {
      JoinAssoc(c0[c], Merged(Contributions(b, w, c), steps, n), load[c]);
    }
  }

  lemma LoadsAreAll(after: seq<Cell>, before: seq<Cell>, b: Buffer, w: real, steps: seq<Step<Pos>>, box: Box,
                    threads: nat)
    requires box.left <= box.right && box.top <= box.bottom && Schedule(steps, box, threads)
    requires TookLoads(after, before, b, w, steps, threads)
    ensures TookAll(after, before, b, w, Pixels(box))
  {
    hide Join, Pixels;
    forall c | 0 <= c < |after|
      ensures after[c] == Join(before[c], All(Contributions(b, w, c), Pixels(box)))
    {
      MergedIsAll(Contributions(b, w, c), steps, threads, Pixels(box));
    }
  }

  /** The accumulators of each thread, all distinct. */
  method Allocate(threads: nat, channels: nat) returns (work: seq<array<Cell>>)
    ensures |work| == threads && forall t :: 0 <= t < threads ==> fresh(work[t]) && work[t].Length == channels
    ensures forall t, u :: 0 <= t < u < threads ==> work[t] != work[u]
    ensures forall t :: 0 <= t < threads ==> forall c :: 0 <= c < channels ==> work[t][c] == EMPTY
  {
    work := [];
    while |work| < threads
      invariant |work| <= threads
      invariant forall t :: 0 <= t < |work| ==> fresh(work[t]) && work[t].Length == channels
      invariant forall t, u :: 0 <= t < u < |work| ==> work[t] != work[u]
      invariant forall t :: 0 <= t < |work| ==> forall c :: 0 <= c < channels ==> work[t][c] == EMPTY
    {
      var cells := new Cell[channels](_ => EMPTY);
      work := work + [cells];
    }
  }

  /** Add a thread's accumulators to the picked ones. */
  method MergeLoad(load: array<Cell>, acc: array<Cell>)
    requires load.Length == acc.Length && load != acc
    modifies acc
    ensures forall c :: 0 <= c < acc.Length ==> acc[c] == Join(old(acc[c]), load[c])
  {
    hide Join;
    for k := 0 to acc.Length
      invariant forall c :: 0 <= c < acc.Length ==> acc[c] == if c < k then Join(old(acc[c]), load[c]) else old(acc[c])
    {
      acc[k] := Join(acc[k], load[k]);
    }
  }

  /** The pixel loops of the threaded helpers, in the order the threads happen to run. */
  method RunThreads(b: Buffer, box: Box, threads: nat, steps: seq<Step<Pos>>, w: real, work: seq<array<Cell>>)
    requires Fits(b, box) && Schedule(steps, box, threads)
    requires |work| == threads && forall t :: 0 <= t < threads ==> work[t].Length == Channels(b.layout)
    requires forall t, u :: 0 <= t < u < threads ==> work[t] != work[u]
    requires forall t :: 0 <= t < threads ==> Loaded(work[t][..], b, w, [], t)
    modifies work
    ensures forall t :: 0 <= t < threads ==> Loaded(work[t][..], b, w, steps, t)
  {
    hide Fits, Took, Schedule, Loaded, Inside, Channels;
    FitsBox(b, box);
    var n := 0;
    assert steps[..0] == [];
    while n < |steps|
      invariant 0 <= n <= |steps|
      invariant forall t :: 0 <= t < threads ==> Loaded(work[t][..], b, w, steps[..n], t)
    {
      ScheduledInside(steps, box, threads, n);
      var u := steps[n].worker;
      ScheduledWorker(steps, box, threads, n);
      label before:
      AddPixel(b, box, w, steps[n].place, work[u]);
      forall t | 0 <= t < threads
        ensures Loaded(work[t][..], b, w, steps[..n + 1], t)
      {
        assert t != u ==> work[t] != work[u] && work[t][..] == old@before(work[t][..]);
        LoadedStep(old@before(work[t][..]), work[t][..], b, w, steps, n, t);
      }
      n := n + 1;
    }
    assert steps[..n] == steps;
  }

  lemma ScheduledWorker(steps: seq<Step<Pos>>, box: Box, threads: nat, n: nat)
    requires box.left <= box.right && box.top <= box.bottom
    requires Schedule(steps, box, threads) && n < |steps|
    ensures steps[n].worker < threads
  {
  }

  /** The threaded helpers up to the merge, for any number of threads and any schedule. */
  method AccumulateParallel(b: Buffer, box: Box, threads: nat, steps: seq<Step<Pos>>, acc: array<Cell>)
    requires Fits(b, box) && acc.Length == Channels(b.layout) && Schedule(steps, box, threads)
    modifies acc
    ensures TookAll(acc[..], old(acc[..]), b, Weight(box), Pixels(box))
  {
    hide Fits, Weight, Schedule, Join, TookAll;
    FitsBox(b, box);
    ghost var before := acc[..];
    var w := Weight(box);
    var work := Allocate(threads, acc.Length);
    RunThreads(b, box, threads, steps, w, work);
    var n := 0;
    assert TookLoads(before, before, b, w, steps, 0) by {
      TookNoLoads(before, b, w, steps);
    }
    hide TookLoads, Loaded;
    while n < threads
      invariant 0 <= n <= threads && TookLoads(acc[..], before, b, w, steps, n)
      invariant forall t :: 0 <= t < threads ==> Loaded(work[t][..], b, w, steps, t)
    {
      ghost var now := acc[..];
      MergeLoad(work[n], acc);
      TookLoad(before, now, acc[..], work[n][..], b, w, steps, n);
      n := n + 1;
    }
    LoadsAreAll(acc[..], before, b, w, steps, box, threads);
  }

  lemma TookNoLoads(c: seq<Cell>, b: Buffer, w: real, steps: seq<Step<Pos>>)
    ensures TookLoads(c, c, b, w, steps, 0)
  {
    forall i | 0 <= i < |c|
      ensures c[i] == Join(c[i], Merged(Contributions(b, w, i), steps, 0))
    {
      JoinEmpty(c[i]);
    }
  }

  // ----- the mean -----

  /** The sum becomes the mean; with four channels it already is one. A channel of a Bayer
      filter without pixels has mean zero; X-Trans divides all the same. */
  function Normalized(l: Layout, c: Cell): Cell {
    if l.FourChannel? then c
    else if c.count > 0 then c.(sum := c.sum / c.count as real)
    else if l.Bayer? then c.(sum := 0.0)
    else c
  }

  /** The mean of the channel is a number. */
  predicate Defined(l: Layout, c: Cell) {
    l.Xtrans? ==> c.count > 0
  }

  /** What the picker answers, in one pass over the box. */
  ghost function Picked(before: seq<Cell>, b: Buffer, box: Box): seq<Cell>
    requires box.left <= box.right && box.top <= box.bottom
  {
    seq(|before|, (c: nat) requires c < |before| =>
      Normalized(b.layout, Join(before[c], All(Contributions(b, Weight(box), c), Pixels(box)))))
  }

  method Normalize(l: Layout, acc: array<Cell>) returns (ok: bool)
    modifies acc
    ensures forall c :: 0 <= c < acc.Length ==> acc[c] == Normalized(l, old(acc[c]))
    ensures ok <==> forall c :: 0 <= c < acc.Length ==> Defined(l, old(acc[c]))
  {
    ok := true;
    for k := 0 to acc.Length
      invariant forall c :: 0 <= c < acc.Length ==> acc[c] == if c < k then Normalized(l, old(acc[c])) else old(acc[c])
      invariant ok <==> forall c :: 0 <= c < k ==> Defined(l, old(acc[c]))
    {
      if l.Bayer? {
        acc[k] := acc[k].(sum := if acc[k].count != 0 then acc[k].sum / acc[k].count as real else 0.0);
      } else if l.Xtrans? {
        if acc[k].count == 0 {
          ok := false;
        } else {
          acc[k] := acc[k].(sum := acc[k].sum / acc[k].count as real);
        }
      }
    }
  }

  /** Every mean of an X-Trans filter is defined. */
  ghost predicate AllOccur(b: Buffer, box: Box)
    requires Sound(b)
  {
    b.layout.Xtrans? ==> Occurs(b, box, 0) && Occurs(b, box, 1) && Occurs(b, box, 2)
  }

  method Finish(b: Buffer, box: Box, ghost before: seq<Cell>, acc: array<Cell>) returns (ok: bool)
    requires Fits(b, box) && acc.Length == Channels(b.layout)
    requires TookAll(acc[..], before, b, Weight(box), Pixels(box))
    requires forall c :: 0 <= c < |before| ==> before[c].count == 0
    modifies acc
    ensures acc[..] == Picked(before, b, box)
    ensures ok <==> AllOccur(b, box)
  {
    hide Normalized, Weight, Pixels, All, Join, Occurs;
    ghost var sums := acc[..];
    assert b.layout.Xtrans? ==> forall c :: 0 <= c < 3 ==> (sums[c].count > 0 <==> Occurs(b, box, c)) by {
      if b.layout.Xtrans? {
        forall c | 0 <= c < 3
          ensures sums[c].count > 0 <==> Occurs(b, box, c)
        {
          CountsPixels(b, Weight(box), box, c);
          JoinCount(before[c], All(Contributions(b, Weight(box), c), Pixels(box)));
        }
      }
    }
    ok := Normalize(b.layout, acc);
    assert acc[..] == Picked(before, b, box);
  }

  lemma JoinCount(a: Cell, b: Cell)
    ensures Join(a, b).count == a.count + b.count
  {
  }

  method PickSequential(b: Buffer, box: Box, acc: array<Cell>) returns (ok: bool)
    requires Fits(b, box) && acc.Length == Channels(b.layout)
    requires forall c :: 0 <= c < acc.Length ==> acc[c].count == 0
    modifies acc
    ensures acc[..] == Picked(old(acc[..]), b, box)
    ensures (forall c :: 0 <= c < acc.Length ==> old(acc[c]) == EMPTY) ==>
              forall c :: 0 <= c < acc.Length ==> Answers(b, box, c, acc[c])
    ensures ok <==> AllOccur(b, box)
  {
    hide Picked, TookAll, Weight, AllOccur, Answers;
    ghost var before := acc[..];
    AccumulateSequential(b, box, acc);
    ok := Finish(b, box, before, acc);
    if forall c :: 0 <= c < |before| ==> before[c] == EMPTY {
      PickedAnswers(before, b, box);
    }
  }

  method PickParallel(b: Buffer, box: Box, threads: nat, steps: seq<Step<Pos>>, acc: array<Cell>) returns (ok: bool)
    requires Fits(b, box) && acc.Length == Channels(b.layout) && Schedule(steps, box, threads)
    requires forall c :: 0 <= c < acc.Length ==> acc[c].count == 0
    modifies acc
    ensures acc[..] == Picked(old(acc[..]), b, box)
    ensures (forall c :: 0 <= c < acc.Length ==> old(acc[c]) == EMPTY) ==>
              forall c :: 0 <= c < acc.Length ==> Answers(b, box, c, acc[c])
    ensures ok <==> AllOccur(b, box)
  {
    hide Picked, TookAll, Weight, AllOccur, Answers;
    ghost var before := acc[..];
    AccumulateParallel(b, box, threads, steps, acc);
    ok := Finish(b, box, before, acc);
    if forall c :: 0 <= c < |before| ==> before[c] == EMPTY {
      PickedAnswers(before, b, box);
    }
  }

  /** Small boxes in one thread, others in several: the answer is that of one pass whichever
      way is taken and however the threads run. A mean is undefined exactly when a channel of
      an X-Trans filter does not occur in the box. */
  method Pick(b: Buffer, box: Box, threads: nat, steps: seq<Step<Pos>>, acc: array<Cell>) returns (ok: bool)
    requires Fits(b, box) && acc.Length == Channels(b.layout) && Schedule(steps, box, threads)
    requires forall c :: 0 <= c < acc.Length ==> acc[c].count == 0
    modifies acc
    ensures acc[..] == Picked(old(acc[..]), b, box)
    ensures (forall c :: 0 <= c < acc.Length ==> old(acc[c]) == EMPTY) ==>
              forall c :: 0 <= c < acc.Length ==> Answers(b, box, c, acc[c])
    ensures ok <==> AllOccur(b, box)
  {
    hide Picked, AllOccur, Schedule, Answers;
    var size := (box.bottom - box.top) * (box.right - box.left);
    if size > 100 {
      ok := PickParallel(b, box, threads, steps, acc);
    } else {
      ok := PickSequential(b, box, acc);
    }
  }

  /** From empty accumulators, what the box's pixels say. */
  lemma PickedAnswers(before: seq<Cell>, b: Buffer, box: Box)
    requires Fits(b, box) && forall c :: 0 <= c < |before| ==> before[c] == EMPTY
    ensures |Picked(before, b, box)| == |before|
    ensures forall c :: 0 <= c < |before| ==> Answers(b, box, c, Picked(before, b, box)[c])
  {
    hide Answers, All, Join, Pixels, Weight, Contributions;
    forall c | 0 <= c < |before|
      ensures Answers(b, box, c, Picked(before, b, box)[c])
    {
      var s := All(Contributions(b, Weight(box), c), Pixels(box));
      JoinEmpty(s);
      if b.layout.FourChannel? {
        FourChannelAnswers(b, box, c);
      } else {
        FilterAnswers(b, box, c, Normalized(b.layout, s));
      }
    }
  }

  /** From empty accumulators, the mean of a channel that occurs in the box lies between its
      minimum and its maximum, and both of these are values of pixels in the box. */
  lemma PickedBetween(b: Buffer, box: Box, c: nat)
    requires Fits(b, box) && c < Channels(b.layout) && Occurs(b, box, c)
    ensures var r := Picked(seq(Channels(b.layout), _ => EMPTY), b, box)[c];
            r.min.Fin? && r.max.Fin? && r.min.r <= r.sum <= r.max.r
    ensures var r := Picked(seq(Channels(b.layout), _ => EMPTY), b, box)[c];
            exists p, q :: Inside(p, box) && Has(b, p, c) && r.min == Fin(ValueOf(b, p, c))
                           && Inside(q, box) && Has(b, q, c) && r.max == Fin(ValueOf(b, q, c))
  {
    hide All, Join, Pixels, Sound, Channel, ValueOf, Weight, Share;
    var w := Weight(box);
    var f, ps := Contributions(b, w, c), Pixels(box);
    CountsPixels(b, w, box, c);
    JoinEmpty(All(f, ps));
    if b.layout.FourChannel? {
      FourChannelBetween(b, box, c);
    } else {
      MeanBetween(f, ps);
    }
    assert ps != [] by {
      EmptyAll(f);
    }
    var p, q := AllAttains(f, ps);
    RowsOf(box, p);
    RowsOf(box, q);
  }

  /** The weights of the pixels of a box add up to one. */
  lemma FourChannelBetween(b: Buffer, box: Box, c: nat)
    requires Fits(b, box) && b.layout.FourChannel? && All(Contributions(b, Weight(box), c), Pixels(box)).count > 0
    ensures var r := All(Contributions(b, Weight(box), c), Pixels(box));
            r.min.Fin? && r.max.Fin? && r.min.r <= r.sum <= r.max.r
  {
    hide All, Rows, Contribution, Weight, Sound, Share, Area;
    var w, ps := Weight(box), Pixels(box);
    var f := Contributions(b, w, c);
    AllCounted(b, w, c, ps);
    PixelCount(box, box.bottom - box.top);
    WholeBox(box, |ps|);
    SumBetween(f, ps, w);
  }

  lemma {:induction false} AllCounted(b: Buffer, w: real, c: nat, ps: seq<Pos>)
    requires b.layout.FourChannel?
    ensures All(Contributions(b, w, c), ps).count == |ps|
  {
    if ps != [] {
      hide ValueOf;
      AllCounted(b, w, c, ps[..|ps| - 1]);
    }
  }
}
