/** What the colour picker of src/common/color_picker.c answers for a box, from the pixels of the
    buffer alone: the number of pixels of a channel, their mean, their minimum and maximum. */
module PickedMean {
  import opened PickerPixels
  import opened Reduction

  /** The pixel in row `j` and column `i` has a value in channel `c`. */
  predicate Carries(b: Buffer, j: nat, i: nat, c: nat)
    requires Sound(b)
  {
    match b.layout
    case FourChannel(_, _) => true
    case Bayer(filters) => FC(j + b.roi.y, i + b.roi.x, filters) == c
    case Xtrans(pattern) => pattern[(j + 600 + b.roi.y) % 6][(i + 600 + b.roi.x) % 6] == c
  }

  /** That value. */
  function Value(b: Buffer, box: Box, j: nat, i: nat, c: nat): real
    requires Fits(b, box) && Inside(Pos(j, i), box)
  {
    PixelInBounds(b, box, Pos(j, i));
    var k := b.roi.width * j + i;
    match b.layout
    case FourChannel(lch, toLch) =>
      var lab := (b.pixel[4 * k], b.pixel[4 * k + 1], b.pixel[4 * k + 2]);
      var v := if lch then toLch(lab.0, lab.1, lab.2) else lab;
      if c == 0 then v.0 else if c == 1 then v.1 else v.2
    case _ => b.pixel[k]
  }

  predicate InRow(b: Buffer, box: Box, j: nat, right: nat) {
    Fits(b, box) && box.top <= j < box.bottom && box.left <= right <= box.right
  }

  /** The sum of a channel over row `j` of the box, up to a column. */
  function RowTotal(b: Buffer, box: Box, c: nat, j: nat, right: nat): real
    requires InRow(b, box, j, right)
  {
    if right == box.left then 0.0
    else RowTotal(b, box, c, j, right - 1) + if Carries(b, j, right - 1, c) then Value(b, box, j, right - 1, c) else 0.0
  }

  function RowCount(b: Buffer, box: Box, c: nat, j: nat, right: nat): nat
    requires InRow(b, box, j, right)
  {
    if right == box.left then 0
    else RowCount(b, box, c, j, right - 1) + if Carries(b, j, right - 1, c) then 1 else 0
  }

  predicate InBox(b: Buffer, box: Box, bottom: nat) {
    Fits(b, box) && box.top <= bottom <= box.bottom
  }

  /** The sum of a channel over the box, down to a row. */
  function Total(b: Buffer, box: Box, c: nat, bottom: nat): real
    requires InBox(b, box, bottom)
  {
    if bottom == box.top then 0.0
    else Total(b, box, c, bottom - 1) + RowTotal(b, box, c, bottom - 1, box.right)
  }

  function Count(b: Buffer, box: Box, c: nat, bottom: nat): nat
    requires InBox(b, box, bottom)
  {
    if bottom == box.top then 0
    else Count(b, box, c, bottom - 1) + RowCount(b, box, c, bottom - 1, box.right)
  }

  ghost predicate Attained(b: Buffer, box: Box, c: nat, e: Ext)
    requires Fits(b, box)
  {
    exists j: nat, i: nat :: Inside(Pos(j, i), box) && Carries(b, j, i, c) && e == Fin(Value(b, box, j, i, c))
  }

  ghost predicate Extremes(b: Buffer, box: Box, c: nat, r: Cell)
    requires Fits(b, box)
  {
    && (r.count > 0 ==> Attained(b, box, c, r.min) && Attained(b, box, c, r.max))
    && (r.count == 0 ==> r.min == PosInf && r.max == NegInf)
    && forall j: nat, i: nat :: Inside(Pos(j, i), box) && Carries(b, j, i, c) ==>
         Le(r.min, Fin(Value(b, box, j, i, c))) && Le(Fin(Value(b, box, j, i, c)), r.max)
  }

  /** The picked values of a channel: the mean times the number of its pixels is the sum of
      their values; without pixels it is zero, but for X-Trans, where it is undefined. */
  ghost predicate Answers(b: Buffer, box: Box, c: nat, r: Cell)
    requires Fits(b, box)
  {
    var n := Count(b, box, c, box.bottom);
    && r.count == n && Extremes(b, box, c, r)
    && (n > 0 ==> r.sum * n as real == Total(b, box, c, box.bottom))
    && (n == 0 && !b.layout.Xtrans? ==> r.sum == 0.0)
  }

  // ----- the accumulators hold these -----

  function Times(w: real, v: real): real {
    w * v
  }

  lemma TimesAdds(w: real, u: real, v: real)
    ensures Times(w, u + v) == Times(w, u) + Times(w, v) && Times(w, 0.0) == 0.0 && Times(1.0, v) == v
  {
  }

  /** The weight a value enters the sum with. */
  function Factor(b: Buffer, w: real): real {
    if b.layout.FourChannel? then w else 1.0
  }

  lemma ContributionIs(b: Buffer, box: Box, w: real, c: nat, j: nat, i: nat)
    requires Fits(b, box) && Inside(Pos(j, i), box)
    ensures var v := Value(b, box, j, i, c);
            Contributions(b, w, c)(Pos(j, i)) == if Carries(b, j, i, c) then One(Times(Factor(b, w), v), v) else EMPTY
  {
    hide FC, Pattern;
    PixelInBounds(b, box, Pos(j, i));
    assert ValueOf(b, Pos(j, i), c) == Value(b, box, j, i, c);
    assert Contribution(b, w, Pos(j, i), c) == Contributions(b, w, c)(Pos(j, i));
  }

  lemma {:induction false} RowSums(b: Buffer, box: Box, w: real, c: nat, j: nat, right: nat)
    requires InRow(b, box, j, right)
    ensures var r := All(Contributions(b, w, c), Row(j, box.left, right - box.left));
            r.sum == Times(Factor(b, w), RowTotal(b, box, c, j, right)) && r.count == RowCount(b, box, c, j, right)
    decreases right
  {
    hide Contributions, Carries, Value, Fits, Times;
    var f, k := Contributions(b, w, c), Factor(b, w);
    TimesAdds(k, 0.0, 0.0);
    if right > box.left {
      RowSums(b, box, w, c, j, right - 1);
      ContributionIs(b, box, w, c, j, right - 1);
      var ps := Row(j, box.left, right - box.left);
      assert ps[..|ps| - 1] == Row(j, box.left, right - 1 - box.left);
      TimesAdds(k, RowTotal(b, box, c, j, right - 1), Value(b, box, j, right - 1, c));
    }
  }

  lemma {:induction false} BoxSums(b: Buffer, box: Box, w: real, c: nat, bottom: nat)
    requires InBox(b, box, bottom)
    ensures box.left <= box.right
    ensures var r := All(Contributions(b, w, c), Rows(box, bottom - box.top));
            r.sum == Times(Factor(b, w), Total(b, box, c, bottom)) && r.count == Count(b, box, c, bottom)
    decreases bottom
  {
    hide Contributions, Times, RowTotal, RowCount, Row, All, Sound;
    var f, k := Contributions(b, w, c), Factor(b, w);
    EmptyAll(f);
    TimesAdds(k, 0.0, 0.0);
    if bottom > box.top {
      BoxSums(b, box, w, c, bottom - 1);
      RowSums(b, box, w, c, bottom - 1, box.right);
      AllConcat(f, Rows(box, bottom - 1 - box.top), Row(bottom - 1, box.left, box.right - box.left));
      TimesAdds(k, Total(b, box, c, bottom - 1), RowTotal(b, box, c, bottom - 1, box.right));
    }
  }

  lemma BoxExtremes(b: Buffer, box: Box, w: real, c: nat)
    requires Fits(b, box)
    ensures Extremes(b, box, c, All(Contributions(b, w, c), Pixels(box)))
  {
    hide Contributions, Carries, Value, Fits, Times, Le, All, Pixels, Inside, Sound;
    FitsBox(b, box);
    var f, ps := Contributions(b, w, c), Pixels(box);
    var r := All(f, ps);
    forall j: nat, i: nat | Inside(Pos(j, i), box) && Carries(b, j, i, c)
      ensures Le(r.min, Fin(Value(b, box, j, i, c))) && Le(Fin(Value(b, box, j, i, c)), r.max)
    {
      RowsOf(box, Pos(j, i));
      ContributionIs(b, box, w, c, j, i);
      AllBounds(f, ps, Pos(j, i));
    }
    forall k | 0 <= k < |ps|
      ensures IsValue(f(ps[k]))
    {
      RowsOf(box, ps[k]);
      ContributionIs(b, box, w, c, ps[k].j, ps[k].i);
    }
    if ps == [] {
      EmptyAll(f);
    } else {
      var p, q := AllAttains(f, ps);
      RowsOf(box, p);
      RowsOf(box, q);
      ContributionIs(b, box, w, c, p.j, p.i);
      ContributionIs(b, box, w, c, q.j, q.i);
    }
  }

  lemma FitsBox(b: Buffer, box: Box)
    requires Fits(b, box)
    ensures box.left <= box.right && box.top <= box.bottom && Sound(b)
  {
  }

  /** A channel occurs in the box if and only if it is counted there. */
  lemma OccursIffCounted(b: Buffer, box: Box, c: nat)
    requires Fits(b, box)
    ensures Occurs(b, box, c) <==> Count(b, box, c, box.bottom) > 0
  {
    hide Contributions, Total, Count, Occurs, All, Rows, Sound;
    BoxSums(b, box, Weight(box), c, box.bottom);
    CountsPixels(b, Weight(box), box, c);
  }

  lemma {:induction false} FourChannelCount(b: Buffer, box: Box, c: nat, bottom: nat)
    requires InBox(b, box, bottom) && b.layout.FourChannel?
    ensures Count(b, box, c, bottom) == Area(box.right - box.left, bottom - box.top)
    decreases bottom
  {
    hide RowCount;
    if bottom > box.top {
      FourChannelCount(b, box, c, bottom - 1);
      FourChannelRow(b, box, c, bottom - 1, box.right);
      AreaStep(box.right - box.left, bottom - box.top);
    }
  }

  lemma {:induction false} FourChannelRow(b: Buffer, box: Box, c: nat, j: nat, right: nat)
    requires InRow(b, box, j, right) && b.layout.FourChannel?
    ensures RowCount(b, box, c, j, right) == right - box.left
    decreases right
  {
    if right > box.left {
      FourChannelRow(b, box, c, j, right - 1);
    }
  }

  /** With four channels, the sum of the box is the mean already. */
  lemma FourChannelAnswers(b: Buffer, box: Box, c: nat)
    requires Fits(b, box) && b.layout.FourChannel?
    ensures Answers(b, box, c, All(Contributions(b, Weight(box), c), Pixels(box)))
  {
    hide Contributions, Times, Total, Count, Area, Share, Weight, Extremes, Rows, Sound;
    var w, n := Weight(box), Count(b, box, c, box.bottom);
    BoxExtremes(b, box, w, c);
    BoxSums(b, box, w, c, box.bottom);
    FourChannelCount(b, box, c, box.bottom);
    WholeBox(box, n);
    ShareCancels(w, n, Total(b, box, c, box.bottom));
    if n == 0 {
      NoPixels(b, box, c, box.bottom);
      TimesAdds(w, 0.0, 0.0);
    }
  }

  lemma ShareCancels(w: real, n: nat, total: real)
    ensures Share(w, n) == 1.0 ==> Times(w, total) * n as real == total
  {
    if Share(w, n) == 1.0 {
      assert w * total * n as real == total * (w * n as real);
    }
  }

  /** Without pixels of a channel its sum is zero. */
  lemma {:induction false} NoPixels(b: Buffer, box: Box, c: nat, bottom: nat)
    requires InBox(b, box, bottom) && Count(b, box, c, bottom) == 0
    ensures Total(b, box, c, bottom) == 0.0
    decreases bottom
  {
    hide RowCount, RowTotal;
    if bottom > box.top {
      NoPixels(b, box, c, bottom - 1);
      NoPixelsInRow(b, box, c, bottom - 1, box.right);
    }
  }

  lemma {:induction false} NoPixelsInRow(b: Buffer, box: Box, c: nat, j: nat, right: nat)
    requires InRow(b, box, j, right) && RowCount(b, box, c, j, right) == 0
    ensures RowTotal(b, box, c, j, right) == 0.0
    decreases right
  {
    if right > box.left {
      NoPixelsInRow(b, box, c, j, right - 1);
    }
  }

  /** Under a colour filter, dividing by the count gives the mean. */
  lemma FilterAnswers(b: Buffer, box: Box, c: nat, r: Cell)
    requires Fits(b, box) && !b.layout.FourChannel?
    requires var s := All(Contributions(b, Weight(box), c), Pixels(box));
             && r.min == s.min && r.max == s.max && r.count == s.count
             && (s.count > 0 ==> r.sum == s.sum / s.count as real)
             && (s.count == 0 && b.layout.Bayer? ==> r.sum == 0.0)
    ensures Answers(b, box, c, r)
  {
    hide Contributions, Times, Total, Count, Weight, Attained, Rows, Sound, Le, Carries, Value;
    BoxExtremes(b, box, Weight(box), c);
    BoxSums(b, box, Weight(box), c, box.bottom);
    TimesAdds(1.0, 0.0, Total(b, box, c, box.bottom));
  }
}
