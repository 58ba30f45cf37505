/** The pixels the colour picker of src/common/color_picker.c visits, and what each adds to the
    accumulators. */
module PickerPixels {
  import opened Reduction

  datatype Pos = Pos(j: nat, i: nat)

  /** Half open: rows from `top` to `bottom`, columns from `left` to `right`. */
  datatype Box = Box(left: nat, top: nat, right: nat, bottom: nat)

  datatype Roi = Roi(x: int, y: int, width: nat, height: nat)

  /** How a buffer is laid out: four channels a pixel, perhaps to be converted, or one value
      a pixel under a colour filter. */
  datatype Layout = FourChannel(lch: bool, toLch: (real, real, real) -> (real, real, real))
                  | Bayer(filters: nat)
                  | Xtrans(pattern: seq<seq<nat>>)

  datatype Buffer = Buffer(pixel: seq<real>, roi: Roi, layout: Layout)

  function Channels(l: Layout): nat {
    if l.Bayer? then 4 else 3
  }

  function PerPixel(l: Layout): nat {
    if l.FourChannel? then 4 else 1
  }

  predicate Pattern(p: seq<seq<nat>>) {
    |p| == 6 && forall r :: 0 <= r < 6 ==> |p[r]| == 6 && forall c :: 0 <= c < 6 ==> p[r][c] < 3
  }

  /** The colour filter can be looked up anywhere. */
  predicate Sound(b: Buffer) {
    (b.layout.Xtrans? ==> b.roi.x >= -600 && b.roi.y >= -600 && Pattern(b.layout.pattern))
  }

  /** The buffer holds the whole region, and the box lies in it. */
  predicate Fits(b: Buffer, box: Box) {
    && |b.pixel| == PerPixel(b.layout) * (b.roi.width * b.roi.height)
    && box.left <= box.right <= b.roi.width && box.top <= box.bottom <= b.roi.height
    && Sound(b)
  }

  predicate Inside(p: Pos, box: Box) {
    box.top <= p.j < box.bottom && box.left <= p.i < box.right
  }

  // ----- the colour filters -----

  function Power2(n: nat): (r: nat)
    ensures r > 0
  {
    if n == 0 then 1 else 2 * Power2(n - 1)
  }

  /** `FC`: two bits of the filter word for each of eight rows and two columns. The source
      converts a negative row or column to an unsigned one, which keeps these low bits. */
  function FC(row: int, col: int, filters: nat): (c: nat)
    ensures c < 4
  {
    filters / Power2(2 * (2 * (row % 8) + col % 2)) % 4
  }

  /** A filter word: two bits a colour, the first lowest. */
  function Word(colors: seq<nat>): nat {
    if colors == [] then 0 else colors[0] + 4 * Word(colors[1..])
  }

  lemma {:induction false} WordDigit(colors: seq<nat>, k: nat)
    requires k < |colors| && forall i :: 0 <= i < |colors| ==> colors[i] < 4
    ensures Word(colors) / Power2(2 * k) % 4 == colors[k]
    decreases k
  {
    hide Power2;
    if k == 0 {
      PowerZero();
      LastDigit(colors[0], Word(colors[1..]));
    } else {
      WordDigit(colors[1..], k - 1);
      PowerStep(k);
      DropDigit(colors[0], Word(colors[1..]), Power2(2 * (k - 1)));
    }
  }

  lemma PowerZero()
    ensures Power2(0) == 1
  {
  }

  lemma {:induction false} PowerStep(k: nat)
    requires k > 0
    ensures Power2(2 * k) == 4 * Power2(2 * (k - 1))
  {
    hide Power2;
    Doubles(2 * k);
    Doubles(2 * k - 1);
    assert 2 * k - 1 - 1 == 2 * (k - 1);
  }

  lemma {:induction false} Doubles(n: nat)
    requires n > 0
    ensures Power2(n) == 2 * Power2(n - 1)
  {
  }

  lemma LastDigit(c: nat, rest: nat)
    requires c < 4
    ensures (c + 4 * rest) / 1 % 4 == c
  {
  }

  lemma DropDigit(c: nat, rest: nat, p: nat)
    requires c < 4 && p > 0
    ensures (c + 4 * rest) / (4 * p) == rest / p
  {
    var q, r := rest / p, rest % p;
    assert rest == p * q + r;
    assert c + 4 * rest == 4 * p * q + (c + 4 * r) && 0 <= c + 4 * r < 4 * p;
    QuotientIs(c + 4 * rest, 4 * p, q, c + 4 * r);
  }

  lemma QuotientIs(a: nat, d: nat, q: nat, r: nat)
    requires 0 <= r < d && a == d * q + r
    ensures a / d == q
  {
    var e := a / d;
    assert a == d * e + a % d;
    Apart(d, q, e);
    Apart(d, e, q);
  }

  lemma Apart(d: nat, q: nat, e: nat)
    ensures q < e ==> d * q + d <= d * e
  {
    if q < e {
      var rest := e - q - 1;
      assert d * e == d * q + d + d * rest;
      assert d * rest >= 0;
    }
  }

  /** The filter colour of a pixel is the one the word lists for its row and column, which
      repeats every eight rows and two columns. */
  lemma FCOfWord(colors: seq<nat>, row: int, col: int)
    requires |colors| == 16 && forall i :: 0 <= i < 16 ==> colors[i] < 4
    ensures FC(row, col, Word(colors)) == colors[2 * (row % 8) + col % 2]
    ensures FC(row + 8, col, Word(colors)) == FC(row, col + 2, Word(colors)) == FC(row, col, Word(colors))
  {
    hide Word;
    WordDigit(colors, 2 * (row % 8) + col % 2);
    assert (row + 8) % 8 == row % 8 && (col + 2) % 2 == col % 2;
  }

  function FCxtrans(row: nat, col: nat, roi: Roi, pattern: seq<seq<nat>>): (c: nat)
    requires roi.x >= -600 && roi.y >= -600 && Pattern(pattern)
    ensures c < 3
  {
    pattern[(row + 600 + roi.y) % 6][(col + 600 + roi.x) % 6]
  }

  // ----- what a pixel contributes -----

  function Index(b: Buffer, p: Pos): nat {
    b.roi.width * p.j + p.i
  }

  function At(b: Buffer, k: nat): real {
    if k < |b.pixel| then b.pixel[k] else 0.0
  }

  function Converted(b: Buffer, p: Pos): (real, real, real)
    requires b.layout.FourChannel?
  {
    var k := 4 * Index(b, p);
    var lab := (At(b, k), At(b, k + 1), At(b, k + 2));
    if b.layout.lch then b.layout.toLch(lab.0, lab.1, lab.2) else lab
  }

  /** The channel of a pixel under a colour filter. */
  function Channel(b: Buffer, p: Pos): (c: nat)
    requires Sound(b)
    ensures c < Channels(b.layout)
  {
    match b.layout
    case FourChannel(_, _) => 0
    case Bayer(filters) => FC(p.j + b.roi.y, p.i + b.roi.x, filters)
    case Xtrans(pattern) => FCxtrans(p.j, p.i, b.roi, pattern)
  }

  /** A value that adds its share to the mean. */
  function Weighted(w: real, v: real): (r: Cell)
    ensures Plain(r, w)
  {
    One(w * v, v)
  }

  /** What a pixel adds to the accumulators of channel `c`. */
  function Contribution(b: Buffer, w: real, p: Pos, c: nat): (r: Cell)
    ensures Plain(r, if b.layout.FourChannel? then w else 1.0)
  {
    if b.layout.FourChannel? then Weighted(w, ValueOf(b, p, c))
    else if Sound(b) && Channel(b, p) == c then One(ValueOf(b, p, c), ValueOf(b, p, c))
    else EMPTY
  }

  /** The pixel has a value in this channel: any channel of four, or that of its filter. */
  predicate Has(b: Buffer, p: Pos, c: nat)
    requires Sound(b)
  {
    b.layout.FourChannel? || Channel(b, p) == c
  }

  /** That value. */
  function ValueOf(b: Buffer, p: Pos, c: nat): real {
    if b.layout.FourChannel? then
      var lab := Converted(b, p);
      if c == 0 then lab.0 else if c == 1 then lab.1 else lab.2
    else At(b, Index(b, p))
  }

  ghost function Contributions(b: Buffer, w: real, c: nat): Pos -> Cell {
    p => Contribution(b, w, p, c)
  }

  // ----- the pixels of a box -----

  function Row(j: nat, left: nat, n: nat): seq<Pos> {
    if n == 0 then [] else Row(j, left, n - 1) + [Pos(j, left + n - 1)]
  }

  /** The first `n` rows of the box, row by row. */
  function Rows(box: Box, n: nat): seq<Pos>
    requires box.left <= box.right
  {
    if n == 0 then [] else Rows(box, n - 1) + Row(box.top + n - 1, box.left, box.right - box.left)
  }

  function Pixels(box: Box): seq<Pos>
    requires box.left <= box.right && box.top <= box.bottom
  {
    Rows(box, box.bottom - box.top)
  }

  lemma {:induction false} RowPixels(j: nat, left: nat, n: nat)
    ensures |Row(j, left, n)| == n
    ensures forall k :: 0 <= k < n ==> Row(j, left, n)[k] == Pos(j, left + k)
  {
    if n > 0 {
      RowPixels(j, left, n - 1);
    }
  }

  /** The pixels listed are those inside the box. */
  lemma {:induction false} RowsInside(box: Box, n: nat, p: Pos)
    requires box.left <= box.right
    ensures p in Rows(box, n) <==> box.top <= p.j < box.top + n && box.left <= p.i < box.right
  {
    if n > 0 {
      RowsInside(box, n - 1, p);
      var j, w := box.top + n - 1, box.right - box.left;
      RowPixels(j, box.left, w);
      assert p in Row(j, box.left, w) <==> p.j == j && box.left <= p.i < box.right by {
        if p.j == j && box.left <= p.i < box.right {
          assert Row(j, box.left, w)[p.i - box.left] == p;
        }
      }
    }
  }

  lemma PixelInBounds(b: Buffer, box: Box, p: Pos)
    requires Fits(b, box) && Inside(p, box)
    ensures PerPixel(b.layout) * Index(b, p) + PerPixel(b.layout) <= |b.pixel|
  {
    var n, m := b.roi.width * p.j, b.roi.width * b.roi.height;
    RowEnds(b.roi.width, b.roi.height, p.j, n, m);
    assert Index(b, p) == n + p.i;
    if b.layout.FourChannel? {
      assert |b.pixel| == 4 * m;
    } else {
      assert |b.pixel| == m;
    }
  }

  lemma RowEnds(w: nat, h: nat, j: nat, n: nat, m: nat)
    requires j < h && n == w * j && m == w * h
    ensures n + w <= m
  {
    var rest := h - j - 1;
    assert w * rest >= 0;
    assert w * h == w * j + w + w * rest by {
      assert h == j + 1 + rest;
    }
  }

  /** The weight of a pixel in the mean of a box; an empty box has none. */
  function Weight(box: Box): real
    requires box.left <= box.right && box.top <= box.bottom
  {
    var size := (box.bottom - box.top) * (box.right - box.left);
    if size == 0 then 0.0 else 1.0 / size as real
  }

  /** A pixel of the box has this channel. */
  ghost predicate Occurs(b: Buffer, box: Box, c: nat)
    requires Sound(b)
  {
    exists p :: Inside(p, box) && Has(b, p, c)
  }

  function Area(w: nat, h: nat): nat {
    w * h
  }

  lemma {:induction false} PixelCount(box: Box, n: nat)
    requires box.left <= box.right
    ensures |Rows(box, n)| == Area(box.right - box.left, n)
  {
    if n > 0 {
      PixelCount(box, n - 1);
      RowPixels(box.top + n - 1, box.left, box.right - box.left);
      AreaStep(box.right - box.left, n);
    }
  }

  lemma AreaStep(w: nat, n: nat)
    requires n > 0
    ensures Area(w, n) == Area(w, n - 1) + w
  {
  }

  lemma WholeBox(box: Box, n: nat)
    requires box.left <= box.right && box.top <= box.bottom && n == Area(box.right - box.left, box.bottom - box.top)
    ensures Weight(box) >= 0.0 && (n > 0 ==> Share(Weight(box), n) == 1.0)
  {
    var size := (box.bottom - box.top) * (box.right - box.left);
    assert size == n;
    if size > 0 {
      var r := size as real;
      assert 1.0 / r * r == 1.0 && 1.0 / r >= 0.0;
    }
  }

  lemma EmptyAll(f: Pos -> Cell)
    ensures All(f, []) == EMPTY
  {
  }

  lemma RowsOf(box: Box, p: Pos)
    requires box.left <= box.right && box.top <= box.bottom
    ensures p in Pixels(box) <==> Inside(p, box)
  {
    RowsInside(box, box.bottom - box.top, p);
  }

  lemma {:induction false} AllCounts(f: Pos -> Cell, ps: seq<Pos>)
    ensures All(f, ps).count > 0 <==> exists p :: p in ps && f(p).count > 0
  {
    if ps != [] {
      var init, q := ps[..|ps| - 1], ps[|ps| - 1];
      AllCounts(f, init);
      assert ps == init + [q];
    }
  }

  lemma CountsPixels(b: Buffer, w: real, box: Box, c: nat)
    requires Fits(b, box)
    ensures All(Contributions(b, w, c), Pixels(box)).count > 0 <==> Occurs(b, box, c)
  {
    hide All, Pattern, Pixels;
    var f := Contributions(b, w, c);
    AllCounts(f, Pixels(box));
    forall p: Pos
      ensures p in Pixels(box) <==> Inside(p, box)
    {
      RowsOf(box, p);
    }
  }
}
