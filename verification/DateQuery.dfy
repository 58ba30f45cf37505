/** The date conditions of a collection query on the time an image was taken, and when they
    fit together: when nothing but a separator follows the last whole field of the date. */
module DateQuery {
  import opened Common
  import opened PartialDate

  /** `strptime`: reads a text in a format into a broken-down time. */
  type Strptime = (string, string, Tm) -> Option<Tm>

  const FORMAT := "%Y:%m:%d %H:%M:%S"

  /** How many two-digit fields are read from a date of this length. */
  function FieldCount(len: nat): (k: nat)
    ensures 2 <= k <= 7
  {
    if len < 7 then 2 else if len < 10 then 3 else if len < 13 then 4
    else if len < 16 then 5 else if len < 19 then 6 else 7
  }

  /** The part of the format for the first `k` fields. */
  function Format(k: nat): string
    requires 2 <= k <= 7
  {
    FORMAT[..3 * k - 4]
  }

  /** The first `k` fields of `q`, the others of `tm`. */
  function Overlay(tm: Tm, q: Tm, k: nat): Tm {
    Tm(q.year, if k > 2 then q.mon else tm.mon, if k > 3 then q.mday else tm.mday,
       if k > 4 then q.hour else tm.hour, if k > 5 then q.min else tm.min, if k > 6 then q.sec else tm.sec)
  }

  predicate Good(q: Tm) {
    Printable(q) && InRange(Fields(q))
  }

  /** The text starts with as many whole fields of `q` as are read from a text of its length.
      Anything may follow: more digits, separators, blanks. */
  predicate DateOf(p: string, q: Tm) {
    Good(q) && 4 <= |p| && Head(Fields(q), FieldCount(|p|)) <= p
  }

  /** What follows the whole fields. */
  function Rest(p: string): string
    requires 4 <= |p|
  {
    p[3 * FieldCount(|p|) - 2..]
  }

  /** What `strptime` reads from the date `q` and anything after it, in each format the source
      uses: the fields of the format, the others being left alone. */
  predicate ReadsDate(strptime: Strptime, q: Tm, rest: string, tm: Tm)
    requires Good(q)
  {
    var year, mon, mday := Two(q.year / 100) + Two(q.year % 100), Two(q.mon + 1), Two(q.mday);
    var hour, min, sec := Two(q.hour), Two(q.min), Two(q.sec);
    && strptime(year + rest, "%Y", tm) == Some(Tm(q.year, tm.mon, tm.mday, tm.hour, tm.min, tm.sec))
    && strptime(year + ":" + mon + rest, "%Y:%m", tm) == Some(Tm(q.year, q.mon, tm.mday, tm.hour, tm.min, tm.sec))
    && strptime(year + ":" + mon + ":" + mday + rest, "%Y:%m:%d", tm) ==
       Some(Tm(q.year, q.mon, q.mday, tm.hour, tm.min, tm.sec))
    && strptime(year + ":" + mon + ":" + mday + " " + hour + rest, "%Y:%m:%d %H", tm) ==
       Some(Tm(q.year, q.mon, q.mday, q.hour, tm.min, tm.sec))
    && strptime(year + ":" + mon + ":" + mday + " " + hour + ":" + min + rest, "%Y:%m:%d %H:%M", tm) ==
       Some(Tm(q.year, q.mon, q.mday, q.hour, q.min, tm.sec))
    && strptime(year + ":" + mon + ":" + mday + " " + hour + ":" + min + ":" + sec + rest, "%Y:%m:%d %H:%M:%S", tm) ==
       Some(q)
  }

  /** `strptime` reads every date as its fields, and what it reads can be printed. */
  ghost predicate ReadsDates(strptime: Strptime) {
    && (forall q, rest, tm :: Good(q) ==> ReadsDate(strptime, q, rest, tm))
    && (forall s, format, tm :: Printable(tm) && strptime(s, format, tm).Some? ==>
          Printable(strptime(s, format, tm).value))
  }

  /** The texts of the first fields, spelled out. */
  lemma HeadSpelled(f: Stamp)
    ensures var year := Two(f[0]) + Two(f[1]);
            && Head(f, 2) == year && Head(f, 3) == year + ":" + Two(f[2])
            && Head(f, 4) == year + ":" + Two(f[2]) + ":" + Two(f[3])
            && Head(f, 5) == year + ":" + Two(f[2]) + ":" + Two(f[3]) + " " + Two(f[4])
            && Head(f, 6) == year + ":" + Two(f[2]) + ":" + Two(f[3]) + " " + Two(f[4]) + ":" + Two(f[5])
            && Head(f, 7) ==
               year + ":" + Two(f[2]) + ":" + Two(f[3]) + " " + Two(f[4]) + ":" + Two(f[5]) + ":" + Two(f[6])
  {
    hide Two;
    assert Head(f, 1) == Head(f, 0) + Chunk(f, 0) == Two(f[0]);
    assert Head(f, 2) == Head(f, 1) + Chunk(f, 1) == Two(f[0]) + Two(f[1]);
    forall k | 2 <= k < 7
      ensures Head(f, k + 1) == Head(f, k) + Separator(k) + Two(f[k])
    {
      assert Head(f, k) + (Separator(k) + Two(f[k])) == Head(f, k) + Separator(k) + Two(f[k]);
    }
    assert Head(f, 2 + 1) == Head(f, 2) + ":" + Two(f[2]);
    assert Head(f, 3 + 1) == Head(f, 3) + ":" + Two(f[3]);
    assert Head(f, 4 + 1) == Head(f, 4) + " " + Two(f[4]);
    assert Head(f, 5 + 1) == Head(f, 5) + ":" + Two(f[5]);
    assert Head(f, 6 + 1) == Head(f, 6) + ":" + Two(f[6]);
  }

  lemma FormatSpelled()
    ensures Format(2) == "%Y" && Format(3) == "%Y:%m" && Format(4) == "%Y:%m:%d" && Format(5) == "%Y:%m:%d %H"
    ensures Format(6) == "%Y:%m:%d %H:%M" && Format(7) == "%Y:%m:%d %H:%M:%S"
  {
  }

  /** So a text is read as the fields it starts with, as many as its length calls for. */
  lemma DateRead(strptime: Strptime, p: string, q: Tm, tm: Tm)
    requires ReadsDates(strptime) && DateOf(p, q)
    ensures strptime(p, Format(FieldCount(|p|)), tm) == Some(Overlay(tm, q, FieldCount(|p|)))
  {
    hide Two, Head, Format, Printable, InRange;
    var k, f := FieldCount(|p|), Fields(q);
    var rest := p[|Head(f, k)|..];
    assert p == Head(f, k) + rest;
    assert ReadsDate(strptime, q, rest, tm);
    HeadSpelled(f);
    FormatSpelled();
  }

  /** What the fields are before the date is read. */
  function Start(op: string): (tm: Tm)
    ensures Printable(tm)
  {
    if op == ">" || op == "<=" then Tm(1900, 11, 31, 23, 59, 59)
    else if op == "<" || op == ">=" then Tm(1900, 0, 1, 0, 0, 0)
    else Tm(1900, 0, 0, 0, 0, 0)
  }

  /** The timestamp a date is compared as. */
  function Computed(strptime: Strptime, op: string, input: string): Option<string>
    requires ReadsDates(strptime)
  {
    if |input| < 4 then None
    else
      match strptime(input, Format(FieldCount(|input|)), Start(op))
      case None => None
      case Some(tm) => Some(Text(Fields(tm)))
  }

  method ComputeDatetime(strptime: Strptime, op: string, input: string) returns (ret: Option<string>)
    requires ReadsDates(strptime)
    ensures ret == Computed(strptime, op, input)
  {
    hide ReadsDates, Fields, Text;
    var len := |input|;
    if len < 4 {
      return None;
    }
    var tm1 := Tm(1900, 0, 0, 0, 0, 0);
    if op == ">" || op == "<=" {
      tm1 := tm1.(mon := 11);
      tm1 := tm1.(mday := 31);
      tm1 := tm1.(hour := 23);
      tm1 := tm1.(min := 59);
      tm1 := tm1.(sec := 59);
    }
    if op == "<" || op == ">=" {
      tm1 := tm1.(mon := 0);
      tm1 := tm1.(mday := 1);
      tm1 := tm1.(hour := 0);
      tm1 := tm1.(min := 0);
      tm1 := tm1.(sec := 0);
    }
    var format := FORMAT;
    if len < 7 {
      format := "%Y";
    } else if len < 10 {
      format := "%Y:%m";
    } else if len < 13 {
      format := "%Y:%m:%d";
    } else if len < 16 {
      format := "%Y:%m:%d %H";
    } else if len < 19 {
      format := "%Y:%m:%d %H:%M";
    }
    assert format == Format(FieldCount(len)) && tm1 == Start(op);
    match strptime(input, format, tm1) {
      case None => return None;
      case Some(tm) =>
        ReadPrintable(strptime, input, format, tm1);
        return Some(Text(Fields(tm)));
    }
  }

  lemma ReadPrintable(strptime: Strptime, s: string, format: string, tm: Tm)
    requires ReadsDates(strptime) && Printable(tm) && strptime(s, format, tm).Some?
    ensures Printable(strptime(s, format, tm).value)
  {
  }

  // ----- the conditions -----

  /** What the user wrote: an operator, perhaps empty, and a date, or a range of dates. */
  datatype Condition = Compare(op: string, date: string) | Range(first: string, last: string)

  datatype Query = Always | Like(prefix: string) | NotLike(prefix: string) | Between(lo: string, hi: string)
                 | Order(op: string, bound: string) | Contains

  /** The database condition built for what the user wrote. */
  function Build(strptime: Strptime, c: Condition): Query
    requires ReadsDates(strptime)
  {
    match c
    case Range(first, last) =>
      var lo, hi := Computed(strptime, ">=", first), Computed(strptime, "<=", last);
      if lo.Some? && hi.Some? then Between(lo.value, hi.value) else Always
    case Compare(op, date) =>
      if op == "=" || op == "" then Like(date)
      else if op == "<>" then NotLike(date)
      else
        var bound := Computed(strptime, op, date);
        if bound.Some? then Order(op, bound.value) else Contains
  }

  predicate AtMost(s: string, t: string) {
    s == t || Before(s, t)
  }

  /** Which texts a condition selects. A pattern of digits, colons and blanks with the
      wildcard at its end matches the texts it starts. */
  predicate Selects(query: Query, text: string)
    requires !query.Contains?
  {
    match query
    case Always => true
    case Like(p) => p <= text
    case NotLike(p) => !(p <= text)
    case Between(lo, hi) => AtMost(lo, text) && AtMost(text, hi)
    case Order(op, bound) =>
      if op == "<" then Before(text, bound)
      else if op == ">" then Before(bound, text)
      else if op == "<=" then AtMost(text, bound)
      else op == ">=" && AtMost(bound, text)
  }

  // ----- what each condition selects -----

  lemma BoundText(strptime: Strptime, q: Tm, p: string, op: string)
    requires ReadsDates(strptime) && DateOf(p, q)
    ensures var k := FieldCount(|p|);
            && (op in {">", "<="} ==> Computed(strptime, op, p) == Some(Text(Filled(Fields(q), k, HIGHEST))))
            && (op in {"<", ">="} ==> Computed(strptime, op, p) == Some(Text(Filled(Fields(q), k, LOWEST))))
  {
    hide Text, Format, DateOf;
    DateIsGood(p, q);
    var k := FieldCount(|p|);
    var tm := Overlay(Start(op), q, k);
    DateRead(strptime, p, q, Start(op));
    OverlayFields(op, q, k);
  }

  lemma DateIsGood(p: string, q: Tm)
    requires DateOf(p, q)
    ensures Good(q) && 4 <= |p|
  {
  }

  lemma OverlayFields(op: string, q: Tm, k: nat)
    requires Good(q) && 2 <= k <= 7
    ensures var tm := Overlay(Start(op), q, k);
            && Printable(tm)
            && (op in {">", "<="} ==> Fields(tm) == Filled(Fields(q), k, HIGHEST))
            && (op in {"<", ">="} ==> Fields(tm) == Filled(Fields(q), k, LOWEST))
  {
    var tm, lo, hi := Overlay(Start(op), q, k), Filled(Fields(q), k, LOWEST), Filled(Fields(q), k, HIGHEST);
    if op in {">", "<="} {
      assert Fields(tm) == hi;
    }
    if op in {"<", ">="} {
      assert Fields(tm) == lo;
    }
  }

  lemma SplitPrefix(a: string, b: string, s: string, t: string)
    requires |a| == |b|
    ensures a + s <= b + t <==> a == b && s <= t
  {
    if a + s <= b + t {
      assert (a + s)[..|a|] == a && (b + t)[..|a|] == b;
      assert forall i :: 0 <= i < |s| ==> s[i] == (a + s)[|a| + i] && t[i] == (b + t)[|a| + i];
    }
  }

  /** A date is a prefix of a timestamp when its whole fields agree and what follows them does. */
  lemma PrefixIff(p: string, q: Tm, t: Stamp)
    requires DateOf(p, q)
    ensures var k := FieldCount(|p|); p <= Text(t) <==> Same(Fields(q), t, k) && Rest(p) <= Tail(t, k)
  {
    hide Same, Head, Text, Chunk, Tail, Good, Fields;
    DateIsGood(p, q);
    var k, f := FieldCount(|p|), Fields(q);
    HeadTail(t, k);
    HeadSame(f, t, k);
    assert p == Head(f, k) + Rest(p);
    SplitPrefix(Head(f, k), Head(t, k), Rest(p), Tail(t, k));
  }

  /** Whether the condition selects the image taken at `t`. */
  ghost predicate Chosen(strptime: Strptime, c: Condition, t: Stamp)
    requires ReadsDates(strptime) && !Build(strptime, c).Contains?
  {
    Selects(Build(strptime, c), Text(t))
  }

  /** The order conditions compare the whole fields that were given. */
  lemma OrderMeaning(strptime: Strptime, q: Tm, p: string, t: Stamp, op: string)
    requires ReadsDates(strptime) && DateOf(p, q) && InRange(t)
    requires op in {"<", ">", "<=", ">="}
    ensures var c, k := Compare(op, p), FieldCount(|p|);
            && Build(strptime, c).Order?
            && (Chosen(strptime, c, t) <==>
                match op
                case "<" => Less(t, Fields(q), 0, k)
                case ">" => Less(Fields(q), t, 0, k)
                case "<=" => !Less(Fields(q), t, 0, k)
                case _ => !Less(t, Fields(q), 0, k))
  {
    hide ReadsDates, Text, Less, Before, Filled, Fields, Computed, FieldCount, DateOf, Good;
    DateIsGood(p, q);
    BoundText(strptime, q, p, op);
    var f, k := Fields(q), FieldCount(|p|);
    var lo, hi := Filled(f, k, LOWEST), Filled(f, k, HIGHEST);
    TextOrder(t, lo);
    TextOrder(hi, t);
    LowestBound(t, f, 0, k);
    HighestBound(t, f, 0, k);
  }

  lemma TextOrder(a: Stamp, b: Stamp)
    ensures Before(Text(a), Text(b)) <==> Less(a, b, 0, 7)
    ensures AtMost(Text(b), Text(a)) <==> !Less(a, b, 0, 7)
  {
    hide Before, Less, Tail;
    TailOrder(a, b, 0);
    BeforeTotal(Text(a), Text(b));
  }

  /** A range from one date to another leaves out what comes before the first and what
      comes after the last. */
  lemma RangeMeaning(strptime: Strptime, q: Tm, p: string, q': Tm, p': string, t: Stamp)
    requires ReadsDates(strptime) && DateOf(p, q) && DateOf(p', q') && InRange(t)
    ensures var c := Range(p, p');
            && Build(strptime, c).Between?
            && (Chosen(strptime, c, t) <==>
                !Less(t, Fields(q), 0, FieldCount(|p|)) && !Less(Fields(q'), t, 0, FieldCount(|p'|)))
  {
    hide ReadsDates, Text, Less, Before, Filled, Fields, Computed, FieldCount, DateOf, Good;
    DateIsGood(p, q);
    DateIsGood(p', q');
    BoundText(strptime, q, p, ">=");
    BoundText(strptime, q', p', "<=");
    OrderMeaning(strptime, q, p, t, ">=");
    OrderMeaning(strptime, q', p', t, "<=");
  }

  // ----- how the conditions fit together -----

  /** Every operator makes a condition of this text. */
  ghost predicate Splits(strptime: Strptime, p: string)
    requires ReadsDates(strptime)
  {
    forall op :: !Build(strptime, Compare(op, p)).Contains?
  }

  ghost predicate By(strptime: Strptime, op: string, p: string, t: Stamp)
    requires ReadsDates(strptime) && Splits(strptime, p)
  {
    Chosen(strptime, Compare(op, p), t)
  }

  ghost predicate ByRange(strptime: Strptime, p: string, p': string, t: Stamp)
    requires ReadsDates(strptime)
  {
    Chosen(strptime, Range(p, p'), t)
  }

  predicate ExactlyOne(a: bool, b: bool, c: bool) {
    (a || b || c) && !(a && b) && !(a && c) && !(b && c)
  }

  /** Exactly one of before, equal and after holds, and the other conditions follow from
      these three. */
  ghost predicate Law(strptime: Strptime, p: string, t: Stamp)
    requires ReadsDates(strptime) && Splits(strptime, p)
  {
    && ExactlyOne(By(strptime, "<", p, t), By(strptime, "=", p, t), By(strptime, ">", p, t))
    && (By(strptime, "<=", p, t) <==> By(strptime, "<", p, t) || By(strptime, "=", p, t))
    && (By(strptime, ">=", p, t) <==> By(strptime, ">", p, t) || By(strptime, "=", p, t))
    && (By(strptime, "<>", p, t) <==> By(strptime, "<", p, t) || By(strptime, ">", p, t))
    && (By(strptime, "", p, t) <==> By(strptime, "=", p, t))
    && (ByRange(strptime, p, p, t) <==> By(strptime, "=", p, t))
  }

  /** The prefix match compares the whole fields and what follows them. */
  lemma EqualMeaning(strptime: Strptime, q: Tm, p: string, t: Stamp)
    requires ReadsDates(strptime) && DateOf(p, q)
    ensures var k := FieldCount(|p|);
            Chosen(strptime, Compare("=", p), t) <==> Same(Fields(q), t, k) && Rest(p) <= Tail(t, k)
  {
    hide ReadsDates, Text, Same, Fields, Tail, DateOf, Good;
    DateIsGood(p, q);
    PrefixIff(p, q, t);
  }

  lemma DateSplits(strptime: Strptime, q: Tm, p: string)
    requires ReadsDates(strptime) && DateOf(p, q)
    ensures Splits(strptime, p)
  {
    hide DateOf, Format;
    DateIsGood(p, q);
    forall op ensures !Build(strptime, Compare(op, p)).Contains? {
      DateRead(strptime, p, q, Start(op));
    }
  }

  /** The law holds of a timestamp unless its whole fields agree with the date but it does not
      start with the date. */
  lemma LawAt(strptime: Strptime, q: Tm, p: string, t: Stamp)
    requires ReadsDates(strptime) && DateOf(p, q) && InRange(t)
    ensures Splits(strptime, p)
    ensures Law(strptime, p, t) <==> (Same(Fields(q), t, FieldCount(|p|)) ==> Rest(p) <= Tail(t, FieldCount(|p|)))
  {
    hide ReadsDates, Text, Less, Fields, Computed, FieldCount, Same, Selects, DateOf, Good, Tail, Chosen, Build, Splits;
    DateIsGood(p, q);
    DateSplits(strptime, q, p);
    OrderMeaning(strptime, q, p, t, "<");
    OrderMeaning(strptime, q, p, t, ">");
    OrderMeaning(strptime, q, p, t, "<=");
    OrderMeaning(strptime, q, p, t, ">=");
    RangeMeaning(strptime, q, p, q, p, t);
    EqualMeaning(strptime, q, p, t);
    LikeMeaning(strptime, p, t);
    LessTrichotomyFrom(t, Fields(q), FieldCount(|p|));
  }

  lemma LikeMeaning(strptime: Strptime, p: string, t: Stamp)
    requires ReadsDates(strptime)
    ensures Build(strptime, Compare("<>", p)).NotLike? && Build(strptime, Compare("", p)).Like?
    ensures Build(strptime, Compare("=", p)).Like?
    ensures Chosen(strptime, Compare("<>", p), t) <==> !Chosen(strptime, Compare("=", p), t)
    ensures Chosen(strptime, Compare("", p), t) <==> Chosen(strptime, Compare("=", p), t)
  {
  }

  lemma LessTrichotomyFrom(t: Stamp, f: Stamp, k: nat)
    requires k <= 7
    ensures Same(f, t, k) ==> !Less(t, f, 0, k) && !Less(f, t, 0, k)
    ensures !Same(f, t, k) ==> (Less(t, f, 0, k) <==> !Less(f, t, 0, k))
  {
    LessTrichotomy(f, t, 0, k);
  }

  /** An instant that agrees with `q` in the first `k` fields but not in the digit after. */
  function OtherDigit(q: Stamp, k: nat): (t: Stamp)
    requires k <= 7
  {
    if k == 7 then q else q[k := if q[k] < 10 then 10 else 1]
  }

  /** What every timestamp with the same first `k` fields goes on with. */
  lemma TailsAgree(f: Stamp, k: nat, rest: string)
    requires 2 <= k <= 7
    ensures rest == "" || (k < 7 && rest == Separator(k)) ==> rest <= Tail(f, k)
    ensures rest <= Tail(f, k) && rest <= Tail(OtherDigit(f, k), k) ==> rest == "" || (k < 7 && rest == Separator(k))
  {
    var g := OtherDigit(f, k);
    if k < 7 {
      assert Tail(f, k)[0] == Tail(g, k)[0] == Separator(k)[0];
      assert Tail(f, k)[1] == Digit(f[k] / 10) && Tail(g, k)[1] == Digit(g[k] / 10);
      assert |rest| > 1 && rest <= Tail(f, k) ==> rest[1] == Tail(f, k)[1];
      assert |rest| > 1 && rest <= Tail(g, k) ==> rest[1] == Tail(g, k)[1];
    }
  }

  /** For every text that starts with the whole fields read from it, the law holds of every
      timestamp in range if and only if nothing follows those fields but the separator that
      belongs there: not a lone digit, and not a blank instead of a colon. */
  lemma LawIff(strptime: Strptime, q: Tm, p: string)
    requires ReadsDates(strptime) && DateOf(p, q)
    ensures Splits(strptime, p)
    ensures (forall t: Stamp :: InRange(t) ==> Law(strptime, p, t)) <==>
            Rest(p) == "" || (FieldCount(|p|) < 7 && Rest(p) == Separator(FieldCount(|p|)))
  {
    hide ReadsDates, Text, Law, FieldCount, Tail, Rest, DateOf, Separator, Splits;
    DateIsGood(p, q);
    DateSplits(strptime, q, p);
    var k, f := FieldCount(|p|), Fields(q);
    var other := OtherDigit(f, k);
    assert InRange(other) && Same(f, other, k) && Same(f, f, k);
    LawAt(strptime, q, p, other);
    LawAt(strptime, q, p, f);
    TailsAgree(f, k, Rest(p));
    forall t: Stamp | InRange(t) && (Rest(p) == "" || (k < 7 && Rest(p) == Separator(k)))
      ensures Law(strptime, p, t)
    {
      LawAt(strptime, q, p, t);
      TailsAgree(t, k, Rest(p));
    }
  }

  /** For a date cut from a timestamp: unless it is cut inside a two-digit field, that is, its
      length is a multiple of three. */
  lemma CutLawIff(strptime: Strptime, q: Tm, len: nat)
    requires ReadsDates(strptime) && Good(q) && 4 <= len <= 19
    ensures var p := Text(Fields(q))[..len];
            Splits(strptime, p) && ((forall t: Stamp :: InRange(t) ==> Law(strptime, p, t)) <==> len % 3 != 0)
  {
    hide ReadsDates, Law, Splits, Text;
    var p := Text(Fields(q))[..len];
    CutIsDate(q, len);
    LawIff(strptime, q, p);
  }

  lemma CutIsDate(q: Tm, len: nat)
    requires Good(q) && 4 <= len <= 19
    ensures var p, k := Text(Fields(q))[..len], FieldCount(len);
            DateOf(p, q) && (Rest(p) == "" || (k < 7 && Rest(p) == Separator(k)) <==> len % 3 != 0)
  {
    hide Head, Chunk, Text, InRange;
    var p, f, k := Text(Fields(q))[..len], Fields(q), FieldCount(len);
    HeadTail(f, k);
    var n := 3 * k - 2;
    assert p == Head(f, k) + Tail(f, k)[..len - n];
    assert Rest(p) == Tail(f, k)[..len - n];
    if k < 7 {
      TailsAgree(f, k, Separator(k));
    }
  }

  // ----- such a reader exists -----

  predicate ReadAs(s: string, format: string, k: nat, q: Tm) {
    2 <= k <= 7 && Good(q) && Head(Fields(q), k) <= s && format == Format(k)
  }

  ghost function Reader(s: string, format: string, tm: Tm): Option<Tm> {
    if k: nat, q :| ReadAs(s, format, k, q) then Some(Overlay(tm, q, k)) else None
  }

  lemma OverlaySame(s: string, format: string, k: nat, q: Tm, j: nat, r: Tm, tm: Tm)
    requires ReadAs(s, format, k, q) && ReadAs(s, format, j, r)
    ensures Overlay(tm, q, k) == Overlay(tm, r, j)
  {
    hide Head;
    assert j == k by {
      assert |Format(k)| == 3 * k - 4 && |Format(j)| == 3 * j - 4;
    }
    var f, g := Fields(q), Fields(r);
    assert Head(f, k) == s[..|Head(f, k)|] == Head(g, k);
    HeadSame(f, g, k);
    assert f[0] == g[0] && f[1] == g[1];
    assert q.year == 100 * f[0] + f[1] && r.year == 100 * g[0] + g[1];
    assert k > 2 ==> f[2] == g[2];
    assert k > 3 ==> f[3] == g[3];
    assert k > 4 ==> f[4] == g[4];
    assert k > 5 ==> f[5] == g[5];
    assert k > 6 ==> f[6] == g[6];
  }

  lemma ReaderAt(q: Tm, k: nat, rest: string, tm: Tm)
    requires Good(q) && 2 <= k <= 7
    ensures Reader(Head(Fields(q), k) + rest, Format(k), tm) == Some(Overlay(tm, q, k))
  {
    hide Format, Overlay, Head, Good, Fields;
    GoodPrints(q);
    var p, format := Head(Fields(q), k) + rest, Format(k);
    assert ReadAs(p, format, k, q);
    var j: nat, r :| ReadAs(p, format, j, r) && Reader(p, format, tm) == Some(Overlay(tm, r, j));
    OverlaySame(p, format, k, q, j, r, tm);
  }

  lemma GoodPrints(q: Tm)
    requires Good(q)
    ensures Printable(q)
  {
  }

  /** A date reader as assumed exists. */
  lemma ReaderReads()
    ensures ReadsDates(Reader)
  {
    hide Reader, Printable, Good, ReadsDate;
    forall q, rest, tm | Good(q)
      ensures ReadsDate(Reader, q, rest, tm)
    {
      ReaderReadsDate(q, rest, tm);
    }
    forall s, format, tm | Printable(tm) && Reader(s, format, tm).Some?
      ensures Printable(Reader(s, format, tm).value)
    {
      ReaderPrintable(s, format, tm);
    }
  }

  lemma ReaderReadsDate(q: Tm, rest: string, tm: Tm)
    requires Good(q)
    ensures ReadsDate(Reader, q, rest, tm)
  {
    hide Reader, Format, Head, Two, InRange;
    HeadSpelled(Fields(q));
    FormatSpelled();
    ReaderAt(q, 2, rest, tm);
    ReaderAt(q, 3, rest, tm);
    ReaderAt(q, 4, rest, tm);
    ReaderAt(q, 5, rest, tm);
    ReaderAt(q, 6, rest, tm);
    ReaderAt(q, 7, rest, tm);
  }

  lemma ReaderPrintable(s: string, format: string, tm: Tm)
    requires Printable(tm) && Reader(s, format, tm).Some?
    ensures Printable(Reader(s, format, tm).value)
  {
    hide Format, FieldCount, Head;
  }

  // ----- the texts, spelled out -----

  /** A timestamp is `YYYY:mm:dd HH:MM:SS`, the month counted from one. */
  lemma TextSpelled(tm: Tm)
    requires Printable(tm)
    ensures Text(Fields(tm)) ==
            Two(tm.year / 100) + Two(tm.year % 100) + ":" + Two(tm.mon + 1) + ":" + Two(tm.mday) + " " + Two(tm.hour)
            + ":" + Two(tm.min) + ":" + Two(tm.sec)
  {
    hide Two, Head, Tail;
    HeadSpelled(Fields(tm));
    HeadTail(Fields(tm), 7);
    TailEnds(Fields(tm));
  }

  lemma TailEnds(f: Stamp)
    ensures Tail(f, 7) == ""
  {
  }

  /** A date is in range when its month, day and time of day are; any year is. */
  lemma InRangeIff(tm: Tm)
    requires Printable(tm)
    ensures InRange(Fields(tm)) <==>
            0 <= tm.mon <= 11 && 1 <= tm.mday <= 31 && tm.hour <= 23 && tm.min <= 59 && tm.sec <= 59
  {
    var f := Fields(tm);
    assert f[0] == tm.year / 100 && f[1] == tm.year % 100 && f[2] == tm.mon + 1 && f[3] == tm.mday;
    assert f[4] == tm.hour && f[5] == tm.min && f[6] == tm.sec;
  }

  /** A year alone is its first instant for `<` and `>=`, its last for `>` and `<=`. */
  lemma YearBound(strptime: Strptime, year: nat, op: string)
    requires ReadsDates(strptime) && year < 10000
    ensures var text := Two(year / 100) + Two(year % 100);
            && (op in {"<", ">="} ==> Computed(strptime, op, text) == Some(text + ":01:01 00:00:00"))
            && (op in {">", "<="} ==> Computed(strptime, op, text) == Some(text + ":12:31 23:59:59"))
  {
    hide ReadsDates, Computed, Two, Text, Fields, Start;
    YearRead(strptime, year, op);
    FirstInstant(year);
    LastInstant(year);
    Starts(op);
  }

  lemma YearRead(strptime: Strptime, year: nat, op: string)
    requires ReadsDates(strptime) && year < 10000
    ensures var tm := Start(op).(year := year);
            Printable(tm) && Computed(strptime, op, Two(year / 100) + Two(year % 100)) == Some(Text(Fields(tm)))
  {
    hide Two, Text, Format;
    var q, text := Tm(year, 0, 1, 0, 0, 0), Two(year / 100) + Two(year % 100);
    InRangeIff(q);
    assert ReadsDate(strptime, q, "", Start(op));
    assert text + "" == text;
    FormatSpelled();
  }

  lemma Starts(op: string)
    ensures op in {"<", ">="} ==> Start(op) == Tm(1900, 0, 1, 0, 0, 0)
    ensures op in {">", "<="} ==> Start(op) == Tm(1900, 11, 31, 23, 59, 59)
  {
  }

  lemma FirstInstant(year: nat)
    requires year < 10000
    ensures Text(Fields(Tm(year, 0, 1, 0, 0, 0))) == Two(year / 100) + Two(year % 100) + ":01:01 00:00:00"
  {
    hide Two, Text, Fields;
    TextSpelled(Tm(year, 0, 1, 0, 0, 0));
    TwoDigits();
    Spelled(Two(year / 100) + Two(year % 100), "01", "01", "00", "00", "00");
    InstantTexts();
  }

  lemma LastInstant(year: nat)
    requires year < 10000
    ensures Text(Fields(Tm(year, 11, 31, 23, 59, 59))) == Two(year / 100) + Two(year % 100) + ":12:31 23:59:59"
  {
    hide Two, Text, Fields;
    TextSpelled(Tm(year, 11, 31, 23, 59, 59));
    TwoDigits();
    Spelled(Two(year / 100) + Two(year % 100), "12", "31", "23", "59", "59");
    InstantTexts();
  }

  lemma TwoDigits()
    ensures Two(0) == "00" && Two(1) == "01" && Two(12) == "12" && Two(31) == "31" && Two(23) == "23" && Two(59) == "59"
  {
  }

  lemma InstantTexts()
    ensures ":" + "01" + ":" + "01" + " " + "00" + ":" + "00" + ":" + "00" == ":01:01 00:00:00"
    ensures ":" + "12" + ":" + "31" + " " + "23" + ":" + "59" + ":" + "59" == ":12:31 23:59:59"
  {
  }

  lemma Spelled(year: string, mon: string, mday: string, hour: string, min: string, sec: string)
    ensures year + ":" + mon + ":" + mday + " " + hour + ":" + min + ":" + sec ==
            year + (":" + mon + ":" + mday + " " + hour + ":" + min + ":" + sec)
  {
  }
}
