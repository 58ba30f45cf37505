/** Comparing the time an image was taken with a partial date: the date is filled up to a
    whole timestamp and the timestamps are compared as texts. */
module PartialDate {
  import opened Common

  // ----- texts of fixed width -----

  function Two(n: nat): (s: string)
    requires n < 100
    ensures |s| == 2
  {
    [Digit(n / 10), Digit(n % 10)]
  }

  /** Comparison of texts, as the database does it. */
  predicate Before(s: string, t: string) {
    if s == "" then t != ""
    else t != "" && (s[0] < t[0] || (s[0] == t[0] && Before(s[1..], t[1..])))
  }

  lemma {:induction false} BeforeConcat(a: string, b: string, s: string, t: string)
    requires |a| == |b|
    ensures Before(a + s, b + t) <==> Before(a, b) || (a == b && Before(s, t))
  {
    if a == "" {
      assert a + s == s && b + t == t;
    } else {
      assert (a + s)[1..] == a[1..] + s && (b + t)[1..] == b[1..] + t;
      BeforeConcat(a[1..], b[1..], s, t);
    }
  }

  lemma TwoOrder(m: nat, n: nat)
    requires m < 100 && n < 100
    ensures Before(Two(m), Two(n)) <==> m < n
    ensures Two(m) == Two(n) <==> m == n
  {
    var s, t := Two(m), Two(n);
    assert s[1..] == [s[1]] && t[1..] == [t[1]];
    assert Before([s[1]], [t[1]]) <==> s[1] < t[1];
  }

  lemma {:induction false} BeforeTotal(s: string, t: string)
    ensures s == t ==> !Before(s, t)
    ensures s != t ==> (Before(s, t) <==> !Before(t, s))
  {
    if s != "" && t != "" {
      BeforeTotal(s[1..], t[1..]);
      assert s == [s[0]] + s[1..] && t == [t[0]] + t[1..];
    }
  }

  // ----- timestamps -----

  /** The broken-down time of the C library: the month counts from zero. */
  datatype Tm = Tm(year: int, mon: int, mday: int, hour: int, min: int, sec: int)

  /** Seven fields of two digits, the year being two of them. */
  type Stamp = f: seq<int> | |f| == 7 && forall i :: 0 <= i < 7 ==> 0 <= f[i] < 100
    witness [0, 0, 0, 0, 0, 0, 0]

  predicate Printable(tm: Tm) {
    && 0 <= tm.year < 10000 && 0 <= tm.mon + 1 < 100 && 0 <= tm.mday < 100
    && 0 <= tm.hour < 100 && 0 <= tm.min < 100 && 0 <= tm.sec < 100
  }

  function Fields(tm: Tm): Stamp
    requires Printable(tm)
  {
    [tm.year / 100, tm.year % 100, tm.mon + 1, tm.mday, tm.hour, tm.min, tm.sec]
  }

  const LOWEST: Stamp := [0, 0, 1, 1, 0, 0, 0]
  const HIGHEST: Stamp := [99, 99, 12, 31, 23, 59, 59]

  /** Every field of the timestamp is in its range; any day up to the 31st goes with any month. */
  predicate InRange(f: Stamp) {
    forall i :: 0 <= i < 7 ==> LOWEST[i] <= f[i] <= HIGHEST[i]
  }

  function Separator(i: nat): string {
    if i < 2 then "" else if i == 4 then " " else ":"
  }

  function Chunk(f: Stamp, i: nat): (s: string)
    requires i < 7
    ensures |s| == if i < 2 then 2 else 3
  {
    Separator(i) + Two(f[i])
  }

  /** The text of the fields from `i` on; from 0 it is the whole `YYYY:mm:dd HH:MM:SS`. */
  function Tail(f: Stamp, i: nat): (s: string)
    requires i <= 7
    ensures |s| == if i == 0 then 19 else if i == 1 then 17 else 3 * (7 - i)
    decreases 7 - i
  {
    if i == 7 then "" else Chunk(f, i) + Tail(f, i + 1)
  }

  /** The text of the first `k` fields. */
  function Head(f: Stamp, k: nat): (s: string)
    requires k <= 7
    ensures |s| == if k < 2 then 2 * k else 3 * k - 2
  {
    if k == 0 then "" else Head(f, k - 1) + Chunk(f, k - 1)
  }

  function Text(f: Stamp): (s: string)
    ensures |s| == 19
  {
    Tail(f, 0)
  }

  lemma {:induction false} HeadTail(f: Stamp, k: nat)
    requires k <= 7
    ensures Text(f) == Head(f, k) + Tail(f, k)
  {
    hide Chunk;
    if k > 0 {
      HeadTail(f, k - 1);
    }
  }

  // ----- the order of timestamps is the order of their fields -----

  /** The fields from `i` to `k` of `a` come before those of `b`. */
  predicate Less(a: Stamp, b: Stamp, i: nat, k: nat)
    requires i <= k <= 7
    decreases k - i
  {
    i < k && (a[i] < b[i] || (a[i] == b[i] && Less(a, b, i + 1, k)))
  }

  predicate Same(a: Stamp, b: Stamp, k: nat)
    requires k <= 7
  {
    forall i :: 0 <= i < k ==> a[i] == b[i]
  }

  lemma ChunkOrder(a: Stamp, b: Stamp, i: nat)
    requires i < 7
    ensures Before(Chunk(a, i), Chunk(b, i)) <==> a[i] < b[i]
    ensures Chunk(a, i) == Chunk(b, i) <==> a[i] == b[i]
  {
    var s := Separator(i);
    hide Two, Separator, Before;
    TwoOrder(a[i], b[i]);
    BeforeConcat(s, s, Two(a[i]), Two(b[i]));
    BeforeTotal(s, s);
    assert Chunk(a, i)[|s|..] == Two(a[i]) && Chunk(b, i)[|s|..] == Two(b[i]);
  }

  lemma {:induction false} TailOrder(a: Stamp, b: Stamp, i: nat)
    requires i <= 7
    ensures Before(Tail(a, i), Tail(b, i)) <==> Less(a, b, i, 7)
    decreases 7 - i
  {
    if i < 7 {
      hide Chunk, Before;
      TailOrder(a, b, i + 1);
      ChunkOrder(a, b, i);
      BeforeConcat(Chunk(a, i), Chunk(b, i), Tail(a, i + 1), Tail(b, i + 1));
    }
  }

  lemma SplitEqual(a: string, b: string, s: string, t: string)
    requires |a| == |b|
    ensures a + s == b + t <==> a == b && s == t
  {
    if a + s == b + t {
      assert (a + s)[..|a|] == a && (b + t)[..|a|] == b;
      assert (a + s)[|a|..] == s && (b + t)[|a|..] == t;
    }
  }

  lemma {:induction false} HeadSame(a: Stamp, b: Stamp, k: nat)
    requires k <= 7
    ensures Head(a, k) == Head(b, k) <==> Same(a, b, k)
  {
    if k > 0 {
      hide Chunk, Same, Two, Before;
      HeadSame(a, b, k - 1);
      SameSnoc(a, b, k - 1);
      ChunkOrder(a, b, k - 1);
      SplitEqual(Head(a, k - 1), Head(b, k - 1), Chunk(a, k - 1), Chunk(b, k - 1));
    }
  }

  lemma SameSnoc(a: Stamp, b: Stamp, k: nat)
    requires k < 7
    ensures Same(a, b, k + 1) <==> Same(a, b, k) && a[k] == b[k]
  {
  }

  lemma {:induction false} LessTrichotomy(a: Stamp, b: Stamp, i: nat, k: nat)
    requires i <= k <= 7 && Same(a, b, i)
    ensures Same(a, b, k) ==> !Less(a, b, i, k) && !Less(b, a, i, k)
    ensures !Same(a, b, k) ==> (Less(a, b, i, k) <==> !Less(b, a, i, k))
    decreases k - i
  {
    if i < k && a[i] == b[i] {
      LessTrichotomy(a, b, i + 1, k);
    }
  }

  // ----- filling up a partial date -----

  /** The first `k` fields of `q`, the others from `ends`. */
  function Filled(q: Stamp, k: nat, ends: Stamp): Stamp
    requires k <= 7
  {
    q[..k] + ends[k..]
  }

  /** Nothing in range comes after a timestamp filled with the highest values, other than by
      its given fields. */
  lemma {:induction false} HighestBound(t: Stamp, q: Stamp, i: nat, k: nat)
    requires InRange(t) && i <= 7 && k <= 7
    ensures Less(Filled(q, k, HIGHEST), t, i, 7) <==> i <= k && Less(q, t, i, k)
    decreases 7 - i
  {
    if i < 7 {
      HighestBound(t, q, i + 1, k);
    }
  }

  lemma {:induction false} LowestBound(t: Stamp, q: Stamp, i: nat, k: nat)
    requires InRange(t) && i <= 7 && k <= 7
    ensures Less(t, Filled(q, k, LOWEST), i, 7) <==> i <= k && Less(t, q, i, k)
    decreases 7 - i
  {
    if i < 7 {
      LowestBound(t, q, i + 1, k);
    }
  }
}
