/** The parser of the calculator accepts exactly its grammar: left associative binary
    operators in three strengths, unary signs binding tighter than the power. */
module CalculatorGrammar {
  import opened Common
  import opened CalculatorSyntax

  /** Concrete syntax, with the parentheses that were written. */
  datatype Cst<V> = CNum(v: V) | CParen(e: Cst<V>) | CNeg(e: Cst<V>) | CPos(e: Cst<V>)
                  | CBin(op: Op, l: Cst<V>, r: Cst<V>)

  /** The levels of the grammar: the three binary strengths, unary, primary. */
  predicate Fits<V>(c: Cst<V>, level: nat) {
    match c
    case CNum(_) => level <= 4
    case CParen(e) => level <= 4 && Fits(e, 0)
    case CNeg(e) => level <= 3 && Fits(e, 3)
    case CPos(e) => level <= 3 && Fits(e, 3)
    case CBin(op, l, r) =>
      var s := Strength(op);
      level <= s < 3 && Fits(l, s) && Fits(r, s + 1)
  }

  function Yield<V>(c: Cst<V>): seq<Token<V>> {
    match c
    case CNum(v) => [Number(v)]
    case CParen(e) => [Operator(LeftRound)] + Yield(e) + [Operator(RightRound)]
    case CNeg(e) => [Operator(Minus)] + Yield(e)
    case CPos(e) => [Operator(Plus)] + Yield(e)
    case CBin(op, l, r) => Yield(l) + [Operator(op)] + Yield(r)
  }

  function Abstract<V>(c: Cst<V>): Tree<V> {
    match c
    case CNum(v) => Leaf(v)
    case CParen(e) => Abstract(e)
    case CNeg(e) => Negate(Abstract(e))
    case CPos(e) => Affirm(Abstract(e))
    case CBin(op, l, r) => Binary(op, Abstract(l), Abstract(r))
  }

  predicate Complete<V>(t: Tree<V>) {
    match t
    case Missing => false
    case Leaf(_) => true
    case Negate(e) => Complete(e)
    case Affirm(e) => Complete(e)
    case Binary(_, l, r) => Complete(l) && Complete(r)
  }

  // ----- token sequences -----

  /** The scanner will deliver exactly the tokens `ts`. */
  ghost predicate Presents<V(!new)>(env: Env<V>, st: State<V>, ts: seq<Token<V>>)
    decreases |ts|
  {
    if ts == [] then st.token.None?
    else st.token == Some(ts[0]) && Presents(env, Advance(env, st), ts[1..])
  }

  function Skip<V>(env: Env<V>, st: State<V>, n: nat): State<V>
    decreases n
  {
    if n == 0 then st else Skip(env, Advance(env, st), n - 1)
  }

  lemma {:induction false} PresentsSkip<V(!new)>(env: Env<V>, st: State<V>, a: seq<Token<V>>, b: seq<Token<V>>)
    requires Presents(env, st, a + b)
    ensures Presents(env, Skip(env, st, |a|), b)
    decreases |a|
  {
    if a == [] {
      assert a + b == b;
    } else {
      hide Advance;
      assert (a + b)[1..] == a[1..] + b;
      PresentsSkip(env, Advance(env, st), a[1..], b);
    }
  }

  lemma {:induction false} SkipAdd<V>(env: Env<V>, st: State<V>, m: nat, n: nat)
    ensures Skip(env, Skip(env, st, m), n) == Skip(env, st, m + n)
    decreases m
  {
    hide Advance;
    if m > 0 {
      SkipAdd(env, Advance(env, st), m - 1, n);
    }
  }

  /** What follows does not continue an expression of this level. */
  predicate Stops<V>(ts: seq<Token<V>>, level: nat) {
    ts == [] || ts[0].Number? || Strength(ts[0].op) == 3 || Strength(ts[0].op) < level
  }

  lemma {:induction false} YieldNonempty<V>(c: Cst<V>)
    ensures |Yield(c)| > 0
  {
  }

  // ----- one step of each parsing function -----

  lemma ParseUnfolds<V>(env: Env<V>, st: State<V>, level: nat)
    requires level < 3 && st.token.Some?
    ensures var left := Parse(env, st, level + 1);
            Parse(env, st, level) == ParseRest(env, left.tree, left.st, level)
  {
  }

  lemma RestUnfolds<V>(env: Env<V>, left: Tree<V>, st: State<V>, level: nat)
    requires level < 3
    ensures !Continues(st, level) ==> ParseRest(env, left, st, level) == Parsed(left, st)
    ensures Continues(st, level) ==>
              var right := Parse(env, Advance(env, st), level + 1);
              ParseRest(env, left, st, level) ==
              ParseRest(env, Binary(st.token.value.op, left, right.tree), right.st, level)
  {
  }

  lemma UnaryUnfolds<V>(env: Env<V>, st: State<V>)
    requires st.token.Some?
    ensures IsOp(st, Minus) ==>
              var r := Parse(env, Advance(env, st), 3); Parse(env, st, 3) == Parsed(Negate(r.tree), r.st)
    ensures IsOp(st, Plus) ==>
              var r := Parse(env, Advance(env, st), 3); Parse(env, st, 3) == Parsed(Affirm(r.tree), r.st)
    ensures st.token.value.Number? ==> Parse(env, st, 3) == Parsed(Leaf(st.token.value.value), Advance(env, st))
    ensures IsOp(st, LeftRound) ==>
              var r := Parse(env, Advance(env, st), 0);
              Parse(env, st, 3) ==
              if IsOp(r.st, RightRound) then Parsed(r.tree, Advance(env, r.st)) else Parsed(Missing, r.st)
    ensures st.token.value.Operator? && st.token.value.op !in {Minus, Plus, LeftRound} ==>
              Parse(env, st, 3) == Parsed(Missing, st)
  {
    assert Parse(env, st, 3) == ParseUnary(env, st);
    if !IsOp(st, Minus) && !IsOp(st, Plus) {
      assert ParseUnary(env, st) == ParsePrimary(env, st);
    }
  }

  lemma SkipOne<V>(env: Env<V>, st: State<V>)
    ensures Skip(env, st, 1) == Advance(env, st)
  {
    assert Skip(env, st, 1) == Skip(env, Advance(env, st), 0);
  }

  // ----- the parser accepts every sentence -----

  /** A sentence of this level, followed by something that stops it, parses to its tree. */
  lemma {:induction false} Parses<V(!new)>(env: Env<V>, c: Cst<V>, level: nat, st: State<V>, ts: seq<Token<V>>)
    requires level <= 3 && Fits(c, level) && Presents(env, st, Yield(c) + ts) && Stops(ts, level)
    ensures Parse(env, st, level) == Parsed(Abstract(c), Skip(env, st, |Yield(c)|))
    decreases c, 3 - level, 1
  {
    if level == 3 {
      ParsesUnary(env, c, st, ts);
    } else {
      hide Parse, ParseRest, Skip, Advance;
      ParsesChain(env, c, level, st, ts);
      PresentsSkip(env, st, Yield(c), ts);
      RestUnfolds(env, Abstract(c), Skip(env, st, |Yield(c)|), level);
    }
  }

  /** Without the stop, the loop of the level goes on from the sentence's tree. */
  lemma {:induction false} ParsesChain<V(!new)>(env: Env<V>, c: Cst<V>, level: nat, st: State<V>, ts: seq<Token<V>>)
    requires level < 3 && Fits(c, level) && Presents(env, st, Yield(c) + ts) && Stops(ts, level + 1)
    ensures Parse(env, st, level) == ParseRest(env, Abstract(c), Skip(env, st, |Yield(c)|), level)
    decreases c, 3 - level, 0
  {
    hide Parse, ParseRest, Skip, Advance;
    YieldNonempty(c);
    if c.CBin? && Strength(c.op) == level {
      var l, r := Yield(c.l), Yield(c.r);
      var after := [Operator(c.op)] + r + ts;
      assert Yield(c) + ts == l + after;
      ParsesChain(env, c.l, level, st, after);
      PresentsSkip(env, st, l, after);
      var st1 := Skip(env, st, |l|);
      RestUnfolds(env, Abstract(c.l), st1, level);
      assert after[1..] == r + ts;
      Parses(env, c.r, level + 1, Advance(env, st1), ts);
      SkipOne(env, st1);
      SkipAdd(env, st, |l|, 1);
      SkipAdd(env, st, |l| + 1, |r|);
    } else {
      Parses(env, c, level + 1, st, ts);
      ParseUnfolds(env, st, level);
    }
  }

  lemma {:induction false} ParsesUnary<V(!new)>(env: Env<V>, c: Cst<V>, st: State<V>, ts: seq<Token<V>>)
    requires Fits(c, 3) && Presents(env, st, Yield(c) + ts) && Stops(ts, 3)
    ensures Parse(env, st, 3) == Parsed(Abstract(c), Skip(env, st, |Yield(c)|))
    decreases c, 0, 0
  {
    hide Parse, ParseRest, Skip, Advance;
    YieldNonempty(c);
    UnaryUnfolds(env, st);
    SkipOne(env, st);
    match c
    case CNum(v) =>
    case CNeg(e) =>
      assert (Yield(c) + ts)[1..] == Yield(e) + ts;
      Parses(env, e, 3, Advance(env, st), ts);
      SkipAdd(env, st, 1, |Yield(e)|);
    case CPos(e) =>
      assert (Yield(c) + ts)[1..] == Yield(e) + ts;
      Parses(env, e, 3, Advance(env, st), ts);
      SkipAdd(env, st, 1, |Yield(e)|);
    case CParen(e) =>
      ParsesParen(env, e, st, ts);
  }

  lemma {:induction false} ParsesParen<V(!new)>(env: Env<V>, e: Cst<V>, st: State<V>, ts: seq<Token<V>>)
    requires Fits(e, 0) && Presents(env, st, Yield(CParen(e)) + ts)
    ensures Parse(env, st, 3) == Parsed(Abstract(e), Skip(env, st, |Yield(e)| + 2))
    decreases e, 4
  {
    hide Parse, ParseRest, Skip, Advance;
    var after := [Operator(RightRound)] + ts;
    var st1 := Advance(env, st);
    assert (Yield(CParen(e)) + ts)[1..] == Yield(e) + after;
    Parses(env, e, 0, st1, after);
    PresentsSkip(env, st1, Yield(e), after);
    UnaryUnfolds(env, st);
    var st2 := Skip(env, st1, |Yield(e)|);
    SkipOne(env, st);
    SkipOne(env, st2);
    SkipAdd(env, st, 1, |Yield(e)|);
    SkipAdd(env, st, 1 + |Yield(e)|, 1);
  }

  // ----- what the parser accepts is a sentence -----

  /** A parse without missing parts consumed the tokens of a sentence for its tree. */
  lemma {:induction false} Sound<V(!new)>(env: Env<V>, st: State<V>, ts: seq<Token<V>>, level: nat)
    returns (c: Cst<V>, k: nat)
    requires level <= 3 && Presents(env, st, ts) && Complete(Parse(env, st, level).tree)
    ensures 0 < k <= |ts| && Fits(c, level) && Yield(c) == ts[..k]
    ensures Parse(env, st, level) == Parsed(Abstract(c), Skip(env, st, k))
    decreases |ts|, 2 * (3 - level) + 2
  {
    hide Parse, ParseRest, Skip, Advance;
    SomeToken(env, st, level);
    if level == 3 {
      c, k := SoundUnary(env, st, ts);
    } else {
      ParseUnfolds(env, st, level);
      var left := Parse(env, st, level + 1);
      RestKeepsLeft(env, left.tree, left.st, level);
      var cl, kl := Sound(env, st, ts, level + 1);
      assert ts == ts[..kl] + ts[kl..];
      PresentsSkip(env, st, ts[..kl], ts[kl..]);
      FitsLower(cl, level + 1, level);
      var j;
      c, j := SoundRest(env, cl, left.st, ts[kl..], level);
      k := kl + j;
      SkipAdd(env, st, kl, j);
      assert ts[..k] == ts[..kl] + ts[kl..][..j];
    }
  }

  lemma SomeToken<V>(env: Env<V>, st: State<V>, level: nat)
    requires level <= 3 && Complete(Parse(env, st, level).tree)
    ensures st.token.Some?
  {
  }

  /** The loop only wraps what it starts from. */
  lemma {:induction false} RestKeepsLeft<V>(env: Env<V>, left: Tree<V>, st: State<V>, level: nat)
    requires level < 3 && Complete(ParseRest(env, left, st, level).tree)
    ensures Complete(left)
    ensures Continues(st, level) ==> Complete(Parse(env, Advance(env, st), level + 1).tree)
    decreases Measure(st)
  {
    RestUnfolds(env, left, st, level);
    if Continues(st, level) {
      AdvanceLowersMeasure(env, st);
      var right := Parse(env, Advance(env, st), level + 1);
      RestKeepsLeft(env, Binary(st.token.value.op, left, right.tree), right.st, level);
    }
  }

  lemma FitsLower<V>(c: Cst<V>, level: nat, lower: nat)
    requires Fits(c, level) && lower <= level
    ensures Fits(c, lower)
  {
  }

  /** From a sentence for the left operand, the loop builds a sentence of its level. */
  lemma {:induction false} SoundRest<V(!new)>(env: Env<V>, cl: Cst<V>, st: State<V>, ts: seq<Token<V>>, level: nat)
    returns (c: Cst<V>, k: nat)
    requires level < 3 && Presents(env, st, ts) && Fits(cl, level)
    requires Complete(ParseRest(env, Abstract(cl), st, level).tree)
    ensures k <= |ts| && Fits(c, level) && Yield(c) == Yield(cl) + ts[..k]
    ensures ParseRest(env, Abstract(cl), st, level) == Parsed(Abstract(c), Skip(env, st, k))
    decreases |ts|, 2 * (3 - level) + 1
  {
    hide Parse, ParseRest, Skip, Advance, Complete, Presents, Fits, Yield, Abstract;
    RestUnfolds(env, Abstract(cl), st, level);
    RestKeepsLeft(env, Abstract(cl), st, level);
    if !Continues(st, level) {
      c, k := cl, 0;
      SkipNone(env, st);
      assert Yield(cl) + ts[..0] == Yield(cl);
    } else {
      var wider, i := SoundOperand(env, cl, st, ts, level);
      var st1 := Skip(env, st, i);
      var j;
      c, j := SoundRest(env, wider, st1, ts[i..], level);
      k := i + j;
      SkipAdd(env, st, i, j);
      assert ts[..i] + ts[i..][..j] == ts[..k];
    }
  }

  /** One turn of the loop: an operator and a sentence for the right operand. */
  lemma {:induction false} SoundOperand<V(!new)>(env: Env<V>, cl: Cst<V>, st: State<V>, ts: seq<Token<V>>, level: nat)
    returns (c: Cst<V>, k: nat)
    requires level < 3 && Presents(env, st, ts) && Fits(cl, level) && Continues(st, level)
    requires Complete(Parse(env, Advance(env, st), level + 1).tree)
    ensures 0 < k <= |ts| && Fits(c, level) && Yield(c) == Yield(cl) + ts[..k]
    ensures Presents(env, Skip(env, st, k), ts[k..])
    ensures ParseRest(env, Abstract(cl), st, level) == ParseRest(env, Abstract(c), Skip(env, st, k), level)
    decreases |ts|, 0
  {
    hide Parse, ParseRest, Skip, Advance, Complete;
    RestUnfolds(env, Abstract(cl), st, level);
    var st1, ts1 := Advance(env, st), ts[1..];
    var cr, j := Sound(env, st1, ts1, level + 1);
    c, k := CBin(st.token.value.op, cl, cr), 1 + j;
    SkipOne(env, st);
    SkipAdd(env, st, 1, j);
    assert ts == ts[..k] + ts[k..];
    PresentsSkip(env, st, ts[..k], ts[k..]);
    assert ts[..k] == [ts[0]] + ts1[..j];
    assert Yield(c) == Yield(cl) + ([ts[0]] + ts1[..j]);
  }

  lemma SkipNone<V>(env: Env<V>, st: State<V>)
    ensures Skip(env, st, 0) == st
  {
  }

  lemma {:induction false} SoundUnary<V(!new)>(env: Env<V>, st: State<V>, ts: seq<Token<V>>) returns (c: Cst<V>, k: nat)
    requires Presents(env, st, ts) && st.token.Some? && Complete(Parse(env, st, 3).tree)
    ensures 0 < k <= |ts| && Fits(c, 3) && Yield(c) == ts[..k]
    ensures Parse(env, st, 3) == Parsed(Abstract(c), Skip(env, st, k))
    decreases |ts|, 1
  {
    hide Parse, ParseRest, Skip, Advance;
    UnaryUnfolds(env, st);
    SkipOne(env, st);
    var t, st1, ts1 := ts[0], Advance(env, st), ts[1..];
    if t.Number? {
      c, k := CNum(t.value), 1;
      assert ts[..1] == [t];
    } else if t.op == Minus {
      var e, j := Sound(env, st1, ts1, 3);
      c, k := CNeg(e), 1 + j;
      SkipAdd(env, st, 1, j);
      assert ts[..k] == [t] + ts1[..j];
    } else if t.op == Plus {
      var e, j := Sound(env, st1, ts1, 3);
      c, k := CPos(e), 1 + j;
      SkipAdd(env, st, 1, j);
      assert ts[..k] == [t] + ts1[..j];
    } else {
      c, k := SoundParen(env, st, ts);
    }
  }

  lemma {:induction false} SoundParen<V(!new)>(env: Env<V>, st: State<V>, ts: seq<Token<V>>) returns (c: Cst<V>, k: nat)
    requires Presents(env, st, ts) && st.token.Some? && Complete(Parse(env, st, 3).tree)
    requires ts[0].Operator? && ts[0].op != Minus && ts[0].op != Plus
    ensures 0 < k <= |ts| && Fits(c, 3) && Yield(c) == ts[..k]
    ensures Parse(env, st, 3) == Parsed(Abstract(c), Skip(env, st, k))
    decreases |ts|, 0
  {
    hide Parse, ParseRest, Skip, Advance, Complete;
    UnaryUnfolds(env, st);
    var st1, ts1 := Advance(env, st), ts[1..];
    MissingIncomplete<V>();
    var e, j := Sound(env, st1, ts1, 0);
    assert ts1 == ts1[..j] + ts1[j..];
    PresentsSkip(env, st1, ts1[..j], ts1[j..]);
    var st2 := Skip(env, st1, j);
    c, k := CParen(e), 2 + j;
    SkipOne(env, st);
    SkipOne(env, st2);
    SkipAdd(env, st, 1, j);
    SkipAdd(env, st, 1 + j, 1);
    assert ts[..k] == [ts[0]] + ts1[..j] + [ts1[j]];
  }

  lemma MissingIncomplete<V>()
    ensures !Complete<V>(Missing)
  {
  }

  // ----- the grammar, exactly -----

  /** The parse consumed everything and nothing was missing. */
  predicate Accepts<V>(env: Env<V>, st: State<V>) {
    Complete(Parse(env, st, 0).tree) && Parse(env, st, 0).st.token.None?
  }

  ghost predicate Sentence<V(!new)>(c: Cst<V>, ts: seq<Token<V>>) {
    Fits(c, 0) && Yield(c) == ts
  }

  lemma {:induction false} AbstractComplete<V>(c: Cst<V>)
    ensures Complete(Abstract(c))
  {
    match c
    case CNum(_) =>
    case CParen(e) => AbstractComplete(e);
    case CNeg(e) => AbstractComplete(e);
    case CPos(e) => AbstractComplete(e);
    case CBin(_, l, r) => AbstractComplete(l); AbstractComplete(r);
  }

  /** The tree of every sentence is the parse of its tokens. */
  lemma SentenceParses<V(!new)>(env: Env<V>, st: State<V>, ts: seq<Token<V>>, c: Cst<V>)
    requires Presents(env, st, ts) && Sentence(c, ts)
    ensures Accepts(env, st) && Parse(env, st, 0).tree == Abstract(c)
  {
    hide Parse, Skip, Advance;
    assert Yield(c) + [] == ts;
    Parses(env, c, 0, st, []);
    PresentsSkip(env, st, ts, []);
    AbstractComplete(c);
  }

  /** The parser accepts a token sequence if and only if it is a sentence. */
  lemma AcceptsIffSentence<V(!new)>(env: Env<V>, st: State<V>, ts: seq<Token<V>>)
    requires Presents(env, st, ts)
    ensures Accepts(env, st) <==> exists c :: Sentence(c, ts)
  {
    hide Parse, Skip, Advance;
    if Accepts(env, st) {
      var c, k := Sound(env, st, ts, 0);
      assert ts == ts[..k] + ts[k..];
      PresentsSkip(env, st, ts[..k], ts[k..]);
      assert ts[k..] == [];
      assert Sentence(c, ts);
    }
    if c :| Sentence(c, ts) {
      SentenceParses(env, st, ts, c);
    }
  }
}
