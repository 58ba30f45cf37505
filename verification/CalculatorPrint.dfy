/** Printing an expression tree with the fewest parentheses the grammar allows, and solving
    the printed formula again. */
module CalculatorPrint {
  import opened Common
  import opened CalculatorSyntax
  import opened CalculatorGrammar

  // ----- text of tokens -----

  function Symbol(op: Op): string {
    match op
    case Plus => "+"
    case Inc => "++"
    case Minus => "-"
    case Dec => "--"
    case Multiply => "*"
    case Division => "/"
    case Modulo => "%"
    case Power => "^"
    case LeftRound => "("
    case RightRound => ")"
  }

  function Text<V>(spell: V -> string, t: Token<V>): string {
    match t
    case Number(v) => spell(v)
    case Operator(op) => Symbol(op)
  }

  /** Each token after a blank. */
  function Printed<V>(spell: V -> string, ts: seq<Token<V>>): string {
    if ts == [] then "" else " " + Text(spell, ts[0]) + Printed(spell, ts[1..])
  }

  /** The tokens with a blank between them. */
  function Formula<V>(spell: V -> string, ts: seq<Token<V>>): string {
    if ts == [] then "" else Text(spell, ts[0]) + Printed(spell, ts[1..])
  }

  predicate Ends(rest: string) {
    rest == "" || rest[0] == ' '
  }

  /** A literal that `strtod` reads as `v` in full when a blank or nothing follows. */
  ghost predicate ReadsAs<V(!new)>(env: Env<V>, s: string, v: V) {
    && s != "" && StartsNumber(s[0]) && ',' !in s
    && (forall rest :: Ends(rest) ==> env.strtod(s + rest) == (v, |s|))
  }

  /** The spelling of `v` is the variable, when it has that value, or a literal for it. */
  ghost predicate Spelled<V(!new)>(env: Env<V>, spell: V -> string, v: V) {
    (spell(v) in {"x", "X"} && v == env.x) || ReadsAs(env, spell(v), v)
  }

  ghost predicate TokenSpelled<V(!new)>(env: Env<V>, spell: V -> string, t: Token<V>) {
    t.Number? ==> Spelled(env, spell, t.value)
  }

  ghost predicate AllSpelled<V(!new)>(env: Env<V>, spell: V -> string, ts: seq<Token<V>>) {
    forall i :: 0 <= i < |ts| ==> TokenSpelled(env, spell, ts[i])
  }

  // ----- the scanner gives the tokens back -----

  lemma ScanNumber<V(!new)>(env: Env<V>, s: string, v: V, rest: string)
    requires ReadsAs(env, s, v) && Ends(rest)
    ensures Scan(env, s + rest) == State(Some(Number(v)), rest)
  {
    var w := s + rest;
    assert w[0] == s[0] && env.strtod(w) == (v, |s|);
    assert w[|s|..] == rest;
  }

  lemma ScanSymbol<V(!new)>(env: Env<V>, op: Op, rest: string)
    requires Ends(rest)
    ensures Scan(env, Symbol(op) + rest) == State(Some(Operator(op)), rest)
  {
    var s := Symbol(op);
    var w := s + rest;
    assert w[|s|..] == rest;
    assert OperatorAt(w) == Some((op, |s|));
  }

  lemma ScanToken<V(!new)>(env: Env<V>, spell: V -> string, t: Token<V>, rest: string)
    requires TokenSpelled(env, spell, t) && Ends(rest)
    ensures Scan(env, Text(spell, t) + rest) == State(Some(t), rest)
  {
    match t
    case Operator(op) => ScanSymbol(env, op, rest);
    case Number(v) =>
      if ReadsAs(env, spell(v), v) {
        ScanNumber(env, spell(v), v, rest);
      } else {
        var w := spell(v) + rest;
        assert w[1..] == rest && OperatorAt(w).None?;
      }
  }

  lemma PrintedEnds<V>(spell: V -> string, ts: seq<Token<V>>)
    ensures Ends(Printed(spell, ts))
  {
  }

  /** A leading blank is skipped. */
  lemma ScanBlank<V(!new)>(env: Env<V>, s: string)
    ensures Scan(env, " " + s) == Scan(env, s)
  {
    var w := " " + s;
    assert w[1..] == s && OperatorAt(w).None?;
  }

  lemma {:induction false} PrintedPresents<V(!new)>(env: Env<V>, spell: V -> string, ts: seq<Token<V>>)
    requires AllSpelled(env, spell, ts)
    ensures Presents(env, Scan(env, Printed(spell, ts)), ts)
    decreases |ts|
  {
    if ts != [] {
      hide Scan, Text;
      var rest := Printed(spell, ts[1..]);
      PrintedEnds(spell, ts[1..]);
      assert Printed(spell, ts) == " " + (Text(spell, ts[0]) + rest);
      ScanBlank(env, Text(spell, ts[0]) + rest);
      ScanToken(env, spell, ts[0], rest);
      PrintedPresents(env, spell, ts[1..]);
    } else {
      assert Scan(env, "").token.None?;
    }
  }

  /** Scanning a printed formula delivers its tokens. */
  lemma FormulaPresents<V(!new)>(env: Env<V>, spell: V -> string, ts: seq<Token<V>>)
    requires AllSpelled(env, spell, ts) && ts != []
    ensures Presents(env, Scan(env, Formula(spell, ts)), ts)
  {
    hide Scan, Text;
    var rest := Printed(spell, ts[1..]);
    PrintedEnds(spell, ts[1..]);
    ScanToken(env, spell, ts[0], rest);
    PrintedPresents(env, spell, ts[1..]);
  }

  // ----- the fewest parentheses -----

  /** Every node has its operands and binary nodes have binary operators. */
  predicate Proper<V>(t: Tree<V>) {
    match t
    case Missing => false
    case Leaf(_) => true
    case Negate(e) => Proper(e)
    case Affirm(e) => Proper(e)
    case Binary(op, l, r) => Strength(op) < 3 && Proper(l) && Proper(r)
  }

  function Level<V>(t: Tree<V>): nat {
    match t
    case Negate(_) => 3
    case Affirm(_) => 3
    case Binary(op, _, _) => Strength(op)
    case _ => 4
  }

  /** The tree without outer parentheses. */
  function Bare<V>(t: Tree<V>): Cst<V>
    requires Proper(t)
    decreases t, 0
  {
    match t
    case Leaf(v) => CNum(v)
    case Negate(e) => CNeg(Concretize(e, 3))
    case Affirm(e) => CPos(Concretize(e, 3))
    case Binary(op, l, r) => CBin(op, Concretize(l, Strength(op)), Concretize(r, Strength(op) + 1))
  }

  /** Parentheses only where the tree binds weaker than its place demands. */
  function Concretize<V>(t: Tree<V>, level: nat): Cst<V>
    requires Proper(t)
    decreases t, 1
  {
    if Level(t) >= level then Bare(t) else CParen(Bare(t))
  }

  lemma {:induction false} BareCorrect<V>(t: Tree<V>)
    requires Proper(t)
    ensures Fits(Bare(t), Level(t)) && Abstract(Bare(t)) == t
    decreases t, 0
  {
    match t
    case Leaf(_) =>
    case Negate(e) => ConcretizeCorrect(e, 3);
    case Affirm(e) => ConcretizeCorrect(e, 3);
    case Binary(op, l, r) =>
      ConcretizeCorrect(l, Strength(op));
      ConcretizeCorrect(r, Strength(op) + 1);
  }

  lemma {:induction false} ConcretizeCorrect<V>(t: Tree<V>, level: nat)
    requires Proper(t) && level <= 4
    ensures Fits(Concretize(t, level), level) && Abstract(Concretize(t, level)) == t
    decreases t, 1
  {
    BareCorrect(t);
    FitsLower(Bare(t), Level(t), if Level(t) >= level then level else 0);
  }

  function Parens<V>(c: Cst<V>): nat {
    match c
    case CNum(_) => 0
    case CParen(e) => 1 + Parens(e)
    case CNeg(e) => Parens(e)
    case CPos(e) => Parens(e)
    case CBin(_, l, r) => Parens(l) + Parens(r)
  }

  /** No other way to write the tree at this level has fewer parentheses. */
  lemma {:induction false} ConcretizeMinimal<V>(c: Cst<V>, level: nat)
    requires Fits(c, level) && Proper(Abstract(c))
    ensures Parens(Concretize(Abstract(c), level)) <= Parens(c)
    decreases c
  {
    match c
    case CNum(_) =>
    case CParen(e) => ConcretizeMinimal(e, 0);
    case CNeg(e) => ConcretizeMinimal(e, 3);
    case CPos(e) => ConcretizeMinimal(e, 3);
    case CBin(op, l, r) =>
      ConcretizeMinimal(l, Strength(op));
      ConcretizeMinimal(r, Strength(op) + 1);
  }

  // ----- the round trip -----

  ghost predicate LeavesSpelled<V(!new)>(env: Env<V>, spell: V -> string, t: Tree<V>) {
    match t
    case Missing => true
    case Leaf(v) => Spelled(env, spell, v)
    case Negate(e) => LeavesSpelled(env, spell, e)
    case Affirm(e) => LeavesSpelled(env, spell, e)
    case Binary(_, l, r) => LeavesSpelled(env, spell, l) && LeavesSpelled(env, spell, r)
  }

  lemma {:induction false} YieldSpelled<V(!new)>(env: Env<V>, spell: V -> string, c: Cst<V>)
    requires LeavesSpelled(env, spell, Abstract(c))
    ensures AllSpelled(env, spell, Yield(c))
    ensures |Yield(c)| > 0 && Yield(c)[0] != Operator(Inc) && Yield(c)[0] != Operator(Dec)
  {
    hide Spelled;
    match c
    case CNum(v) =>
    case CParen(e) => YieldSpelled(env, spell, e);
    case CNeg(e) => YieldSpelled(env, spell, e);
    case CPos(e) => YieldSpelled(env, spell, e);
    case CBin(op, l, r) =>
      YieldSpelled(env, spell, l);
      YieldSpelled(env, spell, r);
  }

  lemma {:induction false} DottedIdentity(s: string)
    requires ',' !in s
    ensures Dotted(s) == s
  {
    if s != "" {
      assert s == [s[0]] + s[1..];
      DottedIdentity(s[1..]);
    }
  }

  lemma {:induction false} PrintedNoComma<V(!new)>(env: Env<V>, spell: V -> string, ts: seq<Token<V>>)
    requires AllSpelled(env, spell, ts)
    ensures ',' !in Printed(spell, ts)
    decreases |ts|
  {
    if ts != [] {
      assert TokenSpelled(env, spell, ts[0]);
      PrintedNoComma(env, spell, ts[1..]);
    }
  }

  lemma FormulaNoComma<V(!new)>(env: Env<V>, spell: V -> string, ts: seq<Token<V>>)
    requires AllSpelled(env, spell, ts) && ts != []
    ensures ',' !in Formula(spell, ts) && Formula(spell, ts) != ""
  {
    assert TokenSpelled(env, spell, ts[0]);
    PrintedNoComma(env, spell, ts[1..]);
  }

  /** The formula of a tree: fewest parentheses, a blank between tokens. */
  function FormulaOf<V>(spell: V -> string, t: Tree<V>): string
    requires Proper(t)
  {
    Formula(spell, Yield(Concretize(t, 0)))
  }

  /** The printed formula of any tree is accepted to its end, and solving it gives the tree's
      value. */
  lemma SolutionOfPrinted<V(!new)>(env: Env<V>, spell: V -> string, t: Tree<V>)
    requires Proper(t) && LeavesSpelled(env, spell, t)
    ensures Accepts(env, Scan(env, Dotted(FormulaOf(spell, t))))
    ensures Solution(env, FormulaOf(spell, t)) == Eval(env.arith, t)
  {
    hide Parse, Scan, LeavesSpelled, Eval;
    var c := Concretize(t, 0);
    ConcretizeCorrect(t, 0);
    YieldSpelled(env, spell, c);
    FormulaNoComma(env, spell, Yield(c));
    DottedIdentity(FormulaOf(spell, t));
    FormulaPresents(env, spell, Yield(c));
    SentenceParses(env, Scan(env, FormulaOf(spell, t)), Yield(c), c);
  }

  // ----- the grammar is unambiguous -----

  /** A text for any tokens: every number is written `0`. */
  function Plain<V>(ts: seq<Token<V>>): string
    decreases |ts|, 1
  {
    if ts == [] then "" else " " + PlainFirst(ts)
  }

  function PlainFirst<V>(ts: seq<Token<V>>): string
    requires ts != []
    decreases |ts|, 0
  {
    (if ts[0].Number? then "0" else Symbol(ts[0].op)) + Plain(ts[1..])
  }

  /** The number written where the text `s` starts. */
  function NumberAt<V>(ts: seq<Token<V>>, s: string, default: V): V {
    if ts == [] then default
    else if ts[0].Number? && s == PlainFirst(ts) then ts[0].value
    else NumberAt(ts[1..], s, default)
  }

  /** A scanner that reads these tokens off their plain text. */
  function Reader<V>(ts: seq<Token<V>>, v: V): Env<V> {
    Env(Arith(v, _ => v, _ => v, _ => v, (_, _) => v, (_, _) => v, (_, _) => v, (_, _) => v, (_, _) => v, (_, _) => v),
        (s: string) => (NumberAt(ts, s, v), 1), v)
  }

  lemma {:induction false} NumberAtSuffix<V>(ts: seq<Token<V>>, i: nat, v: V)
    requires i < |ts| && ts[i].Number?
    ensures NumberAt(ts, PlainFirst(ts[i..]), v) == ts[i].value
    decreases i
  {
    if i == 0 {
      assert ts[0..] == ts;
    } else {
      PlainShrinks(ts, i);
      assert ts[1..][i - 1..] == ts[i..];
      NumberAtSuffix(ts[1..], i - 1, v);
    }
  }

  lemma {:induction false} PlainShrinks<V>(ts: seq<Token<V>>, i: nat)
    requires 0 < i < |ts|
    ensures |PlainFirst(ts[i..])| < |PlainFirst(ts)|
    decreases i
  {
    if i > 1 {
      assert ts[1..][i - 1..] == ts[i..];
      PlainShrinks(ts[1..], i - 1);
    }
  }

  lemma {:induction false} ReaderPresents<V(!new)>(ts: seq<Token<V>>, i: nat, v: V)
    requires i <= |ts|
    ensures Presents(Reader(ts, v), Scan(Reader(ts, v), Plain(ts[i..])), ts[i..])
    decreases |ts| - i
  {
    var env, us := Reader(ts, v), ts[i..];
    if i == |ts| {
      assert Scan(env, "").token.None?;
    } else {
      hide NumberAt, OperatorAt, Symbol;
      assert us[1..] == ts[i + 1..];
      ReaderPresents(ts, i + 1, v);
      PlainEnds(us[1..]);
      ScanBlank(env, PlainFirst(us));
      if us[0].Number? {
        NumberAtSuffix(ts, i, v);
        ScanZero(env, Plain(us[1..]));
      } else {
        ScanSymbol(env, us[0].op, Plain(us[1..]));
      }
    }
  }

  lemma PlainEnds<V>(ts: seq<Token<V>>)
    ensures Ends(Plain(ts))
  {
  }

  lemma ScanZero<V>(env: Env<V>, rest: string)
    requires env.strtod("0" + rest).1 == 1
    ensures Scan(env, "0" + rest) == State(Some(Number(env.strtod("0" + rest).0)), rest)
  {
    var w := "0" + rest;
    assert OperatorAt(w).None? && w[1..] == rest;
  }

  function SomeNumber<V>(c: Cst<V>): V {
    match c
    case CNum(v) => v
    case CParen(e) => SomeNumber(e)
    case CNeg(e) => SomeNumber(e)
    case CPos(e) => SomeNumber(e)
    case CBin(_, l, _) => SomeNumber(l)
  }

  /** Sentences with the same tokens have the same tree. */
  lemma Unambiguous<V(!new)>(c: Cst<V>, d: Cst<V>)
    requires Fits(c, 0) && Fits(d, 0) && Yield(c) == Yield(d)
    ensures Abstract(c) == Abstract(d)
  {
    hide Scan, Parse, Presents, Plain, Reader;
    var ts, v := Yield(c), SomeNumber(c);
    var env := Reader(ts, v);
    var st := Scan(env, Plain(ts));
    assert ts[0..] == ts;
    ReaderPresents(ts, 0, v);
    SentenceParses(env, st, ts, c);
    SentenceParses(env, st, ts, d);
  }
}
