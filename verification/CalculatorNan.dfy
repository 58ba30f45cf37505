/** What the calculator answers to a formula outside its grammar. It is not-a-number unless a
    power swallows the missing operand, as in C, where one to any power and anything to the
    power zero is one, or the formula starts with an increment or a decrement. */
module CalculatorNan {
  import opened Common
  import opened CalculatorSyntax
  import opened CalculatorGrammar
  import opened CalculatorPrint

  predicate StrictAt<V(==)>(a: Arith<V>, op: Op, v: V) {
    Apply(a, op, v, a.nan) == a.nan && Apply(a, op, a.nan, v) == a.nan
  }

  /** The arithmetic treats not-a-number as C floats do (annex F of ISO C99): every operation
      passes it on, but for the power of one and the power with exponent zero. */
  ghost predicate FloatLike<V(!new)>(a: Arith<V>, one: V, isZero: V -> bool) {
    && one != a.nan && !isZero(a.nan) && a.neg(a.nan) == a.nan
    && (forall v :: a.inc(v) == a.nan <==> v == a.nan) && (forall v :: a.dec(v) == a.nan <==> v == a.nan)
    && (forall op, v :: Strength(op) < 2 ==> StrictAt(a, op, v))
    && (forall l :: a.pow(l, a.nan) == if l == one then one else a.nan)
    && (forall r :: a.pow(a.nan, r) == if isZero(r) then one else a.nan)
  }

  /** A lone increment or decrement, or a sentence of the grammar. */
  predicate WellFormed<V>(env: Env<V>, formula: string) {
    var st := Scan(env, Dotted(formula));
    && formula != ""
    && if IsOp(st, Inc) || IsOp(st, Dec) then Advance(env, st).token.None? else Accepts(env, st)
  }

  // ----- where a missing operand goes -----

  /** Some missing operand reaches the root: no power between them has one on its left or
      zero on its right. */
  predicate Reaches<V(==)>(a: Arith<V>, one: V, isZero: V -> bool, t: Tree<V>) {
    match t
    case Missing => true
    case Leaf(_) => false
    case Negate(e) => Reaches(a, one, isZero, e)
    case Affirm(e) => Reaches(a, one, isZero, e)
    case Binary(op, l, r) =>
      || (Reaches(a, one, isZero, l) && !(op == Power && isZero(Eval(a, r))))
      || (Reaches(a, one, isZero, r) && !(op == Power && Eval(a, l) == one))
  }

  /** The tree with one in place of every power that swallows a missing operand. */
  function Repaired<V(==)>(a: Arith<V>, one: V, isZero: V -> bool, t: Tree<V>): Tree<V> {
    match t
    case Missing => Missing
    case Leaf(v) => t
    case Negate(e) => Negate(Repaired(a, one, isZero, e))
    case Affirm(e) => Affirm(Repaired(a, one, isZero, e))
    case Binary(op, l, r) =>
      if Reaches(a, one, isZero, l) || Reaches(a, one, isZero, r) then Leaf(one)
      else Binary(op, Repaired(a, one, isZero, l), Repaired(a, one, isZero, r))
  }

  /** A missing operand that reaches the root makes the value not-a-number; if none does, the
      value is that of the repaired tree, which misses nothing. */
  lemma {:induction false} MissingOperand<V(!new)>(a: Arith<V>, one: V, isZero: V -> bool, t: Tree<V>)
    requires FloatLike(a, one, isZero) && Operators(t)
    ensures Reaches(a, one, isZero, t) ==> Eval(a, t) == a.nan
    ensures !Reaches(a, one, isZero, t) ==>
              Complete(Repaired(a, one, isZero, t)) && Eval(a, t) == Eval(a, Repaired(a, one, isZero, t))
  {
    match t
    case Missing =>
    case Leaf(_) =>
    case Negate(e) => MissingOperand(a, one, isZero, e);
    case Affirm(e) => MissingOperand(a, one, isZero, e);
    case Binary(op, l, r) =>
      MissingOperand(a, one, isZero, l);
      MissingOperand(a, one, isZero, r);
      NanOperand(a, one, isZero, op, Eval(a, l), Eval(a, r));
  }

  /** An operation on a not-a-number. */
  lemma NanOperand<V(!new)>(a: Arith<V>, one: V, isZero: V -> bool, op: Op, l: V, r: V)
    requires FloatLike(a, one, isZero) && Strength(op) < 3
    ensures l == a.nan ==> Apply(a, op, l, r) == if op == Power && isZero(r) then one else a.nan
    ensures r == a.nan ==> Apply(a, op, l, r) == if op == Power && l == one then one else a.nan
  {
    if op != Power {
      assert StrictAt(a, op, l) && StrictAt(a, op, r);
    }
  }

  predicate Operators<V>(t: Tree<V>) {
    match t
    case Missing => true
    case Leaf(_) => true
    case Negate(e) => Operators(e)
    case Affirm(e) => Operators(e)
    case Binary(op, l, r) => Strength(op) < 3 && Operators(l) && Operators(r)
  }

  lemma {:induction false} ParseOperators<V>(env: Env<V>, st: State<V>, level: nat)
    requires level <= 3
    ensures Operators(Parse(env, st, level).tree)
    decreases Measure(st), 2 * (3 - level) + 2
  {
    hide ParseRest, Parse, Scan;
    ParseNothing(env, st, level);
    if st.token.Some? {
      if level == 3 {
        UnaryUnfolds(env, st);
        AdvanceLowersMeasure(env, st);
        if IsOp(st, Minus) || IsOp(st, Plus) {
          ParseOperators(env, Advance(env, st), 3);
        } else if IsOp(st, LeftRound) {
          ParseOperators(env, Advance(env, st), 0);
        }
      } else {
        ParseUnfolds(env, st, level);
        var left := Parse(env, st, level + 1);
        ParseOperators(env, st, level + 1);
        RestOperators(env, left.tree, left.st, level);
      }
    }
  }

  lemma {:induction false} RestOperators<V>(env: Env<V>, left: Tree<V>, st: State<V>, level: nat)
    requires level < 3 && Operators(left)
    ensures Operators(ParseRest(env, left, st, level).tree)
    decreases Measure(st), 2 * (3 - level) + 1
  {
    hide ParseRest, Parse, Scan;
    RestUnfolds(env, left, st, level);
    AdvanceLowersMeasure(env, st);
    if Continues(st, level) {
      var right := Parse(env, Advance(env, st), level + 1);
      ParseOperators(env, Advance(env, st), level + 1);
      RestOperators(env, Binary(st.token.value.op, left, right.tree), right.st, level);
    }
  }

  lemma ParseNothing<V>(env: Env<V>, st: State<V>, level: nat)
    requires level <= 3
    ensures st.token.None? ==> Parse(env, st, level) == Parsed(Missing, st)
  {
  }

  // ----- the answer -----

  /** The answer to every malformed formula. */
  lemma MalformedAnswer<V(!new)>(env: Env<V>, one: V, isZero: V -> bool, formula: string)
    requires FloatLike(env.arith, one, isZero) && !WellFormed(env, formula) && formula != ""
    ensures var a, st := env.arith, Scan(env, Dotted(formula));
            var p := Parse(env, st, 0);
            && (IsOp(st, Inc) ==> Solution(env, formula) == a.inc(env.x))
            && (IsOp(st, Dec) ==> Solution(env, formula) == a.dec(env.x))
            && (!IsOp(st, Inc) && !IsOp(st, Dec) ==>
                  if p.st.token.Some? || Reaches(a, one, isZero, p.tree) then Solution(env, formula) == a.nan
                  else
                    && !Complete(p.tree) && Complete(Repaired(a, one, isZero, p.tree))
                    && Solution(env, formula) == Eval(a, Repaired(a, one, isZero, p.tree)))
  {
    hide Parse, Scan, Dotted, Reaches, Repaired, FloatLike;
    var st := Scan(env, Dotted(formula));
    ParseOperators(env, st, 0);
    MissingOperand(env.arith, one, isZero, Parse(env, st, 0).tree);
  }

  /** Exactly which malformed formulas are answered with not-a-number: those with a token left
      over, those where a missing operand reaches the root, those whose other operands make a
      not-a-number by themselves, and after an increment or decrement those where the variable
      is one. */
  lemma MalformedNanIff<V(!new)>(env: Env<V>, one: V, isZero: V -> bool, formula: string)
    requires FloatLike(env.arith, one, isZero) && !WellFormed(env, formula)
    ensures var a, st := env.arith, Scan(env, Dotted(formula));
            var p := Parse(env, st, 0);
            Solution(env, formula) == a.nan <==>
              || formula == ""
              || (if IsOp(st, Inc) || IsOp(st, Dec) then env.x == a.nan
                  else
                    || p.st.token.Some? || Reaches(a, one, isZero, p.tree)
                    || Eval(a, Repaired(a, one, isZero, p.tree)) == a.nan)
  {
    hide Parse, Scan, Dotted, Reaches, Repaired, WellFormed;
    if formula != "" {
      MalformedAnswer(env, one, isZero, formula);
    }
  }

  // ----- formulas that are not answered with not-a-number -----

  /** One binary operator between an operand and the end of the formula. */
  lemma {:induction false} ParseOne<V>(env: Env<V>, st: State<V>, left: Tree<V>, st1: State<V>, op: Op, level: nat)
    requires level <= 3 && Strength(op) < 3 && st.token.Some?
    requires Parse(env, st, 3) == Parsed(left, st1) && IsOp(st1, op)
    requires Parse(env, Advance(env, st1), Strength(op) + 1).st.token.None?
    ensures Parse(env, st, level) ==
            if level > Strength(op) then Parsed(left, st1)
            else var right := Parse(env, Advance(env, st1), Strength(op) + 1);
                 Parsed(Binary(op, left, right.tree), right.st)
    decreases 3 - level
  {
    hide Parse, ParseRest, Scan;
    if level < 3 {
      ParseOne(env, st, left, st1, op, level + 1);
      ParseUnfolds(env, st, level);
      var right := Parse(env, Advance(env, st1), Strength(op) + 1);
      RestUnfolds(env, left, st1, level);
      RestUnfolds(env, Binary(op, left, right.tree), right.st, level);
    }
  }

  function Rightless<V>(v: V, op: Op): seq<Token<V>> {
    [Number(v), Operator(op)]
  }

  lemma ParseRightless<V(!new)>(env: Env<V>, st: State<V>, v: V, op: Op)
    requires Strength(op) < 3 && Presents(env, st, Rightless(v, op))
    ensures Parse(env, st, 0).tree == Binary(op, Leaf(v), Missing) && Parse(env, st, 0).st.token.None?
  {
    hide Parse, ParseRest, Scan, Advance;
    var st1 := Advance(env, st);
    var st2 := Advance(env, st1);
    assert Rightless(v, op)[1..] == [Operator(op)];
    assert Presents(env, st1, [Operator(op)]) && Presents(env, st2, []);
    UnaryUnfolds(env, st);
    ParseNothing(env, st2, Strength(op) + 1);
    ParseOne(env, st, Leaf(v), st1, op, 0);
  }

  lemma SolvesTree<V>(env: Env<V>, f: string, t: Tree<V>)
    requires f != "" && Dotted(f) == f
    requires !IsOp(Scan(env, f), Inc) && !IsOp(Scan(env, f), Dec)
    requires Parse(env, Scan(env, f), 0).tree == t && Parse(env, Scan(env, f), 0).st.token.None?
    ensures Solution(env, f) == Eval(env.arith, t) && (WellFormed(env, f) <==> Complete(t))
  {
    hide Parse, Scan, Dotted;
  }

  /** The dangling formula `1^` is malformed, and its answer is one. */
  lemma DanglingPower<V(!new)>(env: Env<V>, one: V, isZero: V -> bool)
    requires FloatLike(env.arith, one, isZero) && env.strtod("1^") == (one, 1)
    ensures !WellFormed(env, "1^") && Solution(env, "1^") == one && one != env.arith.nan
  {
    hide Parse, Solution, WellFormed;
    var st := Scan(env, "1^");
    assert OperatorAt("1^").None? && "1^"[1..] == "^";
    assert Advance(env, st) == State(Some(Operator(Power)), "");
    assert Rightless(one, Power)[1..] == [Operator(Power)];
    assert Presents(env, Advance(env, st), [Operator(Power)]);
    ParseRightless(env, st, one, Power);
    DottedIdentity("1^");
    SolvesTree(env, "1^", Binary(Power, Leaf(one), Missing));
    assert Eval(env.arith, Leaf(one)) == one;
  }

  /** Whatever follows a leading increment is ignored: `++)` is malformed, and its answer is
      the variable and one. */
  lemma LeadingIncrement<V(!new)>(env: Env<V>, one: V, isZero: V -> bool)
    requires FloatLike(env.arith, one, isZero) && env.x != env.arith.nan
    ensures !WellFormed(env, "++)") && Solution(env, "++)") == env.arith.inc(env.x) != env.arith.nan
  {
    hide Parse;
    var st := Scan(env, "++)");
    DottedIdentity("++)");
    assert OperatorAt("++)") == Some((Inc, 2)) && "++)"[2..] == ")";
    assert OperatorAt(")") == Some((RightRound, 1));
  }

  /** There is such an arithmetic: zero, one and not-a-number. */
  lemma FloatLikeExists()
    ensures exists a: Arith<int>, one, isZero :: FloatLike(a, one, isZero)
  {
    var strict := (l: int, r: int) => if l == 2 || r == 2 then 2 else 0;
    var same := (v: int) => v;
    var a := Arith(2, same, same, same, strict, strict, strict, strict, strict,
                   (l, r) => if l == 1 || r == 0 then 1 else if l == 2 || r == 2 then 2 else 0);
    assert FloatLike(a, 1, (v: int) => v == 0);
  }

  /** A number that takes no characters, such as a lone decimal point, is read again and
      again; the parser still ends, and answers not-a-number. */
  lemma StuckNumber<V>(env: Env<V>, formula: string)
    requires var s := Dotted(formula); s != "" && StartsNumber(s[0]) && env.strtod(s).1 == 0
    ensures var st := Scan(env, Dotted(formula)); Advance(env, st) == st
    ensures Solution(env, formula) == env.arith.nan
  {
    var s := Dotted(formula);
    var st := Scan(env, s);
    assert s[0..] == s && OperatorAt(s).None?;
    StuckParse(env, st, 0);
  }

  lemma {:induction false} StuckParse<V>(env: Env<V>, st: State<V>, level: nat)
    requires level <= 3 && st.token.Some? && st.token.value.Number? && Advance(env, st) == st
    ensures Parse(env, st, level).st == st
    decreases 3 - level
  {
    hide Parse, ParseRest, Scan, Advance;
    UnaryUnfolds(env, st);
    if level < 3 {
      StuckParse(env, st, level + 1);
      ParseUnfolds(env, st, level);
      RestUnfolds(env, Parse(env, st, level + 1).tree, st, level);
    }
  }
}
