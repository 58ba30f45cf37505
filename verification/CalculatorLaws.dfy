/** What formulas mean, in terms of the arithmetic's own operations and of the texts alone: each
    way of building a formula from smaller ones is one operation on their solutions. */
module CalculatorLaws {
  import opened Common
  import opened CalculatorSyntax
  import opened CalculatorGrammar
  import opened CalculatorPrint

  /** The text of a sentence. */
  function Written<V>(spell: V -> string, c: Cst<V>): string {
    Formula(spell, Yield(c))
  }

  /** A sentence of the grammar at a level, all its numbers readable. */
  ghost predicate Sentence<V(!new)>(env: Env<V>, spell: V -> string, c: Cst<V>, level: nat) {
    level <= 4 && Fits(c, level) && LeavesSpelled(env, spell, Abstract(c))
  }

  lemma SolutionOfSentence<V(!new)>(env: Env<V>, spell: V -> string, c: Cst<V>)
    requires Sentence(env, spell, c, 0)
    ensures Solution(env, Written(spell, c)) == Eval(env.arith, Abstract(c))
  {
    hide Parse, Scan, LeavesSpelled, Eval, Fits;
    YieldSpelled(env, spell, c);
    FormulaNoComma(env, spell, Yield(c));
    DottedIdentity(Written(spell, c));
    FormulaPresents(env, spell, Yield(c));
    SentenceParses(env, Scan(env, Written(spell, c)), Yield(c), c);
  }

  // ----- texts of parts -----

  lemma {:induction false} PrintedJoins<V>(spell: V -> string, a: seq<Token<V>>, b: seq<Token<V>>)
    ensures Printed(spell, a + b) == Printed(spell, a) + Printed(spell, b)
    decreases |a|
  {
    if a == [] {
      assert a + b == b;
    } else {
      assert (a + b)[1..] == a[1..] + b;
      PrintedJoins(spell, a[1..], b);
    }
  }

  lemma FormulaJoins<V>(spell: V -> string, a: seq<Token<V>>, b: seq<Token<V>>)
    requires a != [] && b != []
    ensures Formula(spell, a + b) == Formula(spell, a) + " " + Formula(spell, b)
  {
    hide Text;
    assert (a + b)[1..] == a[1..] + b;
    PrintedJoins(spell, a[1..], b);
    Beside(Text(spell, a[0]), Printed(spell, a[1..]), " ", Text(spell, b[0]), Printed(spell, b[1..]));
  }

  lemma Beside(a: string, b: string, c: string, d: string, e: string)
    ensures a + (b + (c + d + e)) == a + b + c + (d + e)
  {
  }

  lemma FormulaOfOne<V>(spell: V -> string, op: Op)
    ensures Formula(spell, [Operator(op)]) == Symbol(op)
  {
    assert Printed(spell, []) == "";
  }

  // ----- the texts of the ways to build a sentence -----

  lemma WrittenNumber<V>(spell: V -> string, v: V)
    ensures Written(spell, CNum(v)) == spell(v)
  {
    assert Printed(spell, []) == "";
  }

  lemma WrittenParentheses<V>(spell: V -> string, c: Cst<V>)
    ensures Written(spell, CParen(c)) == "( " + Written(spell, c) + " )"
  {
    hide Formula;
    var a := [Operator(LeftRound)] + Yield(c);
    YieldNonempty(c);
    FormulaOfOne(spell, LeftRound);
    FormulaOfOne(spell, RightRound);
    FormulaJoins(spell, [Operator(LeftRound)], Yield(c));
    FormulaJoins(spell, a, [Operator(RightRound)]);
    assert Yield(CParen(c)) == a + [Operator(RightRound)];
    Together("( ", Formula(spell, Yield(c)), " )");
  }

  lemma WrittenSigns<V>(spell: V -> string, c: Cst<V>)
    ensures Written(spell, CNeg(c)) == "- " + Written(spell, c)
    ensures Written(spell, CPos(c)) == "+ " + Written(spell, c)
  {
    hide Formula;
    YieldNonempty(c);
    FormulaOfOne(spell, Minus);
    FormulaOfOne(spell, Plus);
    FormulaJoins(spell, [Operator(Minus)], Yield(c));
    FormulaJoins(spell, [Operator(Plus)], Yield(c));
    assert Symbol(Minus) + " " == "- " && Symbol(Plus) + " " == "+ ";
  }

  lemma WrittenBinary<V>(spell: V -> string, op: Op, text: string, l: Cst<V>, r: Cst<V>)
    requires text == " " + Symbol(op) + " "
    ensures Written(spell, CBin(op, l, r)) == Written(spell, l) + text + Written(spell, r)
  {
    hide Formula, Symbol;
    YieldNonempty(l);
    YieldNonempty(r);
    FormulaOfOne(spell, op);
    FormulaJoins(spell, Yield(l), [Operator(op)]);
    FormulaJoins(spell, Yield(l) + [Operator(op)], Yield(r));
    var a, b := Formula(spell, Yield(l)), Formula(spell, Yield(r));
    assert a + " " + Symbol(op) + " " + b == a + text + b;
  }

  lemma Together(open: string, s: string, close: string)
    requires |open| == |close| == 2
    ensures [open[0]] + [open[1]] + s + [close[0]] + [close[1]] == open + s + close
  {
  }

  // ----- the laws -----

  lemma SolutionOfNumber<V(!new)>(env: Env<V>, spell: V -> string, v: V)
    requires Spelled(env, spell, v)
    ensures Solution(env, spell(v)) == v
  {
    hide Solution, Spelled, Written;
    WrittenNumber(spell, v);
    SolutionOfSentence(env, spell, CNum(v));
  }

  lemma SolutionOfParentheses<V(!new)>(env: Env<V>, spell: V -> string, c: Cst<V>)
    requires Sentence(env, spell, c, 0)
    ensures Solution(env, "( " + Written(spell, c) + " )") == Solution(env, Written(spell, c))
  {
    hide Solution, Written;
    WrittenParentheses(spell, c);
    SolutionOfSentence(env, spell, CParen(c));
    SolutionOfSentence(env, spell, c);
  }

  /** A sign binds tighter than a power. */
  lemma SolutionOfSigns<V(!new)>(env: Env<V>, spell: V -> string, c: Cst<V>)
    requires Sentence(env, spell, c, 3)
    ensures Solution(env, "- " + Written(spell, c)) == env.arith.neg(Solution(env, Written(spell, c)))
    ensures Solution(env, "+ " + Written(spell, c)) == Solution(env, Written(spell, c))
  {
    hide Solution, Written;
    WrittenSigns(spell, c);
    assert Sentence(env, spell, CNeg(c), 0) && Sentence(env, spell, CPos(c), 0);
    FitsLower(c, 3, 0);
    SolutionOfSentence(env, spell, CNeg(c));
    SolutionOfSentence(env, spell, CPos(c));
    SolutionOfSentence(env, spell, c);
  }

  lemma SolutionOfBinary<V(!new)>(env: Env<V>, spell: V -> string, op: Op, text: string, l: Cst<V>, r: Cst<V>)
    requires text == " " + Symbol(op) + " "
    requires Strength(op) < 3 && Sentence(env, spell, l, Strength(op)) && Sentence(env, spell, r, Strength(op) + 1)
    ensures Sentence(env, spell, CBin(op, l, r), Strength(op))
    ensures Solution(env, Written(spell, l) + text + Written(spell, r)) ==
            Apply(env.arith, op, Solution(env, Written(spell, l)), Solution(env, Written(spell, r)))
  {
    hide Solution, Written, Symbol, Strength, Apply;
    WrittenBinary(spell, op, text, l, r);
    SolutionOfSentence(env, spell, CBin(op, l, r));
    FitsLower(l, Strength(op), 0);
    FitsLower(r, Strength(op) + 1, 0);
    SolutionOfSentence(env, spell, l);
    SolutionOfSentence(env, spell, r);
  }

  lemma SolutionOfSum<V(!new)>(env: Env<V>, spell: V -> string, l: Cst<V>, r: Cst<V>)
    requires Sentence(env, spell, l, 0) && Sentence(env, spell, r, 1)
    ensures var a, b := Written(spell, l), Written(spell, r);
            && Solution(env, a + " + " + b) == env.arith.add(Solution(env, a), Solution(env, b))
            && Solution(env, a + " - " + b) == env.arith.sub(Solution(env, a), Solution(env, b))
  {
    hide Solution, Written, Sentence;
    SolutionOfBinary(env, spell, Plus, " + ", l, r);
    SolutionOfBinary(env, spell, Minus, " - ", l, r);
  }

  lemma SolutionOfProduct<V(!new)>(env: Env<V>, spell: V -> string, l: Cst<V>, r: Cst<V>)
    requires Sentence(env, spell, l, 1) && Sentence(env, spell, r, 2)
    ensures var a, b := Written(spell, l), Written(spell, r);
            && Solution(env, a + " * " + b) == env.arith.mul(Solution(env, a), Solution(env, b))
            && Solution(env, a + " / " + b) == env.arith.div(Solution(env, a), Solution(env, b))
            && Solution(env, a + " % " + b) == env.arith.mod(Solution(env, a), Solution(env, b))
  {
    hide Solution, Written, Sentence;
    SolutionOfBinary(env, spell, Multiply, " * ", l, r);
    SolutionOfBinary(env, spell, Division, " / ", l, r);
    SolutionOfBinary(env, spell, Modulo, " % ", l, r);
  }

  lemma SolutionOfPower<V(!new)>(env: Env<V>, spell: V -> string, l: Cst<V>, r: Cst<V>)
    requires Sentence(env, spell, l, 2) && Sentence(env, spell, r, 3)
    ensures var a, b := Written(spell, l), Written(spell, r);
            Solution(env, a + " ^ " + b) == env.arith.pow(Solution(env, a), Solution(env, b))
  {
    hide Solution, Written, Sentence;
    SolutionOfBinary(env, spell, Power, " ^ ", l, r);
  }

  // ----- formulas of two and three numbers -----

  lemma NumberSentence<V(!new)>(env: Env<V>, spell: V -> string, v: V)
    requires Spelled(env, spell, v)
    ensures forall level: nat :: level <= 4 ==> Sentence(env, spell, CNum(v), level)
    ensures Written(spell, CNum(v)) == spell(v) && Solution(env, spell(v)) == v
  {
    hide Spelled, Solution;
    SolutionOfNumber(env, spell, v);
    WrittenNumber(spell, v);
  }

  /** The operations of the arithmetic, from the texts alone. */
  lemma TwoNumbers<V(!new)>(env: Env<V>, spell: V -> string, u: V, v: V)
    requires Spelled(env, spell, u) && Spelled(env, spell, v)
    ensures Solution(env, spell(u) + " + " + spell(v)) == env.arith.add(u, v)
    ensures Solution(env, spell(u) + " - " + spell(v)) == env.arith.sub(u, v)
    ensures Solution(env, spell(u) + " * " + spell(v)) == env.arith.mul(u, v)
    ensures Solution(env, spell(u) + " / " + spell(v)) == env.arith.div(u, v)
    ensures Solution(env, spell(u) + " % " + spell(v)) == env.arith.mod(u, v)
    ensures Solution(env, spell(u) + " ^ " + spell(v)) == env.arith.pow(u, v)
    ensures Solution(env, "- " + spell(u)) == env.arith.neg(u)
    ensures Solution(env, "+ " + spell(u)) == u
    ensures Solution(env, "( " + spell(u) + " )") == u
  {
    hide Solution, Written, Sentence, Spelled;
    NumberSentence(env, spell, u);
    NumberSentence(env, spell, v);
    SolutionOfSum(env, spell, CNum(u), CNum(v));
    SolutionOfProduct(env, spell, CNum(u), CNum(v));
    SolutionOfPower(env, spell, CNum(u), CNum(v));
    SolutionOfSigns(env, spell, CNum(u));
    SolutionOfParentheses(env, spell, CNum(u));
  }

  lemma BinarySentence<V(!new)>(env: Env<V>, spell: V -> string, op: Op, text: string, l: Cst<V>, r: Cst<V>)
    requires text == " " + Symbol(op) + " "
    requires Strength(op) < 3 && Sentence(env, spell, l, Strength(op)) && Sentence(env, spell, r, Strength(op) + 1)
    ensures Sentence(env, spell, CBin(op, l, r), Strength(op))
    ensures Written(spell, CBin(op, l, r)) == Written(spell, l) + text + Written(spell, r)
  {
    hide Written, Symbol, Strength;
    WrittenBinary(spell, op, text, l, r);
  }

  /** Operators of one strength group to the left. */
  lemma Chains<V(!new)>(env: Env<V>, spell: V -> string, u: V, v: V, w: V)
    requires Spelled(env, spell, u) && Spelled(env, spell, v) && Spelled(env, spell, w)
    ensures Solution(env, spell(u) + " - " + spell(v) + " - " + spell(w)) == env.arith.sub(env.arith.sub(u, v), w)
    ensures Solution(env, spell(u) + " / " + spell(v) + " / " + spell(w)) == env.arith.div(env.arith.div(u, v), w)
    ensures Solution(env, spell(u) + " ^ " + spell(v) + " ^ " + spell(w)) == env.arith.pow(env.arith.pow(u, v), w)
  {
    hide Solution, Written, Sentence, Spelled;
    NumberSentence(env, spell, u);
    NumberSentence(env, spell, v);
    NumberSentence(env, spell, w);
    TwoNumbers(env, spell, u, v);
    BinarySentence(env, spell, Minus, " - ", CNum(u), CNum(v));
    SolutionOfSum(env, spell, CBin(Minus, CNum(u), CNum(v)), CNum(w));
    BinarySentence(env, spell, Division, " / ", CNum(u), CNum(v));
    SolutionOfProduct(env, spell, CBin(Division, CNum(u), CNum(v)), CNum(w));
    BinarySentence(env, spell, Power, " ^ ", CNum(u), CNum(v));
    SolutionOfPower(env, spell, CBin(Power, CNum(u), CNum(v)), CNum(w));
  }

  /** Of two operators the stronger one goes first, on either side. */
  lemma Mixed<V(!new)>(env: Env<V>, spell: V -> string, u: V, v: V, w: V)
    requires Spelled(env, spell, u) && Spelled(env, spell, v) && Spelled(env, spell, w)
    ensures Solution(env, spell(u) + " - " + (spell(v) + " * " + spell(w))) == env.arith.sub(u, env.arith.mul(v, w))
    ensures Solution(env, spell(u) + " * " + spell(v) + " - " + spell(w)) == env.arith.sub(env.arith.mul(u, v), w)
    ensures Solution(env, spell(u) + " / " + (spell(v) + " ^ " + spell(w))) == env.arith.div(u, env.arith.pow(v, w))
    ensures Solution(env, spell(u) + " ^ " + spell(v) + " / " + spell(w)) == env.arith.div(env.arith.pow(u, v), w)
  {
    hide Solution, Written, Sentence, Spelled;
    NumberSentence(env, spell, u);
    NumberSentence(env, spell, v);
    NumberSentence(env, spell, w);
    TwoNumbers(env, spell, u, v);
    TwoNumbers(env, spell, v, w);
    BinarySentence(env, spell, Multiply, " * ", CNum(v), CNum(w));
    SolutionOfSum(env, spell, CNum(u), CBin(Multiply, CNum(v), CNum(w)));
    ProductFirst(env, spell, u, v, w);
    BinarySentence(env, spell, Power, " ^ ", CNum(v), CNum(w));
    SolutionOfProduct(env, spell, CNum(u), CBin(Power, CNum(v), CNum(w)));
    PowerFirst(env, spell, u, v, w);
  }

  lemma ProductFirst<V(!new)>(env: Env<V>, spell: V -> string, u: V, v: V, w: V)
    requires Spelled(env, spell, u) && Spelled(env, spell, v) && Spelled(env, spell, w)
    ensures Solution(env, spell(u) + " * " + spell(v) + " - " + spell(w)) == env.arith.sub(env.arith.mul(u, v), w)
  {
    hide Solution, Written, Sentence, Spelled;
    NumberSentence(env, spell, u);
    NumberSentence(env, spell, v);
    NumberSentence(env, spell, w);
    TwoNumbers(env, spell, u, v);
    BinarySentence(env, spell, Multiply, " * ", CNum(u), CNum(v));
    Weaker(env, spell, CBin(Multiply, CNum(u), CNum(v)), 1, 0);
    SolutionOfSum(env, spell, CBin(Multiply, CNum(u), CNum(v)), CNum(w));
  }

  lemma PowerFirst<V(!new)>(env: Env<V>, spell: V -> string, u: V, v: V, w: V)
    requires Spelled(env, spell, u) && Spelled(env, spell, v) && Spelled(env, spell, w)
    ensures Solution(env, spell(u) + " ^ " + spell(v) + " / " + spell(w)) == env.arith.div(env.arith.pow(u, v), w)
  {
    hide Solution, Written, Sentence, Spelled;
    NumberSentence(env, spell, u);
    NumberSentence(env, spell, v);
    NumberSentence(env, spell, w);
    TwoNumbers(env, spell, u, v);
    BinarySentence(env, spell, Power, " ^ ", CNum(u), CNum(v));
    Weaker(env, spell, CBin(Power, CNum(u), CNum(v)), 2, 1);
    SolutionOfProduct(env, spell, CBin(Power, CNum(u), CNum(v)), CNum(w));
  }

  lemma Weaker<V(!new)>(env: Env<V>, spell: V -> string, c: Cst<V>, level: nat, lower: nat)
    requires Sentence(env, spell, c, level) && lower <= level
    ensures Sentence(env, spell, c, lower)
  {
    hide LeavesSpelled;
    FitsLower(c, level, lower);
  }

  /** A sign applies before a power, parentheses before everything. */
  lemma SignsAndParentheses<V(!new)>(env: Env<V>, spell: V -> string, u: V, v: V, w: V)
    requires Spelled(env, spell, u) && Spelled(env, spell, v) && Spelled(env, spell, w)
    ensures Solution(env, "- " + spell(u) + " ^ " + spell(v)) == env.arith.pow(env.arith.neg(u), v)
    ensures Solution(env, spell(u) + " * " + ("( " + (spell(v) + " + " + spell(w)) + " )")) ==
            env.arith.mul(u, env.arith.add(v, w))
  {
    hide Solution, Written, Sentence, Spelled;
    NumberSentence(env, spell, u);
    NumberSentence(env, spell, v);
    NumberSentence(env, spell, w);
    SolutionOfSigns(env, spell, CNum(u));
    WrittenSigns(spell, CNum(u));
    SignedSentence(env, spell, CNum(u));
    SolutionOfPower(env, spell, CNeg(CNum(u)), CNum(v));
    TwoNumbers(env, spell, v, w);
    BinarySentence(env, spell, Plus, " + ", CNum(v), CNum(w));
    var sum := CBin(Plus, CNum(v), CNum(w));
    WrittenParentheses(spell, sum);
    SignedSentence(env, spell, sum);
    SolutionOfParentheses(env, spell, sum);
    SolutionOfProduct(env, spell, CNum(u), CParen(sum));
  }

  lemma SignedSentence<V(!new)>(env: Env<V>, spell: V -> string, c: Cst<V>)
    ensures Sentence(env, spell, c, 3) ==> Sentence(env, spell, CNeg(c), 2)
    ensures Sentence(env, spell, c, 0) ==> Sentence(env, spell, CParen(c), 2)
  {
  }

  // ----- what a text may hold besides -----

  lemma {:induction false} DottedAt(s: string, i: nat)
    requires i < |s|
    ensures |Dotted(s)| == |s| && Dotted(s)[i] == if s[i] == ',' then '.' else s[i]
  {
    if |s| > 1 {
      DottedAt(s[1..], if i > 0 then i - 1 else 0);
    }
  }

  /** A comma and a point mean the same everywhere in a formula. */
  lemma CommaIsPoint<V>(env: Env<V>, f: string, g: string)
    requires |f| == |g|
    requires forall i :: 0 <= i < |f| ==> f[i] == g[i] || (f[i] in {'.', ','} && g[i] in {'.', ','})
    ensures Solution(env, f) == Solution(env, g)
  {
    hide Scan, Parse, Dotted;
    if f != "" {
      DottedAt(f, 0);
      DottedAt(g, 0);
      forall i | 0 <= i < |f| ensures Dotted(f)[i] == Dotted(g)[i] {
        DottedAt(f, i);
        DottedAt(g, i);
      }
      assert Dotted(f) == Dotted(g);
    }
  }

  /** A character that starts no token is skipped. */
  lemma UnknownSkipped<V>(env: Env<V>, c: char, f: string)
    requires c !in "+-*/%^()xX.,0123456789"
    ensures Solution(env, [c] + f) == Solution(env, f)
  {
    hide Parse;
    var s := [c] + f;
    assert s[1..] == f;
    var d := Dotted(s);
    assert d == [c] + Dotted(f);
    assert d[1..] == Dotted(f);
    NotKnown(c);
    assert Scan(env, d) == Scan(env, Dotted(f));
    if f == "" {
      assert Scan(env, d) == State(None, "");
      NothingToParse(env, Scan(env, d));
    }
  }

  lemma NotKnown(c: char)
    requires c !in "+-*/%^()xX.,0123456789"
    ensures !StartsNumber(c) && c != 'x' && c != 'X' && forall s: string :: s != "" && s[0] == c ==> OperatorAt(s).None?
  {
    var known := "+-*/%^()xX.,0123456789";
    forall i | 0 <= i < |known| ensures c != known[i] {
    }
    assert known[12] == '0' && known[13] == '1' && known[14] == '2' && known[15] == '3' && known[16] == '4';
    assert known[17] == '5' && known[18] == '6' && known[19] == '7' && known[20] == '8' && known[21] == '9';
    assert known[0] == '+' && known[1] == '-' && known[2] == '*' && known[3] == '/' && known[4] == '%';
    assert known[5] == '^' && known[6] == '(' && known[7] == ')' && known[8] == 'x' && known[9] == 'X';
  }

  lemma NothingToParse<V>(env: Env<V>, st: State<V>)
    requires st.token.None?
    ensures Parse(env, st, 0) == Parsed(Missing, st)
  {
  }

  /** A leading `++` or `--` answers for the whole text. */
  lemma StepsTheVariable<V>(env: Env<V>, f: string)
    ensures Solution(env, "++" + f) == env.arith.inc(env.x)
    ensures Solution(env, "--" + f) == env.arith.dec(env.x)
  {
    hide Parse, Dotted;
    DottedAt("++" + f, 0);
    DottedAt("++" + f, 1);
    DottedAt("--" + f, 0);
    DottedAt("--" + f, 1);
  }

  lemma VariableSpelled<V(!new)>(env: Env<V>)
    ensures Solution(env, "x") == env.x && Solution(env, "X") == env.x
  {
    hide Solution;
    SolutionOfNumber(env, _ => "x", env.x);
    SolutionOfNumber(env, _ => "X", env.x);
  }
}
