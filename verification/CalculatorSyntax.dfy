/** The language of src/common/calculator.c: its scanner and its grammar, as a parser from
    scanner states to syntax trees. What the source cannot parse is a `Missing` node. */
module CalculatorSyntax {
  import opened Common

  datatype Op = Plus | Inc | Minus | Dec | Multiply | Division | Modulo | Power | LeftRound | RightRound

  datatype Token<V> = Number(value: V) | Operator(op: Op)

  /** The float operations the source calls, on a type with a not-a-number value. */
  datatype Arith<!V> = Arith(nan: V, inc: V -> V, dec: V -> V, neg: V -> V, add: (V, V) -> V, sub: (V, V) -> V,
                             mul: (V, V) -> V, div: (V, V) -> V, mod: (V, V) -> V, pow: (V, V) -> V)

  /** `strtod`: the number at the start of a text and how many characters it takes, which
      may be none. `x`: the value of the variable. */
  datatype Env<!V> = Env(arith: Arith<V>, strtod: string -> (V, nat), x: V)

  function Taken<V>(env: Env<V>, s: string): (n: nat)
    ensures n <= |s|
  {
    if env.strtod(s).1 <= |s| then env.strtod(s).1 else |s|
  }

  // ----- the scanner -----

  /** The current token and the text after it. */
  datatype State<V> = State(token: Option<Token<V>>, rest: string)

  predicate StartsNumber(c: char) {
    '0' <= c <= '9' || c == '.' || c == ','
  }

  /** The operator a text starts with, and its length; blanks and unknown characters are
      skipped by the caller. */
  function OperatorAt(s: string): Option<(Op, nat)>
    requires s != ""
  {
    match s[0]
    case '+' => if |s| > 1 && s[1] == '+' then Some((Inc, 2)) else Some((Plus, 1))
    case '-' => if |s| > 1 && s[1] == '-' then Some((Dec, 2)) else Some((Minus, 1))
    case '*' => Some((Multiply, 1))
    case '/' => Some((Division, 1))
    case '%' => Some((Modulo, 1))
    case '^' => Some((Power, 1))
    case '(' => Some((LeftRound, 1))
    case ')' => Some((RightRound, 1))
    case _ => None
  }

  lemma OperatorFits(s: string)
    requires s != "" && OperatorAt(s).Some?
    ensures 1 <= OperatorAt(s).value.1 <= |s|
  {
  }

  /** `get_token`: the next token of a text. */
  function Scan<V>(env: Env<V>, s: string): (st: State<V>)
    ensures |st.rest| <= |s|
    ensures st.token.Some? && st.token.value.Operator? ==> |st.rest| < |s|
    ensures st.token.None? ==> st.rest == ""
    decreases |s|
  {
    if s == "" then State(None, "")
    else if OperatorAt(s).Some? then
      OperatorFits(s);
      State(Some(Operator(OperatorAt(s).value.0)), s[OperatorAt(s).value.1..])
    else if s[0] == 'x' || s[0] == 'X' then State(Some(Number(env.x)), s[1..])
    else if StartsNumber(s[0]) then State(Some(Number(env.strtod(s).0)), s[Taken(env, s)..])
    else Scan(env, s[1..])
  }

  function Advance<V>(env: Env<V>, st: State<V>): State<V> {
    Scan(env, st.rest)
  }

  predicate IsOp<V>(st: State<V>, op: Op) {
    st.token.Some? && st.token.value.Operator? && st.token.value.op == op
  }

  /** What bounds the work left: consuming an operator lowers it, consuming a number
      never raises it, even where the number takes no characters. */
  function Measure<V>(st: State<V>): nat {
    2 * |st.rest| + if st.token.Some? && st.token.value.Operator? then 1 else 0
  }

  lemma AdvanceLowersMeasure<V>(env: Env<V>, st: State<V>)
    ensures Measure(Advance(env, st)) <= Measure(st)
    ensures st.token.Some? && st.token.value.Operator? ==> Measure(Advance(env, st)) < Measure(st)
  {
  }

  // ----- the parser -----

  datatype Tree<V> = Missing | Leaf(value: V) | Negate(e: Tree<V>) | Affirm(e: Tree<V>)
                   | Binary(op: Op, l: Tree<V>, r: Tree<V>)

  /** The binding strength of a binary operator; `Unbound` for the others. */
  function Strength(op: Op): nat {
    match op
    case Plus => 0
    case Minus => 0
    case Multiply => 1
    case Division => 1
    case Modulo => 1
    case Power => 2
    case _ => 3
  }

  /** The current token is a binary operator of this strength. */
  predicate Continues<V>(st: State<V>, level: nat) {
    st.token.Some? && st.token.value.Operator? && Strength(st.token.value.op) == level && level < 3
  }

  datatype Parsed<V> = Parsed(tree: Tree<V>, st: State<V>)

  /** The three levels of binary expressions (additive, multiplicative, power), all left
      associative, then the unary level. */
  function Parse<V>(env: Env<V>, st: State<V>, level: nat): (r: Parsed<V>)
    requires level <= 3
    ensures Measure(r.st) <= Measure(st)
    decreases Measure(st), 2 * (3 - level) + 2
  {
    if st.token.None? then Parsed(Missing, st)
    else if level == 3 then ParseUnary(env, st)
    else
      var left := Parse(env, st, level + 1);
      ParseRest(env, left.tree, left.st, level)
  }

  /** The loop of a binary level: more operators of this strength. */
  function ParseRest<V>(env: Env<V>, left: Tree<V>, st: State<V>, level: nat): (r: Parsed<V>)
    requires level < 3
    ensures Measure(r.st) <= Measure(st)
    decreases Measure(st), 2 * (3 - level) + 1
  {
    if Continues(st, level) then
      AdvanceLowersMeasure(env, st);
      var right := Parse(env, Advance(env, st), level + 1);
      ParseRest(env, Binary(st.token.value.op, left, right.tree), right.st, level)
    else Parsed(left, st)
  }

  function ParseUnary<V>(env: Env<V>, st: State<V>): (r: Parsed<V>)
    requires st.token.Some?
    ensures Measure(r.st) <= Measure(st)
    decreases Measure(st), 1
  {
    AdvanceLowersMeasure(env, st);
    if IsOp(st, Minus) then
      var r := Parse(env, Advance(env, st), 3);
      Parsed(Negate(r.tree), r.st)
    else if IsOp(st, Plus) then
      var r := Parse(env, Advance(env, st), 3);
      Parsed(Affirm(r.tree), r.st)
    else ParsePrimary(env, st)
  }

  function ParsePrimary<V>(env: Env<V>, st: State<V>): (r: Parsed<V>)
    requires st.token.Some?
    ensures Measure(r.st) <= Measure(st)
    decreases Measure(st), 0
  {
    AdvanceLowersMeasure(env, st);
    if st.token.value.Number? then Parsed(Leaf(st.token.value.value), Advance(env, st))
    else if st.token.value.op == LeftRound then
      var r := Parse(env, Advance(env, st), 0);
      if IsOp(r.st, RightRound) then
        AdvanceLowersMeasure(env, r.st);
        Parsed(r.tree, Advance(env, r.st))
      else Parsed(Missing, r.st)
    else Parsed(Missing, st)
  }

  // ----- evaluation -----

  function Apply<V>(a: Arith<V>, op: Op, l: V, r: V): V {
    match op
    case Plus => a.add(l, r)
    case Minus => a.sub(l, r)
    case Multiply => a.mul(l, r)
    case Division => a.div(l, r)
    case Modulo => a.mod(l, r)
    case Power => a.pow(l, r)
    case _ => l
  }

  function Eval<V>(a: Arith<V>, t: Tree<V>): V {
    match t
    case Missing => a.nan
    case Leaf(v) => v
    case Negate(e) => a.neg(Eval(a, e))
    case Affirm(e) => Eval(a, e)
    case Binary(op, l, r) => Apply(a, op, Eval(a, l), Eval(a, r))
  }

  /** `g_strdelimit`: a comma is read as a decimal point. */
  function Dotted(s: string): string {
    if s == "" then "" else [if s[0] == ',' then '.' else s[0]] + Dotted(s[1..])
  }

  /** What `dt_calculator_solve` answers. */
  function Solution<V>(env: Env<V>, formula: string): V {
    if formula == "" then env.arith.nan
    else
      var st := Scan(env, Dotted(formula));
      if IsOp(st, Inc) then env.arith.inc(env.x)
      else if IsOp(st, Dec) then env.arith.dec(env.x)
      else
        var r := Parse(env, st, 0);
        if r.st.token.Some? then env.arith.nan else Eval(env.arith, r.tree)
  }
}
