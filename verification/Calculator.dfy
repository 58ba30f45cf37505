/** The calculator itself: a scanner position and a current token that the recursive descent
    moves forward while it computes values. It refines parsing to a tree and evaluating. */
module Calculator {
  import opened Common
  import opened CalculatorSyntax
  import opened CalculatorGrammar

  /** `v` is the value of the tree parsed from `st0` at this level, and `st` is where that
      parse ends. */
  ghost predicate Gives<V>(env: Env<V>, st0: State<V>, level: nat, v: V, st: State<V>)
    requires level <= 3
  {
    v == Eval(env.arith, Parse(env, st0, level).tree) && st == Parse(env, st0, level).st
  }

  /** In the loop of a binary level: `left` is the value of what was parsed so far. */
  ghost predicate Turning<V>(env: Env<V>, st0: State<V>, level: nat, tree: Tree<V>, left: V, st: State<V>)
    requires level < 3
  {
    && left == Eval(env.arith, tree) && Measure(st) <= Measure(st0)
    && Parse(env, st0, level) == ParseRest(env, tree, st, level)
  }

  lemma TurningStarts<V>(env: Env<V>, st0: State<V>, level: nat, left: V, st: State<V>)
    requires level < 3 && st0.token.Some? && Gives(env, st0, level + 1, left, st)
    ensures Turning(env, st0, level, Parse(env, st0, level + 1).tree, left, st) && Measure(st) <= Measure(st0)
  {
    ParseUnfolds(env, st0, level);
  }

  lemma NothingGives<V>(env: Env<V>, st: State<V>, level: nat)
    requires level <= 3 && st.token.None?
    ensures Gives(env, st, level, env.arith.nan, st)
  {
  }

  /** One turn: an operator of the level and its right operand. */
  lemma Turns<V>(env: Env<V>, st0: State<V>, level: nat, tree: Tree<V>, left: V, st: State<V>, right: V, st': State<V>)
    requires level < 3 && Turning(env, st0, level, tree, left, st) && Continues(st, level)
    requires Gives(env, Advance(env, st), level + 1, right, st')
    ensures var op := st.token.value.op;
            Turning(env, st0, level, Binary(op, tree, Parse(env, Advance(env, st), level + 1).tree),
                    Apply(env.arith, op, left, right), st')
    ensures Measure(st') < Measure(st)
  {
    hide Parse, ParseRest, Advance;
    RestUnfolds(env, tree, st, level);
    AdvanceLowersMeasure(env, st);
    ParseMeasure(env, Advance(env, st), level + 1);
  }

  lemma ParseMeasure<V>(env: Env<V>, st: State<V>, level: nat)
    requires level <= 3
    ensures Measure(Parse(env, st, level).st) <= Measure(st)
  {
  }

  lemma TurningEnds<V>(env: Env<V>, st0: State<V>, level: nat, tree: Tree<V>, left: V, st: State<V>)
    requires level < 3 && Turning(env, st0, level, tree, left, st) && !Continues(st, level)
    ensures Gives(env, st0, level, left, st)
  {
    RestUnfolds(env, tree, st, level);
  }

  class Parser<V(!new)> {
    const env: Env<V>
    const text: string
    var p: nat
    var token: Option<Token<V>>

    ghost predicate Valid()
      reads this
    {
      p <= |text|
    }

    ghost function St(): State<V>
      requires Valid()
      reads this
    {
      State(token, text[p..])
    }

    constructor (env: Env<V>, text: string)
      ensures Valid() && this.env == env && this.text == text && p == 0
    {
      this.env, this.text, p, token := env, text, 0, None;
    }

    /** Skip blanks and unknown characters and read one token. */
    method GetToken()
      requires Valid()
      modifies this
      ensures Valid() && St() == Advance(env, old(St()))
    {
      ghost var s0 := text[p..];
      while p < |text|
        invariant Valid() && Scan(env, text[p..]) == Scan(env, s0)
        decreases |text| - p
      {
        ghost var s := text[p..];
        var c := text[p];
        var found := OperatorAt(text[p..]);
        if found.Some? {
          OperatorFits(s);
          p := p + found.value.1;
          token := Some(Operator(found.value.0));
          return;
        }
        if c == 'x' || c == 'X' {
          p := p + 1;
          token := Some(Number(env.x));
          return;
        }
        if StartsNumber(c) {
          var v, n := env.strtod(text[p..]).0, Taken(env, text[p..]);
          p := p + n;
          assert text[p..] == s[n..];
          token := Some(Number(v));
          return;
        }
        p := p + 1;
        assert text[p..] == s[1..];
      }
      token := None;
    }

    method ParseAdditive() returns (left: V)
      requires Valid()
      modifies this
      ensures Valid() && Gives(env, old(St()), 0, left, St())
      decreases Measure(St()), 8
    {
      hide Parse, ParseRest, Scan, Eval, Gives, Turning, Measure, Advance;
      ghost var st0 := St();
      if token.None? {
        NothingGives(env, st0, 0);
        return env.arith.nan;
      }
      ghost var tree := Parse(env, st0, 1).tree;
      left := ParseMultiplicative();
      TurningStarts(env, st0, 0, left, St());
      while token.Some? && token.value.Operator?
        invariant Valid() && Turning(env, st0, 0, tree, left, St()) && Measure(St()) <= Measure(st0)
        decreases Measure(St())
      {
        ghost var st := St();
        AdvanceLowersMeasure(env, st);
        var op := token.value.op;
        if op != Plus && op != Minus {
          TurningEnds(env, st0, 0, tree, left, st);
          return;
        }
        GetToken();
        ghost var before := left;
        var right := ParseMultiplicative();
        if op == Plus {
          left := env.arith.add(left, right);
        } else if op == Minus {
          left := env.arith.sub(left, right);
        }
        Turns(env, st0, 0, tree, before, st, right, St());
        tree := Binary(st.token.value.op, tree, Parse(env, Advance(env, st), 1).tree);
      }
      TurningEnds(env, st0, 0, tree, left, St());
    }

    method ParseMultiplicative() returns (left: V)
      requires Valid()
      modifies this
      ensures Valid() && Gives(env, old(St()), 1, left, St())
      decreases Measure(St()), 6
    {
      hide Parse, ParseRest, Scan, Eval, Gives, Turning, Measure, Advance;
      ghost var st0 := St();
      if token.None? {
        NothingGives(env, st0, 1);
        return env.arith.nan;
      }
      ghost var tree := Parse(env, st0, 2).tree;
      left := ParsePower();
      TurningStarts(env, st0, 1, left, St());
      while token.Some? && token.value.Operator?
        invariant Valid() && Turning(env, st0, 1, tree, left, St()) && Measure(St()) <= Measure(st0)
        decreases Measure(St())
      {
        ghost var st := St();
        AdvanceLowersMeasure(env, st);
        var op := token.value.op;
        if op != Multiply && op != Division && op != Modulo {
          TurningEnds(env, st0, 1, tree, left, st);
          return;
        }
        GetToken();
        ghost var before := left;
        var right := ParsePower();
        if op == Multiply {
          left := env.arith.mul(left, right);
        } else if op == Division {
          left := env.arith.div(left, right);
        } else if op == Modulo {
          left := env.arith.mod(left, right);
        }
        Turns(env, st0, 1, tree, before, st, right, St());
        tree := Binary(st.token.value.op, tree, Parse(env, Advance(env, st), 2).tree);
      }
      TurningEnds(env, st0, 1, tree, left, St());
    }

    method ParsePower() returns (left: V)
      requires Valid()
      modifies this
      ensures Valid() && Gives(env, old(St()), 2, left, St())
      decreases Measure(St()), 4
    {
      hide Parse, ParseRest, Scan, Eval, Gives, Turning, Measure, Advance;
      ghost var st0 := St();
      if token.None? {
        NothingGives(env, st0, 2);
        return env.arith.nan;
      }
      ghost var tree := Parse(env, st0, 3).tree;
      left := ParseUnaryExpression();
      TurningStarts(env, st0, 2, left, St());
      while token.Some? && token.value.Operator?
        invariant Valid() && Turning(env, st0, 2, tree, left, St()) && Measure(St()) <= Measure(st0)
        decreases Measure(St())
      {
        ghost var st := St();
        AdvanceLowersMeasure(env, st);
        if token.value.op != Power {
          TurningEnds(env, st0, 2, tree, left, st);
          return;
        }
        GetToken();
        ghost var before := left;
        var right := ParseUnaryExpression();
        left := env.arith.pow(left, right);
        Turns(env, st0, 2, tree, before, st, right, St());
        tree := Binary(st.token.value.op, tree, Parse(env, Advance(env, st), 3).tree);
      }
      TurningEnds(env, st0, 2, tree, left, St());
    }

    method ParseUnaryExpression() returns (v: V)
      requires Valid()
      modifies this
      ensures Valid() && Gives(env, old(St()), 3, v, St())
      decreases Measure(St()), 2
    {
      if token.None? {
        return env.arith.nan;
      }
      hide Parse, ParseRest, Scan;
      UnaryUnfolds(env, St());
      AdvanceLowersMeasure(env, St());
      if token.value.Operator? {
        if token.value.op == Minus {
          GetToken();
          var e := ParseUnaryExpression();
          return env.arith.neg(e);
        }
        if token.value.op == Plus {
          GetToken();
          v := ParseUnaryExpression();
          return;
        }
      }
      v := ParsePrimaryExpression();
    }

    method ParsePrimaryExpression() returns (v: V)
      requires Valid() && token.Some?
      requires !IsOp(St(), Minus) && !IsOp(St(), Plus)
      modifies this
      ensures Valid() && Gives(env, old(St()), 3, v, St())
      decreases Measure(St()), 1
    {
      hide Parse, ParseRest, Scan;
      UnaryUnfolds(env, St());
      AdvanceLowersMeasure(env, St());
      if token.value.Number? {
        v := token.value.value;
        GetToken();
        return;
      }
      if token.value.op == LeftRound {
        GetToken();
        v := ParseAdditive();
        if token.None? || token.value.Number? || token.value.op != RightRound {
          return env.arith.nan;
        }
        GetToken();
        return;
      }
      v := env.arith.nan;
    }
  }

  method DotCommas(s: string) returns (t: string)
    ensures t == Dotted(s)
  {
    t := "";
    var i := 0;
    while i < |s|
      invariant i <= |s| && t + Dotted(s[i..]) == Dotted(s)
    {
      ghost var t0, rest := t, Dotted(s[i + 1..]);
      assert s[i..][1..] == s[i + 1..];
      t := t + [if s[i] == ',' then '.' else s[i]];
      assert t + rest == t0 + Dotted(s[i..]);
      i := i + 1;
    }
  }

  /** Solve a formula in `x`; a null formula is None. */
  method Solve<V(!new)>(env: Env<V>, formula: Option<string>) returns (result: V)
    ensures result == if formula.None? then env.arith.nan else Solution(env, formula.value)
  {
    if formula.None? || formula.value == "" {
      return env.arith.nan;
    }
    hide Parse, Scan;
    var dotted := DotCommas(formula.value);
    var self := new Parser(env, dotted);
    assert dotted[0..] == dotted;
    self.GetToken();
    if self.token.Some? && self.token.value.Operator? {
      if self.token.value.op == Inc {
        return env.arith.inc(env.x);
      }
      if self.token.value.op == Dec {
        return env.arith.dec(env.x);
      }
    }
    result := self.ParseAdditive();
    if self.token.Some? {
      result := env.arith.nan;
    }
  }
}
