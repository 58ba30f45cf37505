/** The rule settings of src/common/collection.c, written to a buffer and read back. */
module CollectionRules {
  import opened Common
  import opened RuleText

  class Conf {
    var num: int
    var rules: map<int, Rule>

    constructor (num: int, rules: map<int, Rule>)
      ensures this.num == num && this.rules == rules
    {
      this.num, this.rules := num, rules;
    }

    function View(): Settings
      reads this
    {
      Settings(num, rules)
    }

    function Get(k: nat): Rule
      reads this
    {
      if k in rules then rules[k] else Rule(0, 0, "")
    }

    /** `dt_collection_serialize`, into a buffer that is large enough. */
    method Serialize(buf: array<char>) returns (ret: int)
      requires |Serialized(num, InForce(View()))| < buf.Length
      modifies buf
      ensures ret == 0
      ensures var text := Serialized(num, InForce(View())); buf[..|text| + 1] == text + ['\0']
    {
      hide Printed, RuleLine, Done, Lines;
      ghost var rs := InForce(View());
      ghost var text := Serialized(num, rs);
      DoneStart(num, rs);
      var at := Put(buf, 0, Printed(num) + ":");
      var k := 0;
      while k < num
        invariant rs == InForce(View()) && 0 <= k <= |rs| && 0 <= at < buf.Length && buf[at] == '\0'
        invariant Done(buf[..at], rs, k, text)
      {
        var r := Get(k);
        DoneStep(buf[..at], rs, k, text);
        at := PutRule(buf, at, r);
        k := k + 1;
      }
      DoneEnd(buf[..at], rs, text);
      assert buf[..at + 1] == buf[..at] + [buf[at]];
      return 0;
    }

    /** `dt_collection_deserialize`, before it runs the new query. */
    method Deserialize(buf: string)
      modifies this
      ensures View() == Deserialized(buf, old(rules))
    {
      hide Scanned, ScannedRule;
      var n := if Scanned(buf).Some? then Scanned(buf).value.0 else 0;
      if n == 0 {
        num := 1;
        rules := rules[0 := DEFAULT];
        return;
      }
      num := n;
      var p := Skip(buf, 0, ':');
      assert buf[0..] == buf;
      var k := 0;
      while k < n
        invariant 0 <= p <= |buf| && num == n && (k == 0 || k <= n)
        invariant ReadFrom(buf[p..], k, n, rules) == Deserialized(buf, old(rules))
      {
        match ScannedRule(buf[p..]) {
          case Some(r) =>
            rules := rules[k := r];
          case None =>
            if n == 1 {
              rules := rules[k := DEFAULT];
            } else {
              num := k;
            }
            return;
        }
        p := Skip(buf, p, '$');
        k := k + 1;
      }
    }
  }

  /** The prefix of the text up to rule `k`. */
  ghost predicate Done(prefix: string, rs: seq<Rule>, k: nat, text: string) {
    k <= |rs| && prefix + Lines(rs[k..]) == text
  }

  lemma DoneStart(num: int, rs: seq<Rule>)
    ensures Done([] + (Printed(num) + ":"), rs, 0, Serialized(num, rs))
    ensures |Printed(num) + ":"| <= |Serialized(num, rs)|
  {
    hide Printed, Lines;
    assert rs[0..] == rs;
    assert [] + (Printed(num) + ":") + Lines(rs) == Serialized(num, rs);
  }

  lemma DoneStep(prefix: string, rs: seq<Rule>, k: nat, text: string)
    requires Done(prefix, rs, k, text) && k < |rs|
    ensures |prefix| + |RuleLine(rs[k])| <= |text| && Done(prefix + RuleLine(rs[k]), rs, k + 1, text)
  {
    hide RuleLine;
    LinesStep(rs[k..]);
    assert rs[k..][0] == rs[k] && rs[k..][1..] == rs[k + 1..];
    var line, rest := RuleLine(rs[k]), Lines(rs[k + 1..]);
    assert prefix + (line + rest) == prefix + line + rest;
  }

  lemma DoneEnd(prefix: string, rs: seq<Rule>, text: string)
    requires Done(prefix, rs, |rs|, text)
    ensures prefix == text
  {
    assert rs[|rs|..] == [];
  }

  /** `snprintf` of `s` at an offset of a large enough buffer; the new offset. */
  method Put(buf: array<char>, at: nat, s: string) returns (end: nat)
    requires at + |s| < buf.Length
    modifies buf
    ensures end == at + |s| && buf[..end] == old(buf[..at]) + s && buf[end] == '\0'
  {
    end := at;
    while end < at + |s|
      invariant at <= end <= at + |s| && buf[..at] == old(buf[..at]) && buf[at..end] == s[..end - at]
    {
      buf[end] := s[end - at];
      end := end + 1;
    }
    buf[end] := '\0';
    assert buf[..end] == buf[..at] + buf[at..end];
  }

  method PutRule(buf: array<char>, at: nat, r: Rule) returns (end: nat)
    requires at + |RuleLine(r)| < buf.Length
    modifies buf
    ensures end == at + |RuleLine(r)| && buf[..end] == old(buf[..at]) + RuleLine(r) && buf[end] == '\0'
  {
    hide Printed;
    end := Put(buf, at, Printed(r.mode) + ":");
    end := Put(buf, end, Printed(r.item) + ":");
    if r.text != "" {
      end := Put(buf, end, r.text + "$");
    } else {
      end := Put(buf, end, "%$");
    }
  }

  /** Move past the next `c`, or to the end. */
  method Skip(buf: string, from: nat, c: char) returns (p: nat)
    requires from <= |buf|
    ensures p <= |buf| && buf[p..] == After(buf[from..], c)
  {
    p := from;
    while p < |buf| && buf[p] != c
      invariant p <= |buf| && After(buf[p..], c) == After(buf[from..], c)
    {
      p := p + 1;
    }
    if p < |buf| && buf[p] == c {
      p := p + 1;
    }
  }
}
