/** The text form of the collection rules: what serializing writes and what reading it back
    restores. */
module RuleText {
  import opened Common

  datatype Rule = Rule(mode: int, item: int, text: string)

  /** The longest rule text the reader takes. */
  const TEXT_MAX := 399

  // ----- decimal numbers, as printf writes and scanf reads them -----

  function Decimal(n: nat): (s: string)
    ensures |s| > 0 && forall i :: 0 <= i < |s| ==> IsDigit(s[i])
  {
    if n < 10 then [Digit(n)] else Decimal(n / 10) + [Digit(n % 10)]
  }

  /** `%d` in printf. */
  function Printed(n: int): string {
    if n < 0 then "-" + Decimal(-n) else Decimal(n)
  }

  /** The length of the digits a text starts with. */
  function DigitCount(s: string): (n: nat)
    ensures n <= |s| && forall i :: 0 <= i < n ==> IsDigit(s[i])
  {
    if s == "" || !IsDigit(s[0]) then 0 else 1 + DigitCount(s[1..])
  }

  function Value(s: string): nat
    requires forall i :: 0 <= i < |s| ==> IsDigit(s[i])
  {
    if s == "" then 0
    else
      assert IsDigit(s[|s| - 1]);
      10 * Value(s[..|s| - 1]) + (s[|s| - 1] as int - '0' as int)
  }

  predicate IsSpace(c: char) {
    c == ' ' || '\t' <= c <= '\r'
  }

  function SpaceCount(s: string): (n: nat)
    ensures n <= |s|
  {
    if s == "" || !IsSpace(s[0]) then 0 else 1 + SpaceCount(s[1..])
  }

  /** The digits a text starts with, as a number with the given sign. */
  function ScannedDigits(s: string, sign: int): Option<(int, string)> {
    var n := DigitCount(s);
    if n == 0 then None else Some((sign * Value(s[..n]), s[n..]))
  }

  /** `%d` in scanf: the number and the text after it; blanks before it are skipped. */
  function Scanned(s: string): Option<(int, string)> {
    var t := s[SpaceCount(s)..];
    if t != "" && t[0] == '-' then ScannedDigits(t[1..], -1)
    else if t != "" && t[0] == '+' then ScannedDigits(t[1..], 1)
    else ScannedDigits(t, 1)
  }

  lemma {:induction false} DigitCountOf(d: string, rest: string)
    requires forall i :: 0 <= i < |d| ==> IsDigit(d[i])
    requires rest == "" || !IsDigit(rest[0])
    ensures DigitCount(d + rest) == |d|
  {
    if d == "" {
      assert d + rest == rest;
    } else {
      assert (d + rest)[1..] == d[1..] + rest;
      DigitCountOf(d[1..], rest);
    }
  }

  lemma {:induction false} DecimalValue(n: nat)
    ensures Value(Decimal(n)) == n
  {
    if n >= 10 {
      DecimalValue(n / 10);
      assert Decimal(n)[..|Decimal(n)| - 1] == Decimal(n / 10);
    } else {
      assert Decimal(n)[..0] == "";
    }
  }

  lemma ScanDigits(n: nat, rest: string, sign: int)
    requires rest == "" || !IsDigit(rest[0])
    ensures ScannedDigits(Decimal(n) + rest, sign) == Some((sign * n, rest))
  {
    hide Decimal, Value;
    var d := Decimal(n);
    DigitCountOf(d, rest);
    DecimalValue(n);
    assert (d + rest)[..|d|] == d && (d + rest)[|d|..] == rest;
  }

  /** Reading a printed number gives it back, whatever follows that is no digit. */
  lemma ScanPrinted(n: int, rest: string)
    requires rest == "" || !IsDigit(rest[0])
    ensures Scanned(Printed(n) + rest) == Some((n, rest))
  {
    hide Decimal, ScannedDigits;
    var s := Printed(n) + rest;
    assert SpaceCount(s) == 0 && s[0..] == s by {
      assert IsDigit(s[0]) || s[0] == '-';
    }
    if n < 0 {
      assert s[1..] == Decimal(-n) + rest;
      ScanDigits(-n, rest, -1);
    } else {
      assert IsDigit(s[0]);
      ScanDigits(n, rest, 1);
    }
  }

  // ----- writing -----

  /** An empty text is written as the wildcard. */
  function Shown(text: string): string {
    if text == "" then "%" else text
  }

  function RuleLine(r: Rule): string {
    Printed(r.mode) + ":" + Printed(r.item) + ":" + Shown(r.text) + "$"
  }

  function Lines(rs: seq<Rule>): string {
    if rs == [] then "" else RuleLine(rs[0]) + Lines(rs[1..])
  }

  function Serialized(num: int, rs: seq<Rule>): string {
    Printed(num) + ":" + Lines(rs)
  }

  // ----- reading -----

  /** The text after the first `c`; empty when there is none. */
  function After(s: string, c: char): (r: string)
    ensures |r| <= |s| && (s != "" ==> |r| < |s|)
  {
    if s == "" then "" else if s[0] == c then s[1..] else After(s[1..], c)
  }

  /** The length of the text before the first `$`. */
  function Run(s: string): (n: nat)
    ensures n <= |s|
  {
    if s == "" || s[0] == '$' then 0 else 1 + Run(s[1..])
  }

  /** `%399[^$]`: at least one character, at most 399, none of them `$`. */
  function ScannedText(s: string): Option<string> {
    if Run(s) == 0 then None else Some(s[..if Run(s) <= TEXT_MAX then Run(s) else TEXT_MAX])
  }

  /** A literal colon in a scanf format. */
  function Colon(s: string): Option<string> {
    if s != "" && s[0] == ':' then Some(s[1..]) else None
  }

  function ScannedField(s: string): Option<(int, string)> {
    match Scanned(s)
    case None => None
    case Some((n, rest)) =>
      match Colon(rest)
      case None => None
      case Some(t) => Some((n, t))
  }

  /** The whole format of a rule; None where scanf assigns fewer than three values. */
  function ScannedRule(s: string): Option<Rule> {
    match ScannedField(s)
    case None => None
    case Some((mode, t)) =>
      match ScannedField(t)
      case None => None
      case Some((item, u)) =>
        match ScannedText(u)
        case None => None
        case Some(text) => Some(Rule(mode, item, text))
  }

  const DEFAULT := Rule(0, 0, "%")

  /** The settings: the number of rules, and the rules by index. */
  datatype Settings = Settings(num: int, rules: map<int, Rule>)

  function ReadFrom(s: string, k: nat, num: int, rules: map<int, Rule>): Settings
    decreases num - k
  {
    if k >= num then Settings(num, rules)
    else
      match ScannedRule(s)
      case Some(r) => ReadFrom(After(s, '$'), k + 1, num, rules[k := r])
      case None => if num == 1 then Settings(num, rules[k := DEFAULT]) else Settings(k, rules)
  }

  function Deserialized(s: string, rules: map<int, Rule>): Settings {
    var num := if Scanned(s).Some? then Scanned(s).value.0 else 0;
    if num == 0 then Settings(1, rules[0 := DEFAULT]) else ReadFrom(After(s, ':'), 0, num, rules)
  }

  // ----- the round trip -----

  predicate Readable(text: string) {
    '$' !in text && |text| <= TEXT_MAX
  }

  function Stored(r: Rule): Rule {
    r.(text := Shown(r.text))
  }

  lemma {:induction false} RunOf(t: string, rest: string)
    requires '$' !in t
    ensures Run(t + "$" + rest) == |t|
    ensures After(t + "$" + rest, '$') == rest
  {
    var s := t + "$" + rest;
    if t == "" {
      assert s[1..] == rest;
    } else {
      assert s[1..] == t[1..] + "$" + rest;
      RunOf(t[1..], rest);
    }
  }

  lemma {:induction false} AfterSkips(t: string, rest: string, c: char)
    requires c !in t
    ensures After(t + rest, c) == After(rest, c)
  {
    if t == "" {
      assert t + rest == rest;
    } else {
      assert (t + rest)[1..] == t[1..] + rest;
      AfterSkips(t[1..], rest, c);
    }
  }

  lemma {:induction false} PrintedPlain(n: int, c: char)
    requires !IsDigit(c) && c != '-'
    ensures c !in Printed(n)
  {
    var d := Decimal(if n < 0 then -n else n);
    assert c !in d;
  }

  lemma ScanField(n: int, rest: string)
    ensures ScannedField(Printed(n) + ":" + rest) == Some((n, rest))
  {
    hide Printed, Scanned;
    ScanPrinted(n, ":" + rest);
    assert Printed(n) + ":" + rest == Printed(n) + (":" + rest);
    assert (":" + rest)[1..] == rest;
  }

  /** What is read at the start of a rule's line followed by anything. */
  lemma ScanLine(r: Rule, rest: string)
    ensures var u := Shown(r.text) + "$" + rest;
            ScannedRule(RuleLine(r) + rest) ==
            if Run(u) == 0 then None else Some(Rule(r.mode, r.item, ScannedText(u).value))
  {
    hide Printed, Scanned, Shown;
    var u := Shown(r.text) + "$" + rest;
    var t := Printed(r.item) + ":" + u;
    assert RuleLine(r) + rest == Printed(r.mode) + ":" + t;
    ScanField(r.mode, t);
    ScanField(r.item, u);
  }

  lemma AfterLine(r: Rule, rest: string)
    requires '$' !in r.text
    ensures After(RuleLine(r) + rest, '$') == rest
  {
    hide Printed;
    PrintedPlain(r.mode, '$');
    PrintedPlain(r.item, '$');
    var t := Printed(r.mode) + ":" + Printed(r.item) + ":" + Shown(r.text);
    assert RuleLine(r) + rest == t + "$" + rest;
    RunOf(t, rest);
  }

  lemma ReadLine(r: Rule, rest: string)
    requires Readable(r.text)
    ensures ScannedRule(RuleLine(r) + rest) == Some(Stored(r))
    ensures After(RuleLine(r) + rest, '$') == rest
  {
    hide RuleLine, ScannedRule;
    var t := Shown(r.text);
    ScanLine(r, rest);
    RunOf(t, rest);
    assert (t + "$" + rest)[..|t|] == t;
    AfterLine(r, rest);
  }

  /** The rules from `k` on are `rs`, each as stored; all others are as they were. */
  ghost predicate Overlaid(after: map<int, Rule>, before: map<int, Rule>, k: nat, rs: seq<Rule>) {
    forall j :: if k <= j < k + |rs| then j in after && after[j] == Stored(rs[j - k])
                else (j in after <==> j in before) && (j in before ==> after[j] == before[j])
  }

  lemma {:induction false} ReadLines(rs: seq<Rule>, k: nat, num: int, rules: map<int, Rule>)
    requires num == k + |rs| && forall i :: 0 <= i < |rs| ==> Readable(rs[i].text)
    ensures var st := ReadFrom(Lines(rs), k, num, rules); st.num == num && Overlaid(st.rules, rules, k, rs)
    decreases |rs|
  {
    hide RuleLine, ScannedRule, After, Readable, Stored, Overlaid;
    if rs == [] {
      assert Overlaid(rules, rules, k, rs) by {
        OverlaidNone(rules, k);
      }
    } else {
      var next := rules[k := Stored(rs[0])];
      ReadLine(rs[0], Lines(rs[1..]));
      ReadLines(rs[1..], k + 1, num, next);
      OverlaidStep(ReadFrom(Lines(rs[1..]), k + 1, num, next).rules, rules, k, rs);
    }
  }

  lemma OverlaidNone(rules: map<int, Rule>, k: nat)
    ensures Overlaid(rules, rules, k, [])
  {
  }

  lemma OverlaidStep(after: map<int, Rule>, before: map<int, Rule>, k: nat, rs: seq<Rule>)
    requires rs != [] && Overlaid(after, before[k := Stored(rs[0])], k + 1, rs[1..])
    ensures Overlaid(after, before, k, rs)
  {
    hide Stored;
  }

  lemma StartOf(num: int, rs: seq<Rule>)
    ensures Scanned(Serialized(num, rs)) == Some((num, ":" + Lines(rs)))
    ensures After(Serialized(num, rs), ':') == Lines(rs)
  {
    hide Printed, Scanned, Lines;
    var rest := ":" + Lines(rs);
    assert Serialized(num, rs) == Printed(num) + rest && rest[1..] == Lines(rs);
    ScanPrinted(num, rest);
    PrintedPlain(num, ':');
    AfterSkips(Printed(num), rest, ':');
  }

  /** Every mode, item and text is restored, an empty text as the wildcard. */
  lemma RoundTrip(rs: seq<Rule>, before: map<int, Rule>)
    requires |rs| >= 1 && forall i :: 0 <= i < |rs| ==> Readable(rs[i].text)
    ensures var st := Deserialized(Serialized(|rs|, rs), before);
            st.num == |rs| && Overlaid(st.rules, before, 0, rs)
  {
    hide Serialized, Scanned, After, ReadFrom, Readable, Lines;
    StartOf(|rs|, rs);
    ReadLines(rs, 0, |rs|, before);
  }

  lemma {:induction false} StoredLines(rs: seq<Rule>, ss: seq<Rule>)
    requires |ss| == |rs| && forall i :: 0 <= i < |rs| ==> ss[i] == Stored(rs[i])
    ensures Lines(ss) == Lines(rs)
  {
    if rs != [] {
      StoredLines(rs[1..], ss[1..]);
    }
  }

  /** The rules in force: those below the number of rules; a setting never made reads as
      zero or empty. */
  function InForce(st: Settings): seq<Rule> {
    seq(if st.num < 0 then 0 else st.num, (k: nat) => if k in st.rules then st.rules[k] else Rule(0, 0, ""))
  }

  /** Writing what was restored gives the same text. */
  lemma SameText(rs: seq<Rule>, before: map<int, Rule>)
    requires |rs| >= 1 && forall i :: 0 <= i < |rs| ==> Readable(rs[i].text)
    ensures var st := Deserialized(Serialized(|rs|, rs), before);
            Serialized(st.num, InForce(st)) == Serialized(|rs|, rs)
  {
    hide Deserialized, Readable, Lines, Printed, Stored;
    RoundTrip(rs, before);
    StoredLines(rs, InForce(Deserialized(Serialized(|rs|, rs), before)));
  }

  // ----- what is restored exactly -----

  predicate Exact(text: string) {
    text != "" && Readable(text)
  }

  predicate Restored(st: Settings, k: nat, num: int, rs: seq<Rule>) {
    st.num == num && forall j :: k <= j < k + |rs| ==> j in st.rules && st.rules[j] == rs[j - k]
  }

  lemma {:induction false} RunBefore(t: string, i: nat, rest: string)
    requires i < |t| && t[i] == '$'
    ensures Run(t + rest) <= i
  {
    if i > 0 && t[0] != '$' {
      assert (t + rest)[1..] == t[1..] + rest;
      RunBefore(t[1..], i - 1, rest);
    }
  }

  /** A text that is empty, holds a `$` or is too long is not read back as itself. */
  lemma InexactText(t: string, rest: string)
    requires !Exact(t)
    ensures var u := Shown(t) + "$" + rest;
            if Run(u) == 0 then t != "%" else ScannedText(u).value != t
  {
    hide Run;
    var u := Shown(t) + "$" + rest;
    if t == "" {
      RunOf("%", rest);
    } else if i :| 0 <= i < |t| && t[i] == '$' {
      RunBefore(t, i, "$" + rest);
      assert u == t + ("$" + rest);
    } else {
      RunOf(t, rest);
    }
  }

  lemma {:induction false} ReadKeeps(s: string, k: nat, num: int, rules: map<int, Rule>, j: int)
    requires j < k && j in rules
    ensures var st := ReadFrom(s, k, num, rules); j in st.rules && st.rules[j] == rules[j]
    decreases num - k
  {
    hide ScannedRule, After;
    if k < num && ScannedRule(s).Some? {
      ReadKeeps(After(s, '$'), k + 1, num, rules[k := ScannedRule(s).value], j);
    }
  }

  lemma InexactLine(rs: seq<Rule>, k: nat, num: int, rules: map<int, Rule>)
    requires rs != [] && num == k + |rs| && !Exact(rs[0].text)
    ensures !Restored(ReadFrom(Lines(rs), k, num, rules), k, num, rs)
  {
    hide RuleLine, ScannedRule, After, Exact, Run, Shown, ScannedText, Lines;
    var s, rest := Lines(rs), Lines(rs[1..]);
    assert s == RuleLine(rs[0]) + rest by {
      LinesStep(rs);
    }
    ScanLine(rs[0], rest);
    InexactText(rs[0].text, rest);
    var st := ReadFrom(s, k, num, rules);
    match ScannedRule(s) {
      case None =>
        assert num == 1 ==> k in st.rules && st.rules[k] == DEFAULT;
      case Some(r) =>
        ReadKeeps(After(s, '$'), k + 1, num, rules[k := r], k);
        assert st.rules[k].text != rs[0].text;
    }
  }

  lemma LinesStep(rs: seq<Rule>)
    requires rs != []
    ensures Lines(rs) == RuleLine(rs[0]) + Lines(rs[1..])
  {
  }

  lemma {:induction false} InexactLines(rs: seq<Rule>, k: nat, num: int, rules: map<int, Rule>, i: nat)
    requires num == k + |rs| && i < |rs| && !Exact(rs[i].text)
    ensures !Restored(ReadFrom(Lines(rs), k, num, rules), k, num, rs)
    decreases |rs|
  {
    hide RuleLine, ScannedRule, After, Exact, Stored, Lines, Restored;
    if !Exact(rs[0].text) {
      InexactLine(rs, k, num, rules);
    } else {
      ExactReadable(rs[0].text);
      LinesStep(rs);
      ReadLine(rs[0], Lines(rs[1..]));
      InexactLines(rs[1..], k + 1, num, rules[k := Stored(rs[0])], i - 1);
      RestoredTail(ReadFrom(Lines(rs), k, num, rules), k, num, rs);
    }
  }

  lemma ExactReadable(text: string)
    requires Exact(text)
    ensures Readable(text) && Shown(text) == text
  {
  }

  lemma RestoredTail(st: Settings, k: nat, num: int, rs: seq<Rule>)
    requires rs != []
    ensures Restored(st, k, num, rs) ==> Restored(st, k + 1, num, rs[1..])
  {
  }

  /** Reading restores the rules exactly if and only if no text is empty, holds a `$` or is
      longer than the reader takes. */
  lemma RestoredIff(rs: seq<Rule>, before: map<int, Rule>)
    requires |rs| >= 1
    ensures Restored(Deserialized(Serialized(|rs|, rs), before), 0, |rs|, rs)
            <==> forall i :: 0 <= i < |rs| ==> Exact(rs[i].text)
  {
    hide Serialized, Scanned, After, ReadFrom, Lines, Exact, Readable, Shown;
    StartOf(|rs|, rs);
    if i :| 0 <= i < |rs| && !Exact(rs[i].text) {
      InexactLines(rs, 0, |rs|, before, i);
    } else {
      forall i | 0 <= i < |rs|
        ensures Readable(rs[i].text) && Stored(rs[i]) == rs[i]
      {
        ExactReadable(rs[i].text);
      }
      ReadLines(rs, 0, |rs|, before);
    }
  }

  // ----- what given texts mean -----

  /** Numbers are written in decimal digits, the highest first. */
  lemma DecimalDigits(n: nat, d: nat)
    requires d < 10
    ensures Printed(d) == [('0' as int + d) as char]
    ensures n > 0 ==> Printed(10 * n + d) == Printed(n) + [('0' as int + d) as char]
    ensures n > 0 ==> Printed(0 - n) == "-" + Printed(n)
  {
  }

  /** The text of one rule: its mode, its item and its text, which is `%` where it is empty. */
  lemma OneRuleWritten(mode: int, item: int, t: string)
    ensures Serialized(1, [Rule(mode, item, t)]) ==
            "1:" + Printed(mode) + ":" + Printed(item) + ":" + (if t == "" then "%" else t) + "$"
  {
    assert Lines([]) == "" && Printed(1) == "1";
    var line := RuleLine(Rule(mode, item, t));
    hide Printed;
    LinesStep([Rule(mode, item, t)]);
    assert "1" + ":" + line == "1:" + Printed(mode) + ":" + Printed(item) + ":" + (if t == "" then "%" else t) + "$";
  }

  lemma OneRuleRead(mode: int, item: int, t: string, before: map<int, Rule>)
    requires t != "" && '$' !in t && |t| <= 399
    ensures var st := Deserialized("1:" + Printed(mode) + ":" + Printed(item) + ":" + t + "$", before);
            && st.num == 1 && 0 in st.rules
            && st.rules[0].mode == mode && st.rules[0].item == item && st.rules[0].text == t
            && forall j :: j != 0 ==> (j in st.rules <==> j in before) && (j in before ==> st.rules[j] == before[j])
  {
    hide Deserialized, Serialized, Printed;
    OneRuleWritten(mode, item, t);
    RoundTrip([Rule(mode, item, t)], before);
  }

  /** No rules, or no number at all, is one rule that matches everything. */
  lemma NoRulesRead(rest: string, before: map<int, Rule>)
    requires rest == "" || rest[0] == ':'
    ensures var st := Deserialized("0" + rest, before);
            st.num == 1 && 0 in st.rules && st.rules[0].mode == 0 && st.rules[0].item == 0 && st.rules[0].text == "%"
  {
    assert Printed(0) == "0";
    hide Printed, Scanned;
    ScanPrinted(0, rest);
  }

  /** Nothing a number can start with. */
  predicate StartsNoNumber(s: string) {
    s == "" || (s[0] !in "+- " && !('\t' <= s[0] <= '\r') && !('0' <= s[0] <= '9'))
  }

  lemma NoNumberScanned(s: string)
    requires StartsNoNumber(s)
    ensures Scanned(s).None? && ScannedRule(s).None?
  {
    assert s[0..] == s;
  }

  lemma NoNumberRead(s: string, before: map<int, Rule>)
    requires StartsNoNumber(s)
    ensures var st := Deserialized(s, before);
            st.num == 1 && 0 in st.rules && st.rules[0].mode == 0 && st.rules[0].item == 0 && st.rules[0].text == "%"
  {
    hide Scanned;
    NoNumberScanned(s);
  }

  /** A broken rule ends the reading: with one rule announced it becomes the one that matches
      everything, with more the number drops to the rules read before it. */
  lemma BrokenRuleRead(rs: seq<Rule>, num: int, rest: string, before: map<int, Rule>)
    requires num > |rs| && StartsNoNumber(rest) && forall i :: 0 <= i < |rs| ==> Readable(rs[i].text)
    ensures var st := Deserialized(Printed(num) + ":" + Lines(rs) + rest, before);
            if num == 1 then st.num == 1 && st.rules == before[0 := Rule(0, 0, "%")]
            else st.num == |rs| && Overlaid(st.rules, before, 0, rs)
  {
    hide Printed, Scanned, Lines, After, Overlaid;
    var s := Printed(num) + ":" + Lines(rs) + rest;
    var t := ":" + (Lines(rs) + rest);
    assert s == Printed(num) + t && t[1..] == Lines(rs) + rest;
    ScanPrinted(num, t);
    PrintedPlain(num, ':');
    AfterSkips(Printed(num), t, ':');
    assert After(t, ':') == Lines(rs) + rest by {
      AfterColon(Lines(rs) + rest);
    }
    if num == 1 {
      NoNumberScanned(rest);
      assert rs == [] && Lines(rs) + rest == rest by {
        assert Lines([]) == "" by {
          LinesNone();
        }
      }
    } else {
      ReadBroken(rs, 0, num, rest, before);
    }
  }

  lemma AfterColon(s: string)
    ensures After(":" + s, ':') == s
  {
    assert (":" + s)[1..] == s;
  }

  lemma LinesNone()
    ensures Lines([]) == ""
  {
  }

  lemma {:induction false} ReadBroken(rs: seq<Rule>, k: nat, num: int, rest: string, rules: map<int, Rule>)
    requires num > k + |rs| && num > 1 && StartsNoNumber(rest)
    requires forall i :: 0 <= i < |rs| ==> Readable(rs[i].text)
    ensures var st := ReadFrom(Lines(rs) + rest, k, num, rules);
            st.num == k + |rs| && Overlaid(st.rules, rules, k, rs)
    decreases |rs|
  {
    hide RuleLine, ScannedRule, After, Readable, Stored, Overlaid, Lines, StartsNoNumber;
    if rs == [] {
      LinesNone();
      NoNumberScanned(rest);
      assert Lines(rs) + rest == rest;
      OverlaidNone(rules, k);
    } else {
      var next, more := rules[k := Stored(rs[0])], Lines(rs[1..]) + rest;
      LinesStep(rs);
      assert Lines(rs) + rest == RuleLine(rs[0]) + more;
      ReadLine(rs[0], more);
      ReadBroken(rs[1..], k + 1, num, rest, next);
      OverlaidStep(ReadFrom(more, k + 1, num, next).rules, rules, k, rs);
    }
  }
}
