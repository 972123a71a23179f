/** The remirror time rule (remirror.py): two literal modes and a six-field
    `Y-MM-DD HH:MM:SS` pattern with `*` wildcards, compared against a clock value. */
module Remirror {
  import opened Errors
  import opened Wrappers
  import opened Strings

  /** The six fields of `datetime.now()` the rule is compared against. */
  datatype Clock = Clock(year: int, month: int, day: int, hour: int, minute: int, second: int)

  /** What a `datetime` can hold (day 31 is allowed for every month; the rule never looks deeper). */
  predicate InCalendarRange(now: Clock) {
    && 1 <= now.year <= 9999
    && 1 <= now.month <= 12
    && 1 <= now.day <= 31
    && 0 <= now.hour <= 23
    && 0 <= now.minute <= 59
    && 0 <= now.second <= 59
  }

  /** One field of a rule: the wildcard `*` or a run of decimal digits. */
  datatype Field = Wildcard | Digits(ds: string)

  datatype Rule = Rule(year: Field, month: Field, day: Field, hour: Field, minute: Field, second: Field)

  /** The year is `*` or one or more digits; every other field is `*` or exactly two digits. */
  predicate WellFormedYear(f: Field) {
    f.Digits? ==> |f.ds| > 0 && AllDigits(f.ds)
  }

  predicate WellFormedTwo(f: Field) {
    f.Digits? ==> |f.ds| == 2 && AllDigits(f.ds)
  }

  predicate WellFormed(r: Rule) {
    && WellFormedYear(r.year)
    && WellFormedTwo(r.month) && WellFormedTwo(r.day)
    && WellFormedTwo(r.hour) && WellFormedTwo(r.minute) && WellFormedTwo(r.second)
  }

  function FieldText(f: Field): string {
    if f.Wildcard? then "*" else f.ds
  }

  /** The rule written out: `Y-MM-DD HH:MM:SS`. */
  function RuleText(r: Rule): string {
    FieldText(r.year) + TailText(Separators, [r.month, r.day, r.hour, r.minute, r.second])
  }

  /** The separators that precede month, day, hour, minute and second. */
  const Separators: seq<char> := ['-', '-', ' ', ':', ':']

  function TailText(seps: seq<char>, fs: seq<Field>): string
    requires |seps| == |fs|
  {
    if |seps| == 0 then [] else [seps[0]] + FieldText(fs[0]) + TailText(seps[1..], fs[1..])
  }

  /** The end of the run of digits starting at `i`. */
  function DigitRunEnd(s: string, i: nat): (j: nat)
    requires i <= |s|
    ensures i <= j <= |s| && AllDigits(s[i..j]) && (j < |s| ==> !IsDigit(s[j]))
    decreases |s| - i
  {
    if i < |s| && IsDigit(s[i]) then
      DigitRunEnd(s, i + 1)
    else i
  }

  /** `(?P<year>\*|\d+)` at position `i`: the field and the position after it. */
  function ParseYear(s: string, i: nat): Option<(Field, nat)>
    requires i <= |s|
  {
    if i < |s| && s[i] == '*' then Some((Wildcard, i + 1))
    else
      var j := DigitRunEnd(s, i);
      if j == i then None else Some((Digits(s[i..j]), j))
  }

  /** `\*|\d{2}` at position `i`. */
  function ParseTwo(s: string, i: nat): Option<(Field, nat)>
    requires i <= |s|
  {
    if i < |s| && s[i] == '*' then Some((Wildcard, i + 1))
    else if i + 2 <= |s| && IsDigit(s[i]) && IsDigit(s[i + 1]) then Some((Digits(s[i..i + 2]), i + 2))
    else None
  }

  /** Each separator followed by a month, day, hour or minute field, then the end of the string. */
  function ParseTail(s: string, i: nat, seps: seq<char>): (r: Option<seq<Field>>)
    requires i <= |s|
    ensures r.Some? ==> |r.value| == |seps|
    decreases |seps|
  {
    if |seps| == 0 then (if i == |s| then Some([]) else None)
    else if !(i < |s| && s[i] == seps[0]) then None
    else
      match ParseTwo(s, i + 1)
      case None => None
      case Some((f, j)) =>
        match ParseTail(s, j, seps[1..])
        case None => None
        case Some(fs) => Some([f] + fs)
  }

  /** `rule_pattern.fullmatch(rule)`: the parsed fields, or `None` when the rule does not match. */
  function ParseRule(s: string): Option<Rule> {
    match ParseYear(s, 0)
    case None => None
    case Some((y, i)) =>
      match ParseTail(s, i, Separators)
      case None => None
      case Some(fs) => Some(Rule(y, fs[0], fs[1], fs[2], fs[3], fs[4]))
  }

  /** `expected == "*" or int(expected) == actual`. */
  predicate FieldMatches(f: Field, actual: int)
    requires f.Digits? ==> AllDigits(f.ds)
  {
    f.Wildcard? || DecimalValue(f.ds) == actual
  }

  /** The loop over the six fields: every field matches. */
  predicate Matches(r: Rule, now: Clock)
    requires WellFormed(r)
  {
    && FieldMatches(r.year, now.year)
    && FieldMatches(r.month, now.month)
    && FieldMatches(r.day, now.day)
    && FieldMatches(r.hour, now.hour)
    && FieldMatches(r.minute, now.minute)
    && FieldMatches(r.second, now.second)
  }

  /** `should_remirror(rule, now)`. The literal modes are checked before anything is parsed. */
  function ShouldRemirror(rule: string, now: Clock): (r: Result<bool>)
    ensures rule == "always" ==> r == Ok(true)
    ensures rule == "never" ==> r == Ok(false)
    ensures r.Err? ==> r.error.RemirrorSyntaxError?
  {
    if rule == "always" then Ok(true)
    else if rule == "never" then Ok(false)
    else
      match ParseRule(rule)
      case None => Err(RemirrorSyntaxError("Remirror syntax of rule '" + rule + "' does not match"))
      case Some(r) =>
        ParseRuleSound(rule);
        Ok(Matches(r, now))
  }

  lemma {:induction false} ParseYearSound(s: string, i: nat)
    requires i <= |s|
    ensures var p := ParseYear(s, i);
      p.Some? ==> i < p.value.1 <= |s| && WellFormedYear(p.value.0) && s[i..p.value.1] == FieldText(p.value.0)
  {
  }

  lemma ParseTwoSound(s: string, i: nat)
    requires i <= |s|
    ensures var p := ParseTwo(s, i);
      p.Some? ==> i < p.value.1 <= |s| && WellFormedTwo(p.value.0) && s[i..p.value.1] == FieldText(p.value.0)
  {
    if i < |s| && s[i] == '*' {
      assert s[i..i + 1] == "*";
    } else if i + 2 <= |s| && IsDigit(s[i]) && IsDigit(s[i + 1]) {
      var ds := s[i..i + 2];
      assert ds[0] == s[i] && ds[1] == s[i + 1];
    }
  }

  lemma {:induction false} ParseTailSound(s: string, i: nat, seps: seq<char>)
    requires i <= |s|
    ensures var p := ParseTail(s, i, seps);
      p.Some? ==> (forall k :: 0 <= k < |p.value| ==> WellFormedTwo(p.value[k])) && s[i..] == TailText(seps, p.value)
    decreases |seps|
  {
    var p := ParseTail(s, i, seps);
    if |seps| > 0 && p.Some? {
      var two := ParseTwo(s, i + 1);
      ParseTwoSound(s, i + 1);
      var f := two.value.0;
      var j := two.value.1;
      ParseTailSound(s, j, seps[1..]);
      var fs := ParseTail(s, j, seps[1..]).value;
      assert p.value == [f] + fs;
      assert forall k :: 1 <= k < |p.value| ==> p.value[k] == fs[k - 1];
      assert p.value[0] == f && p.value[1..] == fs;
      SplitAfterSeparator(s, i, j);
      assert s[i..] == [seps[0]] + FieldText(f) + TailText(seps[1..], fs);
    }
  }

  /** A suffix split after its first character and again at `j`. */
  lemma SplitAfterSeparator(s: string, i: nat, j: nat)
    requires i < j <= |s|
    ensures s[i..] == [s[i]] + s[i + 1..j] + s[j..]
  {
    assert s[i..] == [s[i]] + s[i + 1..];
    assert s[i + 1..] == s[i + 1..j] + s[j..];
  }

  /** Whatever parses is a well-formed rule, and it is exactly the rule written out. */
  lemma ParseRuleSound(s: string)
    ensures ParseRule(s).Some? ==> WellFormed(ParseRule(s).value) && RuleText(ParseRule(s).value) == s
  {
    var y := ParseYear(s, 0);
    if ParseRule(s).Some? {
      ParseYearSound(s, 0);
      var i := y.value.1;
      ParseTailSound(s, i, Separators);
      var fs := ParseTail(s, i, Separators).value;
      var r := Rule(y.value.0, fs[0], fs[1], fs[2], fs[3], fs[4]);
      assert ParseRule(s) == Some(r);
      assert fs == [r.month, r.day, r.hour, r.minute, r.second];
      RuleTextOfParts(s, i, r);
    }
  }

  /** A string made of a year field's text followed by the separated other fields is that
      rule written out. */
  lemma RuleTextOfParts(s: string, i: nat, r: Rule)
    requires i <= |s|
    requires s[0..i] == FieldText(r.year)
    requires s[i..] == TailText(Separators, [r.month, r.day, r.hour, r.minute, r.second])
    ensures RuleText(r) == s
  {
    assert s == s[0..i] + s[i..];
  }

  lemma {:induction false} ParseTailComplete(s: string, i: nat, seps: seq<char>, fs: seq<Field>)
    requires i <= |s| && |seps| == |fs|
    requires forall k :: 0 <= k < |fs| ==> WellFormedTwo(fs[k])
    requires s[i..] == TailText(seps, fs)
    ensures ParseTail(s, i, seps) == Some(fs)
    decreases |seps|
  {
    if |seps| > 0 {
      var t := FieldText(fs[0]);
      assert s[i..] == [seps[0]] + t + TailText(seps[1..], fs[1..]);
      assert s[i] == seps[0];
      var j := i + 1 + |t|;
      assert s[i + 1..j] == t;
      if fs[0].Wildcard? {
        assert s[i + 1] == '*';
      } else {
        assert s[i + 1] == t[0] && s[i + 2] == t[1];
        assert s[i + 1..i + 3] == t;
      }
      assert ParseTwo(s, i + 1) == Some((fs[0], j));
      assert s[j..] == TailText(seps[1..], fs[1..]);
      ParseTailComplete(s, j, seps[1..], fs[1..]);
      assert [fs[0]] + fs[1..] == fs;
    }
  }

  lemma ParseYearComplete(s: string, f: Field)
    requires WellFormedYear(f)
    requires |FieldText(f)| < |s| && s[..|FieldText(f)|] == FieldText(f) && s[|FieldText(f)|] == '-'
    ensures ParseYear(s, 0) == Some((f, |FieldText(f)|))
  {
    var n := |FieldText(f)|;
    if f.Digits? {
      assert s[0] == f.ds[0];
      var j := DigitRunEnd(s, 0);
      assert s[0..j] == s[..n];
    }
  }

  /** Every well-formed rule, written out, parses back to itself. */
  lemma ParseRuleComplete(r: Rule)
    requires WellFormed(r)
    ensures ParseRule(RuleText(r)) == Some(r)
  {
    var s := RuleText(r);
    var fs := [r.month, r.day, r.hour, r.minute, r.second];
    var n := |FieldText(r.year)|;
    assert s == FieldText(r.year) + TailText(Separators, fs);
    assert s[..n] == FieldText(r.year);
    assert s[n..] == TailText(Separators, fs);
    assert s[n] == '-';
    ParseYearComplete(s, r.year);
    ParseTailComplete(s, n, Separators, fs);
  }

  /** A written-out rule always holds a `-`, so it is never one of the literal modes. */
  lemma RuleTextIsNotAMode(r: Rule)
    ensures RuleText(r) != "always" && RuleText(r) != "never"
  {
    var n := |FieldText(r.year)|;
    var s := RuleText(r);
    assert s[n] == '-';
    assert '-' in s;
  }

  /** For a well-formed rule the answer is true exactly when every non-`*` field's value
      equals the matching field of `now`. */
  lemma ShouldRemirrorRule(r: Rule, now: Clock)
    requires WellFormed(r)
    ensures ShouldRemirror(RuleText(r), now) == Ok(
      && (r.year.Wildcard? || DecimalValue(r.year.ds) == now.year)
      && (r.month.Wildcard? || DecimalValue(r.month.ds) == now.month)
      && (r.day.Wildcard? || DecimalValue(r.day.ds) == now.day)
      && (r.hour.Wildcard? || DecimalValue(r.hour.ds) == now.hour)
      && (r.minute.Wildcard? || DecimalValue(r.minute.ds) == now.minute)
      && (r.second.Wildcard? || DecimalValue(r.second.ds) == now.second))
  {
    ParseRuleComplete(r);
    RuleTextIsNotAMode(r);
  }

  /** A rule that is neither literal mode nor a well-formed rule written out raises
      `RemirrorSyntaxError`; the literal modes and well-formed rules never raise. */
  lemma ShouldRemirrorErrIff(rule: string, now: Clock)
    ensures ShouldRemirror(rule, now).Err? <==>
      rule != "always" && rule != "never" && forall r :: WellFormed(r) ==> RuleText(r) != rule
  {
    ParseRuleSound(rule);
    forall r | WellFormed(r) && RuleText(r) == rule
      ensures ShouldRemirror(rule, now).Ok?
    {
      ParseRuleComplete(r);
    }
  }

  /** `*-*-* *:*:*` fires at every moment. */
  lemma AllWildcardsAlwaysFire(now: Clock)
    ensures ShouldRemirror("*-*-* *:*:*", now) == Ok(true)
  {
    var r := Rule(Wildcard, Wildcard, Wildcard, Wildcard, Wildcard, Wildcard);
    assert RuleText(r) == "*-*-* *:*:*";
    ShouldRemirrorRule(r, now);
  }

  /** Fields are not range-checked: a month such as `13` parses, but never matches a clock
      value in calendar range (likewise for day, hour, minute and second). */
  lemma OutOfRangeMonthNeverFires(r: Rule, now: Clock)
    requires WellFormed(r) && InCalendarRange(now)
    requires r.month.Digits? && DecimalValue(r.month.ds) > 12
    ensures ShouldRemirror(RuleText(r), now) == Ok(false)
  {
    ShouldRemirrorRule(r, now);
  }

  /** The rule `2024-*-01 00:00:00` fires on 1 March 2024 at midnight and not a day later. */
  lemma FirstOfMonthExample(r: Rule)
    requires r == Rule(Digits("2024"), Wildcard, Digits("01"), Digits("00"), Digits("00"), Digits("00"))
    ensures ShouldRemirror(RuleText(r), Clock(2024, 3, 1, 0, 0, 0)) == Ok(true)
    ensures ShouldRemirror(RuleText(r), Clock(2024, 3, 2, 0, 0, 0)) == Ok(false)
  {
    assert DecimalValue("2024") == 2024 by {
      assert "2024"[..3] == "202" && "202"[..2] == "20" && "20"[..1] == "2" && "2"[..0] == "";
    }
    assert DecimalValue("01") == 1 by {
      assert "01"[..1] == "0" && "0"[..0] == "";
    }
    assert DecimalValue("00") == 0 by {
      assert "00"[..1] == "0" && "0"[..0] == "";
    }
    ShouldRemirrorRule(r, Clock(2024, 3, 1, 0, 0, 0));
    ShouldRemirrorRule(r, Clock(2024, 3, 2, 0, 0, 0));
  }

  /** A rule that is not a literal mode and does not start with `*` or a digit (the empty
      rule included) raises `RemirrorSyntaxError` naming the rule. */
  lemma BadRuleRaises(rule: string, now: Clock)
    requires rule != "always" && rule != "never"
    requires |rule| == 0 || (rule[0] != '*' && !IsDigit(rule[0]))
    ensures ShouldRemirror(rule, now) == Err(RemirrorSyntaxError("Remirror syntax of rule '" + rule + "' does not match"))
  {
    assert DigitRunEnd(rule, 0) == 0;
  }
}
