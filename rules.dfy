/**
  * Run-time rule tracking: the score, a count of penalties, whether a rule is
  * broken in the current run and the message describing it. A soft reset clears
  * the broken state and keeps the score.
  */
module RuleTracking {

  // ---- Decimal formatting of the rule number ----

  function DigitChar(d: int): (c: char)
    requires 0 <= d < 10
    ensures '0' <= c <= '9'
    ensures DigitValue(c) == d
  {
    "0123456789"[d]
  }

  function DigitValue(c: char): int
  {
    c as int - '0' as int
  }

  predicate AllDigits(s: string)
  {
    forall i :: 0 <= i < |s| ==> '0' <= s[i] <= '9'
  }

  /** The decimal digits of `n`, most significant first, without leading zeros. */
  function NatToString(n: nat): (s: string)
    ensures |s| > 0 && AllDigits(s)
  {
    if n < 10 then [DigitChar(n)] else NatToString(n / 10) + [DigitChar(n % 10)]
  }

  /** `str(n)` for an integer: a minus sign before the digits of a negative number. */
  function IntToString(n: int): (s: string)
    ensures |s| > 0
    ensures forall i :: 0 <= i < |s| ==> s[i] != ' '
  {
    if n < 0 then "-" + NatToString(-n) else NatToString(n)
  }

  /** Reads a string of decimal digits back as a number. */
  function ParseDigits(s: string): nat
    requires AllDigits(s)
  {
    if s == [] then 0 else 10 * ParseDigits(s[..|s| - 1]) + DigitValue(s[|s| - 1])
  }

  lemma {:induction false} NatToStringRoundTrip(n: nat)
    ensures ParseDigits(NatToString(n)) == n
  {
    var s := NatToString(n);
    if n >= 10 {
      NatToStringRoundTrip(n / 10);
      assert s[..|s| - 1] == NatToString(n / 10);
    }
  }

  /** Different numbers are written differently. */
  lemma IntToStringInjective(a: int, b: int)
    requires IntToString(a) == IntToString(b)
    ensures a == b
  {
    var s := IntToString(a);
    var da: nat, db: nat := if a < 0 then -a else a, if b < 0 then -b else b;
    if a < 0 {
      assert s[0] == '-';
      assert b < 0;
      assert NatToString(da) == s[1..] == NatToString(db);
    } else {
      assert '0' <= s[0] <= '9';
      assert b >= 0;
      assert NatToString(da) == s == NatToString(db);
    }
    NatToStringRoundTrip(da);
    NatToStringRoundTrip(db);
    assert da == db;
  }

  /** The message of a broken rule, `f"Rule {rule_number} broken: {msg}"`. */
  function BrokenMessage(ruleNumber: int, msg: string): (m: string)
    ensures |m| >= 5 + |msg| && m[..5] == "Rule " && m[|m| - |msg|..] == msg
  {
    "Rule " + IntToString(ruleNumber) + " broken: " + msg
  }

  /** Two strings without spaces followed by a space give the same text only when equal. */
  lemma {:induction false} SpaceFreePrefix(a: string, b: string, ra: string, rb: string)
    requires forall i :: 0 <= i < |a| ==> a[i] != ' '
    requires forall i :: 0 <= i < |b| ==> b[i] != ' '
    requires |ra| > 0 && ra[0] == ' ' && |rb| > 0 && rb[0] == ' '
    requires a + ra == b + rb
    ensures a == b && ra == rb
  {
    var s := a + ra;
    assert a == s[..|a|] && b == s[..|b|];
  }

  /** The message names the rule and the reason unambiguously: both can be read back. */
  lemma BrokenMessageInjective(n1: int, m1: string, n2: int, m2: string)
    requires BrokenMessage(n1, m1) == BrokenMessage(n2, m2)
    ensures n1 == n2 && m1 == m2
  {
    var s1, s2 := IntToString(n1), IntToString(n2);
    var tail1, tail2 := " broken: " + m1, " broken: " + m2;
    assert BrokenMessage(n1, m1) == "Rule " + (s1 + tail1);
    assert BrokenMessage(n2, m2) == "Rule " + (s2 + tail2);
    assert s1 + tail1 == BrokenMessage(n1, m1)[5..];
    assert s2 + tail2 == BrokenMessage(n2, m2)[5..];
    SpaceFreePrefix(s1, s2, tail1, tail2);
    IntToStringInjective(n1, n2);
    assert m1 == tail1[9..] && m2 == tail2[9..];
  }

  class Rules {
    var score: int
    var resets: int
    var broken: bool
    var lastBrokenMsg: string

    /** A fresh run: no score, no penalties, nothing broken. */
    constructor ()
      ensures score == 0 && resets == 0 && !broken && lastBrokenMsg == ""
    {
      score := 0;
      resets := 0;
      broken := false;
      lastBrokenMsg := "";
    }

    /** `on_item_picked`: one more point. */
    method OnItemPicked()
      modifies this`score
      ensures score == old(score) + 1
    {
      score := score + 1;
    }

    /** `break_rule`: mark the run broken and describe why; the score is untouched. */
    method BreakRule(ruleNumber: int, msg: string)
      modifies this`broken, this`lastBrokenMsg
      ensures broken && lastBrokenMsg == BrokenMessage(ruleNumber, msg)
    {
      broken := true;
      lastBrokenMsg := BrokenMessage(ruleNumber, msg);
    }

    /** `any_broken`: whether a rule is broken in this run. */
    method AnyBroken() returns (b: bool)
      ensures b == broken
    {
      b := broken;
    }

    /** `reset_run_state`: clear the broken state after a soft reset; the score is kept. */
    method ResetRunState()
      modifies this`broken, this`lastBrokenMsg
      ensures !broken && lastBrokenMsg == ""
    {
      broken := false;
      lastBrokenMsg := "";
    }
  }
}
