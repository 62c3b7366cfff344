/** The DCA interval grammar (clawmes/commands/dca.py): parser and printer undo each other. */
module Interval {
  import opened Bytes
  import opened Digits

  const MIN_INTERVAL_SECONDS := 60
  const MAX_INTERVAL_SECONDS := 31536000
  const MINUTE := 60
  const HOUR := 3600
  const DAY_SECONDS := 86400
  const WEEK := 604800

  /** White space of the pattern, within ASCII. */
  predicate IsSpace(c: char) {
    c == ' ' || 9 <= c as int <= 13 || 28 <= c as int <= 31
  }

  predicate SpaceBetween(s: string, i: nat, j: nat)
    requires j <= |s|
  {
    forall k | i <= k < j :: IsSpace(s[k])
  }

  /** Where the white space that starts at position `i` ends. */
  function SpaceFrom(s: string, i: nat): (j: nat)
    requires i <= |s|
    ensures i <= j <= |s| && SpaceBetween(s, i, j) && (j < |s| ==> !IsSpace(s[j]))
    decreases |s| - i
  {
    if i == |s| || !IsSpace(s[i]) then i else SpaceFrom(s, i + 1)
  }

  function UnitSeconds(c: char): Option<nat> {
    if c == 'm' || c == 'M' then Some(MINUTE)
    else if c == 'h' || c == 'H' then Some(HOUR)
    else if c == 'd' || c == 'D' then Some(DAY_SECONDS)
    else if c == 'w' || c == 'W' then Some(WEEK)
    else None
  }

  /** The pattern: white space up to `i`, digits up to `j`, white space up to `k`, a unit, white space. */
  predicate Matches(raw: string, i: nat, j: nat, k: nat) {
    && i < j <= k < |raw|
    && SpaceBetween(raw, 0, i) && DigitsBetween(raw, i, j) && SpaceBetween(raw, j, k) && SpaceBetween(raw, k + 1, |raw|)
    && UnitSeconds(raw[k]).Some?
  }

  function Meaning(raw: string, i: nat, j: nat, k: nat): nat
    requires Matches(raw, i, j, k)
  {
    Value(raw[i..j]) * UnitSeconds(raw[k]).value
  }

  /** `_parse_interval`: each part of the pattern takes as many characters as it can. */
  function ParseInterval(raw: string): (r: Option<nat>)
    ensures r.Some? ==> 60 <= r.value <= 31536000 && r.value % 60 == 0
  {
    var i := SpaceFrom(raw, 0);
    var j := SpanFrom(raw, i);
    var k := SpaceFrom(raw, j);
    if i == j || k == |raw| || UnitSeconds(raw[k]).None? || SpaceFrom(raw, k + 1) != |raw| then None
    else
      var seconds := Value(raw[i..j]) * UnitSeconds(raw[k]).value;
      if seconds < MIN_INTERVAL_SECONDS || seconds > MAX_INTERVAL_SECONDS then None
      else
        WholeMinutes(Value(raw[i..j]), raw[k]);
        Some(seconds)
  }

  lemma WholeMinutes(n: nat, unit: char)
    requires UnitSeconds(unit).Some?
    ensures n * UnitSeconds(unit).value % 60 == 0
  {
    var k := UnitSeconds(unit).value / 60;
    assert UnitSeconds(unit).value == 60 * k;
    assert n * (60 * k) == 60 * (n * k);
  }

  /** The largest unit that divides the interval. */
  function FormatInterval(seconds: nat): string {
    if seconds % WEEK == 0 then Printed(seconds / WEEK) + "w"
    else if seconds % DAY_SECONDS == 0 then Printed(seconds / DAY_SECONDS) + "d"
    else if seconds % HOUR == 0 then Printed(seconds / HOUR) + "h"
    else Printed(seconds / MINUTE) + "m"
  }

  lemma MatchParses(raw: string, i: nat, j: nat, k: nat)
    requires Matches(raw, i, j, k)
    ensures var m := Meaning(raw, i, j, k);
      ParseInterval(raw) == if MIN_INTERVAL_SECONDS <= m <= MAX_INTERVAL_SECONDS then Some(m) else None
  {
    var a := SpaceFrom(raw, 0);
    assert a == i by { assert IsDigit(raw[i]) && (a < |raw| ==> !IsSpace(raw[a])); }
    var b := SpanFrom(raw, i);
    assert b == j by { assert !IsDigit(raw[j]) && (b < |raw| ==> !IsDigit(raw[b])); }
    var c := SpaceFrom(raw, j);
    assert c == k by { assert !IsSpace(raw[k]) && (c < |raw| ==> !IsSpace(raw[c])); }
    assert SpaceFrom(raw, k + 1) == |raw|;
  }

  lemma ParseMatches(raw: string) returns (i: nat, j: nat, k: nat)
    requires ParseInterval(raw).Some?
    ensures Matches(raw, i, j, k) && ParseInterval(raw) == Some(Meaning(raw, i, j, k))
  {
    i := SpaceFrom(raw, 0);
    j := SpanFrom(raw, i);
    k := SpaceFrom(raw, j);
  }

  /** The parser accepts exactly the texts that match the pattern with a value in range, and yields that value. */
  lemma ParseMeansGrammar(raw: string, seconds: nat)
    ensures ParseInterval(raw) == Some(seconds) <==>
      && 60 <= seconds <= 31536000
      && exists i, j, k :: Matches(raw, i, j, k) && Meaning(raw, i, j, k) == seconds
  {
    if ParseInterval(raw) == Some(seconds) {
      var i, j, k := ParseMatches(raw);
    }
    forall i, j, k | Matches(raw, i, j, k) && Meaning(raw, i, j, k) == seconds && MIN_INTERVAL_SECONDS <= seconds <= MAX_INTERVAL_SECONDS
      ensures ParseInterval(raw) == Some(seconds)
    {
      MatchParses(raw, i, j, k);
    }
  }

  /** Printing an accepted interval and parsing it again gives it back. */
  lemma IntervalRoundTrip(seconds: nat)
    requires MIN_INTERVAL_SECONDS <= seconds <= MAX_INTERVAL_SECONDS && seconds % 60 == 0
    ensures ParseInterval(FormatInterval(seconds)) == Some(seconds)
  {
    var text := FormatInterval(seconds);
    var n := |text| - 1;
    var k := UnitSeconds(text[n]).value;
    PrintedValue(seconds / k);
    assert text[0..n] == Printed(seconds / k);
    assert Matches(text, 0, n, n);
    MatchParses(text, 0, n, n);
    assert seconds == seconds / k * k;
  }
}
