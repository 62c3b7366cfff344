/** The texts that Python's `int(text, 16)` reads, with which the repository tests for addresses. */
module HexIntegers {
  import opened Bytes

  predicate IsSpace(c: char) {
    c == ' ' || '\t' <= c <= '\r'
  }

  /** `str.strip`, on ASCII text. */
  function Stripped(s: string): string {
    if |s| == 0 then s
    else if IsSpace(s[0]) then Stripped(s[1..])
    else if IsSpace(s[|s| - 1]) then Stripped(s[..|s| - 1])
    else s
  }

  function Unsigned(s: string): string {
    if |s| > 0 && (s[0] == '+' || s[0] == '-') then s[1..] else s
  }

  /** An optional 0x, behind which one underscore may stand. */
  function Unprefixed(s: string): string {
    if !HasHexPrefix(s) then s else if |s| > 2 && s[2] == '_' then s[3..] else s[2..]
  }

  /** Digits with single underscores between them. */
  predicate DigitGroups(s: string) {
    && |s| > 0 && s[0] != '_' && s[|s| - 1] != '_'
    && (forall i | 0 <= i < |s| :: s[i] == '_' || DigitValue(s[i]).Some?)
    && (forall i | 0 < i < |s| :: s[i - 1] != '_' || s[i] != '_')
  }

  /** Whether Python's `int(text, 16)` reads ASCII text. */
  predicate ReadsAsHex(s: string) {
    DigitGroups(Unprefixed(Unsigned(Stripped(s))))
  }

  /** What such a text can consist of: one hexadecimal digit at least, and nothing but digits, separators, signs, an x and space. */
  predicate HexCharacter(c: char) {
    DigitValue(c).Some? || c == '_' || c == '+' || c == '-' || c == 'x' || c == 'X' || IsSpace(c)
  }

  lemma {:induction false} StrippedOnly(s: string)
    ensures forall c | c in s :: c in Stripped(s) || IsSpace(c)
    ensures forall c | c in Stripped(s) :: c in s
  {
    if |s| > 0 {
      if IsSpace(s[0]) {
        StrippedOnly(s[1..]);
        assert s == [s[0]] + s[1..];
      } else if IsSpace(s[|s| - 1]) {
        StrippedOnly(s[..|s| - 1]);
        assert s == s[..|s| - 1] + [s[|s| - 1]];
      }
    }
  }

  lemma ReadsOnly(s: string)
    requires ReadsAsHex(s)
    ensures (forall c | c in s :: HexCharacter(c)) && exists c :: c in s && DigitValue(c).Some?
  {
    var t := Stripped(s);
    var u := Unsigned(t);
    var v := Unprefixed(u);
    StrippedOnly(s);
    assert forall c | c in v :: HexCharacter(c);
    assert forall c | c in u :: c in v || HexCharacter(c);
    assert forall c | c in t :: c in u || HexCharacter(c);
    assert v[0] in v && v[0] in u && v[0] in t;
    assert DigitValue(v[0]).Some?;
  }
}
