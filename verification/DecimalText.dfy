/** The texts that read as amounts (clawmes/lib/decimals.py), as a grammar, and what happens to all others. */
module DecimalText {
  import opened Bytes
  import opened Digits
  import opened Decimals

  /** Nothing, or an e with an optional sign and digits. */
  predicate ExponentIs(t: string, e: int) {
    || (t == "" && e == 0)
    || (&& |t| >= 2 && (t[0] == 'e' || t[0] == 'E')
        && var b := if t[1] == '+' || t[1] == '-' then 2 else 1;
           && b < |t| && AllDigits(t[b..])
           && var n: int := Digits.Value(t[b..]);
              e == if t[1] == '-' then -n else n)
  }

  lemma ExponentIff(t: string, e: int)
    ensures ParseExponent(t) == Some(e) <==> ExponentIs(t, e)
  {
    if |t| >= 2 {
      var b := if t[1] == '+' || t[1] == '-' then 2 else 1;
      if b < |t| {
        if AllDigits(t[b..]) {
          assert forall i | b <= i < |t| :: t[i] == t[b..][i - b];
          SpanFromIs(t, b, |t|);
        }
      }
    }
  }

  /** Behind an optional sign. */
  function Start(text: string): (i: nat)
    ensures i <= |text|
  {
    if |text| > 0 && (text[0] == '+' || text[0] == '-') then 1 else 0
  }

  /** Digits up to `j`, then a point and digits up to `k` or neither, at least one digit in all, then the exponent. */
  predicate Matches(text: string, j: nat, k: nat, e: int) {
    && Start(text) <= j <= k <= |text|
    && AllDigits(text[Start(text)..j]) && (j < |text| ==> !IsDigit(text[j]))
    && (if j < |text| && text[j] == '.' then j < k && AllDigits(text[j + 1..k]) && (k < |text| ==> !IsDigit(text[k])) else k == j)
    && (Start(text) < j || j + 1 < k)
    && ExponentIs(text[k..], e)
  }

  /** The digits as one integer, its exponent lowered by the digits behind the point. */
  predicate Means(text: string, j: nat, k: nat, e: int, negative: bool, x: Dec)
    requires Matches(text, j, k, e)
  {
    var whole, fraction := text[Start(text)..j], if k > j then text[j + 1..k] else "";
    DigitsConcat(whole, fraction);
    (negative <==> |text| > 0 && text[0] == '-') && x == Dec(Digits.Value(whole + fraction), e - |fraction|)
  }

  lemma Scans(text: string, j: nat, k: nat, e: int)
    requires Matches(text, j, k, e)
    ensures SpanFrom(text, Start(text)) == j && FractionEnd(text, j) == k
  {
    assert forall n | Start(text) <= n < j :: text[n] == text[Start(text)..j][n - Start(text)];
    SpanFromIs(text, Start(text), j);
    if j < |text| && text[j] == '.' {
      assert forall n | j + 1 <= n < k :: text[n] == text[j + 1..k][n - j - 1];
      SpanFromIs(text, j + 1, k);
    }
  }

  lemma MatchReads(text: string, j: nat, k: nat, e: int, negative: bool, x: Dec)
    requires Matches(text, j, k, e) && Means(text, j, k, e, negative, x)
    ensures ParseDecimal(text) == Some((negative, x))
  {
    Scans(text, j, k, e);
    ExponentIff(text[k..], e);
    assert Fraction(text, j) == if k > j then text[j + 1..k] else "";
  }

  lemma MatchReadsSome(text: string, j: nat, k: nat, e: int)
    requires Matches(text, j, k, e)
    ensures ParseDecimal(text).Some?
  {
    Scans(text, j, k, e);
    ExponentIff(text[k..], e);
  }

  lemma ReadMatches(text: string, negative: bool, x: Dec) returns (j: nat, k: nat, e: int)
    requires ParseDecimal(text) == Some((negative, x))
    ensures Matches(text, j, k, e) && Means(text, j, k, e, negative, x)
  {
    j := SpanFrom(text, Start(text));
    k := FractionEnd(text, j);
    e := ParseExponent(text[k..]).value;
    ExponentIff(text[k..], e);
    SpanSplits(text);
  }

  /** The spans that the parser takes are digits, up to the first other character. */
  lemma SpanSplits(text: string)
    ensures var j := SpanFrom(text, Start(text)); var k := FractionEnd(text, j);
      && AllDigits(text[Start(text)..j]) && (j < |text| ==> !IsDigit(text[j]))
      && if j < |text| && text[j] == '.' then j < k && AllDigits(text[j + 1..k]) && (k < |text| ==> !IsDigit(text[k])) else k == j
  {
  }

  /** A text reads as an amount exactly when it matches the grammar, and then as the number it denotes. */
  lemma ReadsIff(text: string, negative: bool, x: Dec)
    ensures ParseDecimal(text) == Some((negative, x)) <==>
      exists j, k, e :: Matches(text, j, k, e) && Means(text, j, k, e, negative, x)
  {
    if ParseDecimal(text) == Some((negative, x)) {
      var j, k, e := ReadMatches(text, negative, x);
    }
    forall j, k, e | Matches(text, j, k, e) && Means(text, j, k, e, negative, x)
      ensures ParseDecimal(text) == Some((negative, x))
    {
      MatchReads(text, j, k, e, negative, x);
    }
  }

  /** Every other text is malformed, and an amount below zero is refused. */
  lemma RefusedIff(text: string, decimals: nat, p: Precision)
    requires decimals <= EMAX
    ensures ToBaseUnits(text, decimals, p) == Raised(Malformed) <==> !exists j, k, e :: Matches(text, j, k, e)
    ensures ToBaseUnits(text, decimals, p) == Raised(Negative) <==>
      exists x: Dec :: ParseDecimal(text) == Some((true, x)) && x.coeff > 0
  {
    match ParseDecimal(text)
    case None =>
      forall j: nat, k: nat, e ensures !Matches(text, j, k, e) {
        if Matches(text, j, k, e) { MatchReadsSome(text, j, k, e); }
      }
    case Some((negative, x)) =>
      var j, k, e := ReadMatches(text, negative, x);
      NeverMalformed(x, decimals, p);
  }

  /** Scaling itself only ever overflows. */
  lemma NeverMalformed(x: Dec, decimals: nat, p: Precision)
    ensures ScaledDown(x, decimals, p).Raised? ==> ScaledDown(x, decimals, p).why == Overflow
  {
  }
}
