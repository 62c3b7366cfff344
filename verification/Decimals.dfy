/**
 Human amounts and base units (clawmes/lib/decimals.py) through Python's default decimal context:
 28 significant digits, half-even rounding, exponents up to 999999.
 */
module Decimals {
  import opened Bytes
  import opened Digits

  /** The significant digits a context keeps; every result below holds for any such number, 28 by default. */
  type Precision = p: nat | p >= 1 witness 1

  const PRECISION: Precision := 28
  const EMAX := 999999

  /** The number `coeff` times ten to the power `exp`. */
  datatype Dec = Dec(coeff: nat, exp: int)

  datatype Trouble = Malformed | Negative | Overflow

  datatype Answer<T> = Value(value: T) | Raised(why: Trouble)

  // ---- the decimal context ------------------------------------------------------------

  function Length(n: nat): (r: nat)
    ensures r >= 1
  {
    PrintedValue(n);
    |Printed(n)|
  }

  /** Whether dropping the last `drop` digits rounds away from zero: half goes to the even neighbour. */
  predicate RoundsUp(coeff: nat, drop: nat) {
    2 * Tail(coeff, drop) > Pow10(drop) || (2 * Tail(coeff, drop) == Pow10(drop) && Cut(coeff, drop) % 2 == 1)
  }

  /** A result of more than `p` digits is rounded to `p`. */
  function Rounded(x: Dec, p: Precision): Dec {
    if Length(x.coeff) <= p then x
    else
      var drop := Length(x.coeff) - p;
      var q := Cut(x.coeff, drop);
      if !RoundsUp(x.coeff, drop) then Dec(q, x.exp + drop)
      else if q + 1 < Pow10(p) then Dec(q + 1, x.exp + drop)
      else Dec(Pow10(p - 1), x.exp + drop + 1)
  }

  /** A context operation: round, then refuse what is too large. */
  function Finish(x: Dec, p: Precision): Answer<Dec> {
    var y := Rounded(x, p);
    if y.coeff > 0 && y.exp + Length(y.coeff) - 1 > EMAX then Raised(Overflow) else Value(y)
  }

  /** `Decimal(10) ** decimals`: exact, with at most `p` digits. */
  function Quantum(decimals: nat, p: Precision): Answer<Dec> {
    if decimals > EMAX then Raised(Overflow)
    else if decimals < p then Value(Dec(Pow10(decimals), 0))
    else Value(Dec(Pow10(p - 1), decimals - (p - 1)))
  }

  /** An exact quotient keeps as few trailing zeros as it can, down to the ideal exponent. */
  function Reduced(x: Dec, ideal: int): Dec
    decreases ideal - x.exp
  {
    if x.exp < ideal && x.coeff % 10 == 0 then Reduced(Dec(x.coeff / 10, x.exp + 1), ideal) else x
  }

  /** `Decimal(n) / quantum`. */
  function Quotient(n: nat, decimals: nat, quantum: Dec, p: Precision): Answer<Dec> {
    var scale: int := decimals;
    match Finish(Dec(n, -scale), p)
    case Raised(why) => Raised(why)
    case Value(y) => Value(if Fits(n, p) then Reduced(y, -quantum.exp) else y)
  }

  /** At most `p` significant digits. */
  predicate Fits(n: nat, p: Precision) {
    Length(n) <= p || Tail(n, Length(n) - p) == 0
  }

  /** `to_integral_value(rounding=ROUND_DOWN)` of a non-negative number. */
  function Floor(x: Dec): nat {
    if x.exp >= 0 then Shift(x.coeff, x.exp) else Cut(x.coeff, -x.exp)
  }

  // ---- text ---------------------------------------------------------------------------------

  /** `format(amount, "f")`. */
  function FormatFixed(x: Dec): string {
    if x.exp >= 0 then Printed(x.coeff) + (if x.coeff == 0 then "" else ZeroDigits(x.exp))
    else
      var scale := -x.exp;
      var text := Printed(x.coeff);
      var digits := if |text| <= scale then ZeroDigits(scale + 1 - |text|) + text else text;
      digits[..|digits| - scale] + "." + digits[|digits| - scale..]
  }

  function StripRight(s: string, c: char): string {
    if |s| > 0 && s[|s| - 1] == c then StripRight(s[..|s| - 1], c) else s
  }

  function Shown(x: Dec): string {
    var text := FormatFixed(x);
    if '.' in text then StripRight(StripRight(text, '0'), '.') else text
  }

  /** Where the digits behind a point end; without a point there are none. */
  function FractionEnd(text: string, j: nat): (k: nat)
    requires j <= |text|
    ensures j <= k <= |text|
  {
    if j < |text| && text[j] == '.' then SpanFrom(text, j + 1) else j
  }

  function Fraction(text: string, j: nat): (f: string)
    requires j <= |text|
    ensures AllDigits(f)
  {
    var k := FractionEnd(text, j);
    if k > j then text[j + 1..k] else ""
  }

  /** Digits around an optional point, and an optional exponent, from position `i` on. */
  function ParseUnsigned(text: string, i: nat): Option<Dec>
    requires i <= |text|
  {
    var j := SpanFrom(text, i);
    var f := Fraction(text, j);
    if j == i && f == "" then None
    else
      DigitsConcat(text[i..j], f);
      match ParseExponent(text[FractionEnd(text, j)..])
      case None => None
      case Some(e) => Some(Dec(Digits.Value(text[i..j] + f), e - |f|))
  }

  /** What `Decimal(text)` reads, with whether it has a minus sign. */
  function ParseDecimal(text: string): Option<(bool, Dec)> {
    var signed := |text| > 0 && (text[0] == '-' || text[0] == '+');
    match ParseUnsigned(text, if signed then 1 else 0)
    case None => None
    case Some(x) => Some((signed && text[0] == '-', x))
  }

  function ParseExponent(text: string): Option<int> {
    if text == "" then Some(0)
    else if text[0] != 'e' && text[0] != 'E' then None
    else
      var signed := |text| > 1 && (text[1] == '-' || text[1] == '+');
      var i := if signed then 2 else 1;
      if i == |text| || SpanFrom(text, i) != |text| then None
      else
        var e: int := Digits.Value(text[i..]);
        Some(if signed && text[1] == '-' then -e else e)
  }

  // ---- the two conversions -------------------------------------------------------------------

  /** The product with the quantum, truncated. */
  function ScaledDown(x: Dec, decimals: nat, p: Precision): Answer<nat> {
    match Quantum(decimals, p)
    case Raised(why) => Raised(why)
    case Value(q) =>
      match Finish(Dec(x.coeff * q.coeff, x.exp + q.exp), p)
      case Raised(why) => Raised(why)
      case Value(y) => Value(Floor(y))
  }

  /** `to_base_units` of an amount given as text. */
  function ToBaseUnits(text: string, decimals: nat, p: Precision): Answer<nat> {
    if Quantum(decimals, p).Raised? then Raised(Overflow)
    else match ParseDecimal(text)
      case None => Raised(Malformed)
      case Some((negative, x)) => if negative && x.coeff > 0 then Raised(Negative) else ScaledDown(x, decimals, p)
  }

  /** `from_base_units` with full precision. */
  function FromBaseUnits(n: nat, decimals: nat, p: Precision): Answer<string> {
    match Quantum(decimals, p)
    case Raised(why) => Raised(why)
    case Value(q) =>
      match Quotient(n, decimals, q, p)
      case Raised(why) => Raised(why)
      case Value(x) => Value(Shown(x))
  }

  // ---- exactness up to the precision -----------------------------------------------------------

  /** `n` is a number of at most `p` digits with zeros behind it. */
  ghost predicate Significant(n: nat, m: nat, k: nat, p: Precision) {
    m < Pow10(p) && n == Shift(m, k)
  }

  lemma LengthBounds(n: nat)
    ensures n < Pow10(Length(n)) && (n > 0 ==> Pow10(Length(n) - 1) <= n)
  {
    PrintedLength(n);
  }

  lemma FitsIsSignificant(n: nat, p: Precision)
    ensures Fits(n, p) <==> exists m, k :: Significant(n, m, k, p)
  {
    LengthBounds(n);
    if Fits(n, p) {
      if Length(n) <= p {
        PowMonotone(Length(n), p);
        assert Significant(n, n, 0, p);
      } else {
        var drop := Length(n) - p;
        CutBound(n, drop, p);
        assert Significant(n, Cut(n, drop), drop, p);
      }
    }
    forall m, k | Significant(n, m, k, p) ensures Fits(n, p) {
      SignificantFits(n, m, k, p);
    }
  }

  lemma SignificantFits(n: nat, m: nat, k: nat, p: Precision)
    requires Significant(n, m, k, p)
    ensures Fits(n, p)
  {
    if Length(n) > p {
      ZeroLength();
      SignificantLength(n, m, k, p);
      CutZeros(m, k, Length(n) - p);
    }
  }

  lemma SignificantLength(n: nat, m: nat, k: nat, p: Precision)
    requires Significant(n, m, k, p) && n > 0
    ensures Length(n) <= p + k
  {
    LengthBounds(n);
    ShiftBound(m, k, p);
    PowStrict(Length(n) - 1, p + k);
  }

  /** What fits is not changed by rounding, except for trailing zeros. */
  lemma FitsRounds(x: Dec, p: Precision)
    requires Fits(x.coeff, p)
    ensures var drop := if Length(x.coeff) <= p then 0 else Length(x.coeff) - p;
      Rounded(x, p) == Dec(Cut(x.coeff, drop), x.exp + drop) && Tail(x.coeff, drop) == 0
  {
    if Length(x.coeff) <= p {
      CutIs(x.coeff, 0, x.coeff, 0);
    }
  }

  /** Dropping trailing zeros does not change the integer part. */
  lemma FloorShift(coeff: nat, exp: int, k: nat)
    ensures Floor(Dec(Shift(coeff, k), exp)) == Floor(Dec(coeff, exp + k))
  {
    if exp >= 0 {
      ShiftShift(coeff, k, exp);
    } else if exp + k >= 0 {
      CutZeros(coeff, k, -exp);
    } else {
      CutPastZeros(coeff, k, -(exp + k));
    }
  }

  lemma FloorMonotone(a: nat, b: nat, exp: int)
    requires a <= b
    ensures Floor(Dec(a, exp)) <= Floor(Dec(b, exp))
  {
    if exp >= 0 { ShiftOrder(a, b, exp); } else { CutOrder(a, b, -exp); }
  }

  // ---- rounding before or after scaling is the same ---------------------------------------------

  lemma LengthIs(n: nat, digits: nat)
    requires digits >= 1 && Pow10(digits - 1) <= n < Pow10(digits)
    ensures Length(n) == digits
  {
    LengthBounds(n);
    PowStrict(Length(n) - 1, digits);
    PowStrict(digits - 1, Length(n));
  }

  lemma LengthShift(n: nat, k: nat)
    requires n > 0
    ensures Shift(n, k) > 0 && Length(Shift(n, k)) == Length(n) + k
  {
    LengthBounds(n);
    ShiftBound(n, k, Length(n));
    ShiftOrder(Pow10(Length(n) - 1), n, k);
    ShiftPower(Length(n) - 1, k);
    LengthIs(Shift(n, k), Length(n) + k);
  }

  lemma RoundsUpShift(n: nat, k: nat, drop: Precision)
    ensures Cut(Shift(n, k), drop + k) == Cut(n, drop)
    ensures RoundsUp(Shift(n, k), drop + k) == RoundsUp(n, drop)
  {
    CutPastZeros(n, k, drop);
    var r := Tail(n, drop);
    ShiftPower(drop, k);
    ShiftSum(r, r, k);
    Scaling(2 * r, Pow10(drop), Pow10(k));
  }

  /** `y` is `x`, with `k` of its trailing zeros moved into the exponent. */
  ghost predicate Shifted(x: Dec, y: Dec, k: nat) {
    x.coeff == Shift(y.coeff, k) && y.exp == x.exp + k
  }

  lemma ShiftedFloor(x: Dec, y: Dec, k: nat, s: int)
    requires Shifted(x, y, k)
    ensures Floor(Dec(x.coeff, x.exp + s)) == Floor(Dec(y.coeff, y.exp + s))
  {
    FloorShift(y.coeff, x.exp + s, k);
  }

  /** Rounding `x` with zeros behind it gives the same number as rounding `x`. */
  lemma RoundedShift(x: Dec, k: nat, p: Precision) returns (j: nat)
    ensures Shifted(Rounded(Dec(Shift(x.coeff, k), x.exp - k), p), Rounded(x, p), j)
  {
    var z := Dec(Shift(x.coeff, k), x.exp - k);
    j := k;
    if x.coeff == 0 {
      ZeroLength();
    } else {
      LengthShift(x.coeff, k);
      if Length(x.coeff) > p {
        RoundsUpShift(x.coeff, k, Length(x.coeff) - p);
        j := 0;
      } else if Length(z.coeff) > p {
        var drop := Length(z.coeff) - p;
        CutZeros(x.coeff, k, drop);
        j := k - drop;
      }
    }
  }

  // ---- from text to base units -----------------------------------------------------------------

  /** The exponent of the leading digit. */
  function Adjusted(x: Dec): int {
    x.exp + Length(x.coeff) - 1
  }

  lemma ZeroLength()
    ensures Length(0) == 1
  {
  }

  /** The `p` digits that are kept. */
  lemma KeptDigits(n: nat, drop: Precision, p: Precision)
    requires drop >= 1 && Length(n) == p + drop
    ensures Pow10(p - 1) <= Cut(n, drop) < Pow10(p)
  {
    LengthBounds(n);
    ZeroLength();
    CutBound(n, drop, p);
    CutLeads(n, drop);
  }

  lemma LongRounded(x: Dec, p: Precision)
    requires Length(x.coeff) > p
    ensures Rounded(x, p).coeff < Pow10(p) && Length(Rounded(x, p).coeff) == p
    ensures 0 <= Rounded(x, p).exp - (x.exp + Length(x.coeff) - p) <= 1
  {
    var q := Cut(x.coeff, Length(x.coeff) - p);
    KeptDigits(x.coeff, Length(x.coeff) - p, p);
    LengthIs(q, p);
    LengthIs(Pow10(p - 1), p);
    if q + 1 < Pow10(p) { LengthIs(q + 1, p); }
  }

  lemma RoundedBound(x: Dec, p: Precision)
    ensures var y := Rounded(x, p);
      && y.coeff < Pow10(p) && Adjusted(x) <= Adjusted(y) <= Adjusted(x) + 1 && (x.coeff == 0 ==> y == x)
  {
    ZeroLength();
    if Length(x.coeff) <= p {
      LengthBounds(x.coeff);
      PowMonotone(Length(x.coeff), p);
    } else {
      LongRounded(x, p);
    }
  }

  lemma CutLeads(n: nat, drop: Precision)
    requires n > 0 && drop < Length(n)
    ensures Cut(n, drop) >= Pow10(Length(n) - 1 - drop)
  {
    LengthBounds(n);
    var lead := Pow10(Length(n) - 1 - drop);
    ShiftPower(Length(n) - 1 - drop, drop);
    CutIs(Shift(lead, drop), drop, lead, 0);
    CutOrder(Shift(lead, drop), n, drop);
  }

  lemma FinishFloor(y: Dec, k: nat, p: Precision)
    requires y.coeff > 0 ==> Adjusted(y) < EMAX
    ensures var r := Finish(Dec(Shift(y.coeff, k), y.exp - k), p); r.Value? && Floor(r.value) == Floor(Rounded(y, p))
  {
    var z := Dec(Shift(y.coeff, k), y.exp - k);
    var j := RoundedShift(y, k, p);
    ShiftedFloor(Rounded(z, p), Rounded(y, p), j, 0);
    RoundedBound(z, p);
    if y.coeff > 0 { LengthShift(y.coeff, k); }
  }

  lemma QuantumIs(decimals: nat, p: Precision) returns (k: nat)
    requires decimals <= EMAX
    ensures Quantum(decimals, p) == Value(Dec(Pow10(k), decimals - k))
  {
    k := if decimals < p then decimals else p - 1;
  }

  lemma ScaledDownStep(x: Dec, decimals: nat, k: nat, p: Precision)
    requires Quantum(decimals, p) == Value(Dec(Pow10(k), decimals - k))
    ensures ScaledDown(x, decimals, p) ==
      match Finish(Dec(Shift(x.coeff, k), x.exp + decimals - k), p) case Raised(why) => Raised(why) case Value(y) => Value(Floor(y))
  {
    assert x.coeff * Pow10(k) == Shift(x.coeff, k) && x.exp + (decimals - k) == x.exp + decimals - k;
  }

  /** Scaling by the quantum is one rounding of the amount to `p` digits, then truncation. */
  lemma ScaledDownRounds(x: Dec, decimals: nat, p: Precision)
    requires decimals <= EMAX && (x.coeff > 0 ==> Adjusted(x) + decimals < EMAX)
    ensures ScaledDown(x, decimals, p) == Value(Floor(Rounded(Dec(x.coeff, x.exp + decimals), p)))
  {
    var k := QuantumIs(decimals, p);
    ScaledDownStep(x, decimals, k, p);
    FinishFloor(Dec(x.coeff, x.exp + decimals), k, p);
  }

  /** `r` is the largest integer not above the number. */
  ghost predicate IsFloor(r: nat, x: Dec) {
    if x.exp >= 0 then r == Shift(x.coeff, x.exp) else Shift(r, -x.exp) <= x.coeff < Shift(r, -x.exp) + Pow10(-x.exp)
  }

  lemma FloorMeans(r: nat, x: Dec)
    ensures r == Floor(x) <==> IsFloor(r, x)
  {
    if x.exp < 0 && IsFloor(r, x) { CutIs(x.coeff, -x.exp, r, x.coeff - Shift(r, -x.exp)); }
  }

  /** For any amount of at most `p` significant digits, the result is the floor of the exact product. */
  lemma ToBaseUnitsFloors(text: string, decimals: nat, x: Dec, p: Precision)
    requires ParseDecimal(text) == Some((false, x)) && Fits(x.coeff, p)
    requires decimals <= EMAX && (x.coeff > 0 ==> Adjusted(x) + decimals < EMAX)
    ensures var r := ToBaseUnits(text, decimals, p);
      r.Value? && IsFloor(r.value, Dec(x.coeff, x.exp + decimals))
  {
    var y := Dec(x.coeff, x.exp + decimals);
    ScaledDownRounds(x, decimals, p);
    FitsFloor(y, p);
    FloorMeans(Floor(y), y);
  }

  lemma FitsFloor(x: Dec, p: Precision)
    requires Fits(x.coeff, p)
    ensures Floor(Rounded(x, p)) == Floor(x)
  {
    FitsRounds(x, p);
    ShiftedFloor(x, Rounded(x, p), Rounded(x, p).exp - x.exp, 0);
  }

  // ---- never rounding up -----------------------------------------------------------------------

  predicate Whole(x: Dec) {
    x.exp >= 0 || Tail(x.coeff, -x.exp) == 0
  }

  /** More than `p` digits, rounded away from zero, to a whole number of base units. */
  predicate RoundsToWhole(x: Dec, p: Precision) {
    && Length(x.coeff) > p && RoundsUp(x.coeff, Length(x.coeff) - p)
    && Whole(Dec(Cut(x.coeff, Length(x.coeff) - p) + 1, x.exp + Length(x.coeff) - p))
  }

  lemma CarryFloor(x: Dec, p: Precision)
    requires Length(x.coeff) > p && RoundsUp(x.coeff, Length(x.coeff) - p)
    ensures var drop := Length(x.coeff) - p;
      Floor(Rounded(x, p)) == Floor(Dec(Cut(x.coeff, drop) + 1, x.exp + drop))
  {
    var drop := Length(x.coeff) - p;
    if Cut(x.coeff, drop) + 1 >= Pow10(p) {
      KeptDigits(x.coeff, drop, p);
      ShiftPower(p - 1, 1);
      FloorShift(Pow10(p - 1), x.exp + drop, 1);
    }
  }

  /** The next multiple of a power of ten has a larger floor exactly when it is whole. */
  lemma NextFloor(coeff: nat, exp: int, drop: Precision)
    ensures var up := Dec(Cut(coeff, drop) + 1, exp + drop);
      Floor(up) >= Floor(Dec(coeff, exp)) && (Floor(up) > Floor(Dec(coeff, exp)) <==> Whole(up))
  {
    var q := Cut(coeff, drop);
    var up := Dec(q + 1, exp + drop);
    FloorShift(q + 1, exp, drop);
    ShiftSum(q, 1, drop);
    FloorMonotone(coeff, Shift(q + 1, drop), exp);
    if exp + drop >= 0 {
      if exp < 0 { ShiftShift(q + 1, exp + drop, -exp); }
      NextWhole(coeff, exp, Shift(q + 1, drop), Floor(up));
    } else {
      var t := -(exp + drop);
      if Tail(q + 1, t) == 0 {
        ShiftShift(Floor(up), t, drop);
        NextWhole(coeff, exp, Shift(q + 1, drop), Floor(up));
      } else {
        SameCut(q, t);
        ShiftShift(Cut(q, t), t, drop);
        ShiftOrder(Shift(Cut(q, t), t), q, drop);
        FloorShift(q, exp, drop);
        FloorMonotone(Shift(q, drop), coeff, exp);
      }
    }
  }

  lemma SameCut(q: nat, t: nat)
    requires Tail(q + 1, t) != 0
    ensures Cut(q, t) == Cut(q + 1, t)
  {
    CutIs(q, t, Cut(q + 1, t), Tail(q + 1, t) - 1);
  }

  /** Below a whole number, the floor is smaller. */
  lemma NextWhole(a: nat, exp: int, b: nat, whole: nat)
    requires a < b && if exp >= 0 then whole == Shift(b, exp) else b == Shift(whole, -exp)
    ensures Floor(Dec(a, exp)) < whole
  {
    if exp >= 0 { ShiftOrder(a, b, exp); } else { ShiftOrder(Cut(a, -exp), whole, -exp); ShiftOrder(whole, Cut(a, -exp), -exp); }
  }

  lemma CutFloor(x: Dec, drop: Precision)
    ensures Floor(Dec(Cut(x.coeff, drop), x.exp + drop)) <= Floor(x)
  {
    FloorShift(Cut(x.coeff, drop), x.exp, drop);
    FloorMonotone(Shift(Cut(x.coeff, drop), drop), x.coeff, x.exp);
  }

  lemma RoundedVersusFloor(y: Dec, p: Precision)
    ensures Floor(Rounded(y, p)) <= Floor(y) <==> !RoundsToWhole(y, p)
  {
    if Length(y.coeff) > p {
      var drop := Length(y.coeff) - p;
      if RoundsUp(y.coeff, drop) {
        NextFloor(y.coeff, y.exp, drop);
        CarryFloor(y, p);
      } else {
        CutFloor(y, drop);
      }
    }
  }

  /**
   The conversion promises never to round up. It keeps that promise for a text exactly when rounding
   the digits of the amount it reads as to `p` does not carry up to a whole number of base units.
   */
  lemma NeverRoundsUpIff(text: string, negative: bool, x: Dec, decimals: nat, p: Precision)
    requires ParseDecimal(text) == Some((negative, x)) && !(negative && x.coeff > 0)
    requires decimals <= EMAX && (x.coeff > 0 ==> Adjusted(x) + decimals < EMAX)
    ensures var y := Dec(x.coeff, x.exp + decimals); var r := ToBaseUnits(text, decimals, p);
      r.Value? && (r.value <= Floor(y) <==> !RoundsToWhole(y, p))
  {
    ScaledDownRounds(x, decimals, p);
    RoundedVersusFloor(Dec(x.coeff, x.exp + decimals), p);
  }

  /** It does break it: one nine more than the context keeps is rounded up to the next power of ten. */
  lemma NinesRoundUp(p: Precision)
    requires p < EMAX - 2
    ensures ToBaseUnits(Printed(Pow10(p + 1) - 1), 0, p) == Value(Pow10(p + 1))
  {
    var n := Pow10(p + 1) - 1;
    PrintedValue(n);
    WholeParses(Printed(n));
    NinesScale(n, p);
  }

  lemma NinesScale(n: nat, p: Precision)
    requires p < EMAX - 2 && n == Pow10(p + 1) - 1
    ensures ScaledDown(Dec(n, 0), 0, p) == Value(Pow10(p + 1))
  {
    NinesCut(p);
    LengthIs(n, p + 1);
    ScaledDownRounds(Dec(n, 0), 0, p);
    CarryFloor(Dec(n, 0), p);
    ShiftPower(p, 1);
  }

  lemma NinesCut(p: nat)
    ensures Pow10(p + 1) - 1 >= Pow10(p) && Cut(Pow10(p + 1) - 1, 1) == Pow10(p) - 1 && Tail(Pow10(p + 1) - 1, 1) == 9
  {
    ShiftTen(Pow10(p) - 1, 0);
    ShiftNone(Pow10(p) - 1);
    CutIs(Pow10(p + 1) - 1, 1, Pow10(p) - 1, 9);
  }

  // ---- printing and reading back ---------------------------------------------------------------

  lemma {:induction false} StripZeros(head: string, ds: string)
    requires head != "" && head[|head| - 1] != '0'
    ensures StripRight(head + ds, '0') == head + StripRight(ds, '0')
  {
    if |ds| == 0 {
      assert head + ds == head;
    } else {
      var init := ds[..|ds| - 1];
      assert (head + ds)[..|head + ds| - 1] == head + init;
      if ds[|ds| - 1] == '0' { StripZeros(head, init); }
    }
  }

  /** What is stripped is zeros. */
  lemma {:induction false} StripIsCut(w: string, ds: string)
    requires AllDigits(w) && AllDigits(ds)
    ensures var kept := StripRight(ds, '0');
      && |kept| <= |ds| && AllDigits(kept) && AllDigits(w + kept) && AllDigits(w + ds)
      && Shift(Digits.Value(w + kept), |ds| - |kept|) == Digits.Value(w + ds)
      && (kept != "" ==> kept[|kept| - 1] != '0')
  {
    DigitsConcat(w, ds);
    if |ds| > 0 && ds[|ds| - 1] == '0' {
      var init := ds[..|ds| - 1];
      StripIsCut(w, init);
      ValueSnoc(w + ds, w + init, '0');
      ShiftTen(Digits.Value(w + StripRight(ds, '0')), |init| - |StripRight(ds, '0')|);
    } else {
      ShiftNone(Digits.Value(w + ds));
    }
  }

  lemma DigitsUnsigned(text: string)
    requires |text| > 0 && IsDigit(text[0])
    ensures ParseDecimal(text) == match ParseUnsigned(text, 0) case None => None case Some(x) => Some((false, x))
  {
  }

  lemma WholeParses(w: string)
    requires AllDigits(w) && |w| > 0
    ensures ParseDecimal(w) == Some((false, Dec(Digits.Value(w), 0)))
  {
    DigitsUnsigned(w);
    SpanFromIs(w, 0, |w|);
    assert Fraction(w, |w|) == "" && ParseExponent(w[|w|..]) == Some(0);
    assert w[0..|w|] + "" == w;
  }

  lemma PointScan(w: string, f: string)
    requires AllDigits(w) && AllDigits(f)
    ensures var t := w + "." + f;
      SpanFrom(t, 0) == |w| && FractionEnd(t, |w|) == |t| && Fraction(t, |w|) == f && t[0..|w|] == w
  {
    var t := w + "." + f;
    assert forall i | 0 <= i < |w| :: t[i] == w[i];
    SpanFromIs(t, 0, |w|);
    assert forall i | |w| + 1 <= i < |t| :: t[i] == f[i - |w| - 1];
    SpanFromIs(t, |w| + 1, |t|);
    assert t[|w| + 1..|t|] == f;
    assert t[0..|w|] == w;
  }

  lemma PointParses(w: string, f: string)
    requires AllDigits(w) && AllDigits(f) && |w| > 0
    ensures AllDigits(w + f) && ParseDecimal(w + "." + f) == Some((false, Dec(Digits.Value(w + f), -|f|)))
  {
    var t := w + "." + f;
    assert t[0] == w[0];
    DigitsUnsigned(t);
    PointScan(w, f);
    assert ParseExponent(t[|t|..]) == Some(0);
    DigitsConcat(w, f);
  }

  lemma ShownWithPoint(w: string, f: string) returns (kept: string)
    requires AllDigits(w) && AllDigits(f) && |w| > 0
    ensures |kept| <= |f| && AllDigits(kept) && AllDigits(w + kept) && AllDigits(w + f)
    ensures Shift(Digits.Value(w + kept), |f| - |kept|) == Digits.Value(w + f)
    ensures StripRight(StripRight(w + "." + f, '0'), '.') == if kept == "" then w else w + "." + kept
  {
    kept := StripRight(f, '0');
    StripIsCut(w, f);
    StripZeros(w + ".", f);
    var t := w + "." + kept;
    assert (w + ".") + kept == t;
    if kept == "" {
      assert t[..|t| - 1] == w && t[|t| - 1] == '.';
      assert StripRight(w, '.') == w;
    } else {
      assert t[|t| - 1] == kept[|kept| - 1];
    }
  }

  lemma ShownWhole(x: Dec)
    requires x.exp >= 0
    ensures ParseDecimal(Shown(x)) == Some((false, Dec(Shift(x.coeff, x.exp), 0)))
  {
    var text := Printed(x.coeff);
    PrintedValue(x.coeff);
    if x.coeff == 0 {
      assert text + "" == text;
      WholeParses(text);
    } else {
      ValueZeros(text, x.exp);
      WholeParses(text + ZeroDigits(x.exp));
    }
  }

  lemma FixedDigits(x: Dec) returns (w: string, f: string)
    requires x.exp < 0
    ensures AllDigits(w) && AllDigits(f) && |w| > 0 && |f| == -x.exp
    ensures AllDigits(w + f) && Digits.Value(w + f) == x.coeff && FormatFixed(x) == w + "." + f
  {
    var scale, text := -x.exp, Printed(x.coeff);
    PrintedValue(x.coeff);
    var digits := if |text| <= scale then ZeroDigits(scale + 1 - |text|) + text else text;
    if |text| <= scale { ZerosValue(scale + 1 - |text|, text); }
    w, f := digits[..|digits| - scale], digits[|digits| - scale..];
    assert w + f == digits;
  }

  lemma ShownText(x: Dec, w: string, f: string)
    requires FormatFixed(x) == w + "." + f
    ensures Shown(x) == StripRight(StripRight(w + "." + f, '0'), '.')
  {
    assert (w + "." + f)[|w|] == '.';
  }

  lemma ShownFraction(x: Dec) returns (y: Dec)
    requires x.exp < 0
    ensures ParseDecimal(Shown(x)) == Some((false, y)) && y.exp >= x.exp && Shifted(x, y, y.exp - x.exp)
  {
    var w, f := FixedDigits(x);
    var kept := ShownWithPoint(w, f);
    ShownText(x, w, f);
    y := Dec(Digits.Value(w + kept), -|kept|);
    if kept == "" {
      assert w + "" == w;
      WholeParses(w);
    } else {
      PointParses(w, kept);
    }
  }

  // ---- round trips -----------------------------------------------------------------------------

  lemma {:induction false} ReducedShift(x: Dec, ideal: int) returns (k: nat)
    ensures Shifted(x, Reduced(x, ideal), k)
    decreases ideal - x.exp
  {
    if x.exp < ideal && x.coeff % 10 == 0 {
      var k' := ReducedShift(Dec(x.coeff / 10, x.exp + 1), ideal);
      ShiftShift(Reduced(x, ideal).coeff, k', 1);
      k := k' + 1;
    } else {
      k := 0;
    }
  }

  lemma ShortFits(n: nat, p: Precision)
    requires n < Pow10(p)
    ensures Fits(n, p)
  {
    assert n == Shift(n, 0);
    SignificantFits(n, n, 0, p);
  }

  lemma Grows(n: nat, factor: nat)
    requires factor >= 1
    ensures n * factor >= n
  {
  }

  lemma ShiftedFits(x: Dec, y: Dec, k: nat, p: Precision)
    requires Shifted(x, y, k) && x.coeff < Pow10(p)
    ensures y.coeff < Pow10(p)
  {
    Grows(y.coeff, Pow10(k));
  }

  lemma ShiftedAdjusted(x: Dec, y: Dec, k: nat)
    requires Shifted(x, y, k) && y.coeff > 0
    ensures x.coeff > 0 && Adjusted(x) == Adjusted(y)
  {
    LengthShift(y.coeff, k);
  }

  /** A text that reads as `y` scales to whatever `y` has for a floor. */
  lemma TextScales(text: string, y: Dec, decimals: nat, p: Precision, floor: nat)
    requires ParseDecimal(text) == Some((false, y)) && Fits(y.coeff, p) && floor == Floor(Dec(y.coeff, y.exp + decimals))
    requires decimals <= EMAX && (y.coeff > 0 ==> Adjusted(y) + decimals < EMAX)
    ensures ToBaseUnits(text, decimals, p) == Value(floor)
  {
    ScaledDownRounds(y, decimals, p);
    FitsFloor(Dec(y.coeff, y.exp + decimals), p);
  }

  /** `y` has few enough digits, and the same size and scaled floor as `x`. */
  ghost predicate StandsFor(y: Dec, x: Dec, decimals: nat, p: Precision) {
    && Fits(y.coeff, p) && (y.coeff > 0 ==> x.coeff > 0 && Adjusted(x) == Adjusted(y))
    && Floor(Dec(x.coeff, x.exp + decimals)) == Floor(Dec(y.coeff, y.exp + decimals))
  }

  lemma WholeStands(x: Dec, y: Dec, decimals: nat, p: Precision)
    requires x.exp >= 0 && x.coeff < Pow10(p) && y == Dec(Shift(x.coeff, x.exp), 0)
    ensures StandsFor(y, x, decimals, p)
  {
    SignificantFits(y.coeff, x.coeff, x.exp, p);
    if x.coeff > 0 { LengthShift(x.coeff, x.exp); }
    FloorShift(x.coeff, decimals, x.exp);
  }

  lemma FractionStands(x: Dec, y: Dec, k: nat, decimals: nat, p: Precision)
    requires Shifted(x, y, k) && x.coeff < Pow10(p)
    ensures StandsFor(y, x, decimals, p)
  {
    ShiftedFits(x, y, k, p);
    ShortFits(y.coeff, p);
    if y.coeff > 0 { ShiftedAdjusted(x, y, k); }
    ShiftedFloor(x, y, k, decimals);
  }

  lemma WholeReads(x: Dec, decimals: nat, p: Precision) returns (y: Dec)
    requires x.exp >= 0 && x.coeff < Pow10(p)
    ensures ParseDecimal(Shown(x)) == Some((false, y)) && StandsFor(y, x, decimals, p)
  {
    ShownWhole(x);
    y := Dec(Shift(x.coeff, x.exp), 0);
    WholeStands(x, y, decimals, p);
  }

  lemma FractionReads(x: Dec, decimals: nat, p: Precision) returns (y: Dec)
    requires x.exp < 0 && x.coeff < Pow10(p)
    ensures ParseDecimal(Shown(x)) == Some((false, y)) && StandsFor(y, x, decimals, p)
  {
    y := ShownFraction(x);
    FractionStands(x, y, y.exp - x.exp, decimals, p);
  }

  lemma ShownReads(x: Dec, decimals: nat, p: Precision) returns (y: Dec)
    requires x.coeff < Pow10(p)
    ensures ParseDecimal(Shown(x)) == Some((false, y)) && StandsFor(y, x, decimals, p)
  {
    if x.exp >= 0 { y := WholeReads(x, decimals, p); } else { y := FractionReads(x, decimals, p); }
  }

  /** A shown amount of at most `p` digits is read and scaled without any loss. */
  lemma ShownScales(x: Dec, decimals: nat, p: Precision)
    requires x.coeff < Pow10(p) && decimals <= EMAX && (x.coeff > 0 ==> Adjusted(x) + decimals < EMAX)
    ensures ToBaseUnits(Shown(x), decimals, p) == Value(Floor(Dec(x.coeff, x.exp + decimals)))
  {
    var y := ShownReads(x, decimals, p);
    TextScales(Shown(x), y, decimals, p, Floor(Dec(x.coeff, x.exp + decimals)));
  }

  /** Moving the exponent commutes with rounding. */
  lemma RoundedMoves(n: nat, exp: int, s: int, p: Precision)
    ensures var y := Rounded(Dec(n, exp), p); Rounded(Dec(n, exp + s), p) == Dec(y.coeff, y.exp + s)
  {
  }

  /** Scaling by the decimals commutes with rounding. */
  lemma RoundedWhole(n: nat, decimals: nat, p: Precision)
    ensures var y := Rounded(Dec(n, 0 - decimals), p); Rounded(Dec(n, 0), p) == Dec(y.coeff, y.exp + decimals)
  {
    RoundedMoves(n, 0 - decimals, decimals, p);
  }

  lemma RoundedOf(n: nat, decimals: nat, p: Precision)
    requires Length(n) < EMAX
    ensures var y := Rounded(Dec(n, 0 - decimals), p);
      Finish(Dec(n, 0 - decimals), p) == Value(y) && y.coeff < Pow10(p) && Adjusted(y) + decimals < EMAX
  {
    var z := Dec(n, 0 - decimals);
    RoundedBound(z, p);
    FinishIs(z, p);
  }

  lemma FinishIs(z: Dec, p: Precision)
    requires Adjusted(Rounded(z, p)) <= EMAX
    ensures Finish(z, p) == Value(Rounded(z, p))
  {
  }

  function Ideal(decimals: nat, p: Precision): int {
    if decimals < p then 0 else p - 1 - decimals
  }

  lemma QuotientIs(n: nat, decimals: nat, y: Dec, p: Precision)
    requires decimals <= EMAX && Finish(Dec(n, 0 - decimals), p) == Value(y)
    ensures Quantum(decimals, p).Value?
    ensures Quotient(n, decimals, Quantum(decimals, p).value, p) == Value(if Fits(n, p) then Reduced(y, Ideal(decimals, p)) else y)
  {
    assert -Quantum(decimals, p).value.exp == Ideal(decimals, p);
  }

  /** What is shown of `n` base units: `n` rounded to `p` digits. */
  lemma QuotientRounds(n: nat, decimals: nat, p: Precision) returns (x: Dec)
    requires decimals <= EMAX && Length(n) < EMAX
    ensures Quantum(decimals, p).Value? && Quotient(n, decimals, Quantum(decimals, p).value, p) == Value(x)
    ensures x.coeff < Pow10(p) && (x.coeff > 0 ==> Adjusted(x) + decimals < EMAX)
    ensures Floor(Dec(x.coeff, x.exp + decimals)) == Floor(Rounded(Dec(n, 0), p))
  {
    RoundedOf(n, decimals, p);
    RoundedWhole(n, decimals, p);
    var y := Rounded(Dec(n, 0 - decimals), p);
    QuotientIs(n, decimals, y, p);
    ReducedOf(y, Ideal(decimals, p), decimals, p);
    x := if Fits(n, p) then Reduced(y, Ideal(decimals, p)) else y;
  }

  lemma ReducedOf(y: Dec, ideal: int, decimals: nat, p: Precision)
    requires y.coeff < Pow10(p) && Adjusted(y) + decimals < EMAX
    ensures var x := Reduced(y, ideal);
      && x.coeff < Pow10(p) && Floor(Dec(x.coeff, x.exp + decimals)) == Floor(Dec(y.coeff, y.exp + decimals))
      && (x.coeff > 0 ==> Adjusted(x) + decimals < EMAX)
  {
    var x := Reduced(y, ideal);
    var k := ReducedShift(y, ideal);
    ShiftedFits(y, x, k, p);
    ShiftedFloor(y, x, k, decimals);
    if x.coeff > 0 { ShiftedAdjusted(y, x, k); }
  }

  /** Showing base units and reading them back rounds to `p` significant digits, whatever the decimals. */
  lemma RoundTripRounds(n: nat, decimals: nat, p: Precision)
    requires decimals <= EMAX && Length(n) < EMAX
    ensures var text := FromBaseUnits(n, decimals, p);
      text.Value? && ToBaseUnits(text.value, decimals, p) == Value(Floor(Rounded(Dec(n, 0), p)))
  {
    var x := QuotientRounds(n, decimals, p);
    assert FromBaseUnits(n, decimals, p) == Value(Shown(x));
    ShownScales(x, decimals, p);
  }

  // ---- half-even rounding ----------------------------------------------------------------------------

  /** `n` times ten to the power `drop` is a nearest such multiple to `coeff`; of two, the even one. */
  predicate NearestEven(coeff: nat, drop: nat, n: nat) {
    var multiple: int := Shift(n, drop);
    && -(Pow10(drop) as int) <= 2 * (multiple - coeff) <= Pow10(drop)
    && (2 * (multiple - coeff) == Pow10(drop) || 2 * (coeff - multiple) == Pow10(drop) ==> n % 2 == 0)
  }

  lemma RoundingChoice(coeff: nat, drop: nat)
    ensures NearestEven(coeff, drop, if RoundsUp(coeff, drop) then Cut(coeff, drop) + 1 else Cut(coeff, drop))
  {
    var q, r := Cut(coeff, drop), Tail(coeff, drop);
    ShiftSum(q, 1, drop);
    assert Shift(1, drop) == Pow10(drop);
    assert coeff == Shift(q, drop) + r;
  }

  /** A number of more than `p` digits becomes the nearest one of `p` digits, half to even. */
  lemma RoundsHalfEven(x: Dec, p: Precision) returns (n: nat)
    requires Length(x.coeff) > p
    ensures var y, drop := Rounded(x, p), Length(x.coeff) - p;
      && NearestEven(x.coeff, drop, n) && y.exp >= x.exp + drop && y.coeff < Pow10(p)
      && Shift(y.coeff, y.exp - x.exp) == Shift(n, drop)
  {
    var drop := Length(x.coeff) - p;
    var q := Cut(x.coeff, drop);
    LongRounded(x, p);
    KeptDigits(x.coeff, drop, p);
    RoundingChoice(x.coeff, drop);
    n := if RoundsUp(x.coeff, drop) then q + 1 else q;
    if RoundsUp(x.coeff, drop) && q + 1 >= Pow10(p) {
      ShiftPower(p - 1, drop + 1);
      ShiftPower(p, drop);
    }
  }

  lemma {:induction false} StripStops(s: string, c: char)
    ensures var r := StripRight(s, c); r <= s && (r != "" ==> r[|r| - 1] != c)
  {
    if |s| > 0 && s[|s| - 1] == c { StripStops(s[..|s| - 1], c); }
  }

  /** Stripping zeros and then a point leaves digits, or a fraction whose last digit is not zero. */
  lemma StrippedFraction(w: string, f: string)
    requires AllDigits(w) && AllDigits(f) && |w| > 0
    ensures var r := StripRight(StripRight(w + "." + f, '0'), '.');
      '.' in r ==> r[|r| - 1] != '0' && r[|r| - 1] != '.'
  {
    var text := w + "." + f;
    var cut := StripRight(text, '0');
    assert text[|w|] == '.' && forall i | 0 <= i < |text| && i != |w| :: IsDigit(text[i]);
    StripStops(text, '0');
    StripStops(cut, '.');
    if cut != "" && cut[|cut| - 1] == '.' {
      assert |cut| == |w| + 1 && cut[..|cut| - 1] == w;
      assert StripRight(w, '.') == w;
    }
  }

  /** What is shown has no zeros at the end of its fraction, and no point without one. */
  lemma ShownIsTrimmed(x: Dec)
    ensures var text := Shown(x); '.' in text ==> text[|text| - 1] != '0' && text[|text| - 1] != '.'
  {
    if x.exp < 0 {
      var w, f := FixedDigits(x);
      ShownText(x, w, f);
      StrippedFraction(w, f);
    } else {
      PrintedValue(x.coeff);
      assert forall i | 0 <= i < |FormatFixed(x)| :: IsDigit(FormatFixed(x)[i]);
    }
  }

  /** The round trip gives back `n` exactly when `n` is a number of at most `p` digits with zeros behind it. */
  lemma RoundTripIff(n: nat, decimals: nat, p: Precision)
    requires decimals <= EMAX && Length(n) < EMAX
    ensures var text := FromBaseUnits(n, decimals, p);
      text.Value? && (ToBaseUnits(text.value, decimals, p) == Value(n) <==> exists m, k :: Significant(n, m, k, p))
  {
    RoundTripRounds(n, decimals, p);
    FitsIsSignificant(n, p);
    if Fits(n, p) {
      FitsFloor(Dec(n, 0), p);
      assert Pow10(0) == 1;
    } else {
      UnfitRounds(n, p);
    }
  }

  lemma UnfitRounds(n: nat, p: Precision)
    requires !Fits(n, p)
    ensures Floor(Rounded(Dec(n, 0), p)) != n
  {
    var drop := Length(n) - p;
    var q := Cut(n, drop);
    CutZeros(q, drop, drop);
    CutZeros(q + 1, drop, drop);
    if RoundsUp(n, drop) { CarryFloor(Dec(n, 0), p); }
  }

  /** In particular every amount of at most `p` digits survives, for every number of decimals the context supports. */
  lemma RoundTripShort(n: nat, decimals: nat, p: Precision)
    requires n < Pow10(p) && p < EMAX
    ensures if decimals > EMAX then FromBaseUnits(n, decimals, p) == Raised(Overflow)
      else FromBaseUnits(n, decimals, p).Value? && ToBaseUnits(FromBaseUnits(n, decimals, p).value, decimals, p) == Value(n)
  {
    if decimals <= EMAX {
      ShortLength(n, p);
      RoundTripIff(n, decimals, p);
      IsSignificant(n, p);
    }
  }

  lemma ShortLength(n: nat, p: Precision)
    requires n < Pow10(p)
    ensures Length(n) <= p
  {
    LengthBounds(n);
    ZeroLength();
    if n > 0 { PowStrict(Length(n) - 1, p); }
  }

  lemma IsSignificant(n: nat, p: Precision)
    requires n < Pow10(p)
    ensures Significant(n, n, 0, p)
  {
    ShiftNone(n);
  }

  /** The default context: 28 digits. */
  lemma DefaultRoundTrip(n: nat, decimals: nat)
    requires n < Pow10(PRECISION) && decimals <= EMAX
    ensures var text := FromBaseUnits(n, decimals, PRECISION);
      text.Value? && ToBaseUnits(text.value, decimals, PRECISION) == Value(n)
  {
    RoundTripShort(n, decimals, PRECISION);
  }
}
