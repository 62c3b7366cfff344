/** Decimal digit strings, as both `str(n)` prints them and `int(text)` reads them. */
module Digits {

  predicate IsDigit(c: char) {
    '0' <= c <= '9'
  }

  predicate AllDigits(s: string) {
    forall i | 0 <= i < |s| :: IsDigit(s[i])
  }

  function DigitOf(c: char): nat
    requires IsDigit(c)
  {
    c as int - '0' as int
  }

  /** `int(text)`. */
  function Value(s: string): nat
    requires AllDigits(s)
  {
    if |s| == 0 then 0 else 10 * Value(s[..|s| - 1]) + DigitOf(s[|s| - 1])
  }

  /** `str(n)`. */
  function Printed(n: nat): string {
    if n < 10 then [('0' as int + n) as char] else Printed(n / 10) + [('0' as int + n % 10) as char]
  }

  function Pow10(k: nat): (r: nat)
    ensures r >= 1
  {
    if k == 0 then 1 else 10 * Pow10(k - 1)
  }

  /** `n` with `k` zeros behind it. */
  function Shift(n: nat, k: nat): nat {
    n * Pow10(k)
  }

  lemma Division(n: nat, p: nat)
    requires p > 0
    ensures 0 <= n / p && 0 <= n % p < p && n == n / p * p + n % p
  {
  }

  /** `n` without its last `k` digits, and those digits. */
  function Cut(n: nat, k: nat): (q: nat)
    ensures Shift(q, k) <= n < Shift(q, k) + Pow10(k)
  {
    Division(n, Pow10(k));
    n / Pow10(k)
  }

  function Tail(n: nat, k: nat): (r: nat)
    ensures r < Pow10(k)
  {
    n - Shift(Cut(n, k), k)
  }

  lemma QuotientUnique(p: nat, q: int, q': int, r: int, r': int)
    requires 0 <= r < p && 0 <= r' < p && q * p + r == q' * p + r'
    ensures q == q' && r == r'
  {
    assert q - q' >= 1 ==> (q - q') * p >= p;
    assert q' - q >= 1 ==> (q' - q) * p >= p;
    assert (q - q') * p == r' - r;
  }

  /** Cutting is unique. */
  lemma CutIs(n: nat, k: nat, q: nat, r: nat)
    requires r < Pow10(k) && n == Shift(q, k) + r
    ensures Cut(n, k) == q && Tail(n, k) == r
  {
    QuotientUnique(Pow10(k), Cut(n, k), q, Tail(n, k), r);
  }

  lemma ShiftShift(n: nat, a: nat, b: nat)
    ensures Shift(Shift(n, a), b) == Shift(n, a + b)
  {
    PowSum(a, b);
    Associates(n, Pow10(a), Pow10(b));
  }

  lemma ShiftNone(n: nat)
    ensures Shift(n, 0) == n
  {
  }

  lemma ShiftTen(n: nat, k: nat)
    ensures Shift(n, k + 1) == 10 * Shift(n, k)
  {
    Associates(n, 10, Pow10(k));
    Associates(10, n, Pow10(k));
  }

  lemma Associates(a: int, b: int, c: int)
    ensures a * b * c == a * (b * c)
  {
  }

  lemma ShiftOrder(a: nat, b: nat, k: nat)
    ensures a <= b <==> Shift(a, k) <= Shift(b, k)
    ensures a < b ==> Shift(a, k) + Pow10(k) <= Shift(b, k)
  {
    Scaling(a, b, Pow10(k));
    assert a + 1 <= b ==> (a + 1) * Pow10(k) <= b * Pow10(k);
  }

  lemma Scaling(a: int, b: int, p: int)
    requires p > 0
    ensures (a * p > b * p <==> a > b) && (a * p == b * p <==> a == b)
  {
    assert a >= b + 1 ==> a * p >= (b + 1) * p;
    assert b >= a + 1 ==> b * p >= (a + 1) * p;
  }

  lemma ShiftSum(q: nat, r: nat, k: nat)
    ensures Shift(q + r, k) == Shift(q, k) + Shift(r, k)
  {
  }

  lemma ShiftPower(a: nat, k: nat)
    ensures Shift(Pow10(a), k) == Pow10(a + k)
  {
    PowSum(a, k);
  }

  lemma CutOrder(a: nat, b: nat, k: nat)
    requires a <= b
    ensures Cut(a, k) <= Cut(b, k)
  {
    ShiftOrder(Cut(b, k), Cut(a, k), k);
  }

  /** Cutting a number with zeros behind it, past those zeros. */
  lemma CutPastZeros(n: nat, k: nat, drop: nat)
    ensures Cut(Shift(n, k), drop + k) == Cut(n, drop) && Tail(Shift(n, k), drop + k) == Shift(Tail(n, drop), k)
  {
    var q, r := Cut(n, drop), Tail(n, drop);
    ShiftShift(q, drop, k);
    ShiftSum(Shift(q, drop), r, k);
    ShiftOrder(r, Pow10(drop), k);
    ShiftPower(drop, k);
    assert Shift(r, k) < Pow10(drop + k) by { ShiftOrder(Pow10(drop), r, k); }
    CutIs(Shift(n, k), drop + k, q, Shift(r, k));
  }

  lemma ShiftBound(m: nat, k: nat, digits: nat)
    requires m < Pow10(digits)
    ensures Shift(m, k) < Pow10(digits + k)
  {
    ShiftPower(digits, k);
    ShiftOrder(Pow10(digits), m, k);
  }

  lemma CutBound(n: nat, k: nat, digits: nat)
    requires n < Pow10(digits + k)
    ensures Cut(n, k) < Pow10(digits)
  {
    ShiftPower(digits, k);
    ShiftOrder(Pow10(digits), Cut(n, k), k);
  }

  /** Cutting off zeros. */
  lemma CutZeros(m: nat, k: nat, drop: nat)
    requires drop <= k
    ensures Cut(Shift(m, k), drop) == Shift(m, k - drop) && Tail(Shift(m, k), drop) == 0
  {
    ShiftShift(m, k - drop, drop);
    CutIs(Shift(m, k), drop, Shift(m, k - drop), 0);
  }

  /** Printing and reading undo each other; there are no leading zeros. */
  lemma {:induction false} PrintedValue(n: nat)
    ensures AllDigits(Printed(n)) && Value(Printed(n)) == n
    ensures |Printed(n)| > 0 && (n > 0 ==> Printed(n)[0] != '0')
  {
    if n < 10 {
      assert Printed(n)[..0] == "";
    } else {
      PrintedValue(n / 10);
      var s := Printed(n);
      assert s[..|s| - 1] == Printed(n / 10);
    }
  }

  /** The number of printed digits is the number of significant digits. */
  lemma {:induction false} PrintedLength(n: nat)
    ensures |Printed(n)| > 0 && n < Pow10(|Printed(n)|)
    ensures n > 0 ==> Pow10(|Printed(n)| - 1) <= n
  {
    if n < 10 {
      assert Pow10(1) == 10 * Pow10(0);
    } else {
      PrintedLength(n / 10);
    }
  }

  lemma {:induction false} PowSum(a: nat, b: nat)
    ensures Pow10(a + b) == Pow10(a) * Pow10(b)
  {
    if b > 0 {
      PowSum(a, b - 1);
      assert Pow10(a + b) == 10 * Pow10(a + (b - 1));
      assert 10 * (Pow10(a) * Pow10(b - 1)) == Pow10(a) * (10 * Pow10(b - 1));
    }
  }

  lemma PowMonotone(a: nat, b: nat)
    requires a <= b
    ensures Pow10(a) <= Pow10(b)
  {
    PowSum(a, b - a);
    assert Pow10(a) * Pow10(b - a) >= Pow10(a) * 1;
  }

  lemma PowStrict(a: nat, b: nat)
    requires Pow10(a) < Pow10(b)
    ensures a < b
  {
    if b <= a { PowMonotone(b, a); }
  }

  lemma DigitsConcat(a: string, b: string)
    requires AllDigits(a) && AllDigits(b)
    ensures AllDigits(a + b)
  {
  }

  lemma ValueSnoc(s: string, init: string, c: char)
    requires AllDigits(s) && s == init + [c]
    ensures AllDigits(init) && IsDigit(c) && Value(s) == 10 * Value(init) + DigitOf(c)
  {
    assert s[..|s| - 1] == init && s[|s| - 1] == c;
    assert forall i | 0 <= i < |init| :: init[i] == s[i];
  }

  lemma {:induction false} ValueConcat(a: string, b: string)
    requires AllDigits(a) && AllDigits(b)
    ensures AllDigits(a + b) && Value(a + b) == Shift(Value(a), |b|) + Value(b)
  {
    if |b| == 0 {
      assert a + b == a;
      ShiftNone(Value(a));
    } else {
      var init, c := b[..|b| - 1], b[|b| - 1];
      ValueConcat(a, init);
      DigitsConcat(a, b);
      ValueSnoc(a + b, a + init, c);
      ValueSnoc(b, init, c);
      ShiftTen(Value(a), |init|);
    }
  }

  function ZeroDigits(n: nat): (r: string)
    ensures |r| == n && AllDigits(r) && forall i | 0 <= i < n :: r[i] == '0'
  {
    seq(n, i => '0')
  }

  lemma {:induction false} ZeroDigitsValue(n: nat)
    ensures Value(ZeroDigits(n)) == 0
  {
    if n > 0 {
      ZeroDigitsValue(n - 1);
      assert ZeroDigits(n)[..n - 1] == ZeroDigits(n - 1);
    }
  }

  predicate DigitsBetween(s: string, i: nat, j: nat)
    requires j <= |s|
  {
    forall k | i <= k < j :: IsDigit(s[k])
  }

  /** Where the digits that start at position `i` end. */
  function SpanFrom(s: string, i: nat): (j: nat)
    requires i <= |s|
    ensures i <= j <= |s| && DigitsBetween(s, i, j) && (j < |s| ==> !IsDigit(s[j]))
    decreases |s| - i
  {
    if i == |s| || !IsDigit(s[i]) then i else SpanFrom(s, i + 1)
  }

  lemma SpanFromIs(s: string, i: nat, j: nat)
    requires i <= j <= |s| && DigitsBetween(s, i, j) && (j < |s| ==> !IsDigit(s[j]))
    ensures SpanFrom(s, i) == j
  {
    var k := SpanFrom(s, i);
    assert k < |s| ==> !IsDigit(s[k]);
  }

  /** Zeros printed behind a number shift it. */
  lemma ValueZeros(a: string, n: nat)
    requires AllDigits(a)
    ensures AllDigits(a + ZeroDigits(n)) && Value(a + ZeroDigits(n)) == Shift(Value(a), n)
  {
    ValueConcat(a, ZeroDigits(n));
    ZeroDigitsValue(n);
  }

  /** Zeros printed in front of a number do not change it. */
  lemma ZerosValue(n: nat, a: string)
    requires AllDigits(a)
    ensures AllDigits(ZeroDigits(n) + a) && Value(ZeroDigits(n) + a) == Value(a)
  {
    ValueConcat(ZeroDigits(n), a);
    ZeroDigitsValue(n);
  }
}
