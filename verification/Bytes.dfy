/** Byte strings: big-endian integers, lower-case hexadecimal text, and their inverses. */
module Bytes {

  type Byte = b: int | 0 <= b < 256

  datatype Option<+T> = None | Some(value: T)

  /** How a step of the encoders can fail: the exceptions the source lets through. */
  datatype Error =
    | UnsupportedChain
    | BadLimit
    | NotAddresses
    | Unrestricted
    | DateOutOfRange
    | IntegerOutOfRange
    | InvalidAddress
    | InvalidHex

  datatype Result<+T> = Ok(value: T) | Err(error: Error) {
    predicate IsFailure() { Err? }

    function PropagateFailure<U>(): Result<U>
      requires Err?
    {
      Err(error)
    }

    function Extract(): T
      requires Ok?
    {
      value
    }
  }

  // ---- big-endian integers -------------------------------------------------

  /** 256 to the power `len`: one more than the largest integer of `len` bytes. */
  function Pow256(len: nat): (r: nat)
    ensures r >= 1
  {
    if len == 0 then 1 else 256 * Pow256(len - 1)
  }

  /** 2 to the power 256 and 2 to the power 128. */
  const UINT256_LIMIT: nat := 0x1_00000000_00000000_00000000_00000000_00000000_00000000_00000000_00000000
  const UINT128_LIMIT: nat := 0x1_00000000_00000000_00000000_00000000

  lemma Uint256Limit()
    ensures UINT256_LIMIT == Pow256(32)
    ensures UINT128_LIMIT == Pow256(16)
  {
    assert Pow256(4) == 0x1_00000000;
    assert Pow256(8) == 0x1_00000000_00000000;
    assert Pow256(12) == 0x1_00000000_00000000_00000000;
    assert Pow256(16) == 0x1_00000000_00000000_00000000_00000000;
    assert Pow256(20) == 0x1_00000000_00000000_00000000_00000000_00000000;
    assert Pow256(24) == 0x1_00000000_00000000_00000000_00000000_00000000_00000000;
    assert Pow256(28) == 0x1_00000000_00000000_00000000_00000000_00000000_00000000_00000000;
    assert Pow256(32) == 0x1_00000000_00000000_00000000_00000000_00000000_00000000_00000000_00000000;
  }

  function ToBytes(n: nat, len: nat): (r: seq<Byte>)
    ensures |r| == len
  {
    if len == 0 then [] else ToBytes(n / 256, len - 1) + [n % 256]
  }

  function FromBytes(b: seq<Byte>): (n: nat)
    ensures n < Pow256(|b|)
  {
    if |b| == 0 then 0 else FromBytes(b[..|b| - 1]) * 256 + b[|b| - 1]
  }

  lemma {:induction false} FromToBytes(n: nat, len: nat)
    requires n < Pow256(len)
    ensures FromBytes(ToBytes(n, len)) == n
  {
    if len > 0 {
      var high, r := n / 256, ToBytes(n, len);
      assert Pow256(len) == 256 * Pow256(len - 1) && n == high * 256 + n % 256;
      FromToBytes(high, len - 1);
      FromBytesSnoc(ToBytes(high, len - 1), n % 256);
    }
  }

  lemma FromBytesSnoc(b: seq<Byte>, last: Byte)
    ensures FromBytes(b + [last]) == FromBytes(b) * 256 + last
  {
    assert (b + [last])[..|b|] == b;
  }

  function Zeros(k: nat): (r: seq<Byte>)
    ensures |r| == k
    ensures forall i | 0 <= i < k :: r[i] == 0
  {
    seq(k, _ => 0)
  }

  // ---- hexadecimal text ----------------------------------------------------

  type Nibble = n: int | 0 <= n < 16

  function DigitChar(n: Nibble): char {
    if n < 10 then ('0' as int + n) as char else ('a' as int + n - 10) as char
  }

  function DigitValue(c: char): (r: Option<int>)
    ensures r.Some? ==> 0 <= r.value < 16
  {
    if '0' <= c <= '9' then Some(c as int - '0' as int)
    else if 'a' <= c <= 'f' then Some(c as int - 'a' as int + 10)
    else if 'A' <= c <= 'F' then Some(c as int - 'A' as int + 10)
    else None
  }

  predicate IsHexText(s: string) {
    forall i | 0 <= i < |s| :: DigitValue(s[i]).Some?
  }

  function LowerChar(c: char): char {
    if 'A' <= c <= 'Z' then (c as int - 'A' as int + 'a' as int) as char else c
  }

  /** Python's `str.lower`, on ASCII text. */
  function Lower(s: string): (r: string)
    ensures |r| == |s|
    ensures forall i | 0 <= i < |s| :: r[i] == LowerChar(s[i])
  {
    seq(|s|, i requires 0 <= i < |s| => LowerChar(s[i]))
  }

  /** Python's `bytes.hex()`. */
  function ToHex(b: seq<Byte>): (r: string)
    ensures |r| == 2 * |b|
  {
    if |b| == 0 then "" else [DigitChar(b[0] / 16), DigitChar(b[0] % 16)] + ToHex(b[1..])
  }

  /** Python's `bytes.fromhex`, on text without white space. */
  function FromHex(s: string): (r: Result<seq<Byte>>)
    ensures r.Ok? ==> |s| == 2 * |r.value|
  {
    if |s| == 0 then Ok([])
    else if |s| == 1 then Err(InvalidHex)
    else
      var h, l, rest := DigitValue(s[0]), DigitValue(s[1]), FromHex(s[2..]);
      if h.Some? && l.Some? && rest.Ok? then Ok([h.value * 16 + l.value] + rest.value) else Err(InvalidHex)
  }

  lemma {:induction false} FromHexDefined(s: string)
    ensures FromHex(s).Ok? <==> |s| % 2 == 0 && IsHexText(s)
  {
    if |s| >= 2 {
      IsHexTextSplit(s);
      FromHexDefined(s[2..]);
    }
  }

  lemma IsHexTextSplit(s: string)
    requires |s| >= 2
    ensures IsHexText(s) <==> DigitValue(s[0]).Some? && DigitValue(s[1]).Some? && IsHexText(s[2..])
  {
    assert s == [s[0], s[1]] + s[2..];
    assert forall i | 2 <= i < |s| :: s[i] == s[2..][i - 2];
  }

  lemma DigitRoundTrip(n: Nibble)
    ensures DigitValue(DigitChar(n)) == Some(n)
    ensures LowerChar(DigitChar(n)) == DigitChar(n)
  {
  }

  /** Printing bytes as text and reading the text back gives the bytes. */
  lemma {:induction false} HexRoundTrip(b: seq<Byte>)
    ensures FromHex(ToHex(b)) == Ok(b)
  {
    if |b| == 0 {
    } else {
      HexRoundTrip(b[1..]);
      DigitRoundTrip(b[0] / 16);
      DigitRoundTrip(b[0] % 16);
      HexPairParses(DigitChar(b[0] / 16), DigitChar(b[0] % 16), ToHex(b[1..]));
      assert b == [b[0]] + b[1..];
    }
  }

  lemma HexPairParses(h: char, l: char, rest: string)
    requires DigitValue(h).Some? && DigitValue(l).Some? && FromHex(rest).Ok?
    ensures FromHex([h, l] + rest) == Ok([DigitValue(h).value * 16 + DigitValue(l).value] + FromHex(rest).value)
  {
    var s := [h, l] + rest;
    assert s[0] == h && s[1] == l && s[2..] == rest;
  }

  lemma DigitPrintLower(c: char)
    requires DigitValue(c).Some?
    ensures DigitChar(DigitValue(c).value) == LowerChar(c)
  {
  }

  lemma ToHexCons(v: Byte, b: seq<Byte>)
    ensures ToHex([v] + b) == [DigitChar(v / 16), DigitChar(v % 16)] + ToHex(b)
  {
    assert ([v] + b)[1..] == b;
  }

  lemma LowerCons(h: char, l: char, rest: string)
    ensures Lower([h, l] + rest) == [LowerChar(h), LowerChar(l)] + Lower(rest)
  {
  }

  lemma HexPairPrints(h: char, l: char, rest: string)
    requires DigitValue(h).Some? && DigitValue(l).Some?
    requires FromHex(rest).Ok? && ToHex(FromHex(rest).value) == Lower(rest)
    ensures FromHex([h, l] + rest).Ok? && ToHex(FromHex([h, l] + rest).value) == Lower([h, l] + rest)
  {
    DigitPrintLower(h);
    DigitPrintLower(l);
    HexPairParses(h, l, rest);
    ToHexCons(DigitValue(h).value * 16 + DigitValue(l).value, FromHex(rest).value);
    LowerCons(h, l, rest);
  }

  /** Reading text as bytes and printing them again gives the text in lower case. */
  lemma {:induction false} HexPrintsLower(s: string)
    requires |s| % 2 == 0 && IsHexText(s)
    ensures FromHex(s).Ok? && ToHex(FromHex(s).value) == Lower(s)
  {
    if |s| == 0 {
    } else {
      IsHexTextSplit(s);
      HexPrintsLower(s[2..]);
      HexPairPrints(s[0], s[1], s[2..]);
      assert [s[0], s[1]] + s[2..] == s;
    }
  }

  lemma Associate<T>(a: seq<T>, b: seq<T>, c: seq<T>)
    ensures (a + b) + c == a + (b + c)
  {
  }

  lemma {:induction false} ToHexConcat(a: seq<Byte>, b: seq<Byte>)
    ensures ToHex(a + b) == ToHex(a) + ToHex(b)
  {
    if |a| == 0 {
      assert a + b == b;
    } else {
      ToHexConcat(a[1..], b);
      assert (a + b)[0] == a[0] && (a + b)[1..] == a[1..] + b;
      Associate([DigitChar(a[0] / 16), DigitChar(a[0] % 16)], ToHex(a[1..]), ToHex(b));
    }
  }

  lemma {:induction false} ToHexZeros(k: nat)
    ensures ToHex(Zeros(k)) == seq(2 * k, _ => '0')
  {
    if k == 0 {
    } else {
      ToHexZeros(k - 1);
      assert Zeros(k)[1..] == Zeros(k - 1);
    }
  }

  // ---- the source's byte helpers ---------------------------------------------

  predicate HasHexPrefix(s: string) {
    |s| >= 2 && s[0] == '0' && (s[1] == 'x' || s[1] == 'X')
  }

  /** `_b`: 0x-prefixed or bare hexadecimal text to bytes; empty text is the empty string. */
  function HexArg(s: string): Result<seq<Byte>> {
    FromHex(if HasHexPrefix(s) then s[2..] else s)
  }

  /** `_hex`: bytes to 0x-prefixed text. */
  function Hex0x(b: seq<Byte>): string {
    "0x" + ToHex(b)
  }

  lemma HexArgRoundTrip(b: seq<Byte>)
    ensures HexArg(Hex0x(b)) == Ok(b)
  {
    HexRoundTrip(b);
    assert Hex0x(b)[2..] == ToHex(b);
  }

  type Address = a: seq<Byte> | |a| == 20 witness Zeros(20)

  /** `_addr_bytes`: exactly twenty bytes, or an error. */
  function AddrBytes(s: string): (r: Result<Address>) {
    var raw :- HexArg(s);
    if |raw| == 20 then Ok(raw) else Err(InvalidAddress)
  }

  /** A 0x-prefixed string of forty hexadecimal digits, in either case. */
  predicate IsAddressText(s: string) {
    |s| == 42 && s[0] == '0' && s[1] == 'x' && IsHexText(s[2..])
  }
}
