/**
 Token calldata as 0x-text: the encoders of clawmes/delegation/encoding.py, which go through
 bytes, and those of clawmes/lib/abi.py, which pad text; and the packed execution.
 */
module Calldata {
  import opened Bytes
  import opened Encoding

  const SELECTOR_TRANSFER := "0xa9059cbb"
  const SELECTOR_APPROVE := "0x095ea7b3"
  const SELECTOR_TRANSFER_FROM := "0x23b872dd"

  // ---- delegation/encoding.py ----------------------------------------------------

  /** A selector followed by an address word and an integer word. */
  function AddressAmountCall(sel: string, who: string, amount: int): Result<string> {
    var a :- AddrBytes(who);
    var n :- Uint256(amount);
    Ok(sel + ToHex(AddressWord(a)) + ToHex(n))
  }

  function EncodeErc20Transfer(to: string, amount: int): Result<string> {
    AddressAmountCall(SELECTOR_TRANSFER, to, amount)
  }

  function EncodeErc20Approve(spender: string, amount: int): Result<string> {
    AddressAmountCall(SELECTOR_APPROVE, spender, amount)
  }

  function EncodeErc721TransferFrom(from: string, to: string, tokenId: int): Result<string> {
    var f :- AddrBytes(from);
    var t :- AddrBytes(to);
    var n :- Uint256(tokenId);
    Ok(SELECTOR_TRANSFER_FROM + ToHex(AddressWord(f)) + ToHex(AddressWord(t)) + ToHex(n))
  }

  /** ERC-7579 single execution: target, value, then the raw call data. */
  function EncodeExecution(target: string, value: int, callData: string): Result<string> {
    var t :- AddrBytes(target);
    var v :- Uint256(value);
    var d :- HexArg(callData);
    Ok(Hex0x(t + v + d))
  }

  // ---- lib/abi.py ------------------------------------------------------------------

  predicate IsLowerHex(c: char) {
    '0' <= c <= '9' || 'a' <= c <= 'f'
  }

  function RightJustify(s: string, width: nat): (r: string)
    ensures |r| == if |s| < width then width else |s|
    ensures |s| <= width ==> r[width - |s|..] == s && forall i | 0 <= i < width - |s| :: r[i] == '0'
  {
    if |s| < width then seq(width - |s|, _ => '0') + s else s
  }

  function StripPrefix(s: string): string {
    if |s| >= 2 && s[0] == '0' && s[1] == 'x' then s[2..] else s
  }

  function AbiEncodeAddress(address: string): Result<string> {
    var cleaned := StripPrefix(Lower(address));
    if |cleaned| == 40 && forall i | 0 <= i < 40 :: IsLowerHex(cleaned[i])
    then Ok(RightJustify(cleaned, 64))
    else Err(InvalidAddress)
  }

  /** Python's `format(n, "x")`. */
  function FormatHex(n: nat): (r: string)
    ensures |r| >= 1
  {
    if n < 16 then [DigitChar(n)] else FormatHex(n / 16) + [DigitChar(n % 16)]
  }

  function AbiEncodeUint(value: int): Result<string> {
    if value < 0 || value >= UINT256_LIMIT then Err(IntegerOutOfRange)
    else Ok(RightJustify(FormatHex(value), 64))
  }

  function AbiAddressAmount(sel: string, who: string, amount: int): Result<string> {
    var a :- AbiEncodeAddress(who);
    var n :- AbiEncodeUint(amount);
    Ok(sel + a + n)
  }

  function AbiEncodeTransfer(to: string, amount: int): Result<string> {
    AbiAddressAmount(SELECTOR_TRANSFER, to, amount)
  }

  function AbiEncodeApprove(spender: string, amount: int): Result<string> {
    AbiAddressAmount(SELECTOR_APPROVE, spender, amount)
  }

  // ---- the two encoders agree ----------------------------------------------------------

  /** `n` printed with exactly `width` hexadecimal digits. */
  function FixedHex(n: nat, width: nat): (r: string)
    ensures |r| == width
  {
    if width == 0 then "" else FixedHex(n / 16, width - 1) + [DigitChar(n % 16)]
  }

  lemma {:induction false} FixedHexZero(width: nat)
    ensures FixedHex(0, width) == seq(width, _ => '0')
  {
    if width > 0 { FixedHexZero(width - 1); }
  }

  lemma {:induction false} JustifiedIsFixed(n: nat, width: nat)
    requires |FormatHex(n)| <= width
    ensures RightJustify(FormatHex(n), width) == FixedHex(n, width)
    decreases width
  {
    if n < 16 {
      FixedHexZero(width - 1);
    } else {
      JustifiedIsFixed(n / 16, width - 1);
      JustifySnoc(FormatHex(n / 16), DigitChar(n % 16), width - 1);
    }
  }

  lemma JustifySnoc(s: string, c: char, width: nat)
    ensures RightJustify(s + [c], width + 1) == RightJustify(s, width) + [c]
  {
    assert width + 1 - |s + [c]| == width - |s|;
    if |s| < width {
      var pad: string := seq(width - |s|, _ => '0');
      assert RightJustify(s + [c], width + 1) == pad + (s + [c]);
      Associate(pad, s, [c]);
    }
  }

  /** Printing big-endian bytes two digits at a time prints the integer. */
  lemma {:induction false} BytesPrintFixed(n: nat, len: nat)
    ensures ToHex(ToBytes(n, len)) == FixedHex(n, 2 * len)
  {
    if len > 0 {
      BytesPrintFixed(n / 256, len - 1);
      var last: seq<Byte> := [n % 256];
      ToHexConcat(ToBytes(n / 256, len - 1), last);
      assert ToHex(last) == [DigitChar(n % 256 / 16), DigitChar(n % 256 % 16)] by { assert last[1..] == []; }
      assert n / 16 / 16 == n / 256 && n / 16 % 16 == n % 256 / 16 && n % 16 == n % 256 % 16;
      assert FixedHex(n, 2 * len) == FixedHex(n / 16 / 16, 2 * len - 2) + [DigitChar(n / 16 % 16)] + [DigitChar(n % 16)];
    }
  }

  lemma {:induction false} FormatHexLength(n: nat, len: nat)
    requires n < Pow256(len) && len > 0
    ensures |FormatHex(n)| <= 2 * len
  {
    if len == 1 {
      assert Pow256(1) == 256 * Pow256(0);
    } else if n >= 256 {
      FormatHexLength(n / 256, len - 1);
      assert n / 16 / 16 == n / 256;
    }
  }

  lemma UintEncodersAgree(n: int)
    ensures AbiEncodeUint(n).Ok? <==> Uint256(n).Ok?
    ensures Uint256(n).Ok? ==> AbiEncodeUint(n).value == ToHex(Uint256(n).value)
  {
    if Uint256(n).Ok? {
      Uint256Limit();
      FormatHexLength(n, 32);
      JustifiedIsFixed(n, 64);
      BytesPrintFixed(n, 32);
    }
  }

  lemma LowerHexDigits(s: string)
    ensures (forall i | 0 <= i < |s| :: IsLowerHex(Lower(s)[i])) <==> IsHexText(s)
  {
    forall i | 0 <= i < |s| ensures IsLowerHex(Lower(s)[i]) <==> DigitValue(s[i]).Some? {
    }
  }

  function AddressDigits(s: string): string {
    if HasHexPrefix(s) then s[2..] else s
  }

  lemma PrefixStripped(s: string)
    ensures StripPrefix(Lower(s)) == Lower(AddressDigits(s))
  {
    assert forall c: char :: (LowerChar(c) == '0' <==> c == '0') && (LowerChar(c) == 'x' <==> c == 'x' || c == 'X');
    if HasHexPrefix(s) { assert Lower(s)[2..] == Lower(s[2..]); }
  }

  lemma AddressPrints(s: string)
    requires AddrBytes(s).Ok?
    ensures ToHex(AddressWord(AddrBytes(s).value)) == RightJustify(Lower(AddressDigits(s)), 64)
  {
    var digits := AddressDigits(s);
    FromHexDefined(digits);
    HexPrintsLower(digits);
    ToHexConcat(Zeros(12), AddrBytes(s).value);
    ToHexZeros(12);
    assert RightJustify(Lower(digits), 64) == seq(24, _ => '0') + Lower(digits);
  }

  lemma AddressEncodersAgree(s: string)
    ensures AbiEncodeAddress(s).Ok? <==> AddrBytes(s).Ok?
    ensures AddrBytes(s).Ok? ==> AbiEncodeAddress(s).value == ToHex(AddressWord(AddrBytes(s).value))
  {
    PrefixStripped(s);
    FromHexDefined(AddressDigits(s));
    LowerHexDigits(AddressDigits(s));
    if AddrBytes(s).Ok? { AddressPrints(s); }
  }

  /** On every text and every integer both encoders fail together, or give the same calldata. */
  lemma EncodersAgree(who: string, amount: int)
    ensures EncodeErc20Transfer(who, amount).Ok? <==> AbiEncodeTransfer(who, amount).Ok?
    ensures EncodeErc20Approve(who, amount).Ok? <==> AbiEncodeApprove(who, amount).Ok?
    ensures EncodeErc20Transfer(who, amount).Ok? <==> AddrBytes(who).Ok? && 0 <= amount < UINT256_LIMIT
    ensures EncodeErc20Transfer(who, amount).Ok? ==>
      && EncodeErc20Transfer(who, amount) == AbiEncodeTransfer(who, amount)
      && EncodeErc20Approve(who, amount) == AbiEncodeApprove(who, amount)
  {
    AddressEncodersAgree(who);
    UintEncodersAgree(amount);
  }

  // ---- reading calldata back -------------------------------------------------------------

  /** A four-byte selector, an address word with zero padding, an integer word: 68 bytes. */
  function ReadAddressAmount(sel: seq<Byte>, data: seq<Byte>): (r: Option<(Address, nat)>) {
    if |sel| == 4 && |data| == 68 && data[..4] == sel && data[4..16] == Zeros(12)
    then Some((data[16..36], FromBytes(data[36..]))) else None
  }

  function ReadTransferFrom(data: seq<Byte>): (r: Option<(Address, Address, nat)>) {
    if |data| == 100 && data[..4] == TRANSFER_FROM_BYTES && data[4..16] == Zeros(12) && data[36..48] == Zeros(12)
    then Some((data[16..36], data[48..68], FromBytes(data[68..]))) else None
  }

  function ReadExecution(e: seq<Byte>): (r: Option<(Address, nat, seq<Byte>)>) {
    if |e| >= 52 then Some((e[..20], FromBytes(e[20..52]), e[52..])) else None
  }

  const TRANSFER_BYTES: seq<Byte> := [0xa9, 0x05, 0x9c, 0xbb]
  const APPROVE_BYTES: seq<Byte> := [0x09, 0x5e, 0xa7, 0xb3]
  const TRANSFER_FROM_BYTES: seq<Byte> := [0x23, 0xb8, 0x72, 0xdd]

  lemma PrintFour(b: seq<Byte>)
    requires |b| == 4
    ensures ToHex(b) == [DigitChar(b[0] / 16), DigitChar(b[0] % 16), DigitChar(b[1] / 16), DigitChar(b[1] % 16),
                         DigitChar(b[2] / 16), DigitChar(b[2] % 16), DigitChar(b[3] / 16), DigitChar(b[3] % 16)]
  {
    var t, u, v := b[1..], b[2..], b[3..];
    assert t[1..] == u && u[1..] == v && v[1..] == [];
    assert ToHex(v) == [DigitChar(b[3] / 16), DigitChar(b[3] % 16)];
    assert ToHex(u) == [DigitChar(b[2] / 16), DigitChar(b[2] % 16)] + ToHex(v);
    assert ToHex(t) == [DigitChar(b[1] / 16), DigitChar(b[1] % 16)] + ToHex(u);
  }

  lemma SelectorText()
    ensures SELECTOR_TRANSFER == Hex0x(TRANSFER_BYTES)
    ensures SELECTOR_APPROVE == Hex0x(APPROVE_BYTES)
    ensures SELECTOR_TRANSFER_FROM == Hex0x(TRANSFER_FROM_BYTES)
  {
    PrintFour(TRANSFER_BYTES);
    PrintFour(APPROVE_BYTES);
    PrintFour(TRANSFER_FROM_BYTES);
  }

  lemma Hex0xConcat(a: seq<Byte>, b: seq<Byte>)
    ensures Hex0x(a) + ToHex(b) == Hex0x(a + b)
  {
    ToHexConcat(a, b);
    Associate("0x", ToHex(a), ToHex(b));
  }

  lemma CallText(sel: seq<Byte>, who: string, amount: int)
    requires |sel| == 4 && AddressAmountCall(Hex0x(sel), who, amount).Ok?
    ensures AddrBytes(who).Ok?
    ensures AddressAmountCall(Hex0x(sel), who, amount).value
      == Hex0x(sel + AddressWord(AddrBytes(who).value) + Uint256(amount).value)
  {
    var a: Address, n: seq<Byte> := AddrBytes(who).value, Uint256(amount).value;
    Hex0xConcat(sel, AddressWord(a));
    Hex0xConcat(sel + AddressWord(a), n);
  }

  lemma CallReadsBack(sel: seq<Byte>, who: string, amount: int)
    requires |sel| == 4 && AddressAmountCall(Hex0x(sel), who, amount).Ok?
    ensures AddrBytes(who).Ok?
    ensures ReadAddressAmount(sel, WireBytes(AddressAmountCall(Hex0x(sel), who, amount).value))
      == Some((AddrBytes(who).value, amount))
  {
    CallText(sel, who, amount);
    var a: Address, n: seq<Byte> := AddrBytes(who).value, Uint256(amount).value;
    var d := sel + AddressWord(a) + n;
    Uint256Reads(amount);
    WireBytesOf(d);
    assert d[..4] == sel && d[4..36] == AddressWord(a) && d[36..] == n;
    assert d[4..16] == AddressWord(a)[..12] && d[16..36] == AddressWord(a)[12..];
  }

  /** transfer and approve calldata decode to the address and amount they were built from. */
  lemma TransferRoundTrip(to: string, amount: int)
    requires EncodeErc20Transfer(to, amount).Ok?
    ensures AddrBytes(to).Ok?
    ensures ReadAddressAmount(TRANSFER_BYTES, WireBytes(EncodeErc20Transfer(to, amount).value))
      == Some((AddrBytes(to).value, amount))
    ensures EncodeErc20Approve(to, amount).Ok?
    ensures ReadAddressAmount(APPROVE_BYTES, WireBytes(EncodeErc20Approve(to, amount).value))
      == Some((AddrBytes(to).value, amount))
    ensures ReadAddressAmount(TRANSFER_BYTES, WireBytes(EncodeErc20Approve(to, amount).value)).None?
  {
    SelectorText();
    CallReadsBack(TRANSFER_BYTES, to, amount);
    CallReadsBack(APPROVE_BYTES, to, amount);
    assert TRANSFER_BYTES[0] != APPROVE_BYTES[0];
  }

  lemma TransferFromText(from: string, to: string, tokenId: int)
    requires EncodeErc721TransferFrom(from, to, tokenId).Ok?
    ensures AddrBytes(from).Ok? && AddrBytes(to).Ok?
    ensures EncodeErc721TransferFrom(from, to, tokenId).value
      == Hex0x(TRANSFER_FROM_BYTES + AddressWord(AddrBytes(from).value) + AddressWord(AddrBytes(to).value) + Uint256(tokenId).value)
  {
    var f: Address, t: Address, n: seq<Byte> := AddrBytes(from).value, AddrBytes(to).value, Uint256(tokenId).value;
    SelectorText();
    Hex0xConcat(TRANSFER_FROM_BYTES, AddressWord(f));
    Hex0xConcat(TRANSFER_FROM_BYTES + AddressWord(f), AddressWord(t));
    Hex0xConcat(TRANSFER_FROM_BYTES + AddressWord(f) + AddressWord(t), n);
  }

  lemma TransferFromRoundTrip(from: string, to: string, tokenId: int)
    requires EncodeErc721TransferFrom(from, to, tokenId).Ok?
    ensures AddrBytes(from).Ok? && AddrBytes(to).Ok?
    ensures ReadTransferFrom(WireBytes(EncodeErc721TransferFrom(from, to, tokenId).value))
      == Some((AddrBytes(from).value, AddrBytes(to).value, tokenId))
  {
    TransferFromText(from, to, tokenId);
    var f: Address, t: Address, n: seq<Byte> := AddrBytes(from).value, AddrBytes(to).value, Uint256(tokenId).value;
    var d := TRANSFER_FROM_BYTES + AddressWord(f) + AddressWord(t) + n;
    Uint256Reads(tokenId);
    WireBytesOf(d);
    assert d[..4] == TRANSFER_FROM_BYTES && d[68..] == n;
    assert d[4..36] == AddressWord(f) && d[36..68] == AddressWord(t);
    assert d[4..16] == AddressWord(f)[..12] && d[16..36] == AddressWord(f)[12..];
    assert d[36..48] == AddressWord(t)[..12] && d[48..68] == AddressWord(t)[12..];
  }

  /** The packed execution decodes to target, value and the call data's bytes. */
  lemma ExecutionRoundTrip(target: string, value: int, callData: string)
    requires EncodeExecution(target, value, callData).Ok?
    ensures AddrBytes(target).Ok? && HexArg(callData).Ok?
    ensures ReadExecution(WireBytes(EncodeExecution(target, value, callData).value))
      == Some((AddrBytes(target).value, value, HexArg(callData).value))
  {
    var t: Address, v: seq<Byte>, d: seq<Byte> := AddrBytes(target).value, Uint256(value).value, HexArg(callData).value;
    var e := t + v + d;
    Uint256Reads(value);
    WireBytesOf(e);
    assert e[..20] == t && e[20..52] == v && e[52..] == d;
  }
}
