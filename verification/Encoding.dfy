/**
 Argument words and caveat terms (clawmes/delegation/encoding.py), with the reader a contract would
 apply to each; and the records of the delegation wire format.
 */
module Encoding {
  import opened Bytes
  import opened Abi

  datatype Caveat = Caveat(enforcer: string, terms: string, args: string)

  datatype SignedDelegation = SignedDelegation(
    delegate: string, delegator: string, authority: string, caveats: seq<Caveat>, salt: int, signature: string)

  // ---- argument words ----------------------------------------------------------

  /** A uint256 argument as a word; out-of-range integers are refused. */
  function Uint256(n: int): (r: Result<seq<Byte>>)
    ensures r.Ok? <==> 0 <= n < UINT256_LIMIT
    ensures r.Ok? ==> |r.value| == 32
  {
    if 0 <= n < UINT256_LIMIT then Ok(ToBytes(n, 32)) else Err(IntegerOutOfRange)
  }

  lemma Uint256Reads(n: int)
    requires Uint256(n).Ok?
    ensures FromBytes(Uint256(n).value) == n
  {
    Uint256Limit();
    FromToBytes(n, 32);
  }

  /** Twenty address bytes padded on the left to a word. */
  function AddressWord(a: Address): (r: seq<Byte>)
    ensures |r| == 32 && r[12..] == a
  {
    Zeros(12) + a
  }

  /**
   An address argument of the dynamic codec, which also refuses mixed-case text whose
   checksum is wrong; `accepts` stands for that hash-based test.
   */
  function AbiAddress(s: string, accepts: string -> bool): (r: Result<Address>)
    ensures r.Ok? ==> AddrBytes(s) == r
  {
    if accepts(s) then AddrBytes(s) else Err(InvalidAddress)
  }

  function AbiAddresses(ss: seq<string>, accepts: string -> bool): (r: Result<seq<Address>>)
    ensures r.Ok? ==> |r.value| == |ss| && forall i | 0 <= i < |ss| :: AddrBytes(ss[i]) == Ok(r.value[i])
  {
    if |ss| == 0 then Ok([])
    else
      var a :- AbiAddress(ss[0], accepts);
      var rest :- AbiAddresses(ss[1..], accepts);
      Ok([a] + rest)
  }

  /** `abi_encode` of static uint256 arguments: one word each, in order. */
  function Uints(ns: seq<int>): (r: Result<seq<Byte>>)
    ensures r.Ok? ==> |r.value| == 32 * |ns|
  {
    if |ns| == 0 then Ok([])
    else
      var w :- Uint256(ns[0]);
      var rest :- Uints(ns[1..]);
      Ok(w + rest)
  }

  // ---- caveat terms --------------------------------------------------------------

  function TermsUint(n: int): Result<string> {
    var w :- Uints([n]);
    Ok(Hex0x(w))
  }

  function TermsNativePeriod(allowance: int, startTime: int, period: int): Result<string> {
    var w :- Uints([allowance, startTime, period]);
    Ok(Hex0x(w))
  }

  function TermsErc20TransferAmount(token: string, maxAmount: int): Result<string> {
    var t :- AddrBytes(token);
    var m :- Uint256(maxAmount);
    Ok(Hex0x(t + m))
  }

  function TermsErc20Period(token: string, allowance: int, startTime: int, period: int, accepts: string -> bool)
    : Result<string>
  {
    var t :- AbiAddress(token, accepts);
    var w :- Uints([allowance, startTime, period]);
    Ok(Hex0x(AddressWord(t) + w))
  }

  /** Both arguments are uint128, each still a whole word. */
  function TermsTimestamp(executeAfter: int, executeBefore: int): Result<string> {
    if executeAfter >= UINT128_LIMIT || executeBefore >= UINT128_LIMIT then Err(IntegerOutOfRange)
    else
      var w :- Uints([executeAfter, executeBefore]);
      Ok(Hex0x(w))
  }

  function AddressValues(addresses: seq<Address>): (r: seq<Value>)
    ensures |r| == |addresses|
  {
    if |addresses| == 0 then [] else [Word(AddressWord(addresses[0]))] + AddressValues(addresses[1..])
  }

  const ADDRESS_LIST: seq<Type> := [TArray(TWord)]

  lemma {:induction false} AddressValuesTyped(addresses: seq<Address>)
    ensures HaveTypes(AddressValues(addresses), Repeat(TWord, |addresses|))
  {
    if |addresses| > 0 { AddressValuesTyped(addresses[1..]); }
  }

  lemma SingleTyped(t: Type, v: Value)
    requires HasType(v, t)
    ensures HaveTypes([v], [t])
  {
    assert HaveTypes([v][1..], [t][1..]);
  }

  function TermsAllowedTargets(targets: seq<string>, accepts: string -> bool): Result<string> {
    var addresses :- AbiAddresses(targets, accepts);
    AddressValuesTyped(addresses);
    SingleTyped(TArray(TWord), Array(AddressValues(addresses)));
    Ok(Hex0x(EncodeAll(ADDRESS_LIST, [Array(AddressValues(addresses))])))
  }

  // ---- reading terms back ----------------------------------------------------------

  /** The bytes a contract receives for 0x-text; malformed text reads as no bytes at all. */
  function WireBytes(s: string): seq<Byte> {
    if HexArg(s).Ok? then HexArg(s).value else []
  }

  lemma WireBytesOf(b: seq<Byte>)
    ensures WireBytes(Hex0x(b)) == b
  {
    HexArgRoundTrip(b);
  }

  /** The first `count` words, as integers. */
  function ReadUints(b: seq<Byte>, count: nat): (r: Option<seq<nat>>)
    ensures r.Some? ==> |r.value| == count
    decreases count
  {
    if count == 0 then Some([])
    else if |b| < 32 then None
    else
      var rest := ReadUints(b[32..], count - 1);
      if rest.Some? then Some([FromBytes(b[..32])] + rest.value) else None
  }

  lemma {:induction false} ReadsUints(ns: seq<int>)
    requires Uints(ns).Ok?
    ensures ReadUints(Uints(ns).value, |ns|) == Some(ns)
  {
    if |ns| > 0 {
      ReadsUints(ns[1..]);
      Uint256Reads(ns[0]);
      var w, rest := Uint256(ns[0]).value, Uints(ns[1..]).value;
      assert (w + rest)[..32] == w && (w + rest)[32..] == rest;
      assert ns == [ns[0]] + ns[1..];
    }
  }

  /** Packed (address, uint256): exactly 52 bytes, address first. */
  function ReadPackedAmount(terms: string): Option<(Address, nat)> {
    var b := WireBytes(terms);
    if |b| == 52 then Some((b[..20], FromBytes(b[20..]))) else None
  }

  function ReadTokenPeriod(terms: string): Option<(Address, nat, nat, nat)> {
    var b := WireBytes(terms);
    if |b| < 32 then None
    else
      var w := ReadUints(b[32..], 3);
      if w.Some? then Some((b[12..32], w.value[0], w.value[1], w.value[2])) else None
  }

  function WordAddresses(items: seq<Value>): Option<seq<Address>> {
    if |items| == 0 then Some([])
    else if items[0].Word? && |items[0].w| == 32 then
      var rest := WordAddresses(items[1..]);
      if rest.Some? then Some([items[0].w[12..]] + rest.value) else None
    else None
  }

  function ReadTargets(terms: string): Option<seq<Address>> {
    var d := DecodeAll(ADDRESS_LIST, WireBytes(terms), 0);
    if d.Some? && |d.value| == 1 && d.value[0].Array? then WordAddresses(d.value[0].items) else None
  }

  lemma {:induction false} WordAddressesOf(addresses: seq<Address>)
    ensures WordAddresses(AddressValues(addresses)) == Some(addresses)
  {
    if |addresses| > 0 {
      WordAddressesOf(addresses[1..]);
      assert addresses == [addresses[0]] + addresses[1..];
    }
  }

  lemma ReadsUintTerms(n: int)
    requires TermsUint(n).Ok?
    ensures ReadUints(WireBytes(TermsUint(n).value), 1) == Some([n])
  {
    ReadsUints([n]);
    WireBytesOf(Uints([n]).value);
  }

  lemma ReadsNativePeriod(a: int, s: int, p: int)
    requires TermsNativePeriod(a, s, p).Ok?
    ensures ReadUints(WireBytes(TermsNativePeriod(a, s, p).value), 3) == Some([a, s, p])
  {
    ReadsUints([a, s, p]);
    WireBytesOf(Uints([a, s, p]).value);
  }

  lemma ReadsTimestamp(a: int, b: int)
    requires TermsTimestamp(a, b).Ok?
    ensures ReadUints(WireBytes(TermsTimestamp(a, b).value), 2) == Some([a, b])
  {
    ReadsUints([a, b]);
    WireBytesOf(Uints([a, b]).value);
  }

  /** The packed 52-byte terms read back as token and amount. */
  lemma ReadsPackedAmount(token: string, m: int)
    requires TermsErc20TransferAmount(token, m).Ok?
    ensures AddrBytes(token).Ok?
    ensures ReadPackedAmount(TermsErc20TransferAmount(token, m).value) == Some((AddrBytes(token).value, m))
  {
    var t: Address, w: seq<Byte> := AddrBytes(token).value, Uint256(m).value;
    Uint256Reads(m);
    WireBytesOf(t + w);
    assert (t + w)[..20] == t && (t + w)[20..] == w;
  }

  lemma ReadsTokenPeriod(token: string, a: int, s: int, p: int, accepts: string -> bool)
    requires TermsErc20Period(token, a, s, p, accepts).Ok?
    ensures AddrBytes(token).Ok?
    ensures ReadTokenPeriod(TermsErc20Period(token, a, s, p, accepts).value) == Some((AddrBytes(token).value, a, s, p))
  {
    var t: Address, w: seq<Byte> := AddrBytes(token).value, Uints([a, s, p]).value;
    var b := AddressWord(t) + w;
    ReadsUints([a, s, p]);
    WireBytesOf(b);
    assert b[12..32] == AddressWord(t)[12..] && b[32..] == w;
  }

  /** The allow-list terms read back as the addresses, in order. */
  lemma ReadsTargets(targets: seq<string>, accepts: string -> bool)
    requires TermsAllowedTargets(targets, accepts).Ok? && |TermsAllowedTargets(targets, accepts).value| < UINT256_LIMIT
    ensures AbiAddresses(targets, accepts).Ok?
    ensures ReadTargets(TermsAllowedTargets(targets, accepts).value) == Some(AbiAddresses(targets, accepts).value)
  {
    var addresses := AbiAddresses(targets, accepts).value;
    AddressValuesTyped(addresses);
    var vs := [Array(AddressValues(addresses))];
    SingleTyped(TArray(TWord), vs[0]);
    var e := EncodeAll(ADDRESS_LIST, vs);
    WireBytesOf(e);
    DecodeEncodeAll(ADDRESS_LIST, vs, []);
    assert e + [] == e;
    WordAddressesOf(addresses);
  }
}
