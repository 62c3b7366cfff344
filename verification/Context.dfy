/** The permission context `abi.encode(Delegation[])`, leaf first, and its decoder. */
module Context {
  import opened Bytes
  import opened Abi
  import opened Encoding

  /** A delegation as the contract sees it: every field as bytes or an integer. */
  datatype WireCaveat = WireCaveat(enforcer: Address, terms: seq<Byte>, args: seq<Byte>)

  datatype WireDelegation = WireDelegation(
    delegate: Address, delegator: Address, authority: seq<Byte>, caveats: seq<WireCaveat>, salt: nat, signature: seq<Byte>)

  const CAVEAT := TTuple([TWord, TBytes, TBytes])
  const DELEGATION := TTuple([TWord, TWord, TWord, TArray(CAVEAT), TWord, TBytes])
  const CONTEXT: seq<Type> := [TArray(DELEGATION)]

  // ---- from text to the wire -------------------------------------------------------

  /** A bytes32 argument: up to 32 bytes, padded on the right. */
  function Bytes32(raw: seq<Byte>): (r: Result<seq<Byte>>)
    ensures r.Ok? ==> |r.value| == 32
  {
    if |raw| <= 32 then Ok(raw + Zeros(32 - |raw|)) else Err(IntegerOutOfRange)
  }

  function CaveatToWire(c: Caveat): Result<WireCaveat> {
    var e :- AddrBytes(c.enforcer);
    var t :- HexArg(c.terms);
    var a :- HexArg(c.args);
    Ok(WireCaveat(e, t, a))
  }

  function CaveatsToWire(cs: seq<Caveat>): (r: Result<seq<WireCaveat>>)
    ensures r.Ok? ==> |r.value| == |cs| && forall i | 0 <= i < |cs| :: CaveatToWire(cs[i]) == Ok(r.value[i])
  {
    if |cs| == 0 then Ok([])
    else
      var c :- CaveatToWire(cs[0]);
      var rest :- CaveatsToWire(cs[1..]);
      Ok([c] + rest)
  }

  function ToWire(d: SignedDelegation): Result<WireDelegation> {
    var delegate :- AddrBytes(d.delegate);
    var delegator :- AddrBytes(d.delegator);
    var raw :- HexArg(d.authority);
    var authority :- Bytes32(raw);
    var caveats :- CaveatsToWire(d.caveats);
    var salt :- Uint256(d.salt);
    var signature :- HexArg(d.signature);
    Ok(WireDelegation(delegate, delegator, authority, caveats, d.salt, signature))
  }

  function AllToWire(ds: seq<SignedDelegation>): (r: Result<seq<WireDelegation>>)
    ensures r.Ok? ==> |r.value| == |ds| && forall i | 0 <= i < |ds| :: ToWire(ds[i]) == Ok(r.value[i])
  {
    if |ds| == 0 then Ok([])
    else
      var d :- ToWire(ds[0]);
      var rest :- AllToWire(ds[1..]);
      Ok([d] + rest)
  }

  // ---- from the wire to ABI values and back ---------------------------------------------

  function CaveatValue(c: WireCaveat): Value {
    Tuple([Word(AddressWord(c.enforcer)), Blob(c.terms), Blob(c.args)])
  }

  function CaveatValues(cs: seq<WireCaveat>): (r: seq<Value>)
    ensures |r| == |cs|
  {
    if |cs| == 0 then [] else [CaveatValue(cs[0])] + CaveatValues(cs[1..])
  }

  function DelegationValue(d: WireDelegation): Value {
    Tuple([Word(AddressWord(d.delegate)), Word(AddressWord(d.delegator)), Word(d.authority),
           Array(CaveatValues(d.caveats)), Word(WordOf(d.salt)), Blob(d.signature)])
  }

  function DelegationValues(ds: seq<WireDelegation>): (r: seq<Value>)
    ensures |r| == |ds|
  {
    if |ds| == 0 then [] else [DelegationValue(ds[0])] + DelegationValues(ds[1..])
  }

  /** The shape the encoder produces: a 32-byte authority and a 256-bit salt. */
  predicate WellSized(d: WireDelegation) {
    |d.authority| == 32 && d.salt < UINT256_LIMIT
  }

  predicate AllWellSized(ds: seq<WireDelegation>) {
    |ds| == 0 || (WellSized(ds[0]) && AllWellSized(ds[1..]))
  }

  function AddressOf(v: Value): Option<Address> {
    if v.Word? && |v.w| == 32 then Some(v.w[12..]) else None
  }

  function CaveatOf(v: Value): Option<WireCaveat> {
    if v.Tuple? && |v.items| == 3 && AddressOf(v.items[0]).Some? && v.items[1].Blob? && v.items[2].Blob?
    then Some(WireCaveat(AddressOf(v.items[0]).value, v.items[1].b, v.items[2].b)) else None
  }

  function CaveatsOf(vs: seq<Value>): Option<seq<WireCaveat>> {
    if |vs| == 0 then Some([])
    else
      var c, rest := CaveatOf(vs[0]), CaveatsOf(vs[1..]);
      if c.Some? && rest.Some? then Some([c.value] + rest.value) else None
  }

  function DelegationOf(v: Value): Option<WireDelegation> {
    if v.Tuple? && |v.items| == 6 && AddressOf(v.items[0]).Some? && AddressOf(v.items[1]).Some? && v.items[2].Word?
      && v.items[3].Array? && CaveatsOf(v.items[3].items).Some? && v.items[4].Word? && v.items[5].Blob?
    then Some(WireDelegation(AddressOf(v.items[0]).value, AddressOf(v.items[1]).value, v.items[2].w,
                             CaveatsOf(v.items[3].items).value, FromBytes(v.items[4].w), v.items[5].b))
    else None
  }

  function DelegationsOf(vs: seq<Value>): Option<seq<WireDelegation>> {
    if |vs| == 0 then Some([])
    else
      var d, rest := DelegationOf(vs[0]), DelegationsOf(vs[1..]);
      if d.Some? && rest.Some? then Some([d.value] + rest.value) else None
  }

  lemma {:induction false} CaveatsRoundTrip(cs: seq<WireCaveat>)
    ensures CaveatsOf(CaveatValues(cs)) == Some(cs)
    ensures HaveTypes(CaveatValues(cs), Repeat(CAVEAT, |cs|))
  {
    if |cs| > 0 {
      CaveatsRoundTrip(cs[1..]);
      var c := cs[0];
      Three(TWord, TBytes, TBytes, Word(AddressWord(c.enforcer)), Blob(c.terms), Blob(c.args));
      assert cs == [c] + cs[1..];
    }
  }

  lemma Three(t: Type, u: Type, v: Type, x: Value, y: Value, z: Value)
    requires HasType(x, t) && HasType(y, u) && HasType(z, v)
    ensures HaveTypes([x, y, z], [t, u, v])
  {
    SingleTyped(v, z);
    assert [x, y, z][1..] == [y, z] && [y, z][1..] == [z] && [t, u, v][1..] == [u, v] && [u, v][1..] == [v];
    assert HaveTypes([y, z], [u, v]);
  }

  lemma {:induction false} HaveTypesConcat(ts: seq<Type>, us: seq<Type>, vs: seq<Value>, ws: seq<Value>)
    requires HaveTypes(vs, ts) && HaveTypes(ws, us)
    ensures HaveTypes(vs + ws, ts + us)
  {
    if |ts| == 0 {
      assert vs + ws == ws && ts + us == us;
    } else {
      HaveTypesConcat(ts[1..], us, vs[1..], ws);
      assert (vs + ws)[1..] == vs[1..] + ws && (ts + us)[1..] == ts[1..] + us;
    }
  }

  lemma DelegationTyped(d: WireDelegation)
    requires WellSized(d)
    ensures HasType(DelegationValue(d), DELEGATION)
  {
    CaveatsRoundTrip(d.caveats);
    var a, b, c := Word(AddressWord(d.delegate)), Word(AddressWord(d.delegator)), Word(d.authority);
    var x, y, z := Array(CaveatValues(d.caveats)), Word(WordOf(d.salt)), Blob(d.signature);
    Three(TWord, TWord, TWord, a, b, c);
    Three(TArray(CAVEAT), TWord, TBytes, x, y, z);
    HaveTypesConcat([TWord, TWord, TWord], [TArray(CAVEAT), TWord, TBytes], [a, b, c], [x, y, z]);
    assert [a, b, c] + [x, y, z] == DelegationValue(d).items;
    assert [TWord, TWord, TWord] + [TArray(CAVEAT), TWord, TBytes] == DELEGATION.fields;
  }

  lemma DelegationRoundTrip(d: WireDelegation)
    requires WellSized(d)
    ensures DelegationOf(DelegationValue(d)) == Some(d)
  {
    CaveatsRoundTrip(d.caveats);
    Uint256Limit();
    FromToBytes(d.salt, 32);
  }

  lemma {:induction false} DelegationsRoundTrip(ds: seq<WireDelegation>)
    requires AllWellSized(ds)
    ensures DelegationsOf(DelegationValues(ds)) == Some(ds)
    ensures HaveTypes(DelegationValues(ds), Repeat(DELEGATION, |ds|))
  {
    if |ds| > 0 {
      DelegationRoundTrip(ds[0]);
      DelegationTyped(ds[0]);
      DelegationsRoundTrip(ds[1..]);
      assert ds == [ds[0]] + ds[1..];
    }
  }

  // ---- the permission context --------------------------------------------------------------

  function Reverse<T>(s: seq<T>): (r: seq<T>)
    ensures |r| == |s|
    ensures forall i | 0 <= i < |s| :: r[i] == s[|s| - 1 - i]
  {
    if |s| == 0 then [] else Reverse(s[1..]) + [s[0]]
  }

  /** Stored root first; the manager wants the leaf first, so longer chains are turned around. */
  function Ordered(chain: seq<SignedDelegation>): seq<SignedDelegation> {
    if |chain| > 1 then Reverse(chain) else chain
  }

  lemma {:induction false} WireIsSized(ds: seq<SignedDelegation>)
    requires AllToWire(ds).Ok?
    ensures AllWellSized(AllToWire(ds).value)
  {
    if |ds| > 0 { WireIsSized(ds[1..]); }
  }

  function EncodePermissionContext(chain: seq<SignedDelegation>): Result<string> {
    var wires :- AllToWire(Ordered(chain));
    WireIsSized(Ordered(chain));
    DelegationsRoundTrip(wires);
    SingleTyped(TArray(DELEGATION), Array(DelegationValues(wires)));
    Ok(Hex0x(EncodeAll(CONTEXT, [Array(DelegationValues(wires))])))
  }

  function DecodePermissionContext(context: string): Option<seq<WireDelegation>> {
    var d := DecodeAll(CONTEXT, WireBytes(context), 0);
    if d.Some? && |d.value| == 1 && d.value[0].Array? then DelegationsOf(d.value[0].items) else None
  }

  /**
   The context decodes to every delegation of the chain, field by field, in leaf-first order:
   position `i` holds the `i`-th delegation from the end of the stored chain.
   */
  lemma ContextRoundTrip(chain: seq<SignedDelegation>)
    requires EncodePermissionContext(chain).Ok? && |EncodePermissionContext(chain).value| < UINT256_LIMIT
    ensures var ds := DecodePermissionContext(EncodePermissionContext(chain).value);
      && ds.Some? && |ds.value| == |chain|
      && forall i | 0 <= i < |chain| :: ToWire(chain[|chain| - 1 - i]) == Ok(ds.value[i])
  {
    var wires := AllToWire(Ordered(chain)).value;
    WireIsSized(Ordered(chain));
    DelegationsRoundTrip(wires);
    var vs := [Array(DelegationValues(wires))];
    SingleTyped(TArray(DELEGATION), vs[0]);
    var e := EncodeAll(CONTEXT, vs);
    WireBytesOf(e);
    DecodeEncodeAll(CONTEXT, vs, []);
    assert e + [] == e;
    assert forall i | 0 <= i < |chain| :: Ordered(chain)[i] == chain[|chain| - 1 - i];
  }

  // ---- redeemDelegations calldata --------------------------------------------------------------

  const REDEEM_ARGS: seq<Type> := [TArray(TBytes), TArray(TWord), TArray(TBytes)]

  /** The argument block of redeemDelegations([context], [mode], [execution]). */
  function RedeemArgs(context: string, execution: string, mode: string): Result<seq<Byte>> {
    var c :- HexArg(context);
    var raw :- HexArg(mode);
    var m :- Bytes32(raw);
    var x :- HexArg(execution);
    RedeemTyped(c, m, x);
    Ok(EncodeAll(REDEEM_ARGS, RedeemValues(c, m, x)))
  }

  function RedeemValues(c: seq<Byte>, m: seq<Byte>, x: seq<Byte>): seq<Value> {
    [Array([Blob(c)]), Array([Word(m)]), Array([Blob(x)])]
  }

  lemma RedeemTyped(c: seq<Byte>, m: seq<Byte>, x: seq<Byte>)
    requires |m| == 32
    ensures HaveTypes(RedeemValues(c, m, x), REDEEM_ARGS)
  {
    RepeatOne(TBytes);
    RepeatOne(TWord);
    SingleTyped(TBytes, Blob(c));
    SingleTyped(TWord, Word(m));
    SingleTyped(TBytes, Blob(x));
    Three(TArray(TBytes), TArray(TWord), TArray(TBytes), Array([Blob(c)]), Array([Word(m)]), Array([Blob(x)]));
  }

  lemma RepeatOne(t: Type)
    ensures Repeat(t, 1) == [t]
  {
    assert Repeat(t, 0) == [];
  }

  /** The three argument lists read back as exactly the one context, mode and execution given. */
  lemma RedeemRoundTrip(context: string, execution: string, mode: string)
    requires RedeemArgs(context, execution, mode).Ok? && |RedeemArgs(context, execution, mode).value| < UINT256_LIMIT
    ensures HexArg(context).Ok? && HexArg(execution).Ok? && HexArg(mode).Ok? && Bytes32(HexArg(mode).value).Ok?
    ensures DecodeAll(REDEEM_ARGS, RedeemArgs(context, execution, mode).value, 0)
      == Some(RedeemValues(HexArg(context).value, Bytes32(HexArg(mode).value).value, HexArg(execution).value))
  {
    var c, m, x := HexArg(context).value, Bytes32(HexArg(mode).value).value, HexArg(execution).value;
    RedeemTyped(c, m, x);
    DecodeEncodeAll(REDEEM_ARGS, RedeemValues(c, m, x), []);
    var e := EncodeAll(REDEEM_ARGS, RedeemValues(c, m, x));
    assert e + [] == e;
  }
}
