/** Which specs the delegation compiler accepts (clawmes/delegation/compiler.py), in terms of the spec alone. */
module CompilerRefusals {
  import opened Bytes
  import opened HexIntegers
  import opened Encoding
  import opened Enforcers
  import opened Compiler

  // ---- limits in range -------------------------------------------------------------------------------

  predicate Word256(n: int) {
    0 <= n < UINT256_LIMIT
  }

  /** Forty hexadecimal digits behind an optional prefix. */
  predicate TwentyBytes(s: string) {
    var digits := if HasHexPrefix(s) then s[2..] else s;
    |digits| == 40 && IsHexText(digits)
  }

  lemma AddrBytesIff(s: string)
    ensures AddrBytes(s).Ok? <==> TwentyBytes(s)
  {
    FromHexDefined(if HasHexPrefix(s) then s[2..] else s);
  }

  /** A positive cap, and a period that fits if it resets. */
  predicate CapInRange(cap: int, period: int) {
    0 < cap && Word256(cap) && (period > 0 ==> Word256(period))
  }

  predicate LimitInRange(limit: Erc20Limit, accepts: string -> bool) {
    && CapInRange(limit.maxAmount, limit.periodSeconds) && TwentyBytes(limit.token)
    && (limit.periodSeconds > 0 ==> accepts(limit.token))
  }

  predicate LimitsInRange(limits: seq<Erc20Limit>, accepts: string -> bool) {
    forall i | 0 <= i < |limits| :: LimitInRange(limits[i], accepts)
  }

  predicate CallsInRange(spec: Spec, now: nat) {
    spec.maxCalls.Some? ==>
      && 0 < spec.maxCalls.value && Word256(spec.maxCalls.value)
      && (spec.callsWindowSeconds > 0 ==> now + spec.callsWindowSeconds < UINT128_LIMIT)
  }

  predicate TargetsInRange(spec: Spec, accepts: string -> bool) {
    forall i | 0 <= i < |spec.allowedTargets| :: IsAddressText(spec.allowedTargets[i]) && accepts(spec.allowedTargets[i])
  }

  predicate Restricts(spec: Spec) {
    || spec.nativePerCallWei.Some? || spec.nativeCapWei.Some? || spec.erc20 != [] || spec.maxCalls.Some?
    || spec.allowedTargets != [] || spec.expirySeconds > 0
  }

  /** No upper time bound is asked for, or one of them is before the year 10000. */
  predicate Datable(spec: Spec, now: nat) {
    var windowed, expiring := spec.maxCalls.Some? && spec.callsWindowSeconds > 0, spec.expirySeconds > 0;
    || (!windowed && !expiring)
    || (windowed && now + spec.callsWindowSeconds < DATE_LIMIT) || (expiring && now + spec.expirySeconds < DATE_LIMIT)
  }

  predicate Acceptable(spec: Spec, chainId: int, now: nat, accepts: string -> bool) {
    && chainId in {1, 10, 137, 8453, 42161, 59144, 84532, 11155111}
    && (spec.nativePerCallWei.Some? ==> Word256(spec.nativePerCallWei.value))
    && (spec.nativeCapWei.Some? ==> CapInRange(spec.nativeCapWei.value, spec.nativePeriodSeconds))
    && LimitsInRange(spec.erc20, accepts)
    && CallsInRange(spec, now)
    && TargetsInRange(spec, accepts)
    && (spec.expirySeconds > 0 ==> now + spec.expirySeconds < UINT128_LIMIT)
    && (Restricts(spec) || spec.allowUnrestricted)
    && Datable(spec, now)
  }

  // ---- field by field --------------------------------------------------------------------------------------

  lemma UintsOk(a: int, b: int, c: int)
    ensures Uints([a]).Ok? <==> Word256(a)
    ensures Uints([a, b]).Ok? <==> Word256(a) && Word256(b)
    ensures Uints([a, b, c]).Ok? <==> Word256(a) && Word256(b) && Word256(c)
  {
    assert [a][1..] == [] && [a, b][1..] == [b] && [b][1..] == [] && [a, b, c][1..] == [b, c] && [b, c][1..] == [c] && [c][1..] == [];
    assert Uints([]).Ok?;
    assert Uints([c]).Ok? <==> Word256(c);
    assert Uints([b]).Ok? <==> Word256(b);
    assert Uints([b, c]).Ok? <==> Word256(b) && Word256(c);
  }

  lemma NativeIff(spec: Spec)
    ensures PerCallCaveats(spec).Ok? <==> (spec.nativePerCallWei.Some? ==> Word256(spec.nativePerCallWei.value))
    ensures NativeCapCaveats(spec).Ok? <==> (spec.nativeCapWei.Some? ==> CapInRange(spec.nativeCapWei.value, spec.nativePeriodSeconds))
  {
    if spec.nativePerCallWei.Some? { UintsOk(spec.nativePerCallWei.value, 0, 0); }
    if spec.nativeCapWei.Some? {
      UintsOk(spec.nativeCapWei.value, 0, spec.nativePeriodSeconds);
    }
  }

  lemma LimitIff(limit: Erc20Limit, accepts: string -> bool)
    ensures Erc20Caveats(limit, accepts).Ok? <==> LimitInRange(limit, accepts)
  {
    UintsOk(limit.maxAmount, 0, limit.periodSeconds);
    AddrBytesIff(limit.token);
  }

  lemma {:induction false} LimitsIff(limits: seq<Erc20Limit>, accepts: string -> bool)
    ensures AllErc20Caveats(limits, accepts).Ok? <==> LimitsInRange(limits, accepts)
  {
    if |limits| > 0 {
      var init, last := limits[..|limits| - 1], limits[|limits| - 1];
      LimitsIff(init, accepts);
      LimitIff(last, accepts);
      assert limits == init + [last];
    }
  }

  lemma TimestampIff(after: nat, before: nat)
    requires after <= before
    ensures TermsTimestamp(after, before).Ok? <==> before < UINT128_LIMIT
  {
    UintsOk(after, before, 0);
  }

  lemma CallsIff(spec: Spec, now: nat)
    ensures CallsCaveats(spec, now).Ok? <==> CallsInRange(spec, now)
    ensures ExpiryCaveats(spec, now).Ok? <==> (spec.expirySeconds > 0 ==> now + spec.expirySeconds < UINT128_LIMIT)
  {
    if spec.maxCalls.Some? { UintsOk(spec.maxCalls.value, 0, 0); }
    if spec.callsWindowSeconds > 0 { TimestampIff(now, now + spec.callsWindowSeconds); }
    if spec.expirySeconds > 0 { TimestampIff(0, now + spec.expirySeconds); }
  }

  lemma {:induction false} AbiAddressesIff(ss: seq<string>, accepts: string -> bool)
    ensures AbiAddresses(ss, accepts).Ok? <==> forall i | 0 <= i < |ss| :: accepts(ss[i]) && TwentyBytes(ss[i])
  {
    if |ss| > 0 {
      AbiAddressesIff(ss[1..], accepts);
      AddrBytesIff(ss[0]);
      assert ss == [ss[0]] + ss[1..];
    }
  }

  /** Forty digits behind the prefix read as an integer; of the texts that do, the encoder takes no others. */
  lemma AddressTexts(s: string)
    ensures IsAddressText(s) <==> IsAddress(s) && TwentyBytes(s)
  {
    if IsAddressText(s) {
      var t := s[2..];
      assert DigitValue(s[2]).Some? && s[2] == t[0] && s[41] == t[39] && DigitValue(t[39]).Some?;
      assert Stripped(s) == s && Unprefixed(Unsigned(s)) == t;
      assert forall i | 0 <= i < |t| :: DigitValue(t[i]).Some? && t[i] != '_';
    }
  }

  predicate AllEncode(ts: seq<string>, accepts: string -> bool) {
    forall i | 0 <= i < |ts| :: accepts(ts[i]) && TwentyBytes(ts[i])
  }

  predicate AllAddresses(ts: seq<string>) {
    forall i | 0 <= i < |ts| :: IsAddress(ts[i])
  }

  lemma TermsIff(ts: seq<string>, accepts: string -> bool)
    ensures TermsAllowedTargets(ts, accepts).Ok? <==> AllEncode(ts, accepts)
  {
    AbiAddressesIff(ts, accepts);
  }

  lemma TargetsBranches(spec: Spec, accepts: string -> bool)
    ensures TargetsCaveats(spec, accepts).Ok? <==>
      spec.allowedTargets == [] || (AllAddresses(spec.allowedTargets) && TermsAllowedTargets(spec.allowedTargets, accepts).Ok?)
  {
    var ts := spec.allowedTargets;
    assert (exists t | t in ts :: !IsAddress(t)) <==> !AllAddresses(ts) by {
      if !AllAddresses(ts) {
        var i :| 0 <= i < |ts| && !IsAddress(ts[i]);
        assert ts[i] in ts;
      }
    }
  }

  lemma TargetsIff(spec: Spec, accepts: string -> bool)
    ensures TargetsCaveats(spec, accepts).Ok? <==> TargetsInRange(spec, accepts)
  {
    var ts := spec.allowedTargets;
    TargetsBranches(spec, accepts);
    TermsIff(ts, accepts);
    AllTexts(ts, accepts);
  }

  lemma AllTexts(ts: seq<string>, accepts: string -> bool)
    ensures AllAddresses(ts) && AllEncode(ts, accepts) <==> forall i | 0 <= i < |ts| :: IsAddressText(ts[i]) && accepts(ts[i])
  {
    forall i | 0 <= i < |ts| ensures IsAddressText(ts[i]) <==> IsAddress(ts[i]) && TwentyBytes(ts[i]) { AddressTexts(ts[i]); }
  }

  // ---- the whole spec ------------------------------------------------------------------------------------------

  lemma CaveatsIff(spec: Spec, now: nat, accepts: string -> bool)
    ensures AllCaveats(spec, now, accepts).Ok? <==>
      && PerCallCaveats(spec).Ok? && NativeCapCaveats(spec).Ok? && AllErc20Caveats(spec.erc20, accepts).Ok?
      && CallsCaveats(spec, now).Ok? && TargetsCaveats(spec, accepts).Ok? && ExpiryCaveats(spec, now).Ok?
    ensures AllCaveats(spec, now, accepts).Ok? ==> (|AllCaveats(spec, now, accepts).value| > 0 <==> Restricts(spec))
  {
  }

  lemma DatableIff(spec: Spec, now: nat)
    ensures var befores := ExpiryBefores(spec, now);
      Datable(spec, now) <==> |befores| == 0 || Minimum(befores) < DATE_LIMIT
  {
    var befores := ExpiryBefores(spec, now);
    forall x ensures x in befores <==>
      || (spec.maxCalls.Some? && spec.callsWindowSeconds > 0 && x == now + spec.callsWindowSeconds)
      || (spec.expirySeconds > 0 && x == now + spec.expirySeconds)
    {
      CollectedBefores(spec, now, x);
    }
    if |befores| > 0 { assert befores[0] in befores; }
  }

  /**
   A spec is accepted exactly when the chain is supported, every cap is positive and in range, every token and
   target is an address, every time fits 128 bits, something is restricted or need not be, and the expiry
   can be printed.
   */
  lemma AcceptedIff(spec: Spec, chainId: int, now: nat, accepts: string -> bool)
    ensures Compile(spec, chainId, now, accepts).Ok? <==> Acceptable(spec, chainId, now, accepts)
  {
    NativeIff(spec);
    LimitsIff(spec.erc20, accepts);
    CallsIff(spec, now);
    TargetsIff(spec, accepts);
    CaveatsIff(spec, now, accepts);
    DatableIff(spec, now);
  }
}
