/** The delegation compiler (clawmes/delegation/compiler.py): spending specs to caveats. */
module Compiler {
  import opened Bytes
  import opened HexIntegers
  import opened Encoding
  import opened Enforcers

  datatype Erc20Limit = Erc20Limit(token: string, maxAmount: int, periodSeconds: int)

  datatype Spec = Spec(
    nativePerCallWei: Option<int>,
    nativeCapWei: Option<int>,
    nativePeriodSeconds: int,
    erc20: seq<Erc20Limit>,
    maxCalls: Option<int>,
    callsWindowSeconds: int,
    allowedTargets: seq<string>,
    expirySeconds: int,
    allowUnrestricted: bool)

  datatype Compiled = Compiled(caveats: seq<CaveatTerms>, expiresAt: Option<int>)

  const SUPPORTED_CHAIN_IDS: set<int> := {1, 8453, 42161, 10, 137, 59144, 11155111, 84532}

  // ---- the caveats of each spec field --------------------------------------------------

  function One(e: Enforcer, terms: Result<string>): Result<seq<CaveatTerms>> {
    if terms.Ok? then Ok([CaveatTerms(e, terms.value)]) else Err(terms.error)
  }

  function PerCallCaveats(spec: Spec): Result<seq<CaveatTerms>> {
    if spec.nativePerCallWei.None? then Ok([])
    else if spec.nativePerCallWei.value < 0 then Err(BadLimit)
    else One(ValueLte, TermsUint(spec.nativePerCallWei.value))
  }

  function NativeCapCaveats(spec: Spec): Result<seq<CaveatTerms>> {
    if spec.nativeCapWei.None? then Ok([])
    else
      var cap := spec.nativeCapWei.value;
      if cap <= 0 then Err(BadLimit)
      else if spec.nativePeriodSeconds > 0 then
        One(NativeTokenPeriodTransfer, TermsNativePeriod(cap, 0, spec.nativePeriodSeconds))
      else One(NativeTokenTransferAmount, TermsUint(cap))
  }

  function Erc20Caveats(limit: Erc20Limit, accepts: string -> bool): (r: Result<seq<CaveatTerms>>)
    ensures r.Ok? ==> |r.value| == 1
  {
    if limit.maxAmount <= 0 then Err(BadLimit)
    else if limit.periodSeconds > 0 then
      One(Erc20PeriodTransfer, TermsErc20Period(limit.token, limit.maxAmount, 0, limit.periodSeconds, accepts))
    else One(Erc20TransferAmount, TermsErc20TransferAmount(limit.token, limit.maxAmount))
  }

  function AllErc20Caveats(limits: seq<Erc20Limit>, accepts: string -> bool): (r: Result<seq<CaveatTerms>>)
    ensures r.Ok? ==> |r.value| == |limits|
  {
    if |limits| == 0 then Ok([])
    else
      var init :- AllErc20Caveats(limits[..|limits| - 1], accepts);
      var last :- Erc20Caveats(limits[|limits| - 1], accepts);
      Ok(init + last)
  }

  function CallsCaveats(spec: Spec, now: nat): Result<seq<CaveatTerms>> {
    if spec.maxCalls.None? then Ok([])
    else if spec.maxCalls.value <= 0 then Err(BadLimit)
    else
      var cap :- One(LimitedCalls, TermsUint(spec.maxCalls.value));
      if spec.callsWindowSeconds > 0 then
        var window :- One(Timestamp, TermsTimestamp(now, now + spec.callsWindowSeconds));
        Ok(cap + window)
      else Ok(cap)
  }

  /** `_is_address`: 42 characters with a prefix that read as an integer, not only digits. */
  predicate IsAddress(s: string) {
    |s| == 42 && s[0] == '0' && s[1] == 'x' && ReadsAsHex(s)
  }

  function TargetsCaveats(spec: Spec, accepts: string -> bool): Result<seq<CaveatTerms>> {
    if |spec.allowedTargets| == 0 then Ok([])
    else if exists t | t in spec.allowedTargets :: !IsAddress(t) then Err(NotAddresses)
    else One(AllowedTargets, TermsAllowedTargets(spec.allowedTargets, accepts))
  }

  function ExpiryCaveats(spec: Spec, now: nat): Result<seq<CaveatTerms>> {
    if spec.expirySeconds <= 0 then Ok([])
    else One(Timestamp, TermsTimestamp(0, now + spec.expirySeconds))
  }

  /** The upper time bounds a spec asks for, in the order they are emitted. */
  function ExpiryBefores(spec: Spec, now: nat): seq<int> {
    (if spec.maxCalls.Some? && spec.callsWindowSeconds > 0 then [now + spec.callsWindowSeconds] else [])
    + (if spec.expirySeconds > 0 then [now + spec.expirySeconds] else [])
  }

  function Minimum(s: seq<int>): (m: int)
    requires |s| > 0
    ensures m in s && forall x | x in s :: m <= x
  {
    if |s| == 1 then s[0]
    else
      var m := Minimum(s[1..]);
      assert forall x | x in s :: x == s[0] || x in s[1..];
      if s[0] <= m then s[0] else m
  }

  function Extend(caveats: seq<CaveatTerms>, more: Result<seq<CaveatTerms>>): Result<seq<CaveatTerms>> {
    if more.Ok? then Ok(caveats + more.value) else Err(more.error)
  }

  function SpendCaveats(spec: Spec, accepts: string -> bool): Result<seq<CaveatTerms>> {
    var a :- PerCallCaveats(spec);
    var b :- Extend(a, NativeCapCaveats(spec));
    Extend(b, AllErc20Caveats(spec.erc20, accepts))
  }

  function UseCaveats(soFar: seq<CaveatTerms>, spec: Spec, now: nat, accepts: string -> bool): Result<seq<CaveatTerms>> {
    var d :- Extend(soFar, CallsCaveats(spec, now));
    var e :- Extend(d, TargetsCaveats(spec, accepts));
    Extend(e, ExpiryCaveats(spec, now))
  }

  function AllCaveats(spec: Spec, now: nat, accepts: string -> bool): Result<seq<CaveatTerms>> {
    var c :- SpendCaveats(spec, accepts);
    UseCaveats(c, spec, now, accepts)
  }

  /** The first second of the year 10000: the expiry is printed as a date, which ends with the year 9999. */
  const DATE_LIMIT := 253402300800

  function Finish(spec: Spec, now: nat, caveats: seq<CaveatTerms>): Result<Compiled> {
    if |caveats| == 0 && !spec.allowUnrestricted then Err(Unrestricted)
    else
      var befores := ExpiryBefores(spec, now);
      if |befores| == 0 then Ok(Compiled(caveats, None))
      else if Minimum(befores) >= DATE_LIMIT then Err(DateOutOfRange)
      else Ok(Compiled(caveats, Some(Minimum(befores))))
  }

  function Compile(spec: Spec, chainId: int, now: nat, accepts: string -> bool): Result<Compiled> {
    if chainId !in SUPPORTED_CHAIN_IDS then Err(UnsupportedChain)
    else
      var caveats :- AllCaveats(spec, now, accepts);
      Finish(spec, now, caveats)
  }

  // ---- the compiler itself, appending branch by branch ----------------------------------

  /** The body of the loop over token limits. */
  method AppendLimit(soFar: seq<CaveatTerms>, limit: Erc20Limit, accepts: string -> bool)
    returns (r: Result<seq<CaveatTerms>>)
    ensures r == Extend(soFar, Erc20Caveats(limit, accepts))
  {
    if limit.maxAmount <= 0 { return Err(BadLimit); }
    if limit.periodSeconds > 0 {
      r := Append(soFar, Erc20PeriodTransfer,
                  TermsErc20Period(limit.token, limit.maxAmount, 0, limit.periodSeconds, accepts));
    } else {
      r := Append(soFar, Erc20TransferAmount, TermsErc20TransferAmount(limit.token, limit.maxAmount));
    }
  }

  /** The loop over token limits. */
  method AppendErc20(soFar: seq<CaveatTerms>, limits: seq<Erc20Limit>, accepts: string -> bool)
    returns (r: Result<seq<CaveatTerms>>)
    ensures r == Extend(soFar, AllErc20Caveats(limits, accepts))
  {
    r := Ok([]);
    for i := 0 to |limits|
      invariant r == AllErc20Caveats(limits[..i], accepts) && r.Ok?
    {
      assert limits[..i + 1][..i] == limits[..i];
      PrefixFailure(limits, i + 1, accepts);
      r := AppendLimit(r.value, limits[i], accepts);
      if r.Err? { return r; }
    }
    assert limits[..|limits|] == limits;
    r := Extend(soFar, r);
  }

  /** Appends a caveat to a list, or raises what encoding its terms raised. */
  method Append(caveats: seq<CaveatTerms>, e: Enforcer, terms: Result<string>) returns (r: Result<seq<CaveatTerms>>)
    ensures r == Extend(caveats, One(e, terms))
    ensures caveats == [] ==> r == One(e, terms)
  {
    assert terms.Ok? ==> [] + [CaveatTerms(e, terms.value)] == [CaveatTerms(e, terms.value)];
    if terms.Err? { return Err(terms.error); }
    r := Ok(caveats + [CaveatTerms(e, terms.value)]);
  }

  method CompileSpec(spec: Spec, chainId: int, now: nat, accepts: string -> bool) returns (r: Result<Compiled>)
    ensures r == Compile(spec, chainId, now, accepts)
  {
    if chainId !in SUPPORTED_CHAIN_IDS {
      return Err(UnsupportedChain);
    }
    var spend :- EmitSpendLimits(spec, accepts);
    var all, befores := EmitUseLimits(spend, spec, now, accepts);
    var caveats :- all;
    if |caveats| == 0 && !spec.allowUnrestricted {
      return Err(Unrestricted);
    }
    var expiresAt := None;
    if |befores| > 0 {
      var earliest := Minimum(befores);
      if earliest >= DATE_LIMIT { return Err(DateOutOfRange); }
      expiresAt := Some(earliest);
    }
    r := Ok(Compiled(caveats, expiresAt));
  }

  /** The branches that bound what may be spent. */
  method EmitSpendLimits(spec: Spec, accepts: string -> bool) returns (r: Result<seq<CaveatTerms>>)
    ensures r == SpendCaveats(spec, accepts)
  {
    var caveats: seq<CaveatTerms> := [];
    if spec.nativePerCallWei.Some? {
      if spec.nativePerCallWei.value < 0 { return Err(BadLimit); }
      caveats :- Append(caveats, ValueLte, TermsUint(spec.nativePerCallWei.value));
    }
    assert Ok(caveats) == PerCallCaveats(spec);
    caveats :- AppendNativeCap(caveats, spec);
    r := AppendErc20(caveats, spec.erc20, accepts);
  }

  /** The branches that bound when, how often and where the delegation may be used. */
  method EmitUseLimits(spend: seq<CaveatTerms>, spec: Spec, now: nat, accepts: string -> bool)
    returns (r: Result<seq<CaveatTerms>>, befores: seq<int>)
    ensures r == UseCaveats(spend, spec, now, accepts)
    ensures r.Ok? ==> befores == ExpiryBefores(spec, now)
  {
    var before;
    r, befores := AppendCalls(spend, spec, now);
    if r.Err? { return; }
    r := AppendTargets(r.value, spec, accepts);
    if r.Err? { return; }
    r, before := AppendExpiry(r.value, spec, now);
    befores := befores + before;
  }

  /** The branch for the native budget. */
  method AppendNativeCap(soFar: seq<CaveatTerms>, spec: Spec) returns (r: Result<seq<CaveatTerms>>)
    ensures r == Extend(soFar, NativeCapCaveats(spec))
  {
    if spec.nativeCapWei.None? { return Ok(soFar + []); }
    var cap := spec.nativeCapWei.value;
    if cap <= 0 { return Err(BadLimit); }
    if spec.nativePeriodSeconds > 0 {
      r := Append(soFar, NativeTokenPeriodTransfer, TermsNativePeriod(cap, 0, spec.nativePeriodSeconds));
    } else {
      r := Append(soFar, NativeTokenTransferAmount, TermsUint(cap));
    }
  }

  /** The branch for the call cap and its window. */
  method AppendCalls(soFar: seq<CaveatTerms>, spec: Spec, now: nat)
    returns (r: Result<seq<CaveatTerms>>, before: seq<int>)
    ensures r == Extend(soFar, CallsCaveats(spec, now))
    ensures before == if spec.maxCalls.Some? && spec.callsWindowSeconds > 0 then [now + spec.callsWindowSeconds] else []
  {
    before := if spec.maxCalls.Some? && spec.callsWindowSeconds > 0 then [now + spec.callsWindowSeconds] else [];
    if spec.maxCalls.None? { return Ok(soFar + []), before; }
    if spec.maxCalls.value <= 0 { return Err(BadLimit), before; }
    r := Append([], LimitedCalls, TermsUint(spec.maxCalls.value));
    if r.Ok? && spec.callsWindowSeconds > 0 {
      r := Append(r.value, Timestamp, TermsTimestamp(now, now + spec.callsWindowSeconds));
    }
    assert r == CallsCaveats(spec, now);
    r := Extend(soFar, r);
  }

  /** The branch for the target allow-list. */
  method AppendTargets(soFar: seq<CaveatTerms>, spec: Spec, accepts: string -> bool)
    returns (r: Result<seq<CaveatTerms>>)
    ensures r == Extend(soFar, TargetsCaveats(spec, accepts))
  {
    if |spec.allowedTargets| == 0 { return Ok(soFar + []); }
    if exists t | t in spec.allowedTargets :: !IsAddress(t) { return Err(NotAddresses); }
    r := Append(soFar, AllowedTargets, TermsAllowedTargets(spec.allowedTargets, accepts));
  }

  /** The branch for the absolute expiry. */
  method AppendExpiry(soFar: seq<CaveatTerms>, spec: Spec, now: nat)
    returns (r: Result<seq<CaveatTerms>>, before: seq<int>)
    ensures r == Extend(soFar, ExpiryCaveats(spec, now))
    ensures before == if spec.expirySeconds > 0 then [now + spec.expirySeconds] else []
  {
    if spec.expirySeconds <= 0 { return Ok(soFar + []), []; }
    before := [now + spec.expirySeconds];
    r := Append(soFar, Timestamp, TermsTimestamp(0, now + spec.expirySeconds));
  }

  /** A failure among the first limits is the failure of the whole list. */
  lemma {:induction false} PrefixFailure(limits: seq<Erc20Limit>, n: nat, accepts: string -> bool)
    requires n <= |limits|
    ensures AllErc20Caveats(limits[..n], accepts).Err? ==>
      AllErc20Caveats(limits, accepts) == AllErc20Caveats(limits[..n], accepts)
    decreases |limits|
  {
    if n == |limits| {
      assert limits[..n] == limits;
    } else {
      var init := limits[..|limits| - 1];
      PrefixFailure(init, n, accepts);
      assert init[..n] == limits[..n];
    }
  }

  // ---- what a spec means -------------------------------------------------------------------

  /** A budget: a lifetime cap, or a cap for each period counted from the first redemption. */
  ghost predicate WithinBudget(a: Asset, cap: int, period: int, rs: seq<Redemption>) {
    if period <= 0 then SumOf(a, rs) <= cap
    else |rs| > 0 ==> forall k :: SumInSlot(a, rs, rs[0].time, period, k) <= cap
  }

  /** The limits a spec states, in the words of its fields: on what may be spent... */
  ghost predicate SpendAllowed(spec: Spec, rs: seq<Redemption>) {
    && (spec.nativePerCallWei.Some? ==> forall i | 0 <= i < |rs| :: rs[i].value <= spec.nativePerCallWei.value)
    && (spec.nativeCapWei.Some? ==> WithinBudget(Native, spec.nativeCapWei.value, spec.nativePeriodSeconds, rs))
    && AllErc20Allow(spec.erc20, rs)
  }

  /** ...and on when, how often and where the delegation may be used. */
  ghost predicate UseAllowed(spec: Spec, now: nat, rs: seq<Redemption>) {
    && (spec.maxCalls.Some? ==>
          && |rs| <= spec.maxCalls.value
          && (spec.callsWindowSeconds > 0 ==>
                forall i | 0 <= i < |rs| :: (now > 0 ==> now < rs[i].time) && rs[i].time < now + spec.callsWindowSeconds))
    && (|spec.allowedTargets| > 0 ==> forall i | 0 <= i < |rs| :: IsTarget(spec.allowedTargets, rs[i].target))
    && (spec.expirySeconds > 0 ==> forall i | 0 <= i < |rs| :: rs[i].time < now + spec.expirySeconds)
  }

  ghost predicate SpecAllows(spec: Spec, now: nat, rs: seq<Redemption>) {
    SpendAllowed(spec, rs) && UseAllowed(spec, now, rs)
  }

  ghost predicate Erc20Allows(limit: Erc20Limit, rs: seq<Redemption>) {
    && AddrBytes(limit.token).Ok?
    && WithinBudget(Token(AddrBytes(limit.token).value), limit.maxAmount, limit.periodSeconds, rs)
  }

  ghost predicate IsTarget(targets: seq<string>, a: Address) {
    exists j :: 0 <= j < |targets| && AddrBytes(targets[j]) == Ok(a)
  }

  // ---- each field's caveats enforce exactly that field ----------------------------------------

  lemma OneAccepts(e: Enforcer, terms: string, rule: Rule, rs: seq<Redemption>)
    requires Parse(CaveatTerms(e, terms)) == Some(rule) && Chronological(rs)
    ensures Accepts([CaveatTerms(e, terms)], rs) <==> Allows(rule, rs)
  {
    LedgersExact(rule, rs);
    var cs := [CaveatTerms(e, terms)];
    assert cs[0] == CaveatTerms(e, terms);
  }

  lemma AcceptsConcat(a: seq<CaveatTerms>, b: seq<CaveatTerms>, rs: seq<Redemption>)
    ensures Accepts(a + b, rs) <==> Accepts(a, rs) && Accepts(b, rs)
  {
    if Accepts(a + b, rs) {
      forall i | 0 <= i < |a| ensures Parse(a[i]).Some? && Replay(Parse(a[i]).value, rs).Some? {
        assert (a + b)[i] == a[i];
      }
      forall i | 0 <= i < |b| ensures Parse(b[i]).Some? && Replay(Parse(b[i]).value, rs).Some? {
        assert (a + b)[|a| + i] == b[i];
      }
    }
  }

  /** Caveats whose terms are one integer. */
  lemma UintAccepts(e: Enforcer, n: nat, rule: Rule, rs: seq<Redemption>)
    requires One(e, TermsUint(n)).Ok? && Chronological(rs)
    requires
      || (e == ValueLte && rule == PerCall(n))
      || (e == NativeTokenTransferAmount && rule == Total(Native, n))
      || (e == LimitedCalls && rule == Calls(n))
    ensures Accepts(One(e, TermsUint(n)).value, rs) <==> Allows(rule, rs)
  {
    UintParses(e, n, rule);
    OneAccepts(e, TermsUint(n).value, rule, rs);
  }

  lemma UintParses(e: Enforcer, n: nat, rule: Rule)
    requires TermsUint(n).Ok?
    requires
      || (e == ValueLte && rule == PerCall(n))
      || (e == NativeTokenTransferAmount && rule == Total(Native, n))
      || (e == LimitedCalls && rule == Calls(n))
    ensures Parse(CaveatTerms(e, TermsUint(n).value)) == Some(rule)
  {
    ReadsUintTerms(n);
  }

  lemma NativePeriodAccepts(cap: nat, period: nat, rs: seq<Redemption>)
    requires One(NativeTokenPeriodTransfer, TermsNativePeriod(cap, 0, period)).Ok? && Chronological(rs)
    ensures Accepts(One(NativeTokenPeriodTransfer, TermsNativePeriod(cap, 0, period)).value, rs)
      <==> Allows(Periodic(Native, cap, 0, period), rs)
  {
    ReadsNativePeriod(cap, 0, period);
    OneAccepts(NativeTokenPeriodTransfer, TermsNativePeriod(cap, 0, period).value, Periodic(Native, cap, 0, period), rs);
  }

  lemma TimestampAccepts(after: nat, before: nat, rs: seq<Redemption>)
    requires One(Timestamp, TermsTimestamp(after, before)).Ok? && Chronological(rs)
    ensures Accepts(One(Timestamp, TermsTimestamp(after, before)).value, rs) <==> Allows(Window(after, before), rs)
  {
    ReadsTimestamp(after, before);
    OneAccepts(Timestamp, TermsTimestamp(after, before).value, Window(after, before), rs);
  }

  lemma PerCallMeaning(spec: Spec, rs: seq<Redemption>)
    requires PerCallCaveats(spec).Ok? && Chronological(rs)
    ensures Accepts(PerCallCaveats(spec).value, rs) <==>
      (spec.nativePerCallWei.Some? ==> forall i | 0 <= i < |rs| :: rs[i].value <= spec.nativePerCallWei.value)
  {
    if spec.nativePerCallWei.Some? {
      var n := spec.nativePerCallWei.value;
      UintAccepts(ValueLte, n, PerCall(n), rs);
    }
  }

  lemma NativeCapMeaning(spec: Spec, rs: seq<Redemption>)
    requires NativeCapCaveats(spec).Ok? && Chronological(rs)
    ensures Accepts(NativeCapCaveats(spec).value, rs) <==>
      (spec.nativeCapWei.Some? ==> WithinBudget(Native, spec.nativeCapWei.value, spec.nativePeriodSeconds, rs))
  {
    if spec.nativeCapWei.Some? {
      var cap, period := spec.nativeCapWei.value, spec.nativePeriodSeconds;
      if period > 0 {
        NativePeriodAccepts(cap, period, rs);
      } else {
        UintAccepts(NativeTokenTransferAmount, cap, Total(Native, cap), rs);
      }
    }
  }

  lemma Erc20PeriodAccepts(token: string, cap: nat, period: nat, accepts: string -> bool, rs: seq<Redemption>)
    requires TermsErc20Period(token, cap, 0, period, accepts).Ok? && Chronological(rs)
    ensures AddrBytes(token).Ok?
    ensures Accepts([CaveatTerms(Erc20PeriodTransfer, TermsErc20Period(token, cap, 0, period, accepts).value)], rs)
      <==> Allows(Periodic(Token(AddrBytes(token).value), cap, 0, period), rs)
  {
    ReadsTokenPeriod(token, cap, 0, period, accepts);
    OneAccepts(Erc20PeriodTransfer, TermsErc20Period(token, cap, 0, period, accepts).value,
               Periodic(Token(AddrBytes(token).value), cap, 0, period), rs);
  }

  lemma Erc20AmountAccepts(token: string, cap: nat, rs: seq<Redemption>)
    requires TermsErc20TransferAmount(token, cap).Ok? && Chronological(rs)
    ensures AddrBytes(token).Ok?
    ensures Accepts([CaveatTerms(Erc20TransferAmount, TermsErc20TransferAmount(token, cap).value)], rs)
      <==> Allows(Total(Token(AddrBytes(token).value), cap), rs)
  {
    ReadsPackedAmount(token, cap);
    OneAccepts(Erc20TransferAmount, TermsErc20TransferAmount(token, cap).value, Total(Token(AddrBytes(token).value), cap), rs);
  }

  lemma Erc20Meaning(limit: Erc20Limit, accepts: string -> bool, rs: seq<Redemption>)
    requires Erc20Caveats(limit, accepts).Ok? && Chronological(rs)
    ensures Accepts(Erc20Caveats(limit, accepts).value, rs) <==> Erc20Allows(limit, rs)
  {
    if limit.periodSeconds > 0 {
      Erc20PeriodAccepts(limit.token, limit.maxAmount, limit.periodSeconds, accepts, rs);
    } else {
      Erc20AmountAccepts(limit.token, limit.maxAmount, rs);
    }
  }

  ghost predicate AllErc20Allow(limits: seq<Erc20Limit>, rs: seq<Redemption>) {
    forall j | 0 <= j < |limits| :: Erc20Allows(limits[j], rs)
  }

  lemma AllErc20Snoc(init: seq<Erc20Limit>, last: Erc20Limit, rs: seq<Redemption>)
    ensures AllErc20Allow(init + [last], rs) <==> AllErc20Allow(init, rs) && Erc20Allows(last, rs)
  {
    var limits := init + [last];
    assert limits[|init|] == last && forall j | 0 <= j < |init| :: limits[j] == init[j];
  }

  lemma {:induction false} AllErc20Meaning(limits: seq<Erc20Limit>, accepts: string -> bool, rs: seq<Redemption>)
    requires AllErc20Caveats(limits, accepts).Ok? && Chronological(rs)
    ensures Accepts(AllErc20Caveats(limits, accepts).value, rs) <==> AllErc20Allow(limits, rs)
  {
    if |limits| > 0 {
      var init, last := limits[..|limits| - 1], limits[|limits| - 1];
      assert limits == init + [last];
      var a, b := AllErc20Split(limits, accepts);
      AllErc20Meaning(init, accepts, rs);
      Erc20Meaning(last, accepts, rs);
      JoinMeaning(a, b, init, last, rs);
    }
  }

  lemma JoinMeaning(a: seq<CaveatTerms>, b: seq<CaveatTerms>, init: seq<Erc20Limit>, last: Erc20Limit, rs: seq<Redemption>)
    requires Accepts(a, rs) <==> AllErc20Allow(init, rs)
    requires Accepts(b, rs) <==> Erc20Allows(last, rs)
    ensures Accepts(a + b, rs) <==> AllErc20Allow(init + [last], rs)
  {
    AcceptsConcat(a, b, rs);
    AllErc20Snoc(init, last, rs);
  }

  lemma AllErc20Split(limits: seq<Erc20Limit>, accepts: string -> bool) returns (a: seq<CaveatTerms>, b: seq<CaveatTerms>)
    requires |limits| > 0 && AllErc20Caveats(limits, accepts).Ok?
    ensures AllErc20Caveats(limits[..|limits| - 1], accepts) == Ok(a) && Erc20Caveats(limits[|limits| - 1], accepts) == Ok(b)
    ensures AllErc20Caveats(limits, accepts) == Ok(a + b)
  {
    a := AllErc20Caveats(limits[..|limits| - 1], accepts).value;
    b := Erc20Caveats(limits[|limits| - 1], accepts).value;
  }

  lemma CallsMeaning(spec: Spec, now: nat, rs: seq<Redemption>)
    requires CallsCaveats(spec, now).Ok? && Chronological(rs)
    ensures Accepts(CallsCaveats(spec, now).value, rs) <==>
      (spec.maxCalls.Some? ==>
          && |rs| <= spec.maxCalls.value
          && (spec.callsWindowSeconds > 0 ==>
                forall i | 0 <= i < |rs| :: (now > 0 ==> now < rs[i].time) && rs[i].time < now + spec.callsWindowSeconds))
  {
    if spec.maxCalls.Some? {
      var n := spec.maxCalls.value;
      UintAccepts(LimitedCalls, n, Calls(n), rs);
      if spec.callsWindowSeconds > 0 {
        var before := now + spec.callsWindowSeconds;
        TimestampAccepts(now, before, rs);
        AcceptsConcat(One(LimitedCalls, TermsUint(n)).value, One(Timestamp, TermsTimestamp(now, before)).value, rs);
      }
    }
  }

  lemma TargetsAccept(ts: seq<string>, accepts: string -> bool, rs: seq<Redemption>)
    requires TermsAllowedTargets(ts, accepts).Ok? && Chronological(rs)
    requires |TermsAllowedTargets(ts, accepts).value| < UINT256_LIMIT
    ensures Accepts([CaveatTerms(AllowedTargets, TermsAllowedTargets(ts, accepts).value)], rs)
      <==> forall i | 0 <= i < |rs| :: IsTarget(ts, rs[i].target)
  {
    TargetsParse(ts, accepts);
    var addresses := AbiAddresses(ts, accepts).value;
    OneAccepts(AllowedTargets, TermsAllowedTargets(ts, accepts).value, Targets(addresses), rs);
    TargetSet(ts, addresses);
  }

  lemma TargetsParse(ts: seq<string>, accepts: string -> bool)
    requires TermsAllowedTargets(ts, accepts).Ok? && |TermsAllowedTargets(ts, accepts).value| < UINT256_LIMIT
    ensures AbiAddresses(ts, accepts).Ok?
    ensures Parse(CaveatTerms(AllowedTargets, TermsAllowedTargets(ts, accepts).value)) ==
      Some(Targets(AbiAddresses(ts, accepts).value))
  {
    ReadsTargets(ts, accepts);
    ParseTargets(TermsAllowedTargets(ts, accepts).value, AbiAddresses(ts, accepts).value);
  }

  lemma ParseTargets(terms: string, addresses: seq<Address>)
    requires ReadTargets(terms) == Some(addresses)
    ensures Parse(CaveatTerms(AllowedTargets, terms)) == Some(Targets(addresses))
  {
  }

  lemma TargetsMeaning(spec: Spec, accepts: string -> bool, rs: seq<Redemption>)
    requires TargetsCaveats(spec, accepts).Ok? && Chronological(rs)
    requires forall c | c in TargetsCaveats(spec, accepts).value :: |c.terms| < UINT256_LIMIT
    ensures Accepts(TargetsCaveats(spec, accepts).value, rs) <==>
      (|spec.allowedTargets| > 0 ==> forall i | 0 <= i < |rs| :: IsTarget(spec.allowedTargets, rs[i].target))
  {
    if |spec.allowedTargets| > 0 {
      var terms := TermsAllowedTargets(spec.allowedTargets, accepts);
      var c := CaveatTerms(AllowedTargets, terms.value);
      assert TargetsCaveats(spec, accepts).value == [c];
      assert c in [c];
      TargetsAccept(spec.allowedTargets, accepts, rs);
    }
  }

  lemma TargetSet(ts: seq<string>, addresses: seq<Address>)
    requires |addresses| == |ts| && forall i | 0 <= i < |ts| :: AddrBytes(ts[i]) == Ok(addresses[i])
    ensures forall a: Address :: a in addresses <==> IsTarget(ts, a)
  {
    forall a: Address ensures a in addresses <==> IsTarget(ts, a) {
      if a in addresses {
        var j :| 0 <= j < |addresses| && addresses[j] == a;
        assert AddrBytes(ts[j]) == Ok(a);
      }
    }
  }

  lemma ExpiryMeaning(spec: Spec, now: nat, rs: seq<Redemption>)
    requires ExpiryCaveats(spec, now).Ok? && Chronological(rs)
    ensures Accepts(ExpiryCaveats(spec, now).value, rs) <==>
      (spec.expirySeconds > 0 ==> forall i | 0 <= i < |rs| :: rs[i].time < now + spec.expirySeconds)
  {
    if spec.expirySeconds > 0 {
      TimestampAccepts(0, now + spec.expirySeconds, rs);
    }
  }

  lemma SpendMeaning(spec: Spec, accepts: string -> bool, rs: seq<Redemption>)
    requires SpendCaveats(spec, accepts).Ok? && Chronological(rs)
    ensures Accepts(SpendCaveats(spec, accepts).value, rs) <==> SpendAllowed(spec, rs)
  {
    var a, b, c := PerCallCaveats(spec).value, NativeCapCaveats(spec).value, AllErc20Caveats(spec.erc20, accepts).value;
    AcceptsConcat(a, b, rs);
    AcceptsConcat(a + b, c, rs);
    PerCallMeaning(spec, rs);
    NativeCapMeaning(spec, rs);
    AllErc20Meaning(spec.erc20, accepts, rs);
  }

  lemma UseMeaning(spec: Spec, now: nat, accepts: string -> bool, rs: seq<Redemption>)
    requires AllCaveats(spec, now, accepts).Ok? && Chronological(rs)
    requires forall c | c in AllCaveats(spec, now, accepts).value :: |c.terms| < UINT256_LIMIT
    ensures Accepts(AllCaveats(spec, now, accepts).value, rs)
      <==> Accepts(SpendCaveats(spec, accepts).value, rs) && UseAllowed(spec, now, rs)
  {
    var c, d, e, f := AllCaveatsParts(spec, now, accepts);
    AcceptsConcat(c, d, rs);
    AcceptsConcat(c + d, e, rs);
    AcceptsConcat(c + d + e, f, rs);
    assert forall x | x in e :: x in c + d + e + f;
    CallsMeaning(spec, now, rs);
    TargetsMeaning(spec, accepts, rs);
    ExpiryMeaning(spec, now, rs);
  }

  /**
   Compilation preserves meaning, in both directions: the enforcers, reading the emitted bytes and
   keeping their ledgers, let a run of redemptions through exactly when the run is within the spec.
   */
  lemma CompilePreservesMeaning(spec: Spec, chainId: int, now: nat, accepts: string -> bool, rs: seq<Redemption>)
    requires Compile(spec, chainId, now, accepts).Ok? && Chronological(rs)
    requires forall c | c in Compile(spec, chainId, now, accepts).value.caveats :: |c.terms| < UINT256_LIMIT
    ensures Accepts(Compile(spec, chainId, now, accepts).value.caveats, rs) <==> SpecAllows(spec, now, rs)
  {
    SpendMeaning(spec, accepts, rs);
    UseMeaning(spec, now, accepts, rs);
  }

  // ---- expiry, empty lists, width limits -----------------------------------------------------

  /** The `executeBefore` of a timestamp caveat, read from its terms. */
  function ExecuteBefore(c: CaveatTerms): Option<nat> {
    var rule := Parse(c);
    if rule.Some? && rule.value.Window? then Some(rule.value.before) else None
  }

  /** `x` is the `executeBefore` of some caveat in the list. */
  ghost predicate EmitsBefore(caveats: seq<CaveatTerms>, x: int) {
    exists i :: 0 <= i < |caveats| && ExecuteBefore(caveats[i]) == Some(x)
  }

  lemma EmitsBeforeConcat(a: seq<CaveatTerms>, b: seq<CaveatTerms>, x: int)
    ensures EmitsBefore(a + b, x) <==> EmitsBefore(a, x) || EmitsBefore(b, x)
  {
    if EmitsBefore(a, x) {
      var i :| 0 <= i < |a| && ExecuteBefore(a[i]) == Some(x);
      assert (a + b)[i] == a[i];
    }
    if EmitsBefore(b, x) {
      var i :| 0 <= i < |b| && ExecuteBefore(b[i]) == Some(x);
      assert (a + b)[|a| + i] == b[i];
    }
  }

  lemma TimestampBefore(after: nat, before: nat, x: int)
    requires TermsTimestamp(after, before).Ok?
    ensures EmitsBefore([CaveatTerms(Timestamp, TermsTimestamp(after, before).value)], x) <==> x == before
  {
    ReadsTimestamp(after, before);
    var c := CaveatTerms(Timestamp, TermsTimestamp(after, before).value);
    assert [c][0] == c;
  }

  lemma WindowBefore(after: nat, before: nat, x: int) returns (window: seq<CaveatTerms>)
    requires TermsTimestamp(after, before).Ok?
    ensures One(Timestamp, TermsTimestamp(after, before)) == Ok(window)
    ensures EmitsBefore(window, x) <==> x == before
  {
    window := [CaveatTerms(Timestamp, TermsTimestamp(after, before).value)];
    TimestampBefore(after, before, x);
  }

  /** Only timestamp enforcers have a time bound. */
  lemma OthersEmitNone(caveats: seq<CaveatTerms>, x: int)
    requires forall c | c in caveats :: !c.enforcer.Timestamp?
    ensures !EmitsBefore(caveats, x)
  {
  }

  lemma {:induction false} Erc20NotTimestamps(limits: seq<Erc20Limit>, accepts: string -> bool)
    requires AllErc20Caveats(limits, accepts).Ok?
    ensures forall c | c in AllErc20Caveats(limits, accepts).value :: !c.enforcer.Timestamp?
  {
    if |limits| > 0 { Erc20NotTimestamps(limits[..|limits| - 1], accepts); }
  }

  lemma SpendBefores(spec: Spec, accepts: string -> bool, x: int)
    requires SpendCaveats(spec, accepts).Ok?
    ensures !EmitsBefore(SpendCaveats(spec, accepts).value, x)
  {
    Erc20NotTimestamps(spec.erc20, accepts);
    OthersEmitNone(SpendCaveats(spec, accepts).value, x);
  }

  lemma UseBefores(spec: Spec, now: nat, accepts: string -> bool, x: int)
    requires AllCaveats(spec, now, accepts).Ok?
    ensures EmitsBefore(AllCaveats(spec, now, accepts).value, x) <==> x in ExpiryBefores(spec, now)
  {
    var c, d, e, f := AllCaveatsParts(spec, now, accepts);
    SpendBefores(spec, accepts, x);
    TargetsBefores(spec, accepts, x);
    CallsBefores(spec, now, x);
    LastBefores(spec, now, x);
    CollectedBefores(spec, now, x);
    FourListsEmit(c, d, e, f, x);
  }

  lemma CollectedBefores(spec: Spec, now: nat, x: int)
    ensures x in ExpiryBefores(spec, now) <==>
      || (spec.maxCalls.Some? && spec.callsWindowSeconds > 0 && x == now + spec.callsWindowSeconds)
      || (spec.expirySeconds > 0 && x == now + spec.expirySeconds)
  {
  }

  lemma AllCaveatsParts(spec: Spec, now: nat, accepts: string -> bool)
    returns (c: seq<CaveatTerms>, d: seq<CaveatTerms>, e: seq<CaveatTerms>, f: seq<CaveatTerms>)
    requires AllCaveats(spec, now, accepts).Ok?
    ensures SpendCaveats(spec, accepts) == Ok(c) && CallsCaveats(spec, now) == Ok(d)
    ensures TargetsCaveats(spec, accepts) == Ok(e) && ExpiryCaveats(spec, now) == Ok(f)
    ensures AllCaveats(spec, now, accepts) == Ok(c + d + e + f)
  {
    c, d := SpendCaveats(spec, accepts).value, CallsCaveats(spec, now).value;
    e, f := TargetsCaveats(spec, accepts).value, ExpiryCaveats(spec, now).value;
  }

  lemma FourListsEmit(c: seq<CaveatTerms>, d: seq<CaveatTerms>, e: seq<CaveatTerms>, f: seq<CaveatTerms>, x: int)
    ensures EmitsBefore(c + d + e + f, x)
      <==> EmitsBefore(c, x) || EmitsBefore(d, x) || EmitsBefore(e, x) || EmitsBefore(f, x)
  {
    EmitsBeforeConcat(c, d, x);
    EmitsBeforeConcat(c + d, e, x);
    EmitsBeforeConcat(c + d + e, f, x);
  }

  lemma TargetsBefores(spec: Spec, accepts: string -> bool, x: int)
    requires TargetsCaveats(spec, accepts).Ok?
    ensures !EmitsBefore(TargetsCaveats(spec, accepts).value, x)
  {
    OthersEmitNone(TargetsCaveats(spec, accepts).value, x);
  }

  lemma LastBefores(spec: Spec, now: nat, x: int)
    requires ExpiryCaveats(spec, now).Ok?
    ensures EmitsBefore(ExpiryCaveats(spec, now).value, x) <==> spec.expirySeconds > 0 && x == now + spec.expirySeconds
  {
    if spec.expirySeconds > 0 { var _ := WindowBefore(0, now + spec.expirySeconds, x); }
  }

  lemma CallsParts(spec: Spec, now: nat) returns (cap: seq<CaveatTerms>, window: seq<CaveatTerms>)
    requires CallsCaveats(spec, now).Ok? && spec.maxCalls.Some?
    ensures CallsCaveats(spec, now) == Ok(cap + window) && forall c | c in cap :: !c.enforcer.Timestamp?
    ensures if spec.callsWindowSeconds > 0 then One(Timestamp, TermsTimestamp(now, now + spec.callsWindowSeconds)) == Ok(window)
      else window == []
  {
    cap, window := One(LimitedCalls, TermsUint(spec.maxCalls.value)).value, [];
    assert cap + [] == cap;
    if spec.callsWindowSeconds > 0 { window := One(Timestamp, TermsTimestamp(now, now + spec.callsWindowSeconds)).value; }
  }

  lemma CallsBefores(spec: Spec, now: nat, x: int)
    requires CallsCaveats(spec, now).Ok?
    ensures EmitsBefore(CallsCaveats(spec, now).value, x)
      <==> spec.maxCalls.Some? && spec.callsWindowSeconds > 0 && x == now + spec.callsWindowSeconds
  {
    if spec.maxCalls.Some? {
      var cap, window := CallsParts(spec, now);
      OthersEmitNone(cap, x);
      EmitsBeforeConcat(cap, window, x);
      if spec.callsWindowSeconds > 0 { var _ := WindowBefore(now, now + spec.callsWindowSeconds, x); }
    }
  }

  /**
   `expires_at` is the smallest `executeBefore` found in the emitted terms, and is absent exactly
   when no caveat bounds the time from above.
   */
  lemma ExpiryIsEarliestBound(spec: Spec, chainId: int, now: nat, accepts: string -> bool)
    requires Compile(spec, chainId, now, accepts).Ok?
    ensures var c := Compile(spec, chainId, now, accepts).value;
      && (c.expiresAt.None? <==> forall x :: !EmitsBefore(c.caveats, x))
      && (c.expiresAt.Some? ==>
            && EmitsBefore(c.caveats, c.expiresAt.value) && c.expiresAt.value < DATE_LIMIT
            && forall x :: EmitsBefore(c.caveats, x) ==> c.expiresAt.value <= x)
  {
    var c := Compile(spec, chainId, now, accepts).value;
    var befores := ExpiryBefores(spec, now);
    forall x ensures EmitsBefore(c.caveats, x) <==> x in befores { UseBefores(spec, now, accepts, x); }
    if |befores| > 0 { assert befores[0] in befores; }
  }

  /** Bounds from the year 10000 on, and no earlier one, are refused: the expiry cannot be printed. */
  lemma LateBoundsRefused(spec: Spec, chainId: int, now: nat, accepts: string -> bool)
    requires chainId in SUPPORTED_CHAIN_IDS && AllCaveats(spec, now, accepts).Ok?
    ensures Compile(spec, chainId, now, accepts) == Err(DateOutOfRange) <==>
      && (exists x :: EmitsBefore(AllCaveats(spec, now, accepts).value, x))
      && forall x :: EmitsBefore(AllCaveats(spec, now, accepts).value, x) ==> x >= DATE_LIMIT
  {
    var caveats, befores := AllCaveats(spec, now, accepts).value, ExpiryBefores(spec, now);
    forall x ensures EmitsBefore(caveats, x) <==> x in befores { UseBefores(spec, now, accepts, x); }
    if |befores| > 0 { assert befores[0] in befores; }
  }

  /** No caveats at all come out only of a spec with no limits that opts in to being unrestricted. */
  lemma EmptyOnlyWhenUnrestricted(spec: Spec, chainId: int, now: nat, accepts: string -> bool)
    requires Compile(spec, chainId, now, accepts).Ok?
    ensures |Compile(spec, chainId, now, accepts).value.caveats| == 0 <==>
      && spec.allowUnrestricted && spec.nativePerCallWei.None? && spec.nativeCapWei.None? && |spec.erc20| == 0
      && spec.maxCalls.None? && |spec.allowedTargets| == 0 && spec.expirySeconds <= 0
  {
  }

  // ---- seeding a spec from a policy -------------------------------------------------------------

  datatype Policy = Policy(maxAmountWei: Option<int>, maxPerHour: Option<int>)

  const HOURLY := 3600

  function SpecFromPolicy(policy: Policy, expirySeconds: int): Spec {
    Spec(policy.maxAmountWei, None, 0, [], policy.maxPerHour,
         if policy.maxPerHour.Some? then HOURLY else 0, [], expirySeconds, false)
  }

  /**
   A compiled policy holds its per-action amount and, however redemptions are spread, at most
   `max_per_hour` of them, all inside the hour that follows compilation.
   */
  lemma PolicyEnforced(policy: Policy, expirySeconds: int, chainId: int, now: nat, accepts: string -> bool, rs: seq<Redemption>)
    requires Compile(SpecFromPolicy(policy, expirySeconds), chainId, now, accepts).Ok? && Chronological(rs)
    ensures Accepts(Compile(SpecFromPolicy(policy, expirySeconds), chainId, now, accepts).value.caveats, rs) <==>
      && (policy.maxAmountWei.Some? ==> forall i | 0 <= i < |rs| :: rs[i].value <= policy.maxAmountWei.value)
      && (policy.maxPerHour.Some? ==>
            && |rs| <= policy.maxPerHour.value
            && forall i | 0 <= i < |rs| :: (now > 0 ==> now < rs[i].time) && rs[i].time < now + 3600)
      && (expirySeconds > 0 ==> forall i | 0 <= i < |rs| :: rs[i].time < now + expirySeconds)
  {
    var spec := SpecFromPolicy(policy, expirySeconds);
    SpendMeaning(spec, accepts, rs);
    var c, d, f := SpendCaveats(spec, accepts).value, CallsCaveats(spec, now).value, ExpiryCaveats(spec, now).value;
    AcceptsConcat(c, d, rs);
    assert c + d + [] == c + d;
    AcceptsConcat(c + d, f, rs);
    CallsMeaning(spec, now, rs);
    ExpiryMeaning(spec, now, rs);
  }
}
