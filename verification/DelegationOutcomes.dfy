/** What becomes of a try and of the stored records, in the terms of the executor's outcome contract. */
module DelegationOutcomes {
  import opened Bytes
  import opened Encoding
  import opened Calldata
  import opened FillDelegator
  import opened Extractors
  import opened Delegations
  import RateLimiter

  // ---- the record that covers an action -----------------------------------------------------------

  /** Signed or active, for this tool or every tool, on this chain if the action names one. */
  predicate Covers(r: Record, c: Context) {
    && r.status in {Signed, Active}
    && (r.tools == [] || c.tool in r.tools)
    && (c.chain == None || c.chain == Some(r.chain))
  }

  ghost predicate FirstCover(rs: seq<Record>, c: Context, r: Record) {
    exists i :: 0 <= i < |rs| && rs[i] == r && Covers(r, c) && forall j | 0 <= j < i :: !Covers(rs[j], c)
  }

  /** The match is the first record that covers the action, and there is one if any does. */
  lemma {:induction false} MatchIsFirstCover(rs: seq<Record>, c: Context)
    ensures FirstMatch(rs, c).None? <==> forall i | 0 <= i < |rs| :: !Covers(rs[i], c)
    ensures FirstMatch(rs, c).Some? ==> FirstCover(rs, c, FirstMatch(rs, c).value)
  {
    if |rs| > 0 {
      if Covers(rs[0], c) {
        assert FirstCover(rs, c, rs[0]);
      } else {
        var rest := rs[1..];
        MatchIsFirstCover(rest, c);
        assert forall i | 0 < i < |rs| :: rs[i] == rest[i - 1];
        if FirstMatch(rest, c).Some? {
          var i :| 0 <= i < |rest| && rest[i] == FirstMatch(rest, c).value && forall j | 0 <= j < i :: !Covers(rest[j], c);
          assert rs[i + 1] == rest[i];
        }
      }
    }
  }

  // ---- the outcome contract -------------------------------------------------------------------------

  /** A covered action can be extracted from the arguments, and nothing switches delegation off. */
  ghost predicate Applies(s: State, c: Context, a: Args, w: World, r: Record) {
    && !w.killSwitch && c.tool in {"approvals", "nft", "transfer"}
    && FirstCover(s.records, c, r) && Extractable(c.tool, a, w.decimals)
  }

  predicate Expired(r: Record, w: World) {
    r.expiry.Some? && r.expiry.value < w.now
  }

  /** Three attempts of this user and tool are kept that are less than 60 seconds old. */
  predicate Throttled(s: State, c: Context, w: World) {
    |RateLimiter.YoungAt(RateLimiter.KeptFor(s.attempts, RateLimiter.Key(c.user, c.tool)), w.askedAt)| >= 3
  }

  /** Every step of a redemption goes well. */
  predicate GoesThrough(d: Redeeming) {
    d.hasEndpoint && d.encodes && d.keyLoads && d.simulates && d.broadcasts
  }

  /**
   Once a delegation applies, the try skips only if the delegator is known to have no code; otherwise it
   fails closed: it is an error if the delegation is expired, the user is throttled or the redemption does not go through,
   and executed if none of that holds. The action is handed to the chain under the record exactly when it
   got as far as a simulation that passed.
   */
  predicate FollowsContract(s: State, c: Context, w: World, r: Record, x: Action, t: Tried) {
    && t.outcome.Some?
    && (t.outcome.value.skipped <==> !Expired(r, w) && w.code == NoCode)
    && (t.outcome.value.error <==> Expired(r, w) || (w.code != NoCode && (Throttled(s, c, w) || !GoesThrough(w.redeeming))))
    && (t.outcome.value.executed <==> !Expired(r, w) && w.code != NoCode && !Throttled(s, c, w) && GoesThrough(w.redeeming))
    && (t.attempted <==> !Expired(r, w) && w.code != NoCode && !Throttled(s, c, w))
    && t.sent == (if t.attempted && GoesThrough(w.redeeming.(broadcasts := true)) then Some(Sending(r, x)) else None)
  }

  lemma RecordFollowsContract(s: State, c: Context, r: Record, x: Action, w: World)
    requires Covers(r, c)
    ensures FollowsContract(s, c, w, r, x, TryRecord(s, c, r, x, w))
  {
    RateLimiter.LimitedMeans(RateLimiter.KeptFor(s.attempts, RateLimiter.Key(c.user, c.tool)), w.askedAt);
  }

  lemma FirstCoverUnique(rs: seq<Record>, c: Context, r: Record, r': Record)
    requires FirstCover(rs, c, r) && FirstCover(rs, c, r')
    ensures r == r'
  {
    var i :| 0 <= i < |rs| && rs[i] == r && Covers(r, c) && forall j | 0 <= j < i :: !Covers(rs[j], c);
    var k :| 0 <= k < |rs| && rs[k] == r' && Covers(r', c) && forall j | 0 <= j < k :: !Covers(rs[j], c);
    assert i == k;
  }

  /** The action extracted from the arguments, with the delegator filled in. */
  function ActionFor(c: Context, a: Args, w: World, r: Record): Action
    requires HasExtractor(c.tool) && Extractable(c.tool, a, w.decimals)
  {
    FoundIff(c.tool, a, w.decimals);
    Prepared(Extract(c.tool, a, w.decimals).action, r.delegator)
  }

  lemma AppliesTo(s: State, c: Context, a: Args, w: World, r: Record)
    requires Applies(s, c, a, w, r)
    ensures TryExecution(s, c, a, w) == TryRecord(s, c, r, ActionFor(c, a, w, r), w) && Covers(r, c)
  {
    MatchIsFirstCover(s.records, c);
    FirstCoverUnique(s.records, c, r, FirstMatch(s.records, c).value);
    FoundIff(c.tool, a, w.decimals);
  }

  lemma OutcomeWhenApplies(s: State, c: Context, a: Args, w: World, r: Record)
    requires Applies(s, c, a, w, r)
    ensures FollowsContract(s, c, w, r, ActionFor(c, a, w, r), TryExecution(s, c, a, w))
  {
    AppliesTo(s, c, a, w, r);
    RecordFollowsContract(s, c, r, ActionFor(c, a, w, r), w);
  }

  /** No delegation applies, and the arguments do not raise: the try skips. */
  lemma SkipsWhenNoneApplies(s: State, c: Context, a: Args, w: World)
    requires forall r :: !Applies(s, c, a, w, r)
    ensures var t := TryExecution(s, c, a, w);
      && (t.outcome == Some(SKIPPED) || t.outcome == None) && !t.attempted && t.sent == None && t.state == s
      && (t.outcome == None ==> !StopsEarly(s, c, w) && EncoderRefuses(c.tool, a, w.decimals))
  {
    MatchIsFirstCover(s.records, c);
    if !StopsEarly(s, c, w) {
      FoundIff(c.tool, a, w.decimals);
      assert !Applies(s, c, a, w, FirstMatch(s.records, c).value);
    }
  }

  /** In particular a transfer of a token that is neither an address nor ether is left to the handler. */
  lemma OtherTokenSkips(s: State, c: Context, a: Args, w: World)
    requires c.tool == "transfer" && !IsAddr(a.token) && a.token != "" && Lower(a.token) != "eth" && Lower(a.token) != "native"
    ensures TryExecution(s, c, a, w).outcome == Some(SKIPPED)
  {
    OtherTokenGivesNothing(a, w.decimals);
  }

  // ---- the action that is sent ------------------------------------------------------------------------

  /**
   What reaches the chain: ether as asked; a token transfer as asked unless its calldata has 64 zeros in a row;
   a token move from the delegator unless its last 128 digits have; and never a revocation of an allowance,
   whose zero amount the filling overwrites.
   */
  ghost predicate ReachesChain(c: Context, a: Args, decimals: Option<nat>, delegator: string, x: Action) {
    match c.tool
    case "transfer" =>
      if SendsNative(a) then x == Action(a.to, ParseAmount(a.amount, 18).value, "0x")
      else
        && SendsToken(a, decimals) && EncodeErc20Transfer(a.to, ParseAmount(a.amount, decimals.value).value).Ok?
        && x.target == a.token && x.value == 0
        && var asked := EncodeErc20Transfer(a.to, ParseAmount(a.amount, decimals.value).value).value;
           x.callData == asked <==> !HasRun(asked)
    case "approvals" =>
      && EncodeErc20Approve(a.spender, 0).Ok? && x.target == a.token && x.value == 0
      && x.callData != EncodeErc20Approve(a.spender, 0).value
    case "nft" =>
      && a.tokenId.Some? && AddrBytes(a.to).Ok? && Uint256(a.tokenId.value).Ok? && x.target == a.contract && x.value == 0
      && EncodeErc721TransferFrom(delegator, a.to, a.tokenId.value).Ok?
      && (x.callData == EncodeErc721TransferFrom(delegator, a.to, a.tokenId.value).value
          <==> !HasRun(TransferTail(a.to, a.tokenId.value)))
    case _ => true
  }

  lemma PreparedReaches(c: Context, a: Args, w: World, r: Record)
    requires HasExtractor(c.tool) && Extractable(c.tool, a, w.decimals) && IsDelegator(r.delegator)
    ensures ReachesChain(c, a, w.decimals, r.delegator, ActionFor(c, a, w, r))
  {
    FoundIff(c.tool, a, w.decimals);
    if c.tool == "transfer" {
      TransferReaches(a, w.decimals, r.delegator);
    } else if c.tool == "approvals" {
      ApprovalReaches(a, r.delegator);
    } else {
      NftReaches(a, r.delegator);
    }
  }

  lemma TransferReaches(a: Args, decimals: Option<nat>, delegator: string)
    requires Extractable("transfer", a, decimals) && IsDelegator(delegator) && ExtractTransfer(a, decimals).Found?
    ensures ReachesChain(Context("", "transfer", None), a, decimals, delegator,
                         Prepared(ExtractTransfer(a, decimals).action, delegator))
  {
    if !SendsNative(a) {
      var base := ParseAmount(a.amount, decimals.value).value;
      EncodersAgree(a.to, base);
      FillKeepsLength(EncodeErc20Transfer(a.to, base).value, delegator);
    }
  }

  lemma ApprovalReaches(a: Args, delegator: string)
    requires Extractable("approvals", a, None) && IsDelegator(delegator) && ExtractApprovals(a).Found?
    ensures ReachesChain(Context("", "approvals", None), a, None, delegator, Prepared(ExtractApprovals(a).action, delegator))
  {
    EncodersAgree(a.spender, 0);
    ZeroAllowanceIsFilled(delegator, a.spender);
  }

  lemma NftReaches(a: Args, delegator: string)
    requires Extractable("nft", a, None) && IsDelegator(delegator) && ExtractNft(a).Found?
    ensures ReachesChain(Context("", "nft", None), a, None, delegator, Prepared(ExtractNft(a).action, delegator))
  {
    AddressesEncode(a.to);
    FillsTransferFrom(delegator, a.to, a.tokenId.value);
  }

  /** Whatever a run of tries hands to the chain is the call its arguments ask for, as far as filling leaves it so. */
  lemma SentAsAsked(s: State, c: Context, a: Args, w: World)
    requires var t := TryExecution(s, c, a, w); t.sent.Some? && IsDelegator(t.sent.value.record.delegator)
    ensures var sent := TryExecution(s, c, a, w).sent.value;
      ReachesChain(c, a, w.decimals, sent.record.delegator, sent.action)
  {
    var r := FirstMatch(s.records, c).value;
    MatchIsFirstCover(s.records, c);
    FoundIff(c.tool, a, w.decimals);
    assert Applies(s, c, a, w, r);
    OutcomeWhenApplies(s, c, a, w, r);
    PreparedReaches(c, a, w, r);
  }

  // ---- the store -----------------------------------------------------------------------------------------

  /** Exactly the record with this id differs: it is now `r`, or gone. */
  ghost predicate OnlyDiffers(rs: seq<Record>, after: seq<Record>, id: string, r: Option<Record>) {
    forall x :: Load(after, x) == if x == id then r else Load(rs, x)
  }

  lemma {:induction false} LoadMapped(rs: seq<Record>, r: Record, x: string)
    ensures var after := seq(|rs|, i requires 0 <= i < |rs| => if rs[i].id == r.id then r else rs[i]);
      Load(after, x) == if x == r.id && Has(rs, r.id) then Some(r) else Load(rs, x)
  {
    var after := seq(|rs|, i requires 0 <= i < |rs| => if rs[i].id == r.id then r else rs[i]);
    if |rs| > 0 {
      var rest := rs[1..];
      LoadMapped(rest, r, x);
      assert after[1..] == seq(|rest|, i requires 0 <= i < |rest| => if rest[i].id == r.id then r else rest[i]);
      HasRest(rs, r.id);
    }
  }

  lemma HasRest(rs: seq<Record>, id: string)
    requires |rs| > 0
    ensures Has(rs, id) <==> rs[0].id == id || Has(rs[1..], id)
  {
    if Has(rs[1..], id) {
      var i :| 0 <= i < |rs[1..]| && rs[1..][i].id == id;
      assert rs[i + 1].id == id;
    }
    if Has(rs, id) && rs[0].id != id {
      var i :| 0 <= i < |rs| && rs[i].id == id;
      assert rs[1..][i - 1].id == id;
    }
  }

  lemma {:induction false} LoadConcat(rs: seq<Record>, more: seq<Record>, x: string)
    ensures Load(rs + more, x) == if Load(rs, x).Some? then Load(rs, x) else Load(more, x)
  {
    if |rs| == 0 {
      assert rs + more == more;
    } else {
      LoadConcat(rs[1..], more, x);
      assert (rs + more)[0] == rs[0] && (rs + more)[1..] == rs[1..] + more;
    }
  }

  lemma LoadInserted(front: seq<Record>, r: Record, back: seq<Record>, x: string)
    requires Load(front + back, r.id) == None
    ensures Load(front + [r] + back, x) == if x == r.id then Some(r) else Load(front + back, x)
  {
    LoadConcat(front, back, x);
    LoadConcat(front, back, r.id);
    LoadConcat(front + [r], back, x);
    LoadConcat(front, [r], x);
  }

  /** Saving stores the record under its id, wherever a new one is listed, and leaves the others. */
  lemma SaveMeans(rs: seq<Record>, r: Record, at: nat)
    ensures OnlyDiffers(rs, Save(rs, r, at), r.id, Some(r))
  {
    LoadFinds(rs, r.id);
    forall x ensures Load(Save(rs, r, at), x) == if x == r.id then Some(r) else Load(rs, x) {
      if Has(rs, r.id) {
        LoadMapped(rs, r, x);
      } else if at <= |rs| {
        assert rs[..at] + rs[at..] == rs;
        LoadInserted(rs[..at], r, rs[at..], x);
      } else {
        assert rs + [] == rs && rs + [r] + [] == rs + [r];
        LoadInserted(rs, r, [], x);
      }
    }
  }

  lemma {:induction false} RemovedMeans(rs: seq<Record>, id: string, x: string)
    ensures Load(Removed(rs, id), x) == if x == id then None else Load(rs, x)
  {
    if |rs| > 0 {
      var init, last := rs[..|rs| - 1], rs[|rs| - 1];
      RemovedMeans(init, id, x);
      assert rs == init + [last];
      LoadConcat(init, [last], x);
      LoadConcat(Removed(init, id), [last], x);
      assert Removed(init, id) + [] == Removed(init, id);
    }
  }

  /** What each command of the service does to the stored records. */
  ghost predicate StoreMeans(s: State, e: Event, after: State) {
    match e
    case Store(r, _) => OnlyDiffers(s.records, after.records, r.id, Some(r.(status := Signed)))
    case Delete(id) => OnlyDiffers(s.records, after.records, id, None)
    case Revoke(id) =>
      if Load(s.records, id).None? then after == s
      else OnlyDiffers(s.records, after.records, id, Some(Load(s.records, id).value.(status := Revoked)))
    case Refresh(id, read) =>
      var r := Load(s.records, id);
      if r.None? then after == s
      else OnlyDiffers(s.records, after.records, id, Some(
        if r.value.status == Revoked || !r.value.hashKnown || read == Unreadable then r.value
        else r.value.(status := if read == Disabled then Revoked else Active)))
    case Try(_, _, _) => true
  }

  /** A refresh follows the chain's answer; a revoked record, an unknown hash or an unreadable answer keeps the status. */
  lemma CommandStores(s: State, e: Event)
    ensures StoreMeans(s, e, Step(s, e))
    ensures !e.Try? ==> Step(s, e).sent == s.sent && Step(s, e).attempts == s.attempts
  {
    match e
    case Store(r, at) => SaveMeans(s.records, r.(status := Signed), at);
    case Delete(id) =>
      forall x ensures Load(Removed(s.records, id), x) == if x == id then None else Load(s.records, x) {
        RemovedMeans(s.records, id, x);
      }
    case Revoke(id) =>
      LoadFinds(s.records, id);
      if Load(s.records, id).Some? { SaveMeans(s.records, Load(s.records, id).value.(status := Revoked), 0); }
    case Refresh(id, read) =>
      LoadFinds(s.records, id);
      if Load(s.records, id).Some? { SaveMeans(s.records, Refreshed(Load(s.records, id).value, read), 0); }
    case Try(_, _, _) =>
  }

  /** A try marks an expired record so, and a signed one that it redeemed active; nothing else is written. */
  ghost predicate TryWrites(rs: seq<Record>, r: Record, w: World, t: Tried) {
    if Expired(r, w) then OnlyDiffers(rs, t.state.records, r.id, Some(r.(status := Status.Expired)))
    else if t.outcome == Some(EXECUTED) && r.status == Signed
    then OnlyDiffers(rs, t.state.records, r.id, Some(r.(status := Active)))
    else t.state.records == rs
  }

  lemma RecordWrites(s: State, c: Context, r: Record, x: Action, w: World)
    requires Covers(r, c)
    ensures TryWrites(s.records, r, w, TryRecord(s, c, r, x, w))
  {
    SaveMeans(s.records, r.(status := Status.Expired), 0);
    SaveMeans(s.records, r.(status := Active), 0);
  }

  lemma TryStores(s: State, c: Context, a: Args, w: World, r: Record)
    requires Applies(s, c, a, w, r)
    ensures TryWrites(s.records, r, w, TryExecution(s, c, a, w))
  {
    AppliesTo(s, c, a, w, r);
    RecordWrites(s, c, r, ActionFor(c, a, w, r), w);
  }
}
