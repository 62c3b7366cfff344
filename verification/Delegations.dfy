/**
 The life of stored delegations: redemption through the executor (clawmes/delegation/executor.py),
 revocation and refresh (clawmes/delegation/service.py), saving by id (clawmes/delegation/store.py).
 */
module Delegations {
  import opened Bytes
  import opened Extractors
  import FillDelegator
  import RateLimiter

  datatype Status = Signed | Active | Revoked | Expired

  /** A stored record; `expiry` is its readable expiry time, if it has one. */
  datatype Record =
    Record(id: string, chain: int, tools: seq<string>, delegator: string, status: Status, hashKnown: bool, expiry: Option<real>)

  predicate Redeemable(r: Record) {
    r.status == Signed || r.status == Active
  }

  // ---- the store --------------------------------------------------------------------------

  predicate Has(rs: seq<Record>, id: string) {
    exists i :: 0 <= i < |rs| && rs[i].id == id
  }

  /** One record per id. */
  ghost predicate DistinctIds(rs: seq<Record>) {
    forall i, j | 0 <= i < j < |rs| :: rs[i].id != rs[j].id
  }

  /** Saving puts the record in place of the one with its id; a new id is listed at `at`. */
  function Save(rs: seq<Record>, r: Record, at: nat): seq<Record> {
    if Has(rs, r.id) then seq(|rs|, i requires 0 <= i < |rs| => if rs[i].id == r.id then r else rs[i])
    else if at <= |rs| then rs[..at] + [r] + rs[at..]
    else rs + [r]
  }

  function Removed(rs: seq<Record>, id: string): seq<Record> {
    if |rs| == 0 then []
    else Removed(rs[..|rs| - 1], id) + if rs[|rs| - 1].id == id then [] else [rs[|rs| - 1]]
  }

  function Load(rs: seq<Record>, id: string): Option<Record> {
    if |rs| == 0 then None else if rs[0].id == id then Some(rs[0]) else Load(rs[1..], id)
  }

  // ---- redemption ----------------------------------------------------------------------------

  /** What each step of `redeem` that can fail comes to. */
  datatype Redeeming = Redeeming(hasEndpoint: bool, encodes: bool, keyLoads: bool, simulates: bool, broadcasts: bool)

  /** Whether a transaction is handed to the chain. */
  predicate Broadcasts(r: Record, w: Redeeming) {
    Redeemable(r) && w.hasEndpoint && w.encodes && w.keyLoads && w.simulates
  }

  predicate Redeems(r: Record, w: Redeeming) {
    Broadcasts(r, w) && w.broadcasts
  }

  function AfterRedeem(rs: seq<Record>, r: Record, w: Redeeming): seq<Record> {
    if Redeems(r, w) && r.status == Signed then Save(rs, r.(status := Active), 0) else rs
  }

  // ---- the executor ------------------------------------------------------------------------------

  /** A redemption handed to the chain: the record as it was then, and the action it carried. */
  datatype Sending = Sending(record: Record, action: Action)

  /** The stored records, all that was ever sent, and the limiter's table. */
  datatype State = State(records: seq<Record>, sent: seq<Sending>, attempts: RateLimiter.Table)

  datatype Context = Context(user: string, tool: string, chain: Option<int>)

  datatype Code = NoCode | SomeCode | Unread

  /** What the environment answers while one action is tried, with the limiter's clock when asked and when recording. */
  datatype World = World(
    killSwitch: bool, decimals: Option<nat>, now: real, code: Code, askedAt: real, recordedAt: real, redeeming: Redeeming)

  predicate Matches(r: Record, c: Context) {
    Redeemable(r) && (|r.tools| == 0 || c.tool in r.tools) && (c.chain.None? || r.chain == c.chain.value)
  }

  /** `find_matching_delegation`. */
  function FirstMatch(rs: seq<Record>, c: Context): Option<Record> {
    if |rs| == 0 then None else if Matches(rs[0], c) then Some(rs[0]) else FirstMatch(rs[1..], c)
  }

  predicate PastExpiry(r: Record, now: real) {
    r.expiry.Some? && now > r.expiry.value
  }

  /** The three fields of an execution result that say what came of it. */
  datatype Outcome = Outcome(executed: bool, error: bool, skipped: bool)

  const EXECUTED := Outcome(true, false, false)
  const FAILED := Outcome(false, true, false)
  const SKIPPED := Outcome(false, false, true)

  /** `try_delegation_execution`: its result unless it raises, whether a redemption was attempted, and what it leaves. */
  datatype Tried = Tried(outcome: Option<Outcome>, attempted: bool, sent: Option<Sending>, state: State)

  function TryExecution(s: State, c: Context, a: Args, w: World): Tried {
    if w.killSwitch || !HasExtractor(c.tool) then Tried(Some(SKIPPED), false, None, s)
    else match FirstMatch(s.records, c)
      case None => Tried(Some(SKIPPED), false, None, s)
      case Some(r) =>
        match Extract(c.tool, a, w.decimals)
        case Nothing => Tried(Some(SKIPPED), false, None, s)
        case Raises(_) => Tried(None, false, None, s)
        case Found(x) => TryRecord(s, c, r, Prepared(x, r.delegator), w)
  }

  /** The action with the delegator in place of its placeholder, if it carries calldata. */
  function Prepared(x: Action, delegator: string): Action {
    if |x.callData| > 10 then x.(callData := FillDelegator.Fill(x.callData, delegator)) else x
  }

  function TryRecord(s: State, c: Context, r: Record, x: Action, w: World): Tried {
    var key := RateLimiter.Key(c.user, c.tool);
    if PastExpiry(r, w.now) then
      Tried(Some(FAILED), false, None, s.(records := Save(s.records, r.(status := Expired), 0)))
    else if w.code == NoCode then Tried(Some(SKIPPED), false, None, s)
    else if RateLimiter.Limited(RateLimiter.KeptFor(s.attempts, key), w.askedAt) then
      Tried(Some(FAILED), false, None, s.(attempts := RateLimiter.Asked(s.attempts, key, w.askedAt)))
    else
      Tried(Some(if Redeems(r, w.redeeming) then EXECUTED else FAILED), true,
            if Broadcasts(r, w.redeeming) then Some(Sending(r, x)) else None, Attempted(s, key, r, x, w))
  }

  /** After an attempt: the limiter was asked, recorded it, and forgot the key if it succeeded. */
  function Attempted(s: State, key: string, r: Record, x: Action, w: World): State {
    var recorded := RateLimiter.Recorded(RateLimiter.Asked(s.attempts, key, w.askedAt), key, w.recordedAt);
    State(AfterRedeem(s.records, r, w.redeeming),
          if Broadcasts(r, w.redeeming) then s.sent + [Sending(r, x)] else s.sent,
          if Redeems(r, w.redeeming) then RateLimiter.Cleared(recorded, key) else recorded)
  }

  lemma {:induction false} FirstMatchIsFirst(rs: seq<Record>, c: Context)
    ensures FirstMatch(rs, c).None? <==> forall i | 0 <= i < |rs| :: !Matches(rs[i], c)
    ensures FirstMatch(rs, c).Some? ==> FirstMatch(rs, c).value in rs && Matches(FirstMatch(rs, c).value, c)
  {
    if |rs| > 0 && !Matches(rs[0], c) { FirstMatchIsFirst(rs[1..], c); }
  }

  /** Exactly one of the three fields is set. */
  predicate OneField(o: Outcome) {
    (o.executed || o.error || o.skipped) && !(o.executed && o.error) && !(o.executed && o.skipped) && !(o.error && o.skipped)
  }

  /** The try stops before it looks at the arguments. */
  predicate StopsEarly(s: State, c: Context, w: World) {
    w.killSwitch || !HasExtractor(c.tool) || FirstMatch(s.records, c).None?
  }

  /** What is sent covers the action, is signed or active and not past its expiry. */
  predicate SendsCovered(s: State, c: Context, w: World, t: Tried) {
    && t.state.sent == (if t.sent.Some? then s.sent + [t.sent.value] else s.sent)
    && (t.sent.Some? ==>
          var r := t.sent.value.record;
          r in s.records && Matches(r, c) && !PastExpiry(r, w.now))
    && (t.outcome == Some(EXECUTED) ==> t.attempted && t.sent.Some? && Redeems(t.sent.value.record, w.redeeming))
  }

  lemma RecordSendsCovered(s: State, c: Context, r: Record, x: Action, w: World)
    requires r in s.records && Matches(r, c)
    ensures SendsCovered(s, c, w, TryRecord(s, c, r, x, w))
  {
  }

  lemma TrySendsCovered(s: State, c: Context, a: Args, w: World)
    ensures SendsCovered(s, c, w, TryExecution(s, c, a, w))
  {
    FirstMatchIsFirst(s.records, c);
    var r := FirstMatch(s.records, c);
    if !StopsEarly(s, c, w) && Extract(c.tool, a, w.decimals).Found? {
      RecordSendsCovered(s, c, r.value, Prepared(Extract(c.tool, a, w.decimals).action, r.value.delegator), w);
    }
  }

  /** Exactly one field of the outcome is set; a skip attempted and changed nothing. */
  predicate OneOutcome(s: State, t: Tried) {
    t.outcome.Some? && OneField(t.outcome.value) && (t.outcome.value.skipped ==> Untouched(s, t))
  }

  predicate Untouched(s: State, t: Tried) {
    !t.attempted && t.sent.None? && t.state == s
  }

  lemma RecordHasOutcome(s: State, c: Context, r: Record, x: Action, w: World)
    ensures OneOutcome(s, TryRecord(s, c, r, x, w))
  {
  }

  /**
   A try has an outcome if and only if it stops before the extraction or the encoder accepts what is
   extracted; then it is exactly one of executed, error and skip. Without an outcome, and on a skip,
   nothing was attempted and nothing has changed. An execution sends exactly one record, which covers the
   action, is signed or active and not past its expiry.
   */
  lemma ExactlyOneOutcome(s: State, c: Context, a: Args, w: World)
    ensures var t := TryExecution(s, c, a, w);
      && SendsCovered(s, c, w, t)
      && if StopsEarly(s, c, w) || !EncoderRefuses(c.tool, a, w.decimals) then OneOutcome(s, t)
         else t.outcome.None? && Untouched(s, t)
  {
    TrySendsCovered(s, c, a, w);
    if !StopsEarly(s, c, w) {
      RaisesIff(c.tool, a, w.decimals);
      if Extract(c.tool, a, w.decimals).Found? {
        var r := FirstMatch(s.records, c).value;
        RecordHasOutcome(s, c, r, Prepared(Extract(c.tool, a, w.decimals).action, r.delegator), w);
      }
    }
  }

  /** A token id below zero ends a try without an outcome, once a delegation covers it. */
  lemma TokenIdEndsTry(s: State, c: Context, a: Args, w: World)
    requires c.tool == "nft" && MovesNft(a) && a.tokenId.value < 0 && !StopsEarly(s, c, w)
    ensures TryExecution(s, c, a, w).outcome.None?
  {
    TokenIdRaises(a, w.decimals);
  }

  // ---- runs ------------------------------------------------------------------------------------------

  /** What `disabledDelegations` reads as. */
  datatype ChainRead = Disabled | Enabled | Unreadable

  datatype Event =
    | Store(record: Record, at: nat)
    | Delete(id: string)
    | Revoke(id: string)
    | Refresh(id: string, read: ChainRead)
    | Try(ctx: Context, args: Args, world: World)

  function Refreshed(r: Record, read: ChainRead): Record {
    if r.status == Revoked || !r.hashKnown then r
    else match read
      case Disabled => r.(status := Revoked)
      case Enabled => r.(status := Active)
      case Unreadable => r
  }

  function Step(s: State, e: Event): State {
    match e
    case Store(record, at) => s.(records := Save(s.records, record.(status := Signed), at))
    case Delete(id) => s.(records := Removed(s.records, id))
    case Revoke(id) =>
      var r := Load(s.records, id);
      if r.None? then s else s.(records := Save(s.records, r.value.(status := Revoked), 0))
    case Refresh(id, read) =>
      var r := Load(s.records, id);
      if r.None? then s else s.(records := Save(s.records, Refreshed(r.value, read), 0))
    case Try(ctx, args, world) => TryExecution(s, ctx, args, world).state
  }

  function Run(events: seq<Event>): State {
    if |events| == 0 then State([], [], map[]) else Step(Run(events[..|events| - 1]), events[|events| - 1])
  }

  // ---- revocation is final ------------------------------------------------------------------------------

  /** Every record with this id, if there is one, is revoked. */
  predicate RevokedIn(rs: seq<Record>, id: string) {
    forall i | 0 <= i < |rs| && rs[i].id == id :: rs[i].status == Revoked
  }

  lemma {:induction false} LoadFinds(rs: seq<Record>, id: string)
    ensures Load(rs, id).None? <==> !Has(rs, id)
    ensures Load(rs, id).Some? ==> Load(rs, id).value in rs && Load(rs, id).value.id == id
  {
    if |rs| > 0 {
      if rs[0].id != id {
        LoadFinds(rs[1..], id);
        if Has(rs, id) {
          var i :| 0 <= i < |rs| && rs[i].id == id;
          assert rs[1..][i - 1].id == id;
        }
        if Has(rs[1..], id) {
          var i :| 0 <= i < |rs[1..]| && rs[1..][i].id == id;
          assert rs[i + 1].id == id;
        }
      }
    }
  }

  lemma SaveKeepsRevoked(rs: seq<Record>, r: Record, at: nat, id: string)
    requires RevokedIn(rs, id) && (r.id == id ==> r.status == Revoked)
    ensures RevokedIn(Save(rs, r, at), id)
  {
  }

  lemma {:induction false} RemovedKeepsRevoked(rs: seq<Record>, gone: string, id: string)
    requires RevokedIn(rs, id)
    ensures RevokedIn(Removed(rs, gone), id)
  {
    if |rs| > 0 { RemovedKeepsRevoked(rs[..|rs| - 1], gone, id); }
  }

  lemma RecordKeepsRevoked(s: State, c: Context, r: Record, x: Action, w: World, id: string)
    requires RevokedIn(s.records, id) && r in s.records && Redeemable(r)
    ensures RevokedIn(TryRecord(s, c, r, x, w).state.records, id)
  {
    SaveKeepsRevoked(s.records, r.(status := Expired), 0, id);
    SaveKeepsRevoked(s.records, r.(status := Active), 0, id);
  }

  lemma TryKeepsRevoked(s: State, c: Context, a: Args, w: World, id: string)
    requires RevokedIn(s.records, id)
    ensures RevokedIn(TryExecution(s, c, a, w).state.records, id)
  {
    FirstMatchIsFirst(s.records, c);
    if !StopsEarly(s, c, w) && Extract(c.tool, a, w.decimals).Found? {
      var r := FirstMatch(s.records, c).value;
      RecordKeepsRevoked(s, c, r, Prepared(Extract(c.tool, a, w.decimals).action, r.delegator), w, id);
    }
  }

  lemma StepKeepsRevoked(s: State, e: Event, id: string)
    requires RevokedIn(s.records, id) && !(e.Store? && e.record.id == id)
    ensures RevokedIn(Step(s, e).records, id)
  {
    match e
    case Store(record, at) => SaveKeepsRevoked(s.records, record.(status := Signed), at, id);
    case Delete(gone) => RemovedKeepsRevoked(s.records, gone, id);
    case Revoke(other) => LoadFinds(s.records, other);
    case Refresh(other, read) => LoadFinds(s.records, other);
    case Try(ctx, args, world) => TryKeepsRevoked(s, ctx, args, world, id);
  }

  /** From event `n` on the id is not stored anew. */
  predicate NotStoredFrom(events: seq<Event>, n: nat, id: string) {
    forall i | n <= i < |events| :: !(events[i].Store? && events[i].record.id == id)
  }

  lemma RevokeRevokes(s: State, id: string)
    ensures RevokedIn(Step(s, Revoke(id)).records, id)
  {
    LoadFinds(s.records, id);
  }

  /** An id that is revoked after `n` events stays so until it is stored anew. */
  lemma {:induction false} StaysRevoked(events: seq<Event>, n: nat, id: string)
    requires n <= |events| && RevokedIn(Run(events[..n]).records, id)
    requires NotStoredFrom(events, n, id)
    ensures RevokedIn(Run(events).records, id)
  {
    if n == |events| {
      assert events[..n] == events;
    } else {
      var init := events[..|events| - 1];
      assert init[..n] == events[..n];
      StaysRevoked(init, n, id);
      StepKeepsRevoked(Run(init), events[|events| - 1], id);
    }
  }

  lemma RevokedAfter(events: seq<Event>, n: nat, id: string)
    requires n < |events| && events[n] == Revoke(id)
    ensures RevokedIn(Run(events[..n + 1]).records, id)
  {
    assert events[..n + 1][..n] == events[..n];
    RevokeRevokes(Run(events[..n]), id);
  }

  /** Revoked is absorbing: after a revocation the id stays revoked until it is stored anew. */
  lemma RevokedForever(events: seq<Event>, n: nat, id: string)
    requires n < |events| && events[n] == Revoke(id)
    requires NotStoredFrom(events, n + 1, id)
    ensures RevokedIn(Run(events).records, id)
  {
    RevokedAfter(events, n, id);
    StaysRevoked(events, n + 1, id);
  }

  // ---- only redeemable records are sent --------------------------------------------------------------------

  /** An event sends nothing, or one stored record that is signed or active. */
  predicate SendsRedeemable(s: State, after: State) {
    || after.sent == s.sent
    || (|after.sent| == |s.sent| + 1 && after.sent[..|s.sent|] == s.sent
        && after.sent[|s.sent|].record in s.records && Redeemable(after.sent[|s.sent|].record))
  }

  lemma StepSends(s: State, e: Event)
    ensures SendsRedeemable(s, Step(s, e))
  {
    if e.Try? { TrySendsCovered(s, e.ctx, e.args, e.world); }
  }

  /** Over every run, each record handed to the chain was signed or active at that moment. */
  lemma {:induction false} SentWereRedeemable(events: seq<Event>)
    ensures forall i | 0 <= i < |Run(events).sent| :: Redeemable(Run(events).sent[i].record)
  {
    if |events| > 0 {
      SentWereRedeemable(events[..|events| - 1]);
      StepSends(Run(events[..|events| - 1]), events[|events| - 1]);
      StillRedeemable(Run(events[..|events| - 1]), Run(events));
    }
  }

  lemma StillRedeemable(s: State, after: State)
    requires SendsRedeemable(s, after) && forall i | 0 <= i < |s.sent| :: Redeemable(s.sent[i].record)
    ensures forall i | 0 <= i < |after.sent| :: Redeemable(after.sent[i].record)
  {
    assert forall i | 0 <= i < |s.sent| :: s.sent[i] == after.sent[..|s.sent|][i];
  }

  /** From position `n` on, nothing was sent for the id. */
  predicate NoneSentFrom(sent: seq<Sending>, n: nat, id: string) {
    n <= |sent| && forall i | n <= i < |sent| :: sent[i].record.id != id
  }

  lemma StillNoneSent(s: State, after: State, n: nat, id: string)
    requires SendsRedeemable(s, after) && RevokedIn(s.records, id) && NoneSentFrom(s.sent, n, id)
    ensures NoneSentFrom(after.sent, n, id)
  {
    assert forall i | 0 <= i < |s.sent| :: s.sent[i] == after.sent[..|s.sent|][i];
  }

  lemma {:induction false} NothingSentWhileRevoked(events: seq<Event>, n: nat, id: string)
    requires n <= |events| && RevokedIn(Run(events[..n]).records, id)
    requires NotStoredFrom(events, n, id)
    ensures NoneSentFrom(Run(events).sent, |Run(events[..n]).sent|, id)
  {
    if n == |events| {
      assert events[..n] == events;
    } else {
      var init, e := events[..|events| - 1], events[|events| - 1];
      assert init[..n] == events[..n];
      NothingSentWhileRevoked(init, n, id);
      StaysRevoked(init, n, id);
      StepSends(Run(init), e);
      StillNoneSent(Run(init), Run(events), |Run(events[..n]).sent|, id);
    }
  }

  /** And after a revocation, until it is stored anew, nothing more is sent for an id. */
  lemma NothingSentAfterRevoke(events: seq<Event>, n: nat, id: string)
    requires n < |events| && events[n] == Revoke(id)
    requires NotStoredFrom(events, n + 1, id)
    ensures NoneSentFrom(Run(events).sent, |Run(events[..n]).sent|, id)
  {
    RevokedAfter(events, n, id);
    assert events[..n + 1][..n] == events[..n];
    NothingSentWhileRevoked(events, n + 1, id);
  }

  // ---- a stale copy ----------------------------------------------------------------------------------------

  /**
   The store saves whole records. A redemption that loaded its copy before a revocation and saves it
   afterwards makes the id active again exactly when that copy was still marked signed.
   */
  lemma LateSaveRevivesIff(rs: seq<Record>, copy: Record, w: Redeeming)
    requires Has(rs, copy.id) && Redeems(copy, w)
    ensures var revoked := Save(rs, copy.(status := Revoked), 0);
      RevokedIn(revoked, copy.id) && (RevokedIn(AfterRedeem(revoked, copy, w), copy.id) <==> copy.status != Signed)
  {
    var revoked := Save(rs, copy.(status := Revoked), 0);
    var i :| 0 <= i < |rs| && rs[i].id == copy.id;
    assert revoked[i].id == copy.id;
    assert copy.status == Signed ==> AfterRedeem(revoked, copy, w)[i] == copy.(status := Active);
  }
}
