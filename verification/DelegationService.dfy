/** The delegation store and the entry point that changes it in place, against the functions of `Delegations`. */
module DelegationService {
  import opened Bytes
  import opened Delegations
  import opened Extractors
  import FillDelegator
  import RateLimiter

  class Service {
    var records: seq<Record>
    const limiter: RateLimiter.Limiter
    ghost var sent: seq<Sending>

    constructor ()
      ensures Valid() && records == [] && sent == [] && fresh(limiter) && limiter.attempts == map[]
    {
      var l := new RateLimiter.Limiter();
      records, sent, limiter := [], [], l;
    }

    /** One record per id. */
    ghost predicate Valid()
      reads this
    {
      DistinctIds(records)
    }

    ghost function Model(): State
      reads this, limiter
    {
      State(records, sent, limiter.attempts)
    }

    /** `DelegationStore.save`. */
    method SaveRecord(r: Record, at: nat)
      requires Valid()
      modifies `records
      ensures Valid() && records == Save(old(records), r, at)
    {
      var i := 0;
      var found := false;
      ghost var before := records;
      while i < |records|
        invariant 0 <= i <= |records| == |before|
        invariant found <==> exists j :: 0 <= j < i && before[j].id == r.id
        invariant forall j | 0 <= j < i :: records[j] == if before[j].id == r.id then r else before[j]
        invariant forall j | i <= j < |before| :: records[j] == before[j]
      {
        if records[i].id == r.id {
          records := records[i := r];
          found := true;
        }
        i := i + 1;
      }
      if found {
        assert records == Save(before, r, at);
        SaveKeepsDistinct(before, r, at);
      } else {
        assert records == before;
        SaveKeepsDistinct(before, r, at);
        if at <= |records| {
          records := records[..at] + [r] + records[at..];
        } else {
          records := records + [r];
        }
      }
    }

    /** `find_matching_delegation`. */
    method FindMatching(c: Context) returns (r: Option<Record>)
      ensures r == FirstMatch(records, c)
    {
      var i := 0;
      while i < |records|
        invariant 0 <= i <= |records|
        invariant FirstMatch(records, c) == FirstMatch(records[i..], c)
      {
        if Redeemable(records[i]) {
          if |records[i].tools| == 0 || c.tool in records[i].tools {
            if c.chain.None? || records[i].chain == c.chain.value {
              return Some(records[i]);
            }
          }
        }
        assert records[i..][1..] == records[i + 1..];
        i := i + 1;
      }
      return None;
    }

    /** `redeem`. */
    method Redeem(r: Record, x: Action, w: Redeeming) returns (ok: bool)
      requires Valid()
      modifies `records, `sent
      ensures Valid() && ok == Redeems(r, w) && records == AfterRedeem(old(records), r, w)
      ensures sent == if Broadcasts(r, w) then old(sent) + [Sending(r, x)] else old(sent)
    {
      if !Redeemable(r) || !w.hasEndpoint || !w.encodes || !w.keyLoads || !w.simulates { return false; }
      sent := sent + [Sending(r, x)];
      if !w.broadcasts { return false; }
      if r.status == Signed {
        SaveRecord(r.(status := Active), 0);
      }
      ok := true;
    }

    /** `revoke`. */
    method RevokeById(id: string)
      requires Valid()
      modifies `records
      ensures Valid() && Model() == Step(old(Model()), Revoke(id))
    {
      var r := Load(records, id);
      if r.Some? { SaveRecord(r.value.(status := Revoked), 0); }
    }

    /** `refresh_status`: an unreadable answer keeps the cached status. */
    method RefreshById(id: string, read: ChainRead)
      requires Valid()
      modifies `records
      ensures Valid() && Model() == Step(old(Model()), Refresh(id, read))
    {
      var r := Load(records, id);
      if r.None? { return; }
      LoadFinds(records, id);
      SavedAsIs(records, id);
      if r.value.status == Revoked || !r.value.hashKnown || read == Unreadable { return; }
      SaveRecord(r.value.(status := if read == Disabled then Revoked else Active), 0);
    }

    /** `try_delegation_execution`, with the answers of the environment; no outcome when the extractor raises. */
    method TryDelegation(c: Context, a: Args, w: World) returns (outcome: Option<Outcome>)
      requires Valid()
      modifies `records, `sent, limiter
      ensures Valid()
      ensures var t := TryExecution(old(Model()), c, a, w); outcome == t.outcome && Model() == t.state
    {
      if w.killSwitch || !HasExtractor(c.tool) { return Some(SKIPPED); }
      var found := FindMatching(c);
      if found.None? { return Some(SKIPPED); }
      var extracted := Extract(c.tool, a, w.decimals);
      if extracted.Raises? { return None; }
      if extracted.Nothing? { return Some(SKIPPED); }
      var r := found.value;
      var action := extracted.action;
      if |action.callData| > 10 {
        action := action.(callData := FillDelegator.Fill(action.callData, r.delegator));
      }
      assert TryExecution(Model(), c, a, w) == TryRecord(Model(), c, r, action, w);
      if PastExpiry(r, w.now) {
        SaveRecord(r.(status := Expired), 0);
        return Some(FAILED);
      }
      if w.code == NoCode { return Some(SKIPPED); }
      var limited := limiter.RateLimited(c.user, c.tool, w.askedAt);
      if limited { return Some(FAILED); }
      limiter.RecordAttempt(c.user, c.tool, w.recordedAt);
      var ok := Redeem(r, action, w.redeeming);
      if !ok { return Some(FAILED); }
      limiter.ClearAttempts(c.user, c.tool);
      return Some(EXECUTED);
    }
  }

  lemma SaveKeepsDistinct(rs: seq<Record>, r: Record, at: nat)
    requires DistinctIds(rs)
    ensures DistinctIds(Save(rs, r, at))
  {
    if !Has(rs, r.id) { assert forall i | 0 <= i < |rs| :: rs[i].id != r.id; }
  }

  /** Saving a record that is already there as it is changes nothing. */
  lemma SavedAsIs(rs: seq<Record>, id: string)
    requires Load(rs, id).Some? && DistinctIds(rs)
    ensures Save(rs, Load(rs, id).value, 0) == rs
  {
    LoadFinds(rs, id);
  }
}
