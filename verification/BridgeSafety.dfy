/** Safety of the bridge protocol over every interleaving: whoever removes an id owns its outcome. */
module BridgeSafety {
  import opened Bytes
  import opened BridgeProtocol

  /** Which step took each id that has left the pending map. */
  function NextTakers(s: State, took: map<Id, Step>, step: Step): map<Id, Step>
    requires Enabled(s, step)
  {
    took + map id | id in s.sh.pending - Apply(s, step).sh.pending && id !in took :: step
  }

  function Takers(steps: seq<Step>): map<Id, Step>
    requires IsRun(steps)
  {
    if |steps| == 0 then map[]
    else
      var init := steps[..|steps| - 1];
      NextTakers(StateAfter(init), Takers(init), steps[|steps| - 1])
  }

  // ---- the invariant -------------------------------------------------------------------

  predicate Open(sh: Shared, id: Id) {
    id in sh.slots && !sh.slots[id].signalled && sh.slots[id].error.None?
  }

  /** The id's slot carries error `e` but its event is not set yet. */
  predicate Failed(sh: Shared, id: Id, e: CallError) {
    id in sh.slots && !sh.slots[id].signalled && sh.slots[id].error == Some(e)
  }

  predicate Carries(slot: Slot, body: Body) {
    match body
    case Success(v) => slot.error.None? && slot.result == v
    case Failure(c) => slot.error == Some(Remote(c))
  }

  predicate TookBy(took: map<Id, Step>, id: Id, step: Step) {
    id in took && took[id] == step
  }

  predicate TookBySnapshot(took: map<Id, Step>, id: Id, k: nat) {
    id in took && took[id].Snapshot? && took[id].k == k
  }

  predicate ReaderOk(sh: Shared, took: map<Id, Step>, k: nat, r: Reader) {
    match r
    case Holding(id, body) => Open(sh, id) && TookBy(took, id, Receive(k, Reply(id, body)))
    case Filled(id, body) =>
      && id in sh.slots && !sh.slots[id].signalled && Carries(sh.slots[id], body)
      && TookBy(took, id, Receive(k, Reply(id, body)))
    case Draining(ids) =>
      NoDuplicates(ids) && forall i | 0 <= i < |ids| :: Open(sh, ids[i]) && TookBySnapshot(took, ids[i], k)
    case DrainFilled(ids) =>
      && |ids| > 0 && NoDuplicates(ids) && Failed(sh, ids[0], Crashed)
      && (forall i | 1 <= i < |ids| :: Open(sh, ids[i])) && forall i | 0 <= i < |ids| :: TookBySnapshot(took, ids[i], k)
    case _ => true
  }

  ghost predicate ReadersOk(s: State, took: map<Id, Step>) {
    forall k | k in s.readers :: ReaderOk(s.sh, took, k, s.readers[k])
  }

  /** Ids that `stop()` still has to fail. */
  function Remaining(st: Stopper): seq<Id> {
    match st
    case Failing(ids) => ids
    case FailFilled(ids) => ids
    case _ => []
  }

  predicate StopperOk(s: State) {
    && (s.stopper.FailFilled? ==> |s.stopper.ids| > 0 && Failed(s.sh, s.stopper.ids[0], Stopped))
    && NoDuplicates(Remaining(s.stopper))
    && (forall i | 0 <= i < |Remaining(s.stopper)| ::
          var id := Remaining(s.stopper)[i];
          id in s.sh.pending && (Open(s.sh, id) || (i == 0 && s.stopper.FailFilled?)))
  }

  ghost predicate PendingOk(s: State, took: map<Id, Step>) {
    forall id | id in s.sh.pending ::
      && id in s.sh.slots && id !in took
      && (Open(s.sh, id) || id in Remaining(s.stopper)
          || (!LockFree(s) && s.sh.slots[id].signalled && s.sh.slots[id].error == Some(Stopped)))
  }

  /** A set event carries the outcome of the step that took the id, or of the stopper holding the lock. */
  predicate SignalledOk(s: State, took: map<Id, Step>, id: Id)
    requires id in s.sh.slots
  {
    var slot := s.sh.slots[id];
    if id in took then
      match took[id]
      case Receive(_, msg) => msg.Reply? && msg.id == id && Carries(slot, msg.body)
      case Snapshot(_, _) => slot.error == Some(Crashed)
      case StopClear => slot.error == Some(Stopped)
      case _ => false
    else id in s.sh.pending && slot.error == Some(Stopped)
  }

  ghost predicate SlotsOk(s: State, took: map<Id, Step>) {
    && s.callers.Keys == s.sh.slots.Keys
    && took.Keys <= s.sh.slots.Keys
    && (forall id | id in s.sh.slots && id !in s.sh.pending :: id in took)
    && (forall id | id in s.sh.slots && s.sh.slots[id].signalled :: SignalledOk(s, took, id))
  }

  predicate CallerOk(s: State, id: Id, c: Caller) {
    match c
    case Returned(v) => id in s.sh.slots && s.sh.slots[id] == Slot(true, v, None)
    case RaisedError(e) => id in s.sh.slots && s.sh.slots[id].signalled && s.sh.slots[id].error == Some(e)
    case RaisedReason(_) => id !in s.sh.pending
    case _ => true
  }

  ghost predicate CallersOk(s: State) {
    forall id | id in s.callers :: CallerOk(s, id, s.callers[id])
  }

  ghost predicate Inv(s: State, took: map<Id, Step>) {
    ReadersOk(s, took) && StopperOk(s) && PendingOk(s, took) && SlotsOk(s, took) && CallersOk(s)
  }

  // ---- framing -----------------------------------------------------------------------------

  predicate Mentions(r: Reader, id: Id) {
    match r
    case Holding(x, _) => x == id
    case Filled(x, _) => x == id
    case Draining(ids) => id in ids
    case DrainFilled(ids) => id in ids
    case _ => false
  }

  /** What a reader relies on: the slots and takers of the ids it mentions. */
  lemma ReaderFrame(sh: Shared, sh': Shared, took: map<Id, Step>, took': map<Id, Step>, k: nat, r: Reader)
    requires ReaderOk(sh, took, k, r)
    requires forall id | Mentions(r, id) && id in sh.slots :: id in sh'.slots && sh'.slots[id] == sh.slots[id]
    requires forall id | Mentions(r, id) && id in took :: id in took' && took'[id] == took[id]
    ensures ReaderOk(sh', took', k, r)
  {
    match r
    case Draining(ids) => assert forall i | 0 <= i < |ids| :: Mentions(r, ids[i]);
    case DrainFilled(ids) => assert forall i | 0 <= i < |ids| :: Mentions(r, ids[i]);
    case _ =>
  }

  /** An id mentioned by reader `k` was taken by reader `k`. */
  lemma MentionedTaken(sh: Shared, took: map<Id, Step>, k: nat, r: Reader, id: Id)
    requires ReaderOk(sh, took, k, r) && Mentions(r, id)
    ensures id in took && (took[id].Receive? || took[id].Snapshot?) && took[id].k == k
    ensures id in sh.slots && !sh.slots[id].signalled
  {
    match r
    case Draining(ids) => var i :| 0 <= i < |ids| && ids[i] == id; assert TookBySnapshot(took, ids[i], k);
    case DrainFilled(ids) => var i :| 0 <= i < |ids| && ids[i] == id; assert TookBySnapshot(took, ids[i], k);
    case _ =>
  }

  lemma NothingRemoved(s: State, took: map<Id, Step>, step: Step)
    requires Enabled(s, step) && s.sh.pending <= Apply(s, step).sh.pending
    ensures NextTakers(s, took, step) == took
  {
    assert s.sh.pending - Apply(s, step).sh.pending == {};
  }

  /** Only the slot of `id` differs. */
  ghost predicate SameExcept(sh: Shared, sh': Shared, id: Id) {
    && sh'.pending == sh.pending && sh'.stopping == sh.stopping && sh'.slots.Keys == sh.slots.Keys
    && forall x | x in sh.slots && x != id :: sh'.slots[x] == sh.slots[x]
  }

  /** Writing the slot of an id that reader `k` owns leaves every other thread's part alone. */
  lemma OwnerWrites(s: State, s': State, took: map<Id, Step>, k: nat, id: Id)
    requires Inv(s, took) && k in s.readers && Mentions(s.readers[k], id)
    requires SameExcept(s.sh, s'.sh, id) && s'.callers == s.callers && s'.stopper == s.stopper
    requires s'.readers.Keys == s.readers.Keys && forall j | j in s.readers && j != k :: s'.readers[j] == s.readers[j]
    requires ReaderOk(s'.sh, took, k, s'.readers[k])
    requires s'.sh.slots[id].signalled ==> SignalledOk(s', took, id)
    ensures Inv(s', took)
  {
    MentionedTaken(s.sh, took, k, s.readers[k], id);
    assert id !in s.sh.pending;
    forall j | j in s'.readers ensures ReaderOk(s'.sh, took, j, s'.readers[j]) {
      if j != k {
        if Mentions(s.readers[j], id) { MentionedTaken(s.sh, took, j, s.readers[j], id); }
        ReaderFrame(s.sh, s'.sh, took, took, j, s.readers[j]);
      }
    }
    var ids := Remaining(s.stopper);
    assert forall i | 0 <= i < |ids| :: ids[i] in s.sh.pending && ids[i] != id;
    assert StopperOk(s') by { assert forall i | 0 <= i < |ids| :: s'.sh.slots[ids[i]] == s.sh.slots[ids[i]]; }
    assert SlotsOk(s', took) by {
      forall x | x in s'.sh.slots && s'.sh.slots[x].signalled ensures SignalledOk(s', took, x) {
        if x != id { assert SignalledOk(s, took, x); }
      }
    }
    forall x | x in s'.callers ensures CallerOk(s', x, s'.callers[x]) {
      assert CallerOk(s, x, s.callers[x]);
    }
  }

  lemma TailNoDuplicates<T>(s: seq<T>)
    requires |s| > 0 && NoDuplicates(s)
    ensures NoDuplicates(s[1..]) && s[0] !in s[1..]
  {
  }

  // ---- one lemma per kind of step ---------------------------------------------------------------

  lemma InvFill(s: State, took: map<Id, Step>, k: nat)
    requires Inv(s, took) && Enabled(s, Fill(k))
    ensures Inv(Apply(s, Fill(k)), NextTakers(s, took, Fill(k)))
  {
    var s' := Apply(s, Fill(k));
    NothingRemoved(s, took, Fill(k));
    assert ReaderOk(s.sh, took, k, s.readers[k]);
    OwnerWrites(s, s', took, k, s.readers[k].id);
  }

  lemma InvSignal(s: State, took: map<Id, Step>, k: nat)
    requires Inv(s, took) && Enabled(s, Signal(k))
    ensures Inv(Apply(s, Signal(k)), NextTakers(s, took, Signal(k)))
  {
    NothingRemoved(s, took, Signal(k));
    assert ReaderOk(s.sh, took, k, s.readers[k]);
    OwnerWrites(s, Apply(s, Signal(k)), took, k, s.readers[k].id);
  }

  lemma InvDrainFill(s: State, took: map<Id, Step>, k: nat)
    requires Inv(s, took) && Enabled(s, DrainFill(k))
    ensures Inv(Apply(s, DrainFill(k)), NextTakers(s, took, DrainFill(k)))
  {
    var s', ids := Apply(s, DrainFill(k)), s.readers[k].ids;
    NothingRemoved(s, took, DrainFill(k));
    assert ReaderOk(s.sh, took, k, s.readers[k]);
    assert Open(s.sh, ids[0]) && TookBySnapshot(took, ids[0], k);
    assert ReaderOk(s'.sh, took, k, DrainFilled(ids));
    OwnerWrites(s, s', took, k, ids[0]);
  }

  lemma InvDrainSignal(s: State, took: map<Id, Step>, k: nat)
    requires Inv(s, took) && Enabled(s, DrainSignal(k))
    ensures Inv(Apply(s, DrainSignal(k)), NextTakers(s, took, DrainSignal(k)))
  {
    var s', ids := Apply(s, DrainSignal(k)), s.readers[k].ids;
    NothingRemoved(s, took, DrainSignal(k));
    assert ReaderOk(s.sh, took, k, s.readers[k]);
    TailNoDuplicates(ids);
    assert TookBySnapshot(took, ids[0], k);
    forall i | 0 <= i < |ids[1..]| ensures Open(s'.sh, ids[1..][i]) && TookBySnapshot(took, ids[1..][i], k) {
      assert ids[1..][i] == ids[i + 1] && Open(s.sh, ids[i + 1]) && TookBySnapshot(took, ids[i + 1], k);
      assert ids[i + 1] != ids[0];
    }
    OwnerWrites(s, s', took, k, ids[0]);
  }

  lemma InvReceive(s: State, took: map<Id, Step>, k: nat, msg: Message)
    requires Inv(s, took) && Enabled(s, Receive(k, msg))
    ensures Inv(Apply(s, Receive(k, msg)), NextTakers(s, took, Receive(k, msg)))
  {
    var step := Receive(k, msg);
    var s', took' := Apply(s, step), NextTakers(s, took, step);
    if msg.Reply? && msg.id in s.sh.pending {
      var id := msg.id;
      assert s.sh.pending - s'.sh.pending == {id} && took' == took[id := step];
      Removed(s, s', took, took', {id});
      forall j | j in s'.readers ensures ReaderOk(s'.sh, took', j, s'.readers[j]) {
        if j != k { RemovalReader(s, s'.sh, took, took', {id}, j); }
      }
    } else {
      NothingRemoved(s, took, step);
    }
  }

  lemma InvPopOwn(s: State, took: map<Id, Step>, id: Id)
    requires Inv(s, took) && Enabled(s, PopOwn(id))
    ensures Inv(Apply(s, PopOwn(id)), NextTakers(s, took, PopOwn(id)))
  {
    var step := PopOwn(id);
    var s', took' := Apply(s, step), NextTakers(s, took, step);
    var gone := s.sh.pending - s'.sh.pending;
    assert gone == if id in s.sh.pending then {id} else {};
    Removed(s, s', took, took', gone);
    forall j | j in s'.readers ensures ReaderOk(s'.sh, took', j, s'.readers[j]) {
      RemovalReader(s, s'.sh, took, took', gone, j);
    }
  }

  lemma InvSnapshot(s: State, took: map<Id, Step>, k: nat, order: seq<Id>)
    requires Inv(s, took) && Enabled(s, Snapshot(k, order))
    ensures Inv(Apply(s, Snapshot(k, order)), NextTakers(s, took, Snapshot(k, order)))
  {
    var step := Snapshot(k, order);
    var s', took' := Apply(s, step), NextTakers(s, took, step);
    var gone := s.sh.pending;
    assert s.sh.pending - s'.sh.pending == gone;
    Removed(s, s', took, took', gone);
    forall j | j in s'.readers ensures ReaderOk(s'.sh, took', j, s'.readers[j]) {
      if j != k { RemovalReader(s, s'.sh, took, took', gone, j); }
      else { assert forall i | 0 <= i < |order| :: order[i] in gone && Open(s'.sh, order[i]) && took'[order[i]] == step; }
    }
  }

  lemma InvStopClear(s: State, took: map<Id, Step>)
    requires Inv(s, took) && Enabled(s, StopClear)
    ensures Inv(Apply(s, StopClear), NextTakers(s, took, StopClear))
  {
    var s', took' := Apply(s, StopClear), NextTakers(s, took, StopClear);
    var gone := s.sh.pending;
    assert s.sh.pending - s'.sh.pending == gone;
    forall j | j in s'.readers ensures ReaderOk(s'.sh, took', j, s'.readers[j]) {
      RemovalReader(s, s'.sh, took, took', gone, j);
    }
    assert SlotsOk(s', took') by {
      forall id | id in s'.sh.slots && s'.sh.slots[id].signalled ensures SignalledOk(s', took', id) {
        assert SignalledOk(s, took, id);
      }
    }
    forall x | x in s'.callers ensures CallerOk(s', x, s'.callers[x]) { assert CallerOk(s, x, s.callers[x]); }
  }

  /** Removal while the lock is free takes ids whose slots are still open, and nobody mentions. */
  lemma Removed(s: State, s': State, took: map<Id, Step>, took': map<Id, Step>, gone: set<Id>)
    requires Inv(s, took) && LockFree(s) && gone <= s.sh.pending
    requires s'.sh.pending == s.sh.pending - gone && s'.sh.slots == s.sh.slots && s'.stopper == s.stopper
    requires took'.Keys == took.Keys + gone && forall x | x in took :: took'[x] == took[x]
    requires s'.callers.Keys == s.callers.Keys
    requires forall x | x in s'.callers :: s'.callers[x] == s.callers[x] || (s'.callers[x].RaisedReason? && x !in s'.sh.pending)
    ensures StopperOk(s') && PendingOk(s', took') && SlotsOk(s', took') && CallersOk(s')
    ensures forall x | x in gone :: Open(s'.sh, x)
  {
    assert forall x | x in gone :: Open(s.sh, x);
    forall id | id in s'.sh.slots && s'.sh.slots[id].signalled ensures SignalledOk(s', took', id) {
      assert SignalledOk(s, took, id);
    }
    forall x | x in s'.callers ensures CallerOk(s', x, s'.callers[x]) { assert CallerOk(s, x, s.callers[x]); }
  }

  lemma RemovalReader(s: State, sh': Shared, took: map<Id, Step>, took': map<Id, Step>, gone: set<Id>, j: nat)
    requires Inv(s, took) && j in s.readers && sh'.slots == s.sh.slots
    requires took'.Keys == took.Keys + gone && forall x | x in took :: took'[x] == took[x]
    ensures ReaderOk(sh', took', j, s.readers[j])
  {
    ReaderFrame(s.sh, sh', took, took', j, s.readers[j]);
  }

  lemma InvRegister(s: State, took: map<Id, Step>, id: Id)
    requires Inv(s, took) && Enabled(s, Register(id))
    ensures Inv(Apply(s, Register(id)), NextTakers(s, took, Register(id)))
  {
    var s' := Apply(s, Register(id));
    NothingRemoved(s, took, Register(id));
    forall j | j in s'.readers ensures ReaderOk(s'.sh, took, j, s'.readers[j]) {
      ReaderFrame(s.sh, s'.sh, took, took, j, s.readers[j]);
    }
    assert SlotsOk(s', took) by {
      forall x | x in s'.sh.slots && s'.sh.slots[x].signalled ensures SignalledOk(s', took, x) {
        assert SignalledOk(s, took, x);
      }
    }
    forall x | x in s'.callers ensures CallerOk(s', x, s'.callers[x]) {
      if x != id { assert CallerOk(s, x, s.callers[x]); }
    }
  }

  lemma InvStopLock(s: State, took: map<Id, Step>, order: seq<Id>)
    requires Inv(s, took) && Enabled(s, StopLock(order))
    ensures Inv(Apply(s, StopLock(order)), NextTakers(s, took, StopLock(order)))
  {
    var s' := Apply(s, StopLock(order));
    NothingRemoved(s, took, StopLock(order));
    assert StopperOk(s');
    assert SlotsOk(s', took) by {
      forall x | x in s'.sh.slots && s'.sh.slots[x].signalled ensures SignalledOk(s', took, x) {
        assert SignalledOk(s, took, x);
      }
    }
    forall x | x in s'.callers ensures CallerOk(s', x, s'.callers[x]) { assert CallerOk(s, x, s.callers[x]); }
  }

  /** The stopper writes a slot of an id that is still pending, so no reader mentions it. */
  lemma StopperWrites(s: State, s': State, took: map<Id, Step>, id: Id)
    requires Inv(s, took) && id in s.sh.pending && id in s.sh.slots && !s.sh.slots[id].signalled
    requires SameExcept(s.sh, s'.sh, id) && s'.callers == s.callers && s'.readers == s.readers
    requires s'.sh.slots[id].signalled ==> s'.sh.slots[id].error == Some(Stopped)
    ensures ReadersOk(s', took) && SlotsOk(s', took) && CallersOk(s')
  {
    forall j | j in s'.readers ensures ReaderOk(s'.sh, took, j, s'.readers[j]) {
      if Mentions(s.readers[j], id) { MentionedTaken(s.sh, took, j, s.readers[j], id); }
      ReaderFrame(s.sh, s'.sh, took, took, j, s.readers[j]);
    }
    forall x | x in s'.sh.slots && s'.sh.slots[x].signalled ensures SignalledOk(s', took, x) {
      if x != id { assert SignalledOk(s, took, x); }
    }
    forall x | x in s'.callers ensures CallerOk(s', x, s'.callers[x]) { assert CallerOk(s, x, s.callers[x]); }
  }

  lemma InvStopFill(s: State, took: map<Id, Step>)
    requires Inv(s, took) && Enabled(s, StopFill)
    ensures Inv(Apply(s, StopFill), NextTakers(s, took, StopFill))
  {
    var s', ids := Apply(s, StopFill), s.stopper.ids;
    NothingRemoved(s, took, StopFill);
    assert ids[0] in s.sh.pending && Open(s.sh, ids[0]);
    StopperWrites(s, s', took, ids[0]);
    assert forall i | 0 <= i < |ids| :: ids[i] in s.sh.pending && Open(s.sh, ids[i]);
    assert StopperOk(s');
  }

  lemma InvStopSignal(s: State, took: map<Id, Step>)
    requires Inv(s, took) && Enabled(s, StopSignal)
    ensures Inv(Apply(s, StopSignal), NextTakers(s, took, StopSignal))
  {
    var s', ids := Apply(s, StopSignal), s.stopper.ids;
    NothingRemoved(s, took, StopSignal);
    assert ids[0] in s.sh.pending;
    TailNoDuplicates(ids);
    StopperWrites(s, s', took, ids[0]);
    assert StopperOk(s') by {
      forall i | 0 <= i < |ids[1..]| ensures ids[1..][i] in s'.sh.pending && Open(s'.sh, ids[1..][i]) {
        assert ids[1..][i] == ids[i + 1] && ids[i + 1] != ids[0];
      }
    }
    assert forall x | x in ids && x != ids[0] :: x in ids[1..];
  }

  /** Steps that move one caller only, and touch neither the map nor a slot. */
  lemma InvCaller(s: State, took: map<Id, Step>, step: Step)
    requires Inv(s, took) && Enabled(s, step)
    requires step.WriteOk? || step.WriteFail? || step.Abort? || step.TimeOut? || step.Wake?
    ensures Inv(Apply(s, step), NextTakers(s, took, step))
  {
    var s' := Apply(s, step);
    NothingRemoved(s, took, step);
    assert s'.sh == s.sh && s'.readers == s.readers && s'.stopper == s.stopper;
    SlotsKept(s, s', took);
    CallersMove(s, step);
  }

  /** A caller that moves on keeps what its new place promises. */
  lemma CallersMove(s: State, step: Step)
    requires CallersOk(s) && Enabled(s, step)
    requires step.WriteOk? || step.WriteFail? || step.Abort? || step.TimeOut? || step.Wake?
    ensures CallersOk(Apply(s, step))
  {
    var s' := Apply(s, step);
    forall x | x in s'.callers ensures CallerOk(s', x, s'.callers[x]) { assert CallerOk(s, x, s.callers[x]); }
  }

  lemma SlotsKept(s: State, s': State, took: map<Id, Step>)
    requires SlotsOk(s, took) && s'.sh.slots == s.sh.slots && s'.sh.pending == s.sh.pending
    requires s'.callers.Keys == s.callers.Keys
    ensures SlotsOk(s', took)
  {
    forall x | x in s'.sh.slots && s'.sh.slots[x].signalled ensures SignalledOk(s', took, x) {
      assert SignalledOk(s, took, x);
    }
  }

  /** Steps of readers and the stopper that touch neither the map nor a slot. */
  lemma InvThread(s: State, took: map<Id, Step>, step: Step)
    requires Inv(s, took) && Enabled(s, step)
    requires step.Start? || step.Eof? || step.StopBegin? || step.StopIdle?
    ensures Inv(Apply(s, step), NextTakers(s, took, step))
  {
    var s' := Apply(s, step);
    NothingRemoved(s, took, step);
    forall j | j in s'.readers ensures ReaderOk(s'.sh, took, j, s'.readers[j]) {
      if j in s.readers && s'.readers[j] == s.readers[j] { ReaderFrame(s.sh, s'.sh, took, took, j, s.readers[j]); }
    }
    SlotsKept(s, s', took);
    forall x | x in s'.callers ensures CallerOk(s', x, s'.callers[x]) { assert CallerOk(s, x, s.callers[x]); }
  }

  lemma InvStep(s: State, took: map<Id, Step>, step: Step)
    requires Inv(s, took) && Enabled(s, step)
    ensures Inv(Apply(s, step), NextTakers(s, took, step))
  {
    match step
    case Register(id) => InvRegister(s, took, id);
    case PopOwn(id) => InvPopOwn(s, took, id);
    case Receive(k, msg) => InvReceive(s, took, k, msg);
    case Fill(k) => InvFill(s, took, k);
    case Signal(k) => InvSignal(s, took, k);
    case Snapshot(k, order) => InvSnapshot(s, took, k, order);
    case DrainFill(k) => InvDrainFill(s, took, k);
    case DrainSignal(k) => InvDrainSignal(s, took, k);
    case StopLock(order) => InvStopLock(s, took, order);
    case StopFill => InvStopFill(s, took);
    case StopSignal => InvStopSignal(s, took);
    case StopClear => InvStopClear(s, took);
    case Start(_) => InvThread(s, took, step);
    case Eof(_) => InvThread(s, took, step);
    case StopBegin => InvThread(s, took, step);
    case StopIdle => InvThread(s, took, step);
    case _ => InvCaller(s, took, step);
  }

  // ---- every run ----------------------------------------------------------------------------------

  lemma {:induction false} RunInvariant(steps: seq<Step>)
    requires IsRun(steps)
    ensures Inv(StateAfter(steps), Takers(steps))
  {
    if |steps| > 0 {
      var init := steps[..|steps| - 1];
      RunInvariant(init);
      InvStep(StateAfter(init), Takers(init), steps[|steps| - 1]);
    }
  }

  /** The recorded taker is the step at the index where the id was first removed. */
  lemma {:induction false} TakersAreSteps(steps: seq<Step>, id: Id)
    requires IsRun(steps)
    ensures id in Takers(steps) <==> TakenAt(steps, id).Some?
    ensures id in Takers(steps) ==> Takers(steps)[id] == steps[TakenAt(steps, id).value]
  {
    if |steps| > 0 { TakersAreSteps(steps[..|steps| - 1], id); }
  }

  /** In every interleaving each id leaves the pending map at most once. */
  lemma {:induction false} RemovedAtMostOnce(steps: seq<Step>, id: Id)
    requires IsRun(steps)
    ensures RemovalCount(steps, id) <= 1
    ensures RemovalCount(steps, id) == 1 <==> id in Takers(steps)
  {
    if |steps| > 0 {
      var init := steps[..|steps| - 1];
      RemovedAtMostOnce(init, id);
      RunInvariant(init);
    }
  }

  /** In every interleaving each event is set at most once, and is set exactly when a step set it. */
  lemma {:induction false} SignalledAtMostOnce(steps: seq<Step>, id: Id)
    requires IsRun(steps)
    ensures SignalCount(steps, id) <= 1
    ensures SignalCount(steps, id) == 1 <==> SlotOf(StateAfter(steps).sh, id).signalled
  {
    if |steps| > 0 {
      var init, step := steps[..|steps| - 1], steps[|steps| - 1];
      SignalledAtMostOnce(init, id);
      RunInvariant(init);
      SignalsFlipEvent(StateAfter(init), Takers(init), step, id);
    }
  }

  /** A step sets the event of `id` exactly when it turns it from clear to set. */
  ghost predicate Flips(s: State, step: Step, id: Id)
    requires Enabled(s, step)
  {
    && (Signals(s, step, id) ==> !SlotOf(s.sh, id).signalled)
    && SlotOf(Apply(s, step).sh, id).signalled == (SlotOf(s.sh, id).signalled || Signals(s, step, id))
  }

  lemma ReaderFlips(s: State, took: map<Id, Step>, step: Step, id: Id)
    requires Inv(s, took) && Enabled(s, step) && (step.Signal? || step.Fill?)
    ensures Flips(s, step, id)
  {
    assert ReaderOk(s.sh, took, step.k, s.readers[step.k]);
  }

  lemma DrainFlips(s: State, took: map<Id, Step>, step: Step, id: Id)
    requires Inv(s, took) && Enabled(s, step) && (step.DrainSignal? || step.DrainFill?)
    ensures Flips(s, step, id)
  {
    assert ReaderOk(s.sh, took, step.k, s.readers[step.k]);
    if step.DrainFill? { assert Open(s.sh, s.readers[step.k].ids[0]); }
  }

  lemma SignalsFlipEvent(s: State, took: map<Id, Step>, step: Step, id: Id)
    requires Inv(s, took) && Enabled(s, step)
    ensures Flips(s, step, id)
  {
    match step
    case Signal(_) => ReaderFlips(s, took, step, id);
    case Fill(_) => ReaderFlips(s, took, step, id);
    case DrainSignal(_) => DrainFlips(s, took, step, id);
    case DrainFill(_) => DrainFlips(s, took, step, id);
    case _ =>
  }

  /** Who acts in a step, for steps that remove ids or set events. */
  datatype Agent = TheCaller(id: Id) | TheReader(k: nat) | TheStopper

  function AgentOf(step: Step): Option<Agent> {
    match step
    case PopOwn(id) => Some(TheCaller(id))
    case Receive(k, _) => Some(TheReader(k))
    case Signal(k) => Some(TheReader(k))
    case Snapshot(k, _) => Some(TheReader(k))
    case DrainSignal(k) => Some(TheReader(k))
    case StopSignal => Some(TheStopper)
    case StopClear => Some(TheStopper)
    case _ => None
  }

  /** The thread that sets an event is the one recorded as having taken the id, or the stopper in its critical section. */
  lemma SignallerOwns(s: State, took: map<Id, Step>, step: Step, id: Id)
    requires Inv(s, took) && Signals(s, step, id)
    ensures (id in took && AgentOf(took[id]) == AgentOf(step)) || (step.StopSignal? && id in s.sh.pending && !LockFree(s))
  {
    match step
    case Signal(k) => assert ReaderOk(s.sh, took, k, s.readers[k]);
    case DrainSignal(k) =>
      assert ReaderOk(s.sh, took, k, s.readers[k]);
      assert TookBySnapshot(took, s.readers[k].ids[0], k);
    case StopSignal => assert Remaining(s.stopper)[0] in s.sh.pending;
  }

  /**
   An event is set only by the thread that removed the id; `stop()` alone sets it while it still
   holds the lock and the id is in the map it is about to clear.
   */
  lemma SignalledByRemover(steps: seq<Step>, step: Step, id: Id)
    requires IsRun(steps) && Signals(StateAfter(steps), step, id)
    ensures
      || (TakenAt(steps, id).Some? && AgentOf(steps[TakenAt(steps, id).value]) == AgentOf(step))
      || (step.StopSignal? && id in StateAfter(steps).sh.pending && !LockFree(StateAfter(steps)))
  {
    RunInvariant(steps);
    TakersAreSteps(steps, id);
    SignallerOwns(StateAfter(steps), Takers(steps), step, id);
  }

  /** What a caller that has left with an outcome was given, in terms of who took its id. */
  lemma OutcomeFromTaker(s: State, took: map<Id, Step>, id: Id)
    requires Inv(s, took) && id in s.callers && (s.callers[id].Returned? || s.callers[id].RaisedError?)
    ensures id in s.sh.slots && s.sh.slots[id].signalled && SignalledOk(s, took, id)
    ensures id !in took ==> !LockFree(s)
  {
    assert CallerOk(s, id, s.callers[id]);
    assert SignalledOk(s, took, id);
    assert LockFree(s) ==> Remaining(s.stopper) == [];
  }

  /**
   A call that returns normally returns the result of a response with its own id, namely the one
   response that removed the id from the map.
   */
  lemma ReturnsOwnResponse(steps: seq<Step>, id: Id, v: string)
    requires IsRun(steps) && CallerIs(StateAfter(steps), id, Returned(v))
    ensures TakenAt(steps, id).Some?
    ensures var step := steps[TakenAt(steps, id).value];
      step.Receive? && step.msg == Reply(id, Success(v))
  {
    RunInvariant(steps);
    TakersAreSteps(steps, id);
    var s := StateAfter(steps);
    OutcomeFromTaker(s, Takers(steps), id);
    assert CallerOk(s, id, Returned(v));
  }

  /** The step that removed an id explains the error its caller raises. */
  predicate Explains(step: Step, id: Id, e: CallError) {
    match e
    case Remote(code) => step.Receive? && step.msg == Reply(id, Failure(code))
    case Crashed => step.Snapshot?
    case Stopped => step.StopClear?
  }

  /** A call that raises an error from its slot raises the one that its own remover put there. */
  lemma RaisesOwnError(steps: seq<Step>, id: Id, e: CallError)
    requires IsRun(steps) && CallerIs(StateAfter(steps), id, RaisedError(e))
    ensures TakenAt(steps, id).Some? ==> Explains(steps[TakenAt(steps, id).value], id, e)
    ensures TakenAt(steps, id).None? ==> e == Stopped && !LockFree(StateAfter(steps))
  {
    RunInvariant(steps);
    TakersAreSteps(steps, id);
    var s := StateAfter(steps);
    OutcomeFromTaker(s, Takers(steps), id);
    ErrorExplained(s, Takers(steps), id, e);
  }

  lemma ErrorExplained(s: State, took: map<Id, Step>, id: Id, e: CallError)
    requires id in s.callers && s.callers[id] == RaisedError(e) && CallersOk(s)
    requires id in s.sh.slots && SignalledOk(s, took, id)
    ensures id in took ==> Explains(took[id], id, e)
    ensures id !in took ==> e == Stopped
  {
    assert CallerOk(s, id, s.callers[id]);
  }

  /**
   A response whose id has been taken, or was never registered, changes nothing at all when it is
   read: the late response reaches nobody.
   */
  lemma LateResponseReachesNobody(steps: seq<Step>, id: Id, k: nat, body: Body)
    requires IsRun(steps) && Enabled(StateAfter(steps), Receive(k, Reply(id, body)))
    requires TakenAt(steps, id).Some? || !exists i :: 0 <= i < |steps| && steps[i] == Register(id)
    ensures Apply(StateAfter(steps), Receive(k, Reply(id, body))) == StateAfter(steps)
  {
    if id in StateAfter(steps).sh.pending {
      RunInvariant(steps);
      TakersAreSteps(steps, id);
      PendingWasRegistered(steps, id);
    }
  }

  lemma {:induction false} PendingWasRegistered(steps: seq<Step>, id: Id)
    requires IsRun(steps) && id in StateAfter(steps).sh.pending
    ensures exists i :: 0 <= i < |steps| && steps[i] == Register(id)
  {
    if |steps| > 0 {
      var init := steps[..|steps| - 1];
      if id in StateAfter(init).sh.pending {
        PendingWasRegistered(init, id);
        var i :| 0 <= i < |init| && init[i] == Register(id);
        assert steps[i] == Register(id);
      } else {
        assert steps[|steps| - 1] == Register(id);
      }
    }
  }

  /** A caller that raised a timeout or a write failure has left nothing behind in the map. */
  lemma RaisedLeavesNothing(steps: seq<Step>, id: Id, reason: Reason)
    requires IsRun(steps) && CallerIs(StateAfter(steps), id, RaisedReason(reason))
    ensures id !in StateAfter(steps).sh.pending
  {
    RunInvariant(steps);
    var s := StateAfter(steps);
    assert CallerOk(s, id, s.callers[id]);
  }

  /** The caller has left `call`, one way or another. */
  predicate HasLeft(s: State, id: Id) {
    id in s.callers && match s.callers[id]
      case Returned(_) => true
      case RaisedReason(_) => true
      case RaisedError(_) => true
      case Aborted => true
      case _ => false
  }

  /**
   Of the callers that have left, exactly those that left by an exception other than a broken pipe or
   OS error, and whose id nobody has taken since, have their id still in the map: in every
   interleaving, whenever the lock is free.
   */
  lemma LeftPendingIff(steps: seq<Step>, id: Id)
    requires IsRun(steps) && HasLeft(StateAfter(steps), id) && LockFree(StateAfter(steps))
    ensures id in StateAfter(steps).sh.pending <==> StateAfter(steps).callers[id].Aborted? && TakenAt(steps, id).None?
  {
    RunInvariant(steps);
    TakersAreSteps(steps, id);
    var s, took := StateAfter(steps), Takers(steps);
    assert CallerOk(s, id, s.callers[id]);
    assert id in s.sh.slots;
    if s.callers[id].Returned? || s.callers[id].RaisedError? { OutcomeFromTaker(s, took, id); }
  }

  /** Such a caller exists: `stop()` ran between its liveness check and its write. */
  lemma AbortLeaksId(id: Id)
    ensures var steps := [Register(id), Abort(id)];
      && IsRun(steps) && CallerIs(StateAfter(steps), id, Aborted)
      && id in StateAfter(steps).sh.pending
  {
    var steps := [Register(id), Abort(id)];
    assert steps[..1] == [Register(id)] && steps[..1][..0] == [];
    assert After(steps[..1][..0]) == Some(INIT);
    assert After(steps[..1]) == Some(Apply(INIT, Register(id)));
  }
}
