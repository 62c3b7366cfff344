/** Nothing is lost in the bridge protocol: whoever takes a call from the map still holds it, and can finish it. */
module BridgeProgress {
  import opened Bytes
  import opened BridgeProtocol
  import opened BridgeSafety
  import opened BridgeProcess

  // ---- no call is lost -----------------------------------------------------------------------------

  ghost predicate Signalled(s: State, id: Id) {
    id in s.sh.slots && s.sh.slots[id].signalled
  }

  ghost predicate HeldByReader(s: State, id: Id) {
    exists k :: k in s.readers && Mentions(s.readers[k], id)
  }

  /** The call is in the map, or somebody answers for it. */
  ghost predicate Owned(s: State, id: Id) {
    || (id in s.sh.pending && (LockFree(s) || id in Remaining(s.stopper) || Signalled(s, id)))
    || Signalled(s, id)
    || HeldByReader(s, id)
    || (id in s.callers && s.callers[id].RaisedReason?)
  }

  ghost predicate AllOwned(s: State) {
    s.callers.Keys == s.sh.slots.Keys && forall id | id in s.sh.slots :: Owned(s, id)
  }

  lemma ReaderStepOwned(s: State, step: Step, id: Id)
    requires AllOwned(s) && Enabled(s, step) && id in s.sh.slots
    requires step.Receive? || step.Fill? || step.Signal? || step.Eof?
    ensures Owned(Apply(s, step), id)
  {
    var t := Apply(s, step);
    if HeldByReader(s, id) {
      var k :| k in s.readers && Mentions(s.readers[k], id);
      if k != step.k { assert Mentions(t.readers[k], id); } else { assert step.Signal? || Mentions(t.readers[k], id); }
    }
    if id in s.sh.pending && id !in t.sh.pending { assert Mentions(t.readers[step.k], id); }
  }

  lemma DrainStepOwned(s: State, step: Step, id: Id)
    requires AllOwned(s) && Enabled(s, step) && id in s.sh.slots
    requires step.Snapshot? || step.DrainFill? || step.DrainSignal?
    ensures Owned(Apply(s, step), id)
  {
    var t := Apply(s, step);
    if HeldByReader(s, id) {
      var k :| k in s.readers && Mentions(s.readers[k], id);
      if k != step.k {
        assert Mentions(t.readers[k], id);
      } else if step.DrainFill? {
        assert Mentions(t.readers[k], id);
      } else if step.DrainSignal? {
        var ids := s.readers[k].ids;
        assert ids == [ids[0]] + ids[1..];
        if id != ids[0] { assert Mentions(t.readers[k], id); }
      }
    }
    if step.Snapshot? && id in s.sh.pending { assert Mentions(t.readers[step.k], id); }
  }

  lemma StopStepOwned(s: State, step: Step, id: Id)
    requires AllOwned(s) && Enabled(s, step) && id in s.sh.slots
    requires step.StopBegin? || step.StopIdle? || step.StopLock? || step.StopFill? || step.StopSignal? || step.StopClear?
    ensures Owned(Apply(s, step), id)
  {
    var t := Apply(s, step);
    if HeldByReader(s, id) {
      var k :| k in s.readers && Mentions(s.readers[k], id);
      assert Mentions(t.readers[k], id);
    }
    if step.StopSignal? {
      var ids := s.stopper.ids;
      assert ids == [ids[0]] + ids[1..];
    }
  }

  lemma CallerStepOwned(s: State, step: Step, id: Id)
    requires AllOwned(s) && Enabled(s, step)
    requires id in Apply(s, step).sh.slots
    requires step.Start? || step.Register? || step.WriteOk? || step.WriteFail? || step.Abort? || step.TimeOut? || step.PopOwn?
      || step.Wake?
    ensures Owned(Apply(s, step), id)
  {
    var t := Apply(s, step);
    if id in s.sh.slots && HeldByReader(s, id) {
      var k :| k in s.readers && Mentions(s.readers[k], id);
      assert Mentions(t.readers[k], id);
    }
  }

  lemma StepOwned(s: State, took: map<Id, Step>, step: Step)
    requires Inv(s, took) && AllOwned(s) && Enabled(s, step)
    ensures AllOwned(Apply(s, step))
  {
    KeysKept(s, took, step);
    CallersHaveSlots(s, took, step);
    forall id | id in Apply(s, step).sh.slots ensures Owned(Apply(s, step), id) {
      if step.Receive? || step.Fill? || step.Signal? || step.Eof? { ReaderStepOwned(s, step, id); }
      else if step.Snapshot? || step.DrainFill? || step.DrainSignal? { DrainStepOwned(s, step, id); }
      else if step.StopBegin? || step.StopIdle? || step.StopLock? || step.StopFill? || step.StopSignal? || step.StopClear? {
        StopStepOwned(s, step, id);
      } else { CallerStepOwned(s, step, id); }
    }
  }

  ghost predicate SameSlots(s: State, t: State) {
    t.sh.slots.Keys == s.sh.slots.Keys
  }

  lemma ReaderKeepsSlots(s: State, took: map<Id, Step>, step: Step)
    requires Inv(s, took) && Enabled(s, step) && (step.Fill? || step.Signal?)
    ensures SameSlots(s, Apply(s, step))
  {
    assert ReaderOk(s.sh, took, step.k, s.readers[step.k]);
  }

  lemma DrainKeepsSlots(s: State, took: map<Id, Step>, step: Step)
    requires Inv(s, took) && Enabled(s, step) && (step.DrainFill? || step.DrainSignal?)
    ensures SameSlots(s, Apply(s, step))
  {
    assert ReaderOk(s.sh, took, step.k, s.readers[step.k]);
    if step.DrainFill? { assert Open(s.sh, s.readers[step.k].ids[0]); }
  }

  /** Only registering makes a slot. */
  lemma KeysKept(s: State, took: map<Id, Step>, step: Step)
    requires Inv(s, took) && Enabled(s, step)
    ensures if step.Register? then Apply(s, step).sh.slots.Keys == s.sh.slots.Keys + {step.id} else SameSlots(s, Apply(s, step))
  {
    match step
    case Fill(_) => ReaderKeepsSlots(s, took, step);
    case Signal(_) => ReaderKeepsSlots(s, took, step);
    case DrainFill(_) => DrainKeepsSlots(s, took, step);
    case DrainSignal(_) => DrainKeepsSlots(s, took, step);
    case _ =>
  }

  lemma CallersHaveSlots(s: State, took: map<Id, Step>, step: Step)
    requires Inv(s, took) && Enabled(s, step)
    ensures Apply(s, step).callers.Keys == Apply(s, step).sh.slots.Keys
  {
    InvStep(s, took, step);
  }

  lemma {:induction false} RunOwned(steps: seq<Step>)
    requires IsRun(steps)
    ensures AllOwned(StateAfter(steps))
  {
    if |steps| > 0 {
      var init := steps[..|steps| - 1];
      RunOwned(init);
      RunInvariant(init);
      StepOwned(StateAfter(init), Takers(init), steps[|steps| - 1]);
    }
  }

  /**
   In every interleaving a call that still waits unsignalled is in the map, or a reader that took it is on
   its way to set its event: no call is dropped between the two.
   */
  lemma NoCallLost(steps: seq<Step>, id: Id)
    requires IsRun(steps) && CallerIs(StateAfter(steps), id, Written) && !Signalled(StateAfter(steps), id)
    ensures id in StateAfter(steps).sh.pending || HeldByReader(StateAfter(steps), id)
  {
    RunOwned(steps);
    assert Owned(StateAfter(steps), id);
  }

  // ---- and each can be finished ----------------------------------------------------------------------------

  /** A caller waits for a pending call, and the lock is free. */
  ghost predicate Waits(s: State, id: Id) {
    LockFree(s) && CallerIs(s, id, Written) && id in s.sh.pending && Open(s.sh, id)
  }

  lemma WaitsInRun(steps: seq<Step>, id: Id)
    requires IsRun(steps) && LockFree(StateAfter(steps))
    requires CallerIs(StateAfter(steps), id, Written) && id in StateAfter(steps).sh.pending
    ensures Waits(StateAfter(steps), id)
  {
    RunInvariant(steps);
  }

  lemma RunFromCons(s: State, step: Step, rest: seq<Step>)
    requires Enabled(s, step)
    ensures RunFrom(s, [step] + rest) == RunFrom(Apply(s, step), rest)
  {
    assert ([step] + rest)[1..] == rest;
  }

  lemma RunFromAppend(s: State, steps: seq<Step>, last: Step)
    requires RunFrom(s, steps).Some? && Enabled(RunFrom(s, steps).value, last)
    ensures RunFrom(s, steps + [last]) == Some(Apply(RunFrom(s, steps).value, last))
    decreases |steps|
  {
    if |steps| == 0 {
      assert steps + [last] == [last] && [last][1..] == [];
    } else {
      RunFromAppend(Apply(s, steps[0]), steps[1..], last);
      assert (steps + [last])[1..] == steps[1..] + [last];
    }
  }

  /** How a waiting call ends. */
  ghost predicate Ends(s: State, steps: seq<Step>, id: Id, c: Caller) {
    RunFrom(s, steps).Some? && CallerIs(RunFrom(s, steps).value, id, c) && id !in RunFrom(s, steps).value.sh.pending
  }

  /** A response to a waiting call, once a reader has read it, makes the call return or raise what it carries. */
  lemma ReplyReachesCaller(steps: seq<Step>, k: nat, id: Id, body: Body)
    requires IsRun(steps) && LockFree(StateAfter(steps)) && k in StateAfter(steps).readers && StateAfter(steps).readers[k].Reading?
    requires CallerIs(StateAfter(steps), id, Written) && id in StateAfter(steps).sh.pending
    ensures Ends(StateAfter(steps), [Receive(k, Reply(id, body)), Fill(k), Signal(k), Wake(id)], id,
                 match body case Success(v) => Returned(v) case Failure(code) => RaisedError(Remote(code)))
  {
    var s := StateAfter(steps);
    WaitsInRun(steps, id);
    var s1 := Apply(s, Receive(k, Reply(id, body)));
    var s2 := Apply(s1, Fill(k));
    var s3 := Apply(s2, Signal(k));
    var s4 := Apply(s3, Wake(id));
    assert [Receive(k, Reply(id, body)), Fill(k), Signal(k), Wake(id)]
        == [Receive(k, Reply(id, body))] + ([Fill(k)] + ([Signal(k)] + ([Wake(id)] + [])));
    RunFromCons(s, Receive(k, Reply(id, body)), [Fill(k)] + ([Signal(k)] + ([Wake(id)] + [])));
    RunFromCons(s1, Fill(k), [Signal(k)] + ([Wake(id)] + []));
    RunFromCons(s2, Signal(k), [Wake(id)] + []);
    RunFromCons(s3, Wake(id), []);
    assert RunFrom(s4, []) == Some(s4);
  }

  /** A call whose time runs out, or whose write fails, takes its id out and raises that. */
  lemma GivesUp(steps: seq<Step>, id: Id, reason: Reason)
    requires IsRun(steps) && LockFree(StateAfter(steps)) && id in StateAfter(steps).sh.pending
    requires CallerIs(StateAfter(steps), id, if reason == Timeout then Written else Registered)
    ensures Ends(StateAfter(steps), [if reason == Timeout then TimeOut(id) else WriteFail(id), PopOwn(id)], id, RaisedReason(reason))
  {
    var s, step := StateAfter(steps), if reason == Timeout then TimeOut(id) else WriteFail(id);
    RunInvariant(steps);
    assert [step, PopOwn(id)] == [step] + ([PopOwn(id)] + []);
    RunFromCons(s, step, [PopOwn(id)] + []);
    RunFromCons(Apply(s, step), PopOwn(id), []);
  }

  /** A reader that reaches the end of the output while nobody stops the bridge. */
  function CrashSteps(k: nat, order: seq<Id>): seq<Step> {
    [Eof(k)] + ([Snapshot(k, order)] + DrainSteps(k, |order|))
  }

  lemma CrashDrains(s: State, k: nat, order: seq<Id>) returns (t: State)
    requires LockFree(s) && !s.sh.stopping && k in s.readers && s.readers[k].Reading? && Lists(order, s.sh.pending)
    requires forall id | id in s.sh.pending :: id in s.sh.slots
    ensures RunFrom(s, CrashSteps(k, order)) == Some(t)
    ensures t.callers == s.callers && t.sh.pending == {} && t.sh.slots == FailSlots(s.sh.slots, IdsOf(order), Crashed)
  {
    var s1 := Apply(s, Eof(k));
    var s2 := Apply(s1, Snapshot(k, order));
    RunFromCons(s, Eof(k), [Snapshot(k, order)] + DrainSteps(k, |order|));
    RunFromCons(s1, Snapshot(k, order), DrainSteps(k, |order|));
    DrainIsFailAll(s2, k, order);
    t := Drained(s2, k, order);
  }

  /** A crash reaches every waiting call: the reader fails what was pending, and each caller raises the crash. */
  lemma CrashReachesCallers(steps: seq<Step>, k: nat, order: seq<Id>, id: Id)
    requires IsRun(steps) && LockFree(StateAfter(steps)) && !StateAfter(steps).sh.stopping
    requires k in StateAfter(steps).readers && StateAfter(steps).readers[k].Reading? && Lists(order, StateAfter(steps).sh.pending)
    requires CallerIs(StateAfter(steps), id, Written) && id in StateAfter(steps).sh.pending
    ensures Ends(StateAfter(steps), CrashSteps(k, order) + [Wake(id)], id, RaisedError(Crashed))
  {
    var s := StateAfter(steps);
    RunInvariant(steps);
    var t := CrashDrains(s, k, order);
    var i :| 0 <= i < |order| && order[i] == id;
    assert id in IdsOf(order);
    RunFromAppend(s, CrashSteps(k, order), Wake(id));
  }

  /** While the bridge is being stopped the reader ends and leaves the pending calls to `stop()`. */
  lemma StoppingReaderEnds(s: State, k: nat)
    requires s.sh.stopping && k in s.readers && s.readers[k].Reading?
    ensures Enabled(s, Eof(k)) && Apply(s, Eof(k)) == s.(readers := s.readers[k := Done])
  {
  }

  // ---- `stop()` ----------------------------------------------------------------------------------------------

  function FailSteps(n: nat): seq<Step> {
    if n == 0 then [] else [StopFill] + ([StopSignal] + FailSteps(n - 1))
  }

  function StopSteps(order: seq<Id>): seq<Step> {
    [StopBegin] + ([StopLock(order)] + FailSteps(|order|))
  }

  function AllFailed(s: State, ids: seq<Id>): State {
    s.(stopper := Failing([]), sh := s.sh.(slots := FailSlots(s.sh.slots, IdsOf(ids), Stopped)))
  }

  /** The first pending call is failed and set, and the rest remains to be failed. */
  lemma FailTwo(s: State, ids: seq<Id>) returns (t: State)
    requires s.stopper == Failing(ids) && |ids| > 0 && ids[0] in s.sh.slots
    ensures RunFrom(s, FailSteps(|ids|)) == RunFrom(t, FailSteps(|ids| - 1))
    ensures t == s.(stopper := Failing(ids[1..]),
                    sh := s.sh.(slots := s.sh.slots[ids[0] := FailSlot(s.sh.slots[ids[0]], Stopped)]))
  {
    var s1 := Apply(s, StopFill);
    t := Apply(s1, StopSignal);
    RunFromCons(s, StopFill, [StopSignal] + FailSteps(|ids| - 1));
    RunFromCons(s1, StopSignal, FailSteps(|ids| - 1));
  }

  lemma {:induction false} FailStepsFailAll(s: State, ids: seq<Id>)
    requires s.stopper == Failing(ids) && NoDuplicates(ids) && forall i | 0 <= i < |ids| :: ids[i] in s.sh.slots
    ensures RunFrom(s, FailSteps(|ids|)) == Some(AllFailed(s, ids))
    decreases |ids|
  {
    if |ids| == 0 {
      FailNone(s.sh.slots, Stopped);
      assert IdsOf(ids) == {} && ids == [];
    } else {
      var t := FailTwo(s, ids);
      FailStepsFailAll(t, ids[1..]);
      IdsOfCons(ids);
      FailFirst(s.sh.slots, ids[0], IdsOf(ids[1..]), Stopped);
    }
  }

  lemma StopFails(s: State, order: seq<Id>) returns (t: State)
    requires s.stopper.Off? && Lists(order, s.sh.pending) && forall id | id in s.sh.pending :: id in s.sh.slots
    ensures RunFrom(s, StopSteps(order)) == Some(t) && t.callers == s.callers && t.stopper == Failing([])
    ensures t.sh.slots == FailSlots(s.sh.slots, IdsOf(order), Stopped) && t.sh.stopping
  {
    var s1 := Apply(s, StopBegin);
    var s2 := Apply(s1, StopLock(order));
    RunFromCons(s, StopBegin, [StopLock(order)] + FailSteps(|order|));
    RunFromCons(s1, StopLock(order), FailSteps(|order|));
    FailStepsFailAll(s2, order);
    t := AllFailed(s2, order);
  }

  /** Stopping a running bridge reaches every waiting call, and leaves the map empty. */
  lemma StopReachesCallers(steps: seq<Step>, order: seq<Id>, id: Id)
    requires IsRun(steps) && StateAfter(steps).stopper.Off? && Lists(order, StateAfter(steps).sh.pending)
    requires CallerIs(StateAfter(steps), id, Written) && id in StateAfter(steps).sh.pending
    ensures Ends(StateAfter(steps), StopSteps(order) + [StopClear] + [Wake(id)], id, RaisedError(Stopped))
    ensures RunFrom(StateAfter(steps), StopSteps(order) + [StopClear] + [Wake(id)]).value.sh.pending == {}
  {
    var s := StateAfter(steps);
    RunInvariant(steps);
    var t := StopFails(s, order);
    var i :| 0 <= i < |order| && order[i] == id;
    assert id in IdsOf(order);
    RunFromAppend(s, StopSteps(order), StopClear);
    RunFromAppend(s, StopSteps(order) + [StopClear], Wake(id));
  }
}
