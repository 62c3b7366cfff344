/** The bridge's shared objects and the critical sections of its threads, tied to the protocol's steps. */
module BridgeProcess {
  import opened Bytes
  import opened BridgeProtocol

  /** `_PendingCall`: an event and the slots the reader fills. */
  class PendingCall {
    var signalled: bool
    var result: string
    var error: Option<CallError>

    constructor ()
      ensures Value() == EMPTY_SLOT
    {
      signalled, result, error := false, "null", None;
    }

    ghost function Value(): Slot
      reads this
    {
      Slot(signalled, result, error)
    }
  }

  class Bridge {
    var pending: map<Id, PendingCall>
    var stopping: bool
    ghost var calls: map<Id, PendingCall>

    /** Pending calls are calls; different ids never share a call object. */
    ghost predicate Valid()
      reads this
    {
      && pending.Keys <= calls.Keys
      && (forall id | id in pending :: pending[id] == calls[id])
      && (forall i, j | i in calls && j in calls && i != j :: calls[i] != calls[j])
    }

    /** What the protocol sees of this object. */
    ghost function View(): Shared
      reads this, calls.Values
    {
      Shared(pending.Keys, map id | id in calls :: calls[id].Value(), stopping)
    }

    constructor ()
      ensures Valid() && View() == INIT.sh && fresh(calls.Values)
    {
      pending, stopping, calls := map[], false, map[];
    }

    /** `call`, under the lock: a fresh id gets a fresh slot. */
    method RegisterCall(id: Id) returns (call: PendingCall)
      requires Valid() && id !in calls
      modifies this
      ensures Valid() && fresh(call) && id in calls && calls[id] == call && calls == old(calls)[id := call]
      ensures View() == Insert(old(View()), id)
    {
      call := new PendingCall();
      pending := pending[id := call];
      calls := calls[id := call];
      assert View().slots == old(View()).slots[id := EMPTY_SLOT];
    }

    /** `_pending.pop(id, None)`, by a caller giving up or by the reader. */
    method Pop(id: Id) returns (call: PendingCall?)
      requires Valid()
      modifies this`pending
      ensures Valid() && View() == Remove(old(View()), id)
      ensures if id in old(pending) then call == old(pending)[id] && id in calls && call == calls[id] else call == null
    {
      if id in pending {
        call := pending[id];
        pending := map x | x in pending && x != id :: pending[x];
      } else {
        call := null;
      }
      assert View().pending == old(View()).pending - {id};
    }

    /** The reader writes the outcome into a call it popped. */
    method Resolve(ghost id: Id, call: PendingCall, body: Body)
      requires Valid() && id in calls && calls[id] == call
      modifies call`result, call`error
      ensures Valid() && View() == FillReply(old(View()), id, body)
    {
      match body {
        case Success(v) =>
          call.result := v;
          assert View().slots == old(View()).slots[id := SlotOf(old(View()), id).(result := v)];
        case Failure(c) =>
          call.error := Some(Remote(c));
          assert View().slots == old(View()).slots[id := SlotOf(old(View()), id).(error := Some(Remote(c)))];
      }
    }

    method Notify(ghost id: Id, call: PendingCall)
      requires Valid() && id in calls && calls[id] == call
      modifies call`signalled
      ensures Valid() && View() == SetEvent(old(View()), id)
    {
      call.signalled := true;
      assert View().slots == SetEvent(old(View()), id).slots;
    }

    /** `_handle_payload` run without interruption: the three steps of a response in a row. */
    method HandlePayload(msg: Message)
      requires Valid()
      modifies this`pending, calls.Values
      ensures Valid() && calls == old(calls)
      ensures View() ==
        if msg.Reply? && msg.id in old(pending)
        then SetEvent(FillReply(Remove(old(View()), msg.id), msg.id, msg.body), msg.id)
        else old(View())
    {
      if !msg.Reply? { return; }
      var call := Pop(msg.id);
      if call == null {
        assert View().pending == old(View()).pending;
        return;
      }
      Resolve(msg.id, call, msg.body);
      Notify(msg.id, call);
    }

    /** The reader's exit takes the whole map under the lock. */
    method TakeAll() returns (taken: map<Id, PendingCall>)
      requires Valid()
      modifies this`pending
      ensures Valid() && taken == old(pending) && View() == Clear(old(View()))
    {
      taken := pending;
      pending := map[];
    }

    /** Fails one call: sets its error, then its event. */
    method FailOne(ghost id: Id, call: PendingCall, e: CallError)
      requires Valid() && id in calls && calls[id] == call
      modifies call`error, call`signalled
      ensures Valid() && View() == SetEvent(FillError(old(View()), id, e), id)
    {
      call.error := Some(e);
      call.signalled := true;
      assert View().slots == SetEvent(FillError(old(View()), id, e), id).slots;
    }

    /** Fails each of the given calls. */
    method FailAll(taken: map<Id, PendingCall>, e: CallError)
      requires Valid() && taken.Keys <= calls.Keys && forall id | id in taken :: taken[id] == calls[id]
      modifies taken.Values
      ensures Valid()
      ensures View() == old(View()).(slots := FailSlots(old(View()).slots, taken.Keys, e))
    {
      var rest := taken.Keys;
      ghost var before, done := View(), {};
      FailNone(before.slots, e);
      while rest != {}
        invariant rest + done == taken.Keys && rest !! done && Valid()
        invariant View() == before.(slots := FailSlots(before.slots, done, e))
        decreases rest
      {
        var id :| id in rest;
        assert taken[id] in taken.Values && calls[id] == taken[id];
        FailOne(id, taken[id], e);
        FailOneMore(before, done, id, e);
        rest, done := rest - {id}, done + {id};
      }
      assert done == taken.Keys;
    }

    /** The reader thread's last act: if not stopping, every pending call crashes. */
    method ReaderExit()
      requires Valid()
      modifies this`pending, calls.Values
      ensures Valid() && calls == old(calls) && stopping == old(stopping)
      ensures View() == if old(stopping) then old(View())
                        else Clear(old(View())).(slots := FailSlots(old(View()).slots, old(pending).Keys, Crashed))
    {
      if !stopping {
        var taken := TakeAll();
        FailAll(taken, Crashed);
      }
    }

    /** `stop()`, from setting the flag to clearing the map; `running` says whether a process exists. */
    method Stop(running: bool)
      requires Valid()
      modifies this`pending, this`stopping, calls.Values
      ensures Valid() && calls == old(calls) && stopping
      ensures View() ==
        if running
        then Shared({}, FailSlots(old(View()).slots, old(pending).Keys, Stopped), true)
        else old(View()).(stopping := true)
    {
      SetStopping();
      if running {
        FailAll(pending, Stopped);
        EmptyPending();
      }
    }

    method SetStopping()
      requires Valid()
      modifies this`stopping
      ensures Valid() && View() == old(View()).(stopping := true)
    {
      stopping := true;
    }

    method EmptyPending()
      requires Valid()
      modifies this`pending
      ensures Valid() && View() == Clear(old(View()))
    {
      pending := map[];
    }
  }

  function FailSlot(slot: Slot, e: CallError): Slot {
    slot.(error := Some(e), signalled := true)
  }

  function FailSlots(slots: map<Id, Slot>, ids: set<Id>, e: CallError): map<Id, Slot> {
    map id | id in slots :: if id in ids then FailSlot(slots[id], e) else slots[id]
  }

  lemma FailNone(slots: map<Id, Slot>, e: CallError)
    ensures FailSlots(slots, {}, e) == slots
  {
  }

  lemma FailOneMore(sh: Shared, done: set<Id>, id: Id, e: CallError)
    requires id in sh.slots && id !in done
    ensures SetEvent(FillError(sh.(slots := FailSlots(sh.slots, done, e)), id, e), id)
      == sh.(slots := FailSlots(sh.slots, done + {id}, e))
  {
    assert FailSlots(sh.slots, done + {id}, e) == FailSlots(sh.slots, done, e)[id := FailSlot(sh.slots[id], e)];
  }

  // ---- the loops refine the protocol's single steps ------------------------------------------

  /** The steps of a reader draining the ids in `order`, one slot and one event at a time. */
  function DrainSteps(k: nat, n: nat): seq<Step> {
    if n == 0 then [] else [DrainFill(k), DrainSignal(k)] + DrainSteps(k, n - 1)
  }

  function RunFrom(s: State, steps: seq<Step>): Option<State>
    decreases |steps|
  {
    if |steps| == 0 then Some(s)
    else if Enabled(s, steps[0]) then RunFrom(Apply(s, steps[0]), steps[1..]) else None
  }

  function IdsOf(ids: seq<Id>): set<Id> {
    set i | 0 <= i < |ids| :: ids[i]
  }

  lemma IdsOfCons(ids: seq<Id>)
    requires |ids| > 0
    ensures IdsOf(ids) == IdsOf(ids[1..]) + {ids[0]}
  {
    assert ids == [ids[0]] + ids[1..];
  }

  /** Failing the first slot and then the others is failing all of them. */
  lemma FailFirst(slots: map<Id, Slot>, id: Id, others: set<Id>, e: CallError)
    requires id in slots && id !in others
    ensures FailSlots(slots[id := FailSlot(slots[id], e)], others, e) == FailSlots(slots, others + {id}, e)
  {
  }

  /** Draining step by step, uninterrupted, has the effect of the loop over the whole snapshot. */
  lemma {:induction false} DrainIsFailAll(s: State, k: nat, ids: seq<Id>)
    requires k in s.readers && s.readers[k] == Draining(ids) && NoDuplicates(ids)
    requires forall i | 0 <= i < |ids| :: ids[i] in s.sh.slots
    ensures RunFrom(s, DrainSteps(k, |ids|)) == Some(Drained(s, k, ids))
    decreases |ids|
  {
    if |ids| == 0 {
      NothingDrained(s, k, ids);
    } else {
      var s2 := DrainTwo(s, k, ids);
      DrainIsFailAll(s2, k, ids[1..]);
      DrainedRest(s, s2, k, ids);
    }
  }

  /** The reader with nothing left to drain, and every one of `ids` failed and set. */
  function Drained(s: State, k: nat, ids: seq<Id>): State {
    s.(readers := s.readers[k := Draining([])], sh := s.sh.(slots := FailSlots(s.sh.slots, IdsOf(ids), Crashed)))
  }

  lemma NothingDrained(s: State, k: nat, ids: seq<Id>)
    requires k in s.readers && s.readers[k] == Draining(ids) && |ids| == 0
    ensures Drained(s, k, ids) == s
  {
    assert ids == [] && s.readers[k := Draining([])] == s.readers;
    assert FailSlots(s.sh.slots, {}, Crashed) == s.sh.slots;
  }

  lemma DrainedRest(s: State, t: State, k: nat, ids: seq<Id>)
    requires |ids| > 0 && NoDuplicates(ids) && ids[0] in s.sh.slots
    requires t == s.(readers := s.readers[k := Draining(ids[1..])],
                     sh := s.sh.(slots := s.sh.slots[ids[0] := FailSlot(s.sh.slots[ids[0]], Crashed)]))
    ensures Drained(t, k, ids[1..]) == Drained(s, k, ids)
  {
    IdsOfCons(ids);
    FailFirst(s.sh.slots, ids[0], IdsOf(ids[1..]), Crashed);
    assert s.readers[k := Draining(ids[1..])][k := Draining([])] == s.readers[k := Draining([])];
  }

  /** The first taken call is failed and set, and the rest remains to be drained. */
  lemma DrainTwo(s: State, k: nat, ids: seq<Id>) returns (t: State)
    requires k in s.readers && s.readers[k] == Draining(ids) && |ids| > 0 && ids[0] in s.sh.slots
    ensures RunFrom(s, DrainSteps(k, |ids|)) == RunFrom(t, DrainSteps(k, |ids| - 1))
    ensures t == s.(readers := s.readers[k := Draining(ids[1..])],
                    sh := s.sh.(slots := s.sh.slots[ids[0] := FailSlot(s.sh.slots[ids[0]], Crashed)]))
  {
    var steps := DrainSteps(k, |ids|);
    t := Apply(Apply(s, DrainFill(k)), DrainSignal(k));
    assert steps[1..] == [DrainSignal(k)] + DrainSteps(k, |ids| - 1) && steps[1..][1..] == DrainSteps(k, |ids| - 1);
  }
}
