/**
 The bridge RPC protocol (clawmes/bridges/process.py) as interleaved atomic steps of callers,
 reader threads and `stop()`, which share a pending map under one lock.
 */
module BridgeProtocol {
  import opened Bytes

  type Id = string

  /** What a response carries; values are JSON text. */
  datatype Body = Success(result: string) | Failure(code: string)

  /** One parsed line of the child's stdout. */
  datatype Message = Reply(id: Id, body: Body) | Notification | Malformed

  datatype CallError = Remote(code: string) | Stopped | Crashed

  /** The slot a caller waits on: `_PendingCall`. */
  datatype Slot = Slot(signalled: bool, result: string, error: Option<CallError>)

  const EMPTY_SLOT := Slot(false, "null", None)

  /** What the threads share: the pending ids, every slot ever made, and the stopping flag. */
  datatype Shared = Shared(pending: set<Id>, slots: map<Id, Slot>, stopping: bool)

  function SlotOf(sh: Shared, id: Id): Slot {
    if id in sh.slots then sh.slots[id] else EMPTY_SLOT
  }

  function Insert(sh: Shared, id: Id): Shared {
    sh.(pending := sh.pending + {id}, slots := sh.slots[id := EMPTY_SLOT])
  }

  function Remove(sh: Shared, id: Id): Shared {
    sh.(pending := sh.pending - {id})
  }

  function Clear(sh: Shared): Shared {
    sh.(pending := {})
  }

  function FillReply(sh: Shared, id: Id, body: Body): Shared {
    var slot := SlotOf(sh, id);
    sh.(slots := sh.slots[id :=
      match body
      case Success(v) => slot.(result := v)
      case Failure(c) => slot.(error := Some(Remote(c)))])
  }

  function FillError(sh: Shared, id: Id, e: CallError): Shared {
    sh.(slots := sh.slots[id := SlotOf(sh, id).(error := Some(e))])
  }

  function SetEvent(sh: Shared, id: Id): Shared {
    sh.(slots := sh.slots[id := SlotOf(sh, id).(signalled := true)])
  }

  // ---- threads ---------------------------------------------------------------------

  datatype Reason = Timeout | WriteFailed

  /** A caller, from registering its id to leaving `call`. */
  datatype Caller =
    | Registered
    | Written
    | Popping(reason: Reason)
    | Returned(value: string)
    | RaisedReason(reason: Reason)
    | RaisedError(error: CallError)
    | Aborted

  /** A reader thread between lines, part-way through a response, or on its way out. */
  datatype Reader =
    | Reading
    | Holding(id: Id, body: Body)
    | Filled(id: Id, body: Body)
    | Exiting
    | Draining(ids: seq<Id>)
    | DrainFilled(ids: seq<Id>)
    | Done

  /** `stop()` holds the pending lock from `Failing` until the map is cleared. */
  datatype Stopper = Off | Begun | Failing(ids: seq<Id>) | FailFilled(ids: seq<Id>)

  datatype State = State(sh: Shared, callers: map<Id, Caller>, readers: map<nat, Reader>, stopper: Stopper)

  const INIT := State(Shared({}, map[], false), map[], map[], Off)

  datatype Step =
    | Start(k: nat)
    | Register(id: Id)
    | WriteOk(id: Id)
    | WriteFail(id: Id)
    | Abort(id: Id)
    | TimeOut(id: Id)
    | PopOwn(id: Id)
    | Wake(id: Id)
    | Receive(k: nat, msg: Message)
    | Fill(k: nat)
    | Signal(k: nat)
    | Eof(k: nat)
    | Snapshot(k: nat, order: seq<Id>)
    | DrainFill(k: nat)
    | DrainSignal(k: nat)
    | StopBegin
    | StopIdle
    | StopLock(order: seq<Id>)
    | StopFill
    | StopSignal
    | StopClear

  predicate NoDuplicates<T(==)>(s: seq<T>) {
    forall i, j | 0 <= i < j < |s| :: s[i] != s[j]
  }

  /** `order` lists the pending ids once each: the order the map yields them in. */
  predicate Lists(order: seq<Id>, pending: set<Id>) {
    NoDuplicates(order) && (forall i | 0 <= i < |order| :: order[i] in pending) && forall x | x in pending :: x in order
  }

  predicate LockFree(s: State) {
    !s.stopper.Failing? && !s.stopper.FailFilled?
  }

  predicate CallerIs(s: State, id: Id, c: Caller) {
    id in s.callers && s.callers[id] == c
  }

  predicate Enabled(s: State, step: Step) {
    match step
    case Start(k) => s.stopper.Off? && k !in s.readers
    case Register(id) => LockFree(s) && id !in s.callers && id !in s.sh.slots
    case WriteOk(id) => CallerIs(s, id, Registered)
    case WriteFail(id) => CallerIs(s, id, Registered)
    case Abort(id) => CallerIs(s, id, Registered)
    case TimeOut(id) => CallerIs(s, id, Written) && !SlotOf(s.sh, id).signalled
    case PopOwn(id) => LockFree(s) && id in s.callers && s.callers[id].Popping?
    case Wake(id) => CallerIs(s, id, Written) && SlotOf(s.sh, id).signalled
    case Receive(k, msg) => k in s.readers && s.readers[k].Reading? && (msg.Reply? ==> LockFree(s))
    case Fill(k) => k in s.readers && s.readers[k].Holding?
    case Signal(k) => k in s.readers && s.readers[k].Filled?
    case Eof(k) => k in s.readers && s.readers[k].Reading?
    case Snapshot(k, order) => k in s.readers && s.readers[k].Exiting? && LockFree(s) && Lists(order, s.sh.pending)
    case DrainFill(k) => k in s.readers && s.readers[k].Draining? && |s.readers[k].ids| > 0
    case DrainSignal(k) => k in s.readers && s.readers[k].DrainFilled? && |s.readers[k].ids| > 0
    case StopBegin => s.stopper.Off?
    case StopIdle => s.stopper.Begun?
    case StopLock(order) => s.stopper.Begun? && Lists(order, s.sh.pending)
    case StopFill => s.stopper.Failing? && |s.stopper.ids| > 0
    case StopSignal => s.stopper.FailFilled? && |s.stopper.ids| > 0
    case StopClear => s.stopper.Failing? && |s.stopper.ids| == 0
  }

  function Apply(s: State, step: Step): State
    requires Enabled(s, step)
  {
    match step
    case Start(k) => s.(sh := s.sh.(stopping := false), readers := s.readers[k := Reading])
    case Register(id) => s.(sh := Insert(s.sh, id), callers := s.callers[id := Registered])
    case WriteOk(id) => s.(callers := s.callers[id := Written])
    case WriteFail(id) => s.(callers := s.callers[id := Popping(WriteFailed)])
    case Abort(id) => s.(callers := s.callers[id := Aborted])
    case TimeOut(id) => s.(callers := s.callers[id := Popping(Timeout)])
    case PopOwn(id) => s.(sh := Remove(s.sh, id), callers := s.callers[id := RaisedReason(s.callers[id].reason)])
    case Wake(id) =>
      var slot := SlotOf(s.sh, id);
      s.(callers := s.callers[id := if slot.error.Some? then RaisedError(slot.error.value) else Returned(slot.result)])
    case Receive(k, msg) =>
      if msg.Reply? && msg.id in s.sh.pending
      then s.(sh := Remove(s.sh, msg.id), readers := s.readers[k := Holding(msg.id, msg.body)])
      else s
    case Fill(k) =>
      var r := s.readers[k];
      s.(sh := FillReply(s.sh, r.id, r.body), readers := s.readers[k := Filled(r.id, r.body)])
    case Signal(k) => s.(sh := SetEvent(s.sh, s.readers[k].id), readers := s.readers[k := Reading])
    case Eof(k) => s.(readers := s.readers[k := if s.sh.stopping then Done else Exiting])
    case Snapshot(k, order) => s.(sh := Clear(s.sh), readers := s.readers[k := Draining(order)])
    case DrainFill(k) =>
      var ids := s.readers[k].ids;
      s.(sh := FillError(s.sh, ids[0], Crashed), readers := s.readers[k := DrainFilled(ids)])
    case DrainSignal(k) =>
      var ids := s.readers[k].ids;
      s.(sh := SetEvent(s.sh, ids[0]), readers := s.readers[k := Draining(ids[1..])])
    case StopBegin => s.(sh := s.sh.(stopping := true), stopper := Begun)
    case StopIdle => s.(stopper := Off)
    case StopLock(order) => s.(stopper := Failing(order))
    case StopFill => s.(sh := FillError(s.sh, s.stopper.ids[0], Stopped), stopper := FailFilled(s.stopper.ids))
    case StopSignal => s.(sh := SetEvent(s.sh, s.stopper.ids[0]), stopper := Failing(s.stopper.ids[1..]))
    case StopClear => s.(sh := Clear(s.sh), stopper := Off)
  }

  // ---- runs --------------------------------------------------------------------------

  /** The state a sequence of steps leads to, if each step is enabled when it is taken. */
  function After(steps: seq<Step>): Option<State> {
    if |steps| == 0 then Some(INIT)
    else
      var s := After(steps[..|steps| - 1]);
      if s.Some? && Enabled(s.value, steps[|steps| - 1]) then Some(Apply(s.value, steps[|steps| - 1])) else None
  }

  ghost predicate IsRun(steps: seq<Step>) {
    After(steps).Some?
  }

  function StateAfter(steps: seq<Step>): State
    requires IsRun(steps)
  {
    After(steps).value
  }

  /** Taking `step` in state `s` takes `id` out of the pending map. */
  predicate Removes(s: State, step: Step, id: Id) {
    Enabled(s, step) && id in s.sh.pending && id !in Apply(s, step).sh.pending
  }

  /** Taking `step` in state `s` sets the event of `id`. */
  predicate Signals(s: State, step: Step, id: Id) {
    Enabled(s, step)
    && match step
       case Signal(k) => s.readers[k].id == id
       case DrainSignal(k) => s.readers[k].ids[0] == id
       case StopSignal => s.stopper.ids[0] == id
       case _ => false
  }

  /** The step index at which a run first takes `id` out of the pending map. */
  function TakenAt(steps: seq<Step>, id: Id): (r: Option<nat>)
    requires IsRun(steps)
    ensures r.Some? ==> r.value < |steps|
  {
    if |steps| == 0 then None
    else
      var init := steps[..|steps| - 1];
      if TakenAt(init, id).Some? then TakenAt(init, id)
      else if Removes(StateAfter(init), steps[|steps| - 1], id) then Some(|steps| - 1) else None
  }

  function RemovalCount(steps: seq<Step>, id: Id): nat
    requires IsRun(steps)
  {
    if |steps| == 0 then 0
    else
      var init := steps[..|steps| - 1];
      RemovalCount(init, id) + if Removes(StateAfter(init), steps[|steps| - 1], id) then 1 else 0
  }

  function SignalCount(steps: seq<Step>, id: Id): nat
    requires IsRun(steps)
  {
    if |steps| == 0 then 0
    else
      var init := steps[..|steps| - 1];
      SignalCount(init, id) + if Signals(StateAfter(init), steps[|steps| - 1], id) then 1 else 0
  }
}
