/** The redemption rate limiter (clawmes/delegation/executor.py): a pruned list of recent attempts per user and tool. */
module RateLimiter {
  import opened Bytes

  const RATE_WINDOW := 60.0
  const RATE_MAX := 3

  // ---- pruning ------------------------------------------------------------------------------

  predicate Recent(t: real, now: real) {
    now - t < RATE_WINDOW
  }

  function Pruned(ts: seq<real>, now: real): seq<real> {
    if |ts| == 0 then []
    else Pruned(ts[..|ts| - 1], now) + if Recent(ts[|ts| - 1], now) then [ts[|ts| - 1]] else []
  }

  lemma PrunedSnoc(ts: seq<real>, t: real, now: real)
    ensures Pruned(ts + [t], now) == Pruned(ts, now) + if Recent(t, now) then [t] else []
  {
    assert (ts + [t])[..|ts|] == ts;
  }

  /** Pruning early and again later is pruning later. */
  lemma {:induction false} PrunedTwice(ts: seq<real>, early: real, late: real)
    requires early <= late
    ensures Pruned(Pruned(ts, early), late) == Pruned(ts, late)
  {
    if |ts| > 0 {
      var init, last := ts[..|ts| - 1], ts[|ts| - 1];
      PrunedTwice(init, early, late);
      if Recent(last, early) {
        PrunedSnoc(Pruned(init, early), last, late);
      } else {
        assert Pruned(init, early) + [] == Pruned(init, early);
      }
    }
  }

  // ---- one user and tool over a run ---------------------------------------------------------------

  /** What the limiter keeps for a key, and every attempt recorded since the last success. */
  datatype Track = Track(kept: seq<real>, full: seq<real>)

  /** Asking, recording, or clearing after a success. */
  datatype Event = Ask(now: real) | Record(now: real) | Success(now: real)

  function Step(t: Track, e: Event): Track {
    match e
    case Ask(now) => t.(kept := Pruned(t.kept, now))
    case Record(now) => Track(Pruned(t.kept, now) + [now], t.full + [now])
    case Success(now) => Track([], [])
  }

  function Run(events: seq<Event>): Track {
    if |events| == 0 then Track([], []) else Step(Run(events[..|events| - 1]), events[|events| - 1])
  }

  predicate Limited(ts: seq<real>, now: real) {
    |Pruned(ts, now)| >= RATE_MAX
  }

  /** A monotonic clock. */
  predicate ClockForward(events: seq<Event>) {
    forall i, j | 0 <= i < j < |events| :: events[i].now <= events[j].now
  }

  lemma PruneRecorded(kept: seq<real>, full: seq<real>, now: real, at: real)
    requires Pruned(kept, at) == Pruned(full, at)
    ensures Pruned(kept + [now], at) == Pruned(full + [now], at)
  {
    PrunedSnoc(kept, now, at);
    PrunedSnoc(full, now, at);
  }

  /** From now on, the pruned list and the full history prune alike. */
  ghost predicate Alike(t: Track, now: real) {
    forall at: real :: at >= now ==> Pruned(t.kept, at) == Pruned(t.full, at)
  }

  lemma StepAlike(t: Track, e: Event)
    requires Alike(t, e.now)
    ensures Alike(Step(t, e), e.now)
  {
    forall at: real | at >= e.now ensures Pruned(Step(t, e).kept, at) == Pruned(Step(t, e).full, at) {
      PrunedTwice(t.kept, e.now, at);
      if e.Record? { PruneRecorded(Pruned(t.kept, e.now), t.full, e.now, at); }
    }
  }

  lemma {:induction false} RunAlike(events: seq<Event>, now: real)
    requires ClockForward(events) && forall i | 0 <= i < |events| :: events[i].now <= now
    ensures Alike(Run(events), now)
  {
    if |events| > 0 {
      var init, e := events[..|events| - 1], events[|events| - 1];
      RunAlike(init, e.now);
      StepAlike(Run(init), e);
    }
  }

  /** The pruned list answers as the full history since the last success would. */
  lemma PrunedAnswersAsFull(events: seq<Event>, now: real)
    requires ClockForward(events) && forall i | 0 <= i < |events| :: events[i].now <= now
    ensures Limited(Run(events).kept, now) == Limited(Run(events).full, now)
  {
    RunAlike(events, now);
  }

  // ---- what limits -------------------------------------------------------------------------------

  /** The positions of the attempts that are less than 60 seconds old. */
  function YoungAt(ts: seq<real>, now: real): set<nat> {
    set i: nat | i < |ts| && now - ts[i] < 60.0
  }

  lemma {:induction false} PrunedCounts(ts: seq<real>, now: real)
    ensures |Pruned(ts, now)| == |YoungAt(ts, now)|
  {
    if |ts| == 0 {
      assert YoungAt(ts, now) == {};
    } else {
      var n := |ts| - 1;
      PrunedCounts(ts[..n], now);
      assert YoungAt(ts, now) == YoungAt(ts[..n], now) + if now - ts[n] < 60.0 then {n} else {};
    }
  }

  /** Limited exactly when at least three attempts are less than 60 seconds old. */
  lemma LimitedMeans(ts: seq<real>, now: real)
    ensures Limited(ts, now) <==> |YoungAt(ts, now)| >= 3
  {
    PrunedCounts(ts, now);
  }

  // ---- at most three per minute ------------------------------------------------------------------

  /** Attempts in the half-open window of one minute that starts at `from`. */
  function CountIn(ts: seq<real>, from: real): nat {
    if |ts| == 0 then 0
    else CountIn(ts[..|ts| - 1], from) + if from <= ts[|ts| - 1] < from + RATE_WINDOW then 1 else 0
  }

  ghost predicate AtMostMax(ts: seq<real>) {
    forall from: real :: CountIn(ts, from) <= RATE_MAX
  }

  lemma {:induction false} WindowIsRecent(ts: seq<real>, from: real, now: real)
    requires from > now - RATE_WINDOW && forall i | 0 <= i < |ts| :: ts[i] <= now
    ensures CountIn(ts, from) <= |Pruned(ts, now)|
  {
    if |ts| > 0 { WindowIsRecent(ts[..|ts| - 1], from, now); }
  }

  /** Recording after an unlimited answer keeps every window within the maximum. */
  lemma RecordKeepsMax(full: seq<real>, askedAt: real, now: real)
    requires AtMostMax(full) && !Limited(full, askedAt) && askedAt <= now
    requires forall i | 0 <= i < |full| :: full[i] <= askedAt
    ensures AtMostMax(full + [now])
  {
    forall from: real ensures CountIn(full + [now], from) <= RATE_MAX {
      assert (full + [now])[..|full|] == full;
      assert CountIn(full, from) <= RATE_MAX;
      if from <= now < from + RATE_WINDOW { WindowIsRecent(full, from, askedAt); }
    }
  }

  // ---- the table of all keys ------------------------------------------------------------------------

  type Table = map<string, seq<real>>

  function KeptFor(attempts: Table, key: string): seq<real> {
    if key in attempts then attempts[key] else []
  }

  function Asked(attempts: Table, key: string, now: real): Table {
    attempts[key := Pruned(KeptFor(attempts, key), now)]
  }

  function Recorded(attempts: Table, key: string, now: real): Table {
    attempts[key := Pruned(KeptFor(attempts, key), now) + [now]]
  }

  function Cleared(attempts: Table, key: string): Table {
    attempts - {key}
  }

  function Key(user: string, tool: string): string {
    user + ":" + tool
  }

  /** Tools without a colon in their names never share a key. */
  lemma KeysDiffer(user: string, tool: string, other: string, otherTool: string)
    requires ':' !in tool && ':' !in otherTool && Key(user, tool) == Key(other, otherTool)
    ensures user == other && tool == otherTool
  {
    var k := Key(user, tool);
    assert k[|user|] == ':' && k[|other|] == ':';
    assert forall i | |user| < i < |k| :: k[i] == tool[i - |user| - 1];
    assert forall i | |other| < i < |k| :: k[i] == otherTool[i - |other| - 1];
    assert |user| == |other|;
    assert user == k[..|user|] && other == k[..|other|];
    assert tool == k[|user| + 1..] && otherTool == k[|other| + 1..];
  }

  // ---- the limiter itself ----------------------------------------------------------------------------

  class Limiter {
    var attempts: Table

    constructor ()
      ensures attempts == map[]
    {
      attempts := map[];
    }

    static method Prune(ts: seq<real>, now: real) returns (recent: seq<real>)
      ensures recent == Pruned(ts, now)
    {
      recent := [];
      for i := 0 to |ts|
        invariant recent == Pruned(ts[..i], now)
      {
        assert ts[..i + 1][..i] == ts[..i];
        if now - ts[i] < RATE_WINDOW { recent := recent + [ts[i]]; }
      }
      assert ts[..|ts|] == ts;
    }

    /** `_rate_limited`. */
    method RateLimited(user: string, tool: string, now: real) returns (limited: bool)
      modifies this
      ensures limited == Limited(KeptFor(old(attempts), Key(user, tool)), now)
      ensures attempts == Asked(old(attempts), Key(user, tool), now)
    {
      var key := Key(user, tool);
      var recent := Prune(KeptFor(attempts, key), now);
      attempts := attempts[key := recent];
      limited := |recent| >= RATE_MAX;
    }

    /** `_record_attempt`. */
    method RecordAttempt(user: string, tool: string, now: real)
      modifies this
      ensures attempts == Recorded(old(attempts), Key(user, tool), now)
    {
      var key := Key(user, tool);
      var recent := Prune(KeptFor(attempts, key), now);
      recent := recent + [now];
      attempts := attempts[key := recent];
    }

    /** `_clear_attempts`. */
    method ClearAttempts(user: string, tool: string)
      modifies this
      ensures attempts == Cleared(old(attempts), Key(user, tool))
    {
      attempts := attempts - {Key(user, tool)};
    }
  }
}
