/** At most three attempted redemptions a minute, over every run of the delegation store and the executor. */
module RedemptionLimits {
  import opened Bytes
  import opened Extractors
  import opened Delegations
  import opened RateLimiter

  type Life = seq<Delegations.Event>

  function After(events: Life): State {
    Delegations.Run(events)
  }

  /** The tries of one run in the order of a monotonic clock; a try is asked for before it is recorded. */
  predicate InOrder(events: Life, i: nat, j: nat)
    requires i <= j < |events|
  {
    events[i].Try? && events[j].Try? ==>
      if i == j then events[i].world.askedAt <= events[i].world.recordedAt
      else events[i].world.recordedAt <= events[j].world.askedAt
  }

  predicate ClocksForward(events: Life) {
    forall i, j | 0 <= i <= j < |events| :: InOrder(events, i, j)
  }

  // ---- the attempts of one user and tool ------------------------------------------------------

  function Tries(events: Life, i: nat): Tried
    requires i < |events| && events[i].Try?
  {
    TryExecution(After(events[..i]), events[i].ctx, events[i].args, events[i].world)
  }

  /** Event `i` is a try for this user and tool that attempts a redemption. */
  predicate AttemptAt(events: Life, i: nat, user: string, tool: string)
    requires i < |events|
  {
    events[i].Try? && events[i].ctx.user == user && events[i].ctx.tool == tool && Tries(events, i).attempted
  }

  predicate SuccessAt(events: Life, i: nat, user: string, tool: string)
    requires i < |events|
  {
    AttemptAt(events, i, user, tool) && Tries(events, i).outcome == Some(EXECUTED)
  }

  /** How many of the events from `from` up to `until` are attempts. */
  function Attempts(events: Life, from: nat, until: nat, user: string, tool: string): nat
    requires until <= |events|
    decreases until
  {
    if until <= from then 0
    else Attempts(events, from, until - 1, user, tool) + if AttemptAt(events, until - 1, user, tool) then 1 else 0
  }

  /** When the attempts since the last success were recorded. */
  function Unbroken(events: Life, n: nat, user: string, tool: string): seq<real>
    requires n <= |events|
    decreases n
  {
    if n == 0 then []
    else if !AttemptAt(events, n - 1, user, tool) then Unbroken(events, n - 1, user, tool)
    else if SuccessAt(events, n - 1, user, tool) then []
    else Unbroken(events, n - 1, user, tool) + [events[n - 1].world.recordedAt]
  }

  // ---- what the limiter's table knows of them ----------------------------------------------------

  /** The kept list prunes as the unbroken attempts do, which no window of a minute holds more than three of. */
  ghost predicate Tracks(kept: seq<real>, full: seq<real>, now: real) {
    && Alike(Track(kept, full), now)
    && AtMostMax(full)
    && forall i | 0 <= i < |full| :: full[i] <= now
  }

  lemma TracksLater(kept: seq<real>, full: seq<real>, now: real, later: real)
    requires Tracks(kept, full, now) && now <= later
    ensures Tracks(kept, full, later)
  {
  }

  lemma TracksAsked(kept: seq<real>, full: seq<real>, now: real)
    requires Tracks(kept, full, now)
    ensures Tracks(Pruned(kept, now), full, now)
  {
    StepAlike(Track(kept, full), RateLimiter.Ask(now));
  }

  lemma TracksRecorded(kept: seq<real>, full: seq<real>, askedAt: real, now: real)
    requires Tracks(kept, full, askedAt) && !Limited(kept, askedAt) && askedAt <= now
    ensures Tracks(Pruned(Pruned(kept, askedAt), now) + [now], full + [now], now)
  {
    TracksAsked(kept, full, askedAt);
    StepAlike(Track(Pruned(kept, askedAt), full), RateLimiter.Record(now));
    RecordKeepsMax(full, askedAt, now);
  }

  lemma TracksCleared(now: real)
    ensures Tracks([], [], now)
  {
  }

  // ---- one try ---------------------------------------------------------------------------------------

  lemma NoColons(tool: string)
    requires HasExtractor(tool)
    ensures ':' !in tool
  {
  }

  lemma OtherKey(user: string, tool: string, other: string, otherTool: string)
    requires HasExtractor(tool) && HasExtractor(otherTool) && !(other == user && otherTool == tool)
    ensures Key(user, tool) != Key(other, otherTool)
  {
    NoColons(tool);
    NoColons(otherTool);
    if Key(user, tool) == Key(other, otherTool) { KeysDiffer(user, tool, other, otherTool); }
  }

  lemma OtherRecord(s: State, c: Delegations.Context, r: Delegations.Record, x: Action, w: World, key: string)
    requires key != Key(c.user, c.tool)
    ensures KeptFor(TryRecord(s, c, r, x, w).state.attempts, key) == KeptFor(s.attempts, key)
  {
  }

  /** A try for another user or tool leaves this key's list as it was. */
  lemma OtherTry(s: State, c: Delegations.Context, a: Args, w: World, user: string, tool: string)
    requires HasExtractor(tool) && !(c.user == user && c.tool == tool)
    ensures KeptFor(TryExecution(s, c, a, w).state.attempts, Key(user, tool)) == KeptFor(s.attempts, Key(user, tool))
  {
    if !StopsEarly(s, c, w) {
      OtherKey(user, tool, c.user, c.tool);
      var r, extracted := FirstMatch(s.records, c).value, Extract(c.tool, a, w.decimals);
      if extracted.Found? { OtherRecord(s, c, r, Prepared(extracted.action, r.delegator), w, Key(user, tool)); }
    }
  }

  /** What a try for this user and tool does to the list of its key. */
  ghost predicate TryKeeps(s: State, t: Tried, w: World, key: string) {
    var kept, next := KeptFor(s.attempts, key), KeptFor(t.state.attempts, key);
    if !t.attempted then next == kept || next == Pruned(kept, w.askedAt)
    else
      && !Limited(kept, w.askedAt)
      && next == if t.outcome == Some(EXECUTED) then [] else Pruned(Pruned(kept, w.askedAt), w.recordedAt) + [w.recordedAt]
  }

  lemma OwnRecord(s: State, c: Delegations.Context, r: Delegations.Record, x: Action, w: World)
    ensures TryKeeps(s, TryRecord(s, c, r, x, w), w, Key(c.user, c.tool))
  {
  }

  lemma OwnTry(s: State, c: Delegations.Context, a: Args, w: World)
    ensures TryKeeps(s, TryExecution(s, c, a, w), w, Key(c.user, c.tool))
  {
    if !StopsEarly(s, c, w) {
      var r, extracted := FirstMatch(s.records, c).value, Extract(c.tool, a, w.decimals);
      if extracted.Found? { OwnRecord(s, c, r, Prepared(extracted.action, r.delegator), w); }
    }
  }

  // ---- over a run ------------------------------------------------------------------------------------

  function KeptAt(events: Life, n: nat, user: string, tool: string): seq<real>
    requires n <= |events|
  {
    KeptFor(After(events[..n]).attempts, Key(user, tool))
  }

  lemma AfterNext(events: Life, n: nat)
    requires n < |events|
    ensures After(events[..n + 1]) == Delegations.Step(After(events[..n]), events[n])
  {
    assert events[..n + 1][..n] == events[..n];
  }

  /** `now` is at or past every clock of the first `n` events. */
  predicate PastClocks(events: Life, n: nat, now: real)
    requires n <= |events|
  {
    forall i | 0 <= i < n && events[i].Try? :: events[i].world.askedAt <= now && events[i].world.recordedAt <= now
  }

  lemma PastEarlier(events: Life, n: nat)
    requires n < |events| && events[n].Try? && ClocksForward(events)
    ensures PastClocks(events, n, events[n].world.askedAt)
  {
    forall i | 0 <= i < n && events[i].Try?
      ensures events[i].world.askedAt <= events[n].world.askedAt && events[i].world.recordedAt <= events[n].world.askedAt
    {
      assert InOrder(events, i, i) && InOrder(events, i, n);
    }
  }

  lemma TrackedStep(events: Life, n: nat, user: string, tool: string, now: real)
    requires n < |events| && events[n].Try? && ClocksForward(events) && HasExtractor(tool)
    requires PastClocks(events, n + 1, now)
    requires Tracks(KeptAt(events, n, user, tool), Unbroken(events, n, user, tool), events[n].world.askedAt)
    ensures Tracks(KeptAt(events, n + 1, user, tool), Unbroken(events, n + 1, user, tool), now)
  {
    var s, e, w := After(events[..n]), events[n], events[n].world;
    var kept, full := KeptAt(events, n, user, tool), Unbroken(events, n, user, tool);
    AfterNext(events, n);
    assert InOrder(events, n, n);
    if !(e.ctx.user == user && e.ctx.tool == tool) {
      OtherTry(s, e.ctx, e.args, w, user, tool);
      TracksLater(kept, full, w.askedAt, now);
    } else {
      OwnTry(s, e.ctx, e.args, w);
      if !Tries(events, n).attempted {
        TracksAsked(kept, full, w.askedAt);
        TracksLater(KeptAt(events, n + 1, user, tool), full, w.askedAt, now);
      } else if SuccessAt(events, n, user, tool) {
        TracksCleared(now);
      } else {
        TracksRecorded(kept, full, w.askedAt, w.recordedAt);
        TracksLater(KeptAt(events, n + 1, user, tool), full + [w.recordedAt], w.recordedAt, now);
      }
    }
  }

  lemma {:induction false} Tracked(events: Life, n: nat, user: string, tool: string, now: real)
    requires n <= |events| && ClocksForward(events) && HasExtractor(tool) && PastClocks(events, n, now)
    ensures Tracks(KeptAt(events, n, user, tool), Unbroken(events, n, user, tool), now)
  {
    if n == 0 {
      TracksCleared(now);
    } else if events[n - 1].Try? {
      PastEarlier(events, n - 1);
      Tracked(events, n - 1, user, tool, events[n - 1].world.askedAt);
      TrackedStep(events, n - 1, user, tool, now);
    } else {
      AfterNext(events, n - 1);
      Tracked(events, n - 1, user, tool, now);
    }
  }

  // ---- at most three ---------------------------------------------------------------------------------

  lemma AttemptUnlimited(events: Life, n: nat, user: string, tool: string)
    requires n < |events| && AttemptAt(events, n, user, tool)
    ensures HasExtractor(tool) && !Limited(KeptAt(events, n, user, tool), events[n].world.askedAt)
  {
    OwnTry(After(events[..n]), events[n].ctx, events[n].args, events[n].world);
  }

  /** At a try the limiter refuses exactly when three attempts since the last success are less than 60 seconds old. */
  lemma LimitedIffThree(events: Life, n: nat, user: string, tool: string)
    requires n < |events| && ClocksForward(events) && HasExtractor(tool) && events[n].Try?
    ensures Limited(KeptAt(events, n, user, tool), events[n].world.askedAt)
      <==> |YoungAt(Unbroken(events, n, user, tool), events[n].world.askedAt)| >= 3
  {
    PastEarlier(events, n);
    Tracked(events, n, user, tool, events[n].world.askedAt);
    LimitedMeans(Unbroken(events, n, user, tool), events[n].world.askedAt);
  }

  /** With the next attempt, whether it succeeds or not, no window holds more than three. */
  lemma AttemptWithinMax(events: Life, n: nat, user: string, tool: string)
    requires n < |events| && ClocksForward(events) && AttemptAt(events, n, user, tool)
    ensures AtMostMax(Unbroken(events, n, user, tool) + [events[n].world.recordedAt])
  {
    var w := events[n].world;
    AttemptUnlimited(events, n, user, tool);
    PastEarlier(events, n);
    Tracked(events, n, user, tool, w.askedAt);
    assert InOrder(events, n, n);
    TracksRecorded(KeptAt(events, n, user, tool), Unbroken(events, n, user, tool), w.askedAt, w.recordedAt);
  }

  /** None of the events from `from` up to `until` is a success. */
  predicate NoSuccess(events: Life, from: nat, until: nat, user: string, tool: string)
    requires until <= |events|
  {
    forall i | from <= i < until :: !SuccessAt(events, i, user, tool)
  }

  /** All attempts between two events lie in the window that starts at `start`. */
  predicate InWindow(events: Life, from: nat, until: nat, user: string, tool: string, start: real)
    requires until <= |events|
  {
    forall i | from <= i < until && AttemptAt(events, i, user, tool) :: start <= events[i].world.recordedAt < start + RATE_WINDOW
  }

  lemma {:induction false} AttemptsCounted(events: Life, from: nat, until: nat, user: string, tool: string, start: real)
    requires until <= |events| && NoSuccess(events, from, until, user, tool)
    requires InWindow(events, from, until, user, tool, start)
    ensures Attempts(events, from, until, user, tool) <= CountIn(Unbroken(events, until, user, tool), start)
    decreases until
  {
    if until > from {
      EarlierWindow(events, from, until, user, tool, start);
      AttemptsCounted(events, from, until - 1, user, tool, start);
      CountedNext(events, until - 1, user, tool, start);
    }
  }

  lemma EarlierWindow(events: Life, from: nat, until: nat, user: string, tool: string, start: real)
    requires from < until <= |events| && NoSuccess(events, from, until, user, tool)
    requires InWindow(events, from, until, user, tool, start)
    ensures NoSuccess(events, from, until - 1, user, tool) && InWindow(events, from, until - 1, user, tool, start)
    ensures !SuccessAt(events, until - 1, user, tool)
    ensures AttemptAt(events, until - 1, user, tool) ==> start <= events[until - 1].world.recordedAt < start + RATE_WINDOW
  {
  }

  lemma CountedNext(events: Life, n: nat, user: string, tool: string, start: real)
    requires n < |events| && !SuccessAt(events, n, user, tool)
    requires AttemptAt(events, n, user, tool) ==> start <= events[n].world.recordedAt < start + RATE_WINDOW
    ensures CountIn(Unbroken(events, n + 1, user, tool), start)
      == CountIn(Unbroken(events, n, user, tool), start) + if AttemptAt(events, n, user, tool) then 1 else 0
  {
    if AttemptAt(events, n, user, tool) {
      CountSnoc(Unbroken(events, n, user, tool), events[n].world.recordedAt, start);
    }
  }

  lemma CountSnoc(ts: seq<real>, t: real, start: real)
    ensures CountIn(ts + [t], start) == CountIn(ts, start) + if start <= t < start + RATE_WINDOW then 1 else 0
  {
    assert (ts + [t])[..|ts|] == ts;
  }

  lemma SpanInWindow(events: Life, from: nat, until: nat, user: string, tool: string)
    requires from <= until < |events| && ClocksForward(events) && events[from].Try? && events[until].Try?
    requires events[until].world.recordedAt - events[from].world.recordedAt < RATE_WINDOW
    ensures InWindow(events, from, until + 1, user, tool, events[from].world.recordedAt)
  {
    forall i | from <= i < until + 1 && AttemptAt(events, i, user, tool)
      ensures events[from].world.recordedAt <= events[i].world.recordedAt <= events[until].world.recordedAt
    {
      assert InOrder(events, from, i) && InOrder(events, i, until) && InOrder(events, i, i) && InOrder(events, until, until);
    }
  }

  /**
   Over every run of the store and the executor: two attempts of one user and tool that were recorded less than 60
   seconds apart, with no success from the first up to the last, are among at most three attempts.
   */
  lemma AtMostThreePerMinute(events: Life, from: nat, until: nat, user: string, tool: string)
    requires from <= until < |events| && ClocksForward(events)
    requires AttemptAt(events, from, user, tool) && AttemptAt(events, until, user, tool)
    requires events[until].world.recordedAt - events[from].world.recordedAt < 60.0
    requires NoSuccess(events, from, until, user, tool)
    ensures Attempts(events, from, until + 1, user, tool) <= 3
  {
    var start, last := events[from].world.recordedAt, events[until].world.recordedAt;
    var full := Unbroken(events, until, user, tool);
    SpanInWindow(events, from, until, user, tool);
    AttemptsCounted(events, from, until, user, tool, start);
    AttemptWithinMax(events, until, user, tool);
    CountSnoc(full, last, start);
    assert CountIn(full + [last], start) <= RATE_MAX;
  }
}
