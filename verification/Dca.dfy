/** The recurring buys of clawmes/commands/dca.py on the values of one schedule. */
module Dca {
  import opened Bytes
  import opened SlidingCap
  import opened Interval

  datatype Outcome = Bought | Error | Unconnected | OverDay | OverTotal | ConditionBlocked

  /**
   One entry of a schedule's history. `paid` (the amount in force) and `tick` (the tick's clock) are
   not stored by the program; they record what happened.
   */
  datatype Purchase = Purchase(at: int, outcome: Outcome, paid: real, tick: int)

  datatype Schedule = Schedule(
    sender: string,
    amount: real,
    interval: nat,
    nextRun: int,
    active: bool,
    dailyCap: Option<real>,
    maxTotal: Option<real>,
    maxFailures: int,
    conditional: bool,
    totalSpent: real,
    runs: seq<Purchase>)

  /** What the world answered while one schedule was run: its condition, two clocks, the swap. */
  datatype World = World(condition: bool, checkAt: int, recordAt: int, swap: Swap)

  // ---- one due schedule ---------------------------------------------------------------------

  function EntryFor(x: Purchase): Entry {
    Entry(x.at, x.outcome == Bought, x.paid)
  }

  function History(xs: seq<Purchase>): (r: seq<Entry>)
    ensures |r| == |xs| && forall i | 0 <= i < |xs| :: r[i] == EntryFor(xs[i])
  {
    seq(|xs|, i requires 0 <= i < |xs| => EntryFor(xs[i]))
  }

  /** `_spend_in_last_24h`: the current amount for every successful run of the last day. */
  function EstimatedDay(s: Schedule, now: int): real {
    s.amount * CountSince(History(s.runs), now - DAY) as real
  }

  /** `_execute_sync`: lifetime cap, daily cap, wallet, swap. */
  function Execute(s: Schedule, w: World): Outcome {
    if s.maxTotal.Some? && s.totalSpent + s.amount > s.maxTotal.value then OverTotal
    else if s.dailyCap.Some? && EstimatedDay(s, w.checkAt) + s.amount > s.dailyCap.value then OverDay
    else match w.swap
      case NoWallet => Unconnected
      case Fails => Error
      case Succeeds => Bought
  }

  predicate Due(s: Schedule, now: int) {
    s.active && s.nextRun <= now
  }

  predicate CountsAsFailure(o: Outcome) {
    o == Error || o == Unconnected || o == OverDay || o == OverTotal
  }

  predicate StreakReached(s: Schedule) {
    && 0 <= s.maxFailures <= |s.runs|
    && forall i | |s.runs| - s.maxFailures <= i < |s.runs| :: CountsAsFailure(s.runs[i].outcome)
  }

  /** `_maybe_auto_pause`. */
  function PausedOnStreak(s: Schedule): (r: Schedule)
    ensures r == s.(active := r.active)
  {
    if StreakReached(s) then s.(active := false) else s
  }

  /** A due schedule, run: it is recorded, advanced, and accounts for what it spent. */
  function Ran(s: Schedule, now: int, w: World): Schedule {
    var o := Execute(s, w);
    s.(runs := s.runs + [Purchase(w.recordAt, o, s.amount, now)], nextRun := now + s.interval,
       totalSpent := s.totalSpent + if o == Bought then s.amount else 0.0)
  }

  /** A due schedule whose condition does not hold only advances. */
  function Blocked(s: Schedule, now: int, w: World): Schedule {
    s.(runs := s.runs + [Purchase(w.recordAt, ConditionBlocked, 0.0, now)], nextRun := now + s.interval)
  }

  function TickOne(s: Schedule, now: int, w: World): Schedule {
    if !Due(s, now) then s
    else if s.conditional && !w.condition then Blocked(s, now, w)
    else PausedOnStreak(Ran(s, now, w))
  }

  // ---- commands and ticks over a schedule's life -------------------------------------------------

  datatype Event =
    | Tick(now: int, world: World)
    | Pause
    | Resume
    | Skip(now: int)
    | EditAmount(v: real)
    | EditInterval(text: string)
    | EditDailyCap(cap: Option<real>)
    | EditMaxTotal(total: Option<real>)
    | EditMaxFailures(n: int)

  function Step(s: Schedule, e: Event): Schedule {
    match e
    case Tick(now, world) => TickOne(s, now, world)
    case Pause => s.(active := false)
    case Resume => s.(active := true)
    case Skip(now) => s.(nextRun := now + s.interval)
    case EditAmount(v) => if v <= 0.0 then s else s.(amount := v)
    case EditInterval(text) =>
      var seconds := ParseInterval(text);
      if seconds.None? then s else s.(interval := seconds.value)
    case EditDailyCap(cap) => if Positive(cap) then s.(dailyCap := cap) else s
    case EditMaxTotal(total) => if Positive(total) then s.(maxTotal := total) else s
    case EditMaxFailures(n) => if n < 1 then s else s.(maxFailures := n)
  }

  function Run(s: Schedule, events: seq<Event>): Schedule {
    if |events| == 0 then s else Step(Run(s, events[..|events| - 1]), events[|events| - 1])
  }

  /** A schedule as `/dca add` stores it. */
  predicate NewSchedule(s: Schedule) {
    && s.amount > 0.0 && MIN_INTERVAL_SECONDS <= s.interval <= MAX_INTERVAL_SECONDS
    && Positive(s.dailyCap) && Positive(s.maxTotal) && s.maxFailures >= 1
    && s.active && s.totalSpent == 0.0 && s.runs == []
  }

  // ---- conservation -------------------------------------------------------------------------------

  lemma HistorySnoc(xs: seq<Purchase>, x: Purchase)
    ensures History(xs + [x]) == History(xs) + [EntryFor(x)]
  {
  }

  lemma TotalSnoc(es: seq<Entry>, e: Entry)
    ensures PaidTotal(es + [e]) == PaidTotal(es) + if e.ok then e.paid else 0.0
  {
    assert (es + [e])[..|es|] == es;
  }

  /** In every reachable state the running total is what the successful runs paid, whatever was edited. */
  lemma {:induction false} SpendConserved(s: Schedule, events: seq<Event>)
    requires NewSchedule(s)
    ensures Run(s, events).totalSpent == PaidTotal(History(Run(s, events).runs))
  {
    if |events| == 0 {
      assert History([]) == [];
    } else {
      SpendConserved(s, events[..|events| - 1]);
      TickConserves(Run(s, events[..|events| - 1]), events[|events| - 1]);
    }
  }

  lemma TickConserves(s: Schedule, e: Event)
    requires s.totalSpent == PaidTotal(History(s.runs))
    ensures Step(s, e).totalSpent == PaidTotal(History(Step(s, e).runs))
  {
    if e.Tick? && Due(s, e.now) {
      if s.conditional && !e.world.condition {
        AddedConserves(s, Blocked(s, e.now, e.world), Purchase(e.world.recordAt, ConditionBlocked, 0.0, e.now));
      } else {
        AddedConserves(s, Ran(s, e.now, e.world), Purchase(e.world.recordAt, Execute(s, e.world), s.amount, e.now));
      }
    }
  }

  lemma AddedConserves(s: Schedule, t: Schedule, x: Purchase)
    requires s.totalSpent == PaidTotal(History(s.runs)) && t.runs == s.runs + [x]
    requires t.totalSpent == s.totalSpent + if x.outcome == Bought then x.paid else 0.0
    ensures t.totalSpent == PaidTotal(History(t.runs))
  {
    HistorySnoc(s.runs, x);
    TotalSnoc(History(s.runs), EntryFor(x));
  }

  // ---- the caps -------------------------------------------------------------------------------------

  predicate WithinTotal(s: Schedule) {
    s.maxTotal.Some? ==> s.totalSpent <= s.maxTotal.value
  }

  ghost predicate CapsCoverSpend(s: Schedule, events: seq<Event>) {
    forall i | 0 <= i < |events| && events[i].EditMaxTotal? && events[i].total.Some? ::
      Run(s, events[..i]).totalSpent <= events[i].total.value
  }

  lemma {:induction false} LifetimeCapHolds(s: Schedule, events: seq<Event>)
    requires NewSchedule(s) && CapsCoverSpend(s, events)
    ensures WithinTotal(Run(s, events))
  {
    if |events| > 0 {
      var init := events[..|events| - 1];
      assert forall i | 0 <= i < |init| :: init[..i] == events[..i] && init[i] == events[i];
      LifetimeCapHolds(s, init);
      assert Run(s, events[..|init|]) == Run(s, init);
      StepKeepsTotal(Run(s, init), events[|init|]);
    }
  }

  lemma StepKeepsTotal(s: Schedule, e: Event)
    requires WithinTotal(s) && (e.EditMaxTotal? && e.total.Some? ==> s.totalSpent <= e.total.value)
    ensures WithinTotal(Step(s, e))
  {
  }

  /** The daily cap, if one is in force, covers what every closed day has actually spent. */
  ghost predicate WithinDay(s: Schedule) {
    s.dailyCap.Some? ==> Capped(History(s.runs), s.dailyCap.value)
  }

  /**
   A cap that is set covers the days so far, as any higher one than before does; and no successful run of
   the last day before a tick's check paid more than the current amount.
   */
  ghost predicate CapSafe(s: Schedule, e: Event) {
    && (e.EditDailyCap? && e.cap.Some? ==> Capped(History(s.runs), e.cap.value))
    && (e.Tick? ==> e.world.checkAt <= e.world.recordAt && BoundedSince(History(s.runs), e.world.checkAt - DAY, s.amount))
  }

  lemma TickKeepsDayCap(s: Schedule, now: int, w: World)
    requires WithinDay(s) && s.amount > 0.0 && w.checkAt <= w.recordAt
    requires BoundedSince(History(s.runs), w.checkAt - DAY, s.amount)
    ensures WithinDay(TickOne(s, now, w))
  {
    if Due(s, now) && s.dailyCap.Some? {
      var runs := TickOne(s, now, w).runs;
      var x, es := runs[|s.runs|], History(s.runs);
      assert runs == s.runs + [x];
      HistorySnoc(s.runs, x);
      if x.outcome == Bought {
        RunFits(s, w, s.dailyCap.value);
        CheckKeepsCap(es, EntryFor(x), s.amount, s.dailyCap.value, w.checkAt);
      } else {
        FailureKeepsCap(es, EntryFor(x), s.dailyCap.value);
      }
    }
  }

  lemma RunFits(s: Schedule, w: World, cap: real)
    requires s.dailyCap == Some(cap) && Execute(s, w) == Bought
    ensures s.amount * CountSince(History(s.runs), w.checkAt - DAY) as real + s.amount <= cap
  {
  }

  lemma StepKeepsDayCap(s: Schedule, e: Event)
    requires WithinDay(s) && s.amount > 0.0 && CapSafe(s, e)
    ensures WithinDay(Step(s, e)) && Step(s, e).amount > 0.0
  {
    if e.Tick? { TickKeepsDayCap(s, e.now, e.world); }
  }

  ghost predicate CapSafeRun(s: Schedule, events: seq<Event>) {
    forall i | 0 <= i < |events| :: CapSafe(Run(s, events[..i]), events[i])
  }

  /** Over such runs every closed window of 86400 seconds has at most the cap in force actually spent. */
  lemma {:induction false} DailyCapHolds(s: Schedule, events: seq<Event>)
    requires NewSchedule(s) && CapSafeRun(s, events)
    ensures WithinDay(Run(s, events)) && Run(s, events).amount > 0.0
  {
    if |events| == 0 {
      assert History([]) == [];
      assert forall t :: PaidInDay([], t) == 0.0;
    } else {
      var init, e := events[..|events| - 1], events[|events| - 1];
      assert forall i | 0 <= i < |init| :: init[..i] == events[..i] && init[i] == events[i];
      DailyCapHolds(s, init);
      assert CapSafe(Run(s, init), e);
      StepKeepsDayCap(Run(s, init), e);
    }
  }

  // ---- an amount that is never lowered -----------------------------------------------------------

  /** No successful run paid more than the current amount. */
  predicate PaidAtMost(s: Schedule) {
    forall i | 0 <= i < |s.runs| :: s.runs[i].outcome == Bought ==> s.runs[i].paid <= s.amount
  }

  /** An edit does not lower the amount or the daily cap; a cap is only taken off or raised. */
  predicate Raises(s: Schedule, e: Event) {
    && (e.EditAmount? ==> e.v >= s.amount)
    && (e.EditDailyCap? && e.cap.Some? ==> s.dailyCap.Some? && e.cap.value >= s.dailyCap.value)
  }

  predicate Stamped(e: Event) {
    e.Tick? ==> e.world.checkAt <= e.world.recordAt
  }

  predicate NeverLowered(s: Schedule, events: seq<Event>) {
    forall i | 0 <= i < |events| :: Raises(Run(s, events[..i]), events[i]) && Stamped(events[i])
  }

  lemma NeverLoweredPrefix(s: Schedule, events: seq<Event>)
    requires |events| > 0 && NeverLowered(s, events)
    ensures NeverLowered(s, events[..|events| - 1])
  {
    var init := events[..|events| - 1];
    assert forall i | 0 <= i < |init| :: init[..i] == events[..i] && init[i] == events[i];
  }

  lemma RaisesIsSafe(s: Schedule, e: Event)
    requires PaidAtMost(s) && WithinDay(s) && Raises(s, e) && Stamped(e)
    ensures CapSafe(s, e)
  {
    if e.EditDailyCap? && e.cap.Some? {
      forall t ensures PaidInDay(History(s.runs), t) <= e.cap.value {
        assert PaidInDay(History(s.runs), t) <= s.dailyCap.value;
      }
    }
  }

  lemma StepPaysAtMost(s: Schedule, e: Event)
    requires PaidAtMost(s) && Raises(s, e)
    ensures PaidAtMost(Step(s, e))
  {
  }

  /** Over a run that never lowers the amount or the daily cap, it holds in every reachable state. */
  lemma {:induction false} DailyCapUnlowered(s: Schedule, events: seq<Event>)
    requires NewSchedule(s) && NeverLowered(s, events)
    ensures WithinDay(Run(s, events)) && PaidAtMost(Run(s, events)) && Run(s, events).amount > 0.0
  {
    if |events| == 0 {
      DailyCapHolds(s, events);
    } else {
      var t, e := Run(s, events[..|events| - 1]), events[|events| - 1];
      NeverLoweredPrefix(s, events);
      DailyCapUnlowered(s, events[..|events| - 1]);
      RaisesIsSafe(t, e);
      StepKeepsDayCap(t, e);
      StepPaysAtMost(t, e);
    }
  }

  // ---- lowering the amount does break the window ---------------------------------------------

  function PlainSchedule(amount: real, cap: real): Schedule {
    Schedule("me", amount, 60, 100, true, Some(cap), None, 3, false, 0.0, [])
  }

  lemma OneBuy(s: Schedule, t: int)
    requires Due(s, t) && !s.conditional && s.maxTotal.None? && s.dailyCap.Some? && s.maxFailures == 3
    requires EstimatedDay(s, t) + s.amount <= s.dailyCap.value
    ensures var r := TickOne(s, t, World(true, t, t, Succeeds));
      r == s.(runs := s.runs + [Purchase(t, Bought, s.amount, t)], nextRun := t + s.interval, totalSpent := s.totalSpent + s.amount)
  {
    var runs := Ran(s, t, World(true, t, t, Succeeds)).runs;
    assert !CountsAsFailure(runs[|runs| - 1].outcome);
  }

  /** Whatever the amounts, after lowering the amount there is a cap and a run of two buys that together exceed it. */
  lemma LoweringBreaksDailyCap(amount: real, lower: real)
    requires 0.0 < lower < amount
    ensures var cap := if amount <= lower + lower then lower + lower else amount;
      var events := [Tick(100, World(true, 100, 100, Succeeds)), EditAmount(lower), Tick(200, World(true, 200, 200, Succeeds))];
      NewSchedule(PlainSchedule(amount, cap)) && !Capped(History(Run(PlainSchedule(amount, cap), events).runs), cap)
  {
    var cap := if amount <= lower + lower then lower + lower else amount;
    var s := PlainSchedule(amount, cap);
    assert History(s.runs) == [];
    OneBuy(s, 100);
    var s2 := Step(TickOne(s, 100, World(true, 100, 100, Succeeds)), EditAmount(lower));
    var x, y := Purchase(100, Bought, amount, 100), Purchase(200, Bought, lower, 200);
    assert s2.runs == [x];
    TwoPurchases(x, y);
    OneBuy(s2, 200);
    ThreeSteps(s, Tick(100, World(true, 100, 100, Succeeds)), EditAmount(lower), Tick(200, World(true, 200, 200, Succeeds)));
    assert PaidInDay(History([x] + [y]), 100) > cap;
  }

  lemma TwoPurchases(x: Purchase, y: Purchase)
    requires x.at == 100 && y.at == 200 && x.outcome == y.outcome == Bought
    ensures CountSince(History([x]), 200 - DAY) == 1
    ensures PaidInDay(History([x] + [y]), 100) == x.paid + y.paid
  {
    var es := History([x]);
    assert es == [EntryFor(x)] && es[..0] == [];
    HistorySnoc([x], y);
    assert History([x] + [y])[..1] == es;
    assert PaidWithin(es, 100, 100 + DAY) == x.paid;
  }

  lemma ThreeSteps(s: Schedule, e1: Event, e2: Event, e3: Event)
    ensures Run(s, [e1, e2, e3]) == Step(Step(Step(s, e1), e2), e3)
  {
    assert [e1, e2, e3][..2] == [e1, e2] && [e1, e2][..1] == [e1] && [e1][..0] == [];
    assert Run(s, [e1]) == Step(s, e1);
    assert Run(s, [e1, e2]) == Step(Step(s, e1), e2);
  }

  // ---- cadence ----------------------------------------------------------------------------------------

  predicate Timed(e: Event) {
    e.Tick? || e.Skip?
  }

  /** The clock of ticks and skips does not go back. */
  predicate ClockForward(events: seq<Event>) {
    forall i, j | 0 <= i < j < |events| :: Timed(events[i]) && Timed(events[j]) ==> events[i].now <= events[j].now
  }

  predicate NotBefore(s: Schedule, now: int) {
    forall i | 0 <= i < |s.runs| :: s.runs[i].tick <= now
  }

  /** Entries are at least a minute apart, and the next one cannot come sooner. */
  predicate Spaced(s: Schedule) {
    && s.interval >= 60
    && (forall i | 0 <= i < |s.runs| :: s.runs[i].tick + 60 <= s.nextRun)
    && forall i, j | 0 <= i < j < |s.runs| :: s.runs[i].tick + 60 <= s.runs[j].tick
  }

  lemma StepSpaced(s: Schedule, e: Event)
    requires Spaced(s) && (Timed(e) ==> NotBefore(s, e.now))
    ensures Spaced(Step(s, e))
  {
  }

  lemma {:induction false} TicksAreEventTimes(s: Schedule, events: seq<Event>, now: int)
    requires NewSchedule(s) && forall i | 0 <= i < |events| :: Timed(events[i]) ==> events[i].now <= now
    ensures NotBefore(Run(s, events), now)
  {
    if |events| > 0 {
      TicksAreEventTimes(s, events[..|events| - 1], now);
      StepNotBefore(Run(s, events[..|events| - 1]), events[|events| - 1], now);
    }
  }

  lemma StepNotBefore(s: Schedule, e: Event, now: int)
    requires NotBefore(s, now) && (Timed(e) ==> e.now <= now)
    ensures NotBefore(Step(s, e), now)
  {
  }

  /**
   Whatever is paused, skipped or edited in between, the entries of a schedule are at least a
   minute apart: the floor of the interval grammar bounds the rate of attempts over whole runs.
   */
  lemma {:induction false} AtMostOncePerMinute(s: Schedule, events: seq<Event>)
    requires NewSchedule(s) && ClockForward(events)
    ensures Spaced(Run(s, events))
  {
    if |events| > 0 {
      var init, e := events[..|events| - 1], events[|events| - 1];
      AtMostOncePerMinute(s, init);
      if Timed(e) { TicksAreEventTimes(s, init, e.now); }
      StepSpaced(Run(s, init), e);
    }
  }
}
