/** What each entry of a DCA schedule's history says happened, over every run (clawmes/commands/dca.py). */
module DcaEntries {
  import opened Bytes
  import opened SlidingCap
  import opened Interval
  import opened Dca

  // ---- one tick ------------------------------------------------------------------------------------

  /** Successful runs of the 86400 seconds before the check, at today's amount. */
  function Estimated(s: Schedule, w: World): real {
    s.amount * |SinceAt(History(s.runs), w.checkAt - 86400)| as real
  }

  predicate PastTotal(s: Schedule) {
    s.maxTotal.Some? && s.totalSpent + s.amount > s.maxTotal.value
  }

  predicate PastDay(s: Schedule, w: World) {
    s.dailyCap.Some? && Estimated(s, w) + s.amount > s.dailyCap.value
  }

  /** A due schedule is blocked by its condition, refused by a cap, or comes to what its swap comes to. */
  predicate OutcomeIs(s: Schedule, w: World, o: Outcome) {
    && (o == ConditionBlocked <==> s.conditional && !w.condition)
    && (o != ConditionBlocked ==>
          && (o == OverTotal <==> PastTotal(s))
          && (o == OverDay <==> !PastTotal(s) && PastDay(s, w))
          && (o == Unconnected <==> !PastTotal(s) && !PastDay(s, w) && w.swap == NoWallet)
          && (o == Error <==> !PastTotal(s) && !PastDay(s, w) && w.swap == Fails)
          && (o == Bought <==> !PastTotal(s) && !PastDay(s, w) && w.swap == Succeeds))
  }

  lemma ExecuteMeans(s: Schedule, w: World)
    requires !s.conditional || w.condition
    ensures OutcomeIs(s, w, Execute(s, w))
  {
    CountIsSince(History(s.runs), w.checkAt - DAY);
  }

  /** The entry a tick adds, if it adds one. */
  predicate Adds(s: Schedule, e: Event, t: Schedule, x: Purchase) {
    && e.Tick? && t.runs == s.runs + [x]
    && OutcomeIs(s, e.world, x.outcome) && x.at == e.world.recordAt && x.tick == e.now
    && x.paid == (if x.outcome == ConditionBlocked then 0.0 else s.amount)
    && t.nextRun == e.now + s.interval
    && t.totalSpent == s.totalSpent + (if x.outcome == Bought then s.amount else 0.0)
  }

  /** The last `n` entries all count as failures; a blocked condition is none. */
  predicate FailureStreak(xs: seq<Purchase>, n: int) {
    0 <= n <= |xs| && forall i | |xs| - n <= i < |xs| :: xs[i].outcome in {Error, Unconnected, OverDay, OverTotal}
  }

  /**
   A tick adds exactly one entry to a schedule that is active and due at its clock, and moves its next run one
   interval on; others it leaves alone. It pauses the schedule exactly when a run that was not blocked
   completes a streak of failures.
   */
  lemma TickMeans(s: Schedule, now: int, w: World)
    ensures var e, t := Tick(now, w), Step(s, Tick(now, w));
      if s.active && s.nextRun <= now then
        && t == s.(runs := t.runs, nextRun := t.nextRun, totalSpent := t.totalSpent, active := t.active)
        && |t.runs| == |s.runs| + 1 && Adds(s, e, t, t.runs[|s.runs|])
        && (!t.active <==> t.runs[|s.runs|].outcome != ConditionBlocked && FailureStreak(t.runs, s.maxFailures))
      else t == s
  {
    if !s.conditional || w.condition { ExecuteMeans(s, w); }
    assert forall o: Outcome :: CountsAsFailure(o) <==> o in {Error, Unconnected, OverDay, OverTotal};
  }

  // ---- over runs -------------------------------------------------------------------------------------

  /** Event `i` of the run is the tick that added entry `j`. */
  ghost predicate AddedBy(s: Schedule, events: seq<Event>, j: nat, i: nat) {
    && i < |events| && j == |Run(s, events[..i]).runs| && j < |Run(s, events).runs|
    && Adds(Run(s, events[..i]), events[i], Run(s, events[..i + 1]), Run(s, events).runs[j])
  }

  lemma StepAdds(s: Schedule, e: Event)
    ensures var t := Step(s, e);
      t.runs == s.runs || (|t.runs| == |s.runs| + 1 && Adds(s, e, t, t.runs[|s.runs|]))
    ensures Step(s, e).conditional == s.conditional
  {
    if e.Tick? { TickMeans(s, e.now, e.world); }
  }

  /** Every entry of every reachable state was added by one tick, as that tick's world says. */
  lemma {:induction false} EntryOrigin(s: Schedule, events: seq<Event>, j: nat) returns (i: nat)
    requires NewSchedule(s) && j < |Run(s, events).runs|
    ensures AddedBy(s, events, j, i)
  {
    var n := |events| - 1;
    var init, before := events[..n], Run(s, events[..n]);
    StepAdds(before, events[n]);
    if j < |before.runs| {
      i := EntryOrigin(s, init, j);
      assert init[..i] == events[..i] && init[..i + 1] == events[..i + 1] && init[i] == events[i];
    } else {
      i := n;
      assert events[..n + 1] == events;
    }
  }

  lemma {:induction false} ConditionalConstant(s: Schedule, events: seq<Event>)
    ensures Run(s, events).conditional == s.conditional
  {
    if |events| > 0 {
      ConditionalConstant(s, events[..|events| - 1]);
      StepAdds(Run(s, events[..|events| - 1]), events[|events| - 1]);
    }
  }

  /**
   Over every run a conditional schedule's entry is blocked exactly when its condition did not hold at its
   tick; so no purchase was ever made with the condition false, and a plain schedule has no blocked entry.
   */
  lemma BlockedIff(s: Schedule, events: seq<Event>, j: nat) returns (i: nat)
    requires NewSchedule(s) && j < |Run(s, events).runs|
    ensures AddedBy(s, events, j, i) && events[i].Tick?
    ensures var o := Run(s, events).runs[j].outcome;
      && (o == ConditionBlocked <==> s.conditional && !events[i].world.condition)
      && (o == Bought ==> (s.conditional ==> events[i].world.condition) && events[i].world.swap == Succeeds)
  {
    i := EntryOrigin(s, events, j);
    ConditionalConstant(s, events[..i]);
  }

  // ---- commands -----------------------------------------------------------------------------------------

  /** A command sets its one field; a value out of range, or an interval the grammar refuses, changes nothing. */
  predicate CommandMakes(s: Schedule, e: Event, t: Schedule) {
    match e
    case Tick(_, _) => true
    case Pause => t == s.(active := false)
    case Resume => t == s.(active := true)
    case Skip(now) => t == s.(nextRun := now + s.interval)
    case EditAmount(v) => t == s.(amount := if v > 0.0 then v else s.amount)
    case EditInterval(text) => t == s.(interval := if ParseInterval(text).Some? then ParseInterval(text).value else s.interval)
    case EditDailyCap(cap) => t == s.(dailyCap := if cap.Some? && cap.value <= 0.0 then s.dailyCap else cap)
    case EditMaxTotal(total) => t == s.(maxTotal := if total.Some? && total.value <= 0.0 then s.maxTotal else total)
    case EditMaxFailures(n) => t == s.(maxFailures := if n >= 1 then n else s.maxFailures)
  }

  lemma CommandMeans(s: Schedule, e: Event)
    ensures CommandMakes(s, e, Step(s, e))
  {
  }
}
