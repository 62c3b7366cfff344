/** The schedule records that `/dca` commands and ticks update in place, against the functions of `Dca`. */
module DcaSchedule {
  import opened Bytes
  import opened SlidingCap
  import opened Interval
  import opened Dca

  class Recurring {
    const sender: string
    const conditional: bool
    var amount: real
    var interval: nat
    var nextRun: int
    var active: bool
    var dailyCap: Option<real>
    var maxTotal: Option<real>
    var maxFailures: int
    var totalSpent: real
    var runs: seq<Purchase>

    function Model(): Schedule
      reads this
    {
      Schedule(sender, amount, interval, nextRun, active, dailyCap, maxTotal, maxFailures, conditional, totalSpent, runs)
    }

    /** `/dca add`. */
    constructor (sender: string, amount: real, interval: nat, dailyCap: Option<real>, maxTotal: Option<real>,
                 maxFailures: int, conditional: bool, now: int)
      requires amount > 0.0 && MIN_INTERVAL_SECONDS <= interval <= MAX_INTERVAL_SECONDS
      requires Positive(dailyCap) && Positive(maxTotal) && maxFailures >= 1
      ensures NewSchedule(Model()) && nextRun == now + interval
      ensures Model().sender == sender && Model().amount == amount && Model().interval == interval
      ensures Model().dailyCap == dailyCap && Model().maxTotal == maxTotal && Model().conditional == conditional
    {
      this.sender, this.amount, this.interval, this.nextRun, this.active := sender, amount, interval, now + interval, true;
      this.dailyCap, this.maxTotal, this.maxFailures, this.conditional := dailyCap, maxTotal, maxFailures, conditional;
      this.totalSpent, this.runs := 0.0, [];
    }

    /** `_spend_in_last_24h`. */
    method SpentInLastDay(now: int) returns (total: real)
      ensures total == EstimatedDay(Model(), now)
    {
      var cutoff := now - DAY;
      total := 0.0;
      var i := 0;
      assert History(runs)[..0] == [];
      while i < |runs|
        invariant 0 <= i <= |runs|
        invariant total == Estimate(amount, History(runs), i, cutoff)
      {
        EstimateStep(amount, History(runs), i, cutoff);
        var run := runs[i];
        if run.outcome == Bought && run.at >= cutoff {
          total := total + amount;
        }
        i := i + 1;
      }
      assert History(runs)[..|runs|] == History(runs);
    }

    /** `_execute_sync`. */
    method Submit(w: World) returns (o: Outcome)
      ensures o == Execute(Model(), w)
    {
      if maxTotal.Some? && totalSpent + amount > maxTotal.value {
        return OverTotal;
      }
      if dailyCap.Some? {
        var spent := SpentInLastDay(w.checkAt);
        if spent + amount > dailyCap.value {
          return OverDay;
        }
      }
      match w.swap
      case NoWallet => return Unconnected;
      case Fails => return Error;
      case Succeeds => return Bought;
    }

    /** `_maybe_auto_pause`. */
    method MaybeAutoPause()
      requires maxFailures >= 1
      modifies `active
      ensures Model() == PausedOnStreak(old(Model()))
    {
      if |runs| < maxFailures {
        return;
      }
      var i := |runs| - maxFailures;
      while i < |runs|
        invariant |runs| - maxFailures <= i <= |runs|
        invariant forall k | |runs| - maxFailures <= k < i :: CountsAsFailure(runs[k].outcome)
        invariant Model() == old(Model())
      {
        if !CountsAsFailure(runs[i].outcome) {
          return;
        }
        i := i + 1;
      }
      active := false;
    }

    /** The body of the loop over due schedules. */
    method RunOnce(now: int, w: World)
      requires maxFailures >= 1 && Due(Model(), now)
      modifies this
      ensures Model() == TickOne(old(Model()), now, w)
    {
      if conditional && !w.condition {
        runs := runs + [Purchase(w.recordAt, ConditionBlocked, 0.0, now)];
        nextRun := now + interval;
        return;
      }
      var o := Submit(w);
      runs := runs + [Purchase(w.recordAt, o, amount, now)];
      nextRun := now + interval;
      if o == Bought {
        totalSpent := totalSpent + amount;
      }
      MaybeAutoPause();
    }

    /** `/dca pause`, `resume`, `skip` and `edit`: one field at a time, a value out of range refused. */
    method Command(e: Event)
      requires !e.Tick?
      modifies this
      ensures Model() == Dca.Step(old(Model()), e)
    {
      match e
      case Pause => active := false;
      case Resume => active := true;
      case Skip(now) => nextRun := now + interval;
      case EditAmount(v) => if v > 0.0 { amount := v; }
      case EditInterval(text) =>
        var seconds := ParseInterval(text);
        if seconds.Some? { interval := seconds.value; }
      case EditDailyCap(cap) => if Positive(cap) { dailyCap := cap; }
      case EditMaxTotal(total) => if Positive(total) { maxTotal := total; }
      case EditMaxFailures(n) => if n >= 1 { maxFailures := n; }
    }
  }

  predicate DistinctSchedules(all: seq<Recurring>) {
    forall i, j | 0 <= i < j < |all| :: all[i] != all[j]
  }

  ghost predicate IsDueList(due: seq<nat>, models: seq<Schedule>, now: int) {
    && (forall j, k | 0 <= j < k < |due| :: due[j] < due[k])
    && (forall i :: i in due <==> 0 <= i < |models| && Due(models[i], now))
  }

  ghost predicate Are(all: seq<Recurring>, models: seq<Schedule>)
    reads all
  {
    |models| == |all| && forall i | 0 <= i < |all| :: all[i].Model() == models[i]
  }

  /** The schedules that are due at the tick's clock. */
  method FindDue(all: seq<Recurring>, now: int, ghost models: seq<Schedule>) returns (due: seq<nat>)
    requires Are(all, models)
    ensures IsDueList(due, models, now)
  {
    due := [];
    for i := 0 to |all|
      invariant forall j, k | 0 <= j < k < |due| :: due[j] < due[k]
      invariant forall j | 0 <= j < |due| :: due[j] < i
      invariant forall j :: j in due <==> 0 <= j < i && Due(models[j], now)
    {
      if Due(all[i].Model(), now) {
        due := due + [i];
      }
    }
  }

  /** The schedules when those in `done` have had their tick. */
  ghost function Ticked(models: seq<Schedule>, now: int, worlds: seq<World>, done: set<nat>): (r: seq<Schedule>)
    requires |worlds| == |models|
    ensures |r| == |models|
    ensures forall i | 0 <= i < |models| :: r[i] == if i in done then TickOne(models[i], now, worlds[i]) else models[i]
  {
    seq(|models|, i requires 0 <= i < |models| => if i in done then TickOne(models[i], now, worlds[i]) else models[i])
  }

  lemma AllTicked(models: seq<Schedule>, now: int, worlds: seq<World>, due: seq<nat>)
    requires |worlds| == |models| && IsDueList(due, models, now)
    ensures Ticked(models, now, worlds, Members(due)) == seq(|models|, i requires 0 <= i < |models| => TickOne(models[i], now, worlds[i]))
  {
  }

  ghost function Members(xs: seq<nat>): (s: set<nat>)
    ensures forall x :: x in s <==> x in xs
  {
    set x | x in xs
  }

  lemma NextDue(due: seq<nat>, models: seq<Schedule>, k: nat, now: int)
    requires IsDueList(due, models, now) && k < |due|
    ensures due[k] < |models| && Due(models[due[k]], now)
    ensures due[k] !in Members(due[..k]) && Members(due[..k + 1]) == Members(due[..k]) + {due[k]}
  {
    assert due[k] in due;
    assert due[..k + 1] == due[..k] + [due[k]];
  }

  /** The loop over due schedules. */
  method RunEach(all: seq<Recurring>, due: seq<nat>, now: int, worlds: seq<World>, ghost models: seq<Schedule>)
    requires DistinctSchedules(all) && |worlds| == |all| && Are(all, models) && IsDueList(due, models, now)
    requires forall i | 0 <= i < |models| :: models[i].maxFailures >= 1
    modifies all
    ensures Are(all, Ticked(models, now, worlds, Members(due)))
  {
    for k := 0 to |due|
      invariant Are(all, Ticked(models, now, worlds, Members(due[..k])))
    {
      NextDue(due, models, k, now);
      TickAt(all, due[k], now, worlds, models, Members(due[..k]));
    }
    assert due[..|due|] == due;
  }

  /**
   `_run_due_with_lines`: first the schedules that are due at the tick's clock, then each of them in
   turn. Every schedule makes exactly its own tick; the others' runs do not disturb it.
   */
  method RunDue(all: seq<Recurring>, now: int, worlds: seq<World>, ghost models: seq<Schedule>) returns (count: nat)
    requires DistinctSchedules(all) && |worlds| == |all| && Are(all, models)
    requires forall i | 0 <= i < |models| :: models[i].maxFailures >= 1
    modifies all
    ensures Are(all, seq(|models|, i requires 0 <= i < |models| => TickOne(models[i], now, worlds[i])))
    ensures count == |set i | 0 <= i < |models| && Due(models[i], now)|
  {
    var due := FindDue(all, now, models);
    count := |due|;
    CountOf(due, set i | 0 <= i < |models| && Due(models[i], now));
    RunEach(all, due, now, worlds, models);
    AllTicked(models, now, worlds, due);
  }

  method TickAt(all: seq<Recurring>, i: nat, now: int, worlds: seq<World>, ghost models: seq<Schedule>, ghost done: set<nat>)
    requires i < |all| && DistinctSchedules(all) && |worlds| == |all| == |models|
    requires Are(all, Ticked(models, now, worlds, done)) && i !in done && Due(models[i], now) && models[i].maxFailures >= 1
    modifies all[i]
    ensures Are(all, Ticked(models, now, worlds, done + {i}))
  {
    ghost var before := Ticked(models, now, worlds, done);
    TickedMore(models, now, worlds, done, i);
    RunAt(all, i, now, worlds[i], before);
  }

  lemma TickedMore(models: seq<Schedule>, now: int, worlds: seq<World>, done: set<nat>, i: nat)
    requires |worlds| == |models| && i < |models| && i !in done
    ensures Ticked(models, now, worlds, done)[i] == models[i]
    ensures Ticked(models, now, worlds, done + {i}) == Ticked(models, now, worlds, done)[i := TickOne(models[i], now, worlds[i])]
  {
  }

  /** Running one schedule leaves the others as they were. */
  method RunAt(all: seq<Recurring>, i: nat, now: int, w: World, ghost before: seq<Schedule>)
    requires i < |all| && DistinctSchedules(all) && Are(all, before)
    requires Due(before[i], now) && before[i].maxFailures >= 1
    modifies all[i]
    ensures Are(all, before[i := TickOne(before[i], now, w)])
  {
    all[i].RunOnce(now, w);
  }

  /** An increasing list has as many members as the set of its members. */
  lemma {:induction false} CountOf(xs: seq<nat>, s: set<nat>)
    requires forall j, k | 0 <= j < k < |xs| :: xs[j] < xs[k]
    requires forall x :: x in s <==> x in xs
    ensures |s| == |xs|
  {
    if |xs| == 0 {
      assert s == {};
    } else {
      var last := xs[|xs| - 1];
      CountOf(xs[..|xs| - 1], s - {last});
    }
  }
}
