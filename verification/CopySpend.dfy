/** What every run of a copy follow keeps about money: conservation, the lifetime cap, the sliding daily cap. */
module CopySpend {
  import opened Bytes
  import opened SlidingCap
  import opened CopyTrader

  // ---- from one transfer to whole runs ------------------------------------------------

  /** A property of follows that handling any acceptable transfer keeps, and that ignores the watermark and status. */
  ghost predicate Stable(inv: Follow -> bool, ok: Seen -> bool) {
    && (forall f, w, s :: inv(f) && ok(s) ==> inv(HandleTransfer(f, w, s)))
    && (forall f: Follow, b :: inv(f) ==> inv(f.(lastSeenBlock := b)))
    && (forall f: Follow, a :: inv(f) ==> inv(f.(active := a)))
  }

  ghost predicate AllSeen(e: Event, ok: Seen -> bool) {
    e.Tick? ==> forall i, j | 0 <= i < |e.fetches| && e.fetches[i].Batch? && 0 <= j < |e.fetches[i].txs| :: ok(e.fetches[i].txs[j])
  }

  lemma {:induction false} BatchKeeps(inv: Follow -> bool, ok: Seen -> bool, p: Progress, wallet: string, txs: seq<Seen>)
    requires Stable(inv, ok) && inv(p.follow) && forall i | 0 <= i < |txs| :: ok(txs[i])
    ensures inv(ProcessBatch(p, wallet, txs).follow)
  {
    if |txs| > 0 { BatchKeeps(inv, ok, p, wallet, txs[..|txs| - 1]); }
  }

  lemma {:induction false} WalletsKeep(inv: Follow -> bool, ok: Seen -> bool, p: Progress, wallets: seq<string>, fetches: seq<Fetch>)
    requires Stable(inv, ok) && inv(p.follow) && |fetches| == |wallets| && AllSeen(Tick(fetches, false), ok)
    ensures inv(ProcessWallets(p, wallets, fetches).follow)
  {
    if |wallets| > 0 {
      var n := |wallets| - 1;
      WalletsKeep(inv, ok, p, wallets[..n], fetches[..n]);
      var q := ProcessWallets(p, wallets[..n], fetches[..n]);
      if !q.raised && fetches[n].Batch? { BatchKeeps(inv, ok, q, wallets[n], Truncate(fetches[n].txs)); }
    }
  }

  lemma TickKeeps(inv: Follow -> bool, ok: Seen -> bool, f: Follow, fetches: seq<Fetch>)
    requires Stable(inv, ok) && inv(f) && |fetches| == |WatchedWallets(f)| && AllSeen(Tick(fetches, false), ok)
    ensures inv(ProcessFollow(f, fetches).follow)
  {
    WalletsKeep(inv, ok, Progress(f, f.lastSeenBlock, false), WatchedWallets(f), fetches);
  }

  // ---- conservation ----------------------------------------------------------------------

  /** The sum of `eth_amount` over successful buys. */
  function SumOkBuys(xs: seq<Execution>): real {
    if |xs| == 0 then 0.0
    else
      var x := xs[|xs| - 1];
      SumOkBuys(xs[..|xs| - 1]) + if x.direction == Buy && x.status == Done then x.ethAmount else 0.0
  }

  /** Only buys carry an amount. */
  predicate OnlyBuysPay(xs: seq<Execution>) {
    forall i | 0 <= i < |xs| :: xs[i].direction != Buy ==> xs[i].ethAmount == 0.0
  }

  ghost predicate Conserved(f: Follow) {
    f.totalSpent == SumOkBuys(f.executions) && OnlyBuysPay(f.executions)
  }

  lemma ConservedStable()
    ensures Stable((f: Follow) => Conserved(f), (s: Seen) => true)
  {
    forall f: Follow, w, s | Conserved(f) ensures Conserved(HandleTransfer(f, w, s)) {
      var x := RecordFor(f, w, s);
      if x.Some? { assert (f.executions + [x.value])[..|f.executions|] == f.executions; }
    }
  }

  /** In every reachable state the running total is the sum over the recorded successful buys, whatever was edited. */
  lemma {:induction false} SpendConserved(f: Follow, events: seq<Event>)
    requires NewFollow(f)
    ensures Conserved(Run(f, events))
  {
    if |events| > 0 {
      var before, e := Run(f, events[..|events| - 1]), events[|events| - 1];
      SpendConserved(f, events[..|events| - 1]);
      if e.Tick? && before.active && |e.fetches| == |WatchedWallets(before)| {
        ConservedStable();
        TickKeeps((g: Follow) => Conserved(g), (s: Seen) => true, before, e.fetches);
      }
    }
  }

  // ---- the lifetime cap ---------------------------------------------------------------------

  predicate WithinTotal(f: Follow) {
    f.maxTotal.Some? ==> f.totalSpent <= f.maxTotal.value
  }

  lemma WithinTotalStable()
    ensures Stable((f: Follow) => WithinTotal(f), (s: Seen) => true)
  {
  }

  /** No edit sets the lifetime cap below what has been spent by then. */
  ghost predicate CapsCoverSpend(f: Follow, events: seq<Event>) {
    forall i | 0 <= i < |events| && events[i].EditMaxTotal? && events[i].total.Some? ::
      Run(f, events[..i]).totalSpent <= events[i].total.value
  }

  /** The lifetime cap holds in every reachable state, provided it is never set below what is already spent. */
  lemma {:induction false} LifetimeCapHolds(f: Follow, events: seq<Event>)
    requires NewFollow(f) && CapsCoverSpend(f, events)
    ensures WithinTotal(Run(f, events))
  {
    if |events| > 0 {
      var init, e := events[..|events| - 1], events[|events| - 1];
      assert CapsCoverSpend(f, init) by {
        assert forall i | 0 <= i < |init| :: init[..i] == events[..i] && init[i] == events[i];
      }
      LifetimeCapHolds(f, init);
      assert Run(f, events[..|init|]) == Run(f, init);
      StepKeepsTotal(Run(f, init), e);
    }
  }

  lemma StepKeepsTotal(f: Follow, e: Event)
    requires WithinTotal(f) && (e.EditMaxTotal? && e.total.Some? ==> f.totalSpent <= e.total.value)
    ensures WithinTotal(Step(f, e))
  {
    if e.Tick? && f.active && |e.fetches| == |WatchedWallets(f)| {
      WithinTotalStable();
      TickKeeps((g: Follow) => WithinTotal(g), (s: Seen) => true, f, e.fetches);
    }
  }

  // ---- the sliding daily cap -------------------------------------------------------------------

  /** The daily cap, if one is in force, covers what every closed day has actually spent. */
  ghost predicate WithinDay(f: Follow) {
    f.dailyCap.Some? ==> Capped(Entries(f.executions), f.dailyCap.value)
  }

  /** Records are stamped when or after the cap was checked. */
  predicate Stamped(s: Seen) {
    s.checkAt <= s.recordAt
  }

  /** Some check of the tick looks back to `cutoff`. */
  predicate LooksBackTo(e: Event, cutoff: int) {
    e.Tick? && exists i, j ::
      0 <= i < |e.fetches| && e.fetches[i].Batch? && 0 <= j < |e.fetches[i].txs| && e.fetches[i].txs[j].checkAt - DAY == cutoff
  }

  /** No successful record of the last day before a check of the tick paid more than the current amount. */
  ghost predicate AmountCovers(f: Follow, e: Event) {
    forall cutoff | LooksBackTo(e, cutoff) :: BoundedSince(Entries(f.executions), cutoff, f.ethPerCopy)
  }

  /** A cap that is set covers the days so far, as any higher one than before does; ticks find the amount not lowered. */
  ghost predicate CapSafe(f: Follow, e: Event) {
    && (e.EditDailyCap? && e.cap.Some? ==> Capped(Entries(f.executions), e.cap.value))
    && AmountCovers(f, e) && AllSeen(e, (s: Seen) => Stamped(s))
  }

  lemma EntriesSnoc(xs: seq<Execution>, x: Execution)
    ensures Entries(xs + [x]) == Entries(xs) + [EntryOf(x)]
  {
  }

  /** What handling the transfers of tick `e` keeps. */
  ghost predicate DayCapped(f: Follow, e: Event, cap: Option<real>, unit: real) {
    f.dailyCap == cap && f.ethPerCopy == unit && unit > 0.0 && WithinDay(f) && AmountCovers(f, e)
  }

  lemma AddedCovers(f: Follow, g: Follow, x: Execution, e: Event)
    requires AmountCovers(f, e) && g.executions == f.executions + [x] && g.ethPerCopy == f.ethPerCopy >= x.ethAmount
    ensures AmountCovers(g, e)
  {
    EntriesSnoc(f.executions, x);
  }

  lemma TransferKeepsDayCap(f: Follow, w: string, s: Seen, e: Event, cap: Option<real>, unit: real)
    requires DayCapped(f, e, cap, unit) && Stamped(s) && LooksBackTo(e, s.checkAt - DAY)
    ensures DayCapped(HandleTransfer(f, w, s), e, cap, unit)
  {
    var r := RecordFor(f, w, s);
    if r.Some? {
      var x, es := r.value, Entries(f.executions);
      AddedCovers(f, HandleTransfer(f, w, s), x, e);
      EntriesSnoc(f.executions, x);
      if cap.Some? {
        if x.status == Done && x.direction == Buy {
          BuyFits(f, s, x.ethAmount, cap.value);
          CheckKeepsCap(es, EntryOf(x), f.ethPerCopy, cap.value, s.checkAt);
        } else {
          FailureKeepsCap(es, EntryOf(x), cap.value);
        }
      }
    }
  }

  /** A copy that went through passed the estimate for the last day. */
  lemma BuyFits(f: Follow, s: Seen, amount: real, cap: real)
    requires f.dailyCap == Some(cap) && amount == CopyAmount(f, s) && ExecuteCopy(f, amount, s) == Done
    ensures f.ethPerCopy * CountSince(Entries(f.executions), s.checkAt - DAY) as real + amount <= cap
    ensures amount <= f.ethPerCopy
  {
  }

  lemma SameDayCap(f: Follow, g: Follow, e: Event, cap: Option<real>, unit: real)
    requires DayCapped(f, e, cap, unit)
    requires g.executions == f.executions && g.dailyCap == f.dailyCap && g.ethPerCopy == f.ethPerCopy
    ensures DayCapped(g, e, cap, unit)
  {
  }

  lemma DayCappedStable(e: Event, cap: Option<real>, unit: real)
    ensures Stable((f: Follow) => DayCapped(f, e, cap, unit), (s: Seen) => Stamped(s) && LooksBackTo(e, s.checkAt - DAY))
  {
    forall f: Follow, w, s | DayCapped(f, e, cap, unit) && Stamped(s) && LooksBackTo(e, s.checkAt - DAY)
      ensures DayCapped(HandleTransfer(f, w, s), e, cap, unit)
    {
      TransferKeepsDayCap(f, w, s, e, cap, unit);
    }
    forall f: Follow, b | DayCapped(f, e, cap, unit) ensures DayCapped(f.(lastSeenBlock := b), e, cap, unit) {
      SameDayCap(f, f.(lastSeenBlock := b), e, cap, unit);
    }
    forall f: Follow, a | DayCapped(f, e, cap, unit) ensures DayCapped(f.(active := a), e, cap, unit) {
      SameDayCap(f, f.(active := a), e, cap, unit);
    }
  }

  lemma StepKeepsDayCap(f: Follow, e: Event)
    requires WithinDay(f) && f.ethPerCopy > 0.0 && CapSafe(f, e)
    ensures WithinDay(Step(f, e)) && Step(f, e).ethPerCopy > 0.0
  {
    if e.Tick? && f.active && |e.fetches| == |WatchedWallets(f)| {
      DayCappedStable(e, f.dailyCap, f.ethPerCopy);
      TickKeeps((g: Follow) => DayCapped(g, e, f.dailyCap, f.ethPerCopy),
                (s: Seen) => Stamped(s) && LooksBackTo(e, s.checkAt - DAY), f, e.fetches);
    }
  }

  ghost predicate CapSafeRun(f: Follow, events: seq<Event>) {
    forall i | 0 <= i < |events| :: CapSafe(Run(f, events[..i]), events[i])
  }

  /**
   As long as a daily cap that is set covers the days so far, and no check looks back on a record that paid
   more than the current amount, every closed window of 86400 seconds has at most the cap in force
   actually spent on successful buys, in every reachable state.
   */
  lemma {:induction false} DailyCapHolds(f: Follow, events: seq<Event>)
    requires NewFollow(f) && CapSafeRun(f, events)
    ensures WithinDay(Run(f, events)) && Run(f, events).ethPerCopy > 0.0
  {
    if |events| == 0 {
      assert forall t :: PaidInDay(Entries([]), t) == 0.0;
    } else {
      var init, e := events[..|events| - 1], events[|events| - 1];
      assert forall i | 0 <= i < |init| :: init[..i] == events[..i] && init[i] == events[i];
      DailyCapHolds(f, init);
      assert CapSafe(Run(f, init), e);
      StepKeepsDayCap(Run(f, init), e);
    }
  }

  // ---- an amount that is never lowered -----------------------------------------------------------

  /** No successful record paid more than the current amount. */
  ghost predicate PaidAtMost(f: Follow) {
    && f.ethPerCopy > 0.0
    && forall i | 0 <= i < |f.executions| :: f.executions[i].status == Done ==> f.executions[i].ethAmount <= f.ethPerCopy
  }

  lemma PaidAtMostStable()
    ensures Stable((f: Follow) => PaidAtMost(f), (s: Seen) => true)
  {
    forall f: Follow, w, s | PaidAtMost(f) ensures PaidAtMost(HandleTransfer(f, w, s)) {
      var x := RecordFor(f, w, s);
      if x.Some? { assert x.value.ethAmount <= f.ethPerCopy; }
    }
  }

  /** An edit does not lower the per-copy amount or the daily cap; a cap is only taken off or raised. */
  predicate Raises(f: Follow, e: Event) {
    && (e.EditEthPerCopy? ==> e.v >= f.ethPerCopy)
    && (e.EditDailyCap? && e.cap.Some? ==> f.dailyCap.Some? && e.cap.value >= f.dailyCap.value)
  }

  ghost predicate NeverLowered(f: Follow, events: seq<Event>) {
    forall i | 0 <= i < |events| :: Raises(Run(f, events[..i]), events[i]) && AllSeen(events[i], (s: Seen) => Stamped(s))
  }

  lemma NeverLoweredPrefix(f: Follow, events: seq<Event>)
    requires |events| > 0 && NeverLowered(f, events)
    ensures NeverLowered(f, events[..|events| - 1])
  {
    var init := events[..|events| - 1];
    assert forall i | 0 <= i < |init| :: init[..i] == events[..i] && init[i] == events[i];
  }

  lemma StepPaysAtMost(f: Follow, e: Event)
    requires PaidAtMost(f) && Raises(f, e)
    ensures PaidAtMost(Step(f, e))
  {
    if e.Tick? && f.active && |e.fetches| == |WatchedWallets(f)| {
      PaidAtMostStable();
      TickKeeps((g: Follow) => PaidAtMost(g), (s: Seen) => true, f, e.fetches);
    }
  }

  lemma RaisesIsSafe(f: Follow, e: Event)
    requires PaidAtMost(f) && WithinDay(f) && Raises(f, e) && AllSeen(e, (s: Seen) => Stamped(s))
    ensures CapSafe(f, e)
  {
    if e.EditDailyCap? && e.cap.Some? {
      forall t ensures PaidInDay(Entries(f.executions), t) <= e.cap.value {
        assert PaidInDay(Entries(f.executions), t) <= f.dailyCap.value;
      }
    }
  }

  /** Over a run that never lowers the amount or the daily cap, it holds in every reachable state. */
  lemma {:induction false} DailyCapUnlowered(f: Follow, events: seq<Event>)
    requires NewFollow(f) && NeverLowered(f, events)
    ensures WithinDay(Run(f, events)) && PaidAtMost(Run(f, events))
  {
    if |events| == 0 {
      DailyCapHolds(f, events);
    } else {
      var g, e := Run(f, events[..|events| - 1]), events[|events| - 1];
      NeverLoweredPrefix(f, events);
      DailyCapUnlowered(f, events[..|events| - 1]);
      RaisesIsSafe(g, e);
      StepKeepsDayCap(g, e);
      StepPaysAtMost(g, e);
    }
  }

  // ---- lowering the amount does break the window -----------------------------------------------

  /** A fixed-size follow of one wallet, and a purchase by that wallet at time `t`. */
  function PlainFollow(unit: real, cap: real): Follow {
    Follow("me", "w", [], unit, None, false, Some(cap), None, 3, {}, true, 0, 0.0, [])
  }

  function Purchase(uid: nat, t: int, token: string): Seen {
    Seen(Transfer(uid, uid + 1, "x", "w", token), 0, t, t, 0, Succeeds)
  }

  lemma OneBuyTick(f: Follow, s: Seen)
    requires f.active && f.wallet == s.tx.dst && f.wallet != "" && f.extraWallets == [] && f.blocklist == {} && f.pct.None?
    requires Eligible(s.tx) && f.maxTotal.None? && f.dailyCap.Some? && s.swap.Succeeds? && f.maxFailures == 3
    requires SpendInLastDay(f, s.checkAt) + f.ethPerCopy <= f.dailyCap.value
    ensures |WatchedWallets(f)| == 1
    ensures var g := Step(f, Tick([Batch([s])], false));
      && g.executions == f.executions + [Execution(s.recordAt, s.tx, f.wallet, Buy, f.ethPerCopy, Done)]
      && g == f.(executions := g.executions, totalSpent := g.totalSpent, lastSeenBlock := g.lastSeenBlock)
  {
    assert WatchedWallets(f) == [f.wallet];
    var p := Progress(f, f.lastSeenBlock, false);
    assert [Batch([s])][..0] == [] && [f.wallet][..0] == [];
    assert ProcessWallets(p, [], []) == p;
    assert [s][..0] == [];
    assert ProcessBatch(p, f.wallet, [s]) == ProcessTransfer(p, f.wallet, s);
    assert ProcessWallets(p, [f.wallet], [Batch([s])]) == ProcessTransfer(p, f.wallet, s);
    var g := Step(f, Tick([Batch([s])], false));
    assert g.executions[|g.executions| - 1].status == Done;
  }

  /**
   The condition is needed: whatever the amounts, after lowering the per-copy amount there is a cap
   and a run with two purchases one second apart that spend more than the cap.
   */
  lemma LoweringBreaksDailyCap(unit: real, lower: real, token: string)
    requires 0.0 < lower < unit && |token| == 42
    ensures var cap := if unit <= lower + lower then lower + lower else unit;
      var events := [Tick([Batch([Purchase(0, 100, token)])], false), EditEthPerCopy(lower), Tick([Batch([Purchase(1, 101, token)])], false)];
      && NewFollow(PlainFollow(unit, cap))
      && !Capped(Entries(Run(PlainFollow(unit, cap), events).executions), cap)
  {
    var cap := if unit <= lower + lower then lower + lower else unit;
    var f := PlainFollow(unit, cap);
    var a, b := Purchase(0, 100, token), Purchase(1, 101, token);
    var x, y := Execution(100, a.tx, "w", Buy, unit, Done), Execution(101, b.tx, "w", Buy, lower, Done);
    assert Entries(f.executions) == [];
    OneBuyTick(f, a);
    var f1 := Step(f, Tick([Batch([a])], false));
    var f2 := Step(f1, EditEthPerCopy(lower));
    assert f2.executions == [x];
    TwoPurchases(x, y);
    OneBuyTick(f2, b);
    var f3 := Step(f2, Tick([Batch([b])], false));
    ThreeSteps(f, Tick([Batch([a])], false), EditEthPerCopy(lower), Tick([Batch([b])], false));
    assert f3.executions == [x] + [y];
    assert PaidInDay(Entries([x] + [y]), 100) > cap;
  }

  lemma ThreeSteps(f: Follow, e1: Event, e2: Event, e3: Event)
    ensures Run(f, [e1, e2, e3]) == Step(Step(Step(f, e1), e2), e3)
  {
    assert [e1, e2, e3][..2] == [e1, e2] && [e1, e2][..1] == [e1] && [e1][..0] == [];
    assert Run(f, [e1]) == Step(f, e1);
    assert Run(f, [e1, e2]) == Step(Step(f, e1), e2);
  }

  lemma TwoPurchases(x: Execution, y: Execution)
    requires x.at == 100 && y.at == 101 && x.status == y.status == Done
    ensures CountSince(Entries([x]), 101 - DAY) == 1
    ensures PaidInDay(Entries([x] + [y]), 100) == x.ethAmount + y.ethAmount
  {
    var es := Entries([x]);
    assert es == [EntryOf(x)] && es[..0] == [];
    EntriesSnoc([x], y);
    assert Entries([x] + [y])[..1] == es;
    assert PaidWithin(es, 100, 100 + DAY) == x.ethAmount;
  }
}
