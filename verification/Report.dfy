/** The spend figures of `/report` (clawmes/commands/report.py) as recomputations of what the schedulers recorded. */
module Report {
  import opened Bytes
  import opened SlidingCap
  import CopyTrader
  import CopySpend
  import CopyFollow
  import Dca
  import DcaSchedule

  /** `_within_window`; `since` is the clock less the window, and no window takes everything. */
  predicate Within(at: int, since: Option<int>) {
    since.None? || (at != 0 && at >= since.value)
  }

  // ---- copy follows ------------------------------------------------------------------------

  /** What successful records within the window spent. */
  function FollowFigure(xs: seq<CopyTrader.Execution>, since: Option<int>): real {
    if |xs| == 0 then 0.0
    else
      var x := xs[|xs| - 1];
      FollowFigure(xs[..|xs| - 1], since) + if Within(x.at, since) && x.status == CopyTrader.Done then x.ethAmount else 0.0
  }

  function CopyFigure(fs: seq<CopyTrader.Follow>, sender: string, since: Option<int>): real {
    if |fs| == 0 then 0.0
    else
      var f := fs[|fs| - 1];
      CopyFigure(fs[..|fs| - 1], sender, since) + if f.sender == sender then FollowFigure(f.executions, since) else 0.0
  }

  function CopyModels(fs: seq<CopyFollow.Following>): (r: seq<CopyTrader.Follow>)
    reads fs
    ensures |r| == |fs| && forall i | 0 <= i < |fs| :: r[i] == fs[i].Model()
  {
    seq(|fs|, i requires 0 <= i < |fs| reads fs => fs[i].Model())
  }

  /** The inner loop of `_summarize_copy`, over one follow's executions. */
  method SumFollow(xs: seq<CopyTrader.Execution>, since: Option<int>) returns (spent: real)
    ensures spent == FollowFigure(xs, since)
  {
    spent := 0.0;
    for i := 0 to |xs|
      invariant spent == FollowFigure(xs[..i], since)
    {
      assert xs[..i + 1][..i] == xs[..i];
      if Within(xs[i].at, since) && xs[i].status == CopyTrader.Done {
        spent := spent + xs[i].ethAmount;
      }
    }
    assert xs[..|xs|] == xs;
  }

  /** `_summarize_copy`. */
  method SummarizeCopy(fs: seq<CopyFollow.Following>, sender: string, since: Option<int>) returns (spent: real)
    ensures spent == CopyFigure(CopyModels(fs), sender, since)
  {
    ghost var models := CopyModels(fs);
    spent := 0.0;
    for i := 0 to |fs|
      invariant spent == CopyFigure(models[..i], sender, since)
    {
      assert models[..i + 1][..i] == models[..i];
      if fs[i].sender == sender {
        var more := SumFollow(fs[i].executions, since);
        spent := spent + more;
      }
    }
    assert models[..|models|] == models;
  }

  /** The sender's running totals. */
  function SpentBy(fs: seq<CopyTrader.Follow>, sender: string): real {
    if |fs| == 0 then 0.0
    else
      var f := fs[|fs| - 1];
      SpentBy(fs[..|fs| - 1], sender) + if f.sender == sender then f.totalSpent else 0.0
  }

  lemma {:induction false} FigureIsOkBuys(xs: seq<CopyTrader.Execution>)
    requires CopySpend.OnlyBuysPay(xs)
    ensures FollowFigure(xs, None) == CopySpend.SumOkBuys(xs)
  {
    if |xs| > 0 { FigureIsOkBuys(xs[..|xs| - 1]); }
  }

  /**
   The all-time copy figure is the sum of the sender's running totals, for follows in any reachable
   state: whatever was edited, paused, capped or copied on the way.
   */
  lemma {:induction false} CopyFigureIsTotals(
    added: seq<CopyTrader.Follow>, lives: seq<seq<CopyTrader.Event>>, fs: seq<CopyTrader.Follow>, sender: string)
    requires |added| == |lives| == |fs|
    requires forall i | 0 <= i < |fs| :: CopyTrader.NewFollow(added[i]) && fs[i] == CopyTrader.Run(added[i], lives[i])
    ensures CopyFigure(fs, sender, None) == SpentBy(fs, sender)
  {
    if |fs| > 0 {
      var n := |fs| - 1;
      CopyFigureIsTotals(added[..n], lives[..n], fs[..n], sender);
      CopySpend.SpendConserved(added[n], lives[n]);
      FigureIsOkBuys(fs[n].executions);
    }
  }

  /** A windowed figure is what the successful records from `since` on spent. */
  lemma {:induction false} WindowIsPaidWithin(xs: seq<CopyTrader.Execution>, since: int, until: int)
    requires since > 0 && forall i | 0 <= i < |xs| :: xs[i].at <= until
    ensures FollowFigure(xs, Some(since)) == PaidWithin(CopyTrader.Entries(xs), since, until)
  {
    var es := CopyTrader.Entries(xs);
    if |xs| > 0 {
      WindowIsPaidWithin(xs[..|xs| - 1], since, until);
      assert es[..|es| - 1] == CopyTrader.Entries(xs[..|xs| - 1]);
    }
  }

  // ---- DCA schedules -------------------------------------------------------------------------

  /** Successful runs within the window, at the schedule's current amount. */
  function ScheduleFigure(amount: real, xs: seq<Dca.Purchase>, since: Option<int>): real {
    if |xs| == 0 then 0.0
    else
      var x := xs[|xs| - 1];
      ScheduleFigure(amount, xs[..|xs| - 1], since) + if Within(x.at, since) && x.outcome == Dca.Bought then amount else 0.0
  }

  function DcaFigure(ss: seq<Dca.Schedule>, sender: string, since: Option<int>): real {
    if |ss| == 0 then 0.0
    else
      var s := ss[|ss| - 1];
      DcaFigure(ss[..|ss| - 1], sender, since) + if s.sender == sender then ScheduleFigure(s.amount, s.runs, since) else 0.0
  }

  function DcaModels(ss: seq<DcaSchedule.Recurring>): (r: seq<Dca.Schedule>)
    reads ss
    ensures |r| == |ss| && forall i | 0 <= i < |ss| :: r[i] == ss[i].Model()
  {
    seq(|ss|, i requires 0 <= i < |ss| reads ss => ss[i].Model())
  }

  method SumSchedule(amount: real, xs: seq<Dca.Purchase>, since: Option<int>) returns (spent: real)
    ensures spent == ScheduleFigure(amount, xs, since)
  {
    spent := 0.0;
    for i := 0 to |xs|
      invariant spent == ScheduleFigure(amount, xs[..i], since)
    {
      assert xs[..i + 1][..i] == xs[..i];
      if Within(xs[i].at, since) && xs[i].outcome == Dca.Bought {
        spent := spent + amount;
      }
    }
    assert xs[..|xs|] == xs;
  }

  /** `_summarize_dca`. */
  method SummarizeDca(ss: seq<DcaSchedule.Recurring>, sender: string, since: Option<int>) returns (spent: real)
    ensures spent == DcaFigure(DcaModels(ss), sender, since)
  {
    ghost var models := DcaModels(ss);
    spent := 0.0;
    for i := 0 to |ss|
      invariant spent == DcaFigure(models[..i], sender, since)
    {
      assert models[..i + 1][..i] == models[..i];
      if ss[i].sender == sender {
        var more := SumSchedule(ss[i].amount, ss[i].runs, since);
        spent := spent + more;
      }
    }
    assert models[..|models|] == models;
  }

  /** Successful runs within the window. */
  function Buys(xs: seq<Dca.Purchase>, since: Option<int>): nat {
    if |xs| == 0 then 0
    else Buys(xs[..|xs| - 1], since) + if Within(xs[|xs| - 1].at, since) && xs[|xs| - 1].outcome == Dca.Bought then 1 else 0
  }

  /** The figure is a count of runs at one price, whatever each of them paid. */
  lemma {:induction false} FigureIsCount(amount: real, xs: seq<Dca.Purchase>, since: Option<int>)
    ensures ScheduleFigure(amount, xs, since) == amount * Buys(xs, since) as real
  {
    if |xs| > 0 { FigureIsCount(amount, xs[..|xs| - 1], since); }
  }

  /** A windowed figure is today's amount for each successful run from `since` on. */
  lemma {:induction false} WindowIsCount(amount: real, xs: seq<Dca.Purchase>, since: int)
    requires since > 0
    ensures ScheduleFigure(amount, xs, Some(since)) == amount * |SinceAt(Dca.History(xs), since)| as real
  {
    FigureIsCount(amount, xs, Some(since));
    BuysAreSince(xs, since);
    CountIsSince(Dca.History(xs), since);
  }

  lemma {:induction false} BuysAreSince(xs: seq<Dca.Purchase>, since: int)
    requires since > 0
    ensures Buys(xs, Some(since)) == CountSince(Dca.History(xs), since)
  {
    var es := Dca.History(xs);
    if |xs| > 0 {
      BuysAreSince(xs[..|xs| - 1], since);
      assert es[..|es| - 1] == Dca.History(xs[..|xs| - 1]);
    }
  }

  /** The all-time figure of a schedule is its running total. */
  predicate ReportedRight(t: Dca.Schedule) {
    ScheduleFigure(t.amount, t.runs, None) == t.totalSpent
  }

  /** The event gives a schedule that has bought something another amount. */
  predicate Misprices(t: Dca.Schedule, e: Dca.Event) {
    e.EditAmount? && e.v > 0.0 && e.v != t.amount && Buys(t.runs, None) > 0
  }

  lemma BuysSnoc(xs: seq<Dca.Purchase>, x: Dca.Purchase)
    ensures Buys(xs + [x], None) == Buys(xs, None) + if x.outcome == Dca.Bought then 1 else 0
  {
    assert (xs + [x])[..|xs|] == xs;
  }

  /** The running total is the count of successful runs at this price. */
  ghost predicate PricedAt(amount: real, total: real, buys: nat) {
    total == amount * buys as real
  }

  lemma OneMorePriced(amount: real, total: real, buys: nat)
    requires PricedAt(amount, total, buys)
    ensures PricedAt(amount, total + amount, buys + 1)
  {
    OneMore(amount, buys);
  }

  lemma TickReportedRight(t: Dca.Schedule, now: int, w: Dca.World)
    requires PricedAt(t.amount, t.totalSpent, Buys(t.runs, None))
    ensures var u := Dca.TickOne(t, now, w); u.amount == t.amount && PricedAt(u.amount, u.totalSpent, Buys(u.runs, None))
  {
    OneMorePriced(t.amount, t.totalSpent, Buys(t.runs, None));
    BuysSnoc(t.runs, Dca.Purchase(w.recordAt, Dca.Execute(t, w), t.amount, now));
    BuysSnoc(t.runs, Dca.Purchase(w.recordAt, Dca.ConditionBlocked, 0.0, now));
  }

  lemma RightIsPriced(t: Dca.Schedule)
    ensures ReportedRight(t) <==> PricedAt(t.amount, t.totalSpent, Buys(t.runs, None))
  {
    FigureIsCount(t.amount, t.runs, None);
  }

  /** The figure prices past runs at today's amount: an event makes a right figure wrong if and only if it misprices. */
  lemma StepReportedIff(t: Dca.Schedule, e: Dca.Event)
    requires ReportedRight(t)
    ensures ReportedRight(Dca.Step(t, e)) <==> !Misprices(t, e)
  {
    RightIsPriced(t);
    RightIsPriced(Dca.Step(t, e));
    if e.Tick? {
      TickReportedRight(t, e.now, e.world);
    } else if e.EditAmount? && e.v > 0.0 {
      Repriced(t.amount, e.v, t.totalSpent, Buys(t.runs, None));
    }
  }

  lemma Repriced(amount: real, v: real, total: real, buys: nat)
    requires PricedAt(amount, total, buys)
    ensures PricedAt(v, total, buys) <==> v == amount || buys == 0
  {
    assert v * buys as real - amount * buys as real == (v - amount) * buys as real;
  }

  /** After an edit of the amount in a reachable state whose figure is right. */
  lemma EditReportedIff(s: Dca.Schedule, events: seq<Dca.Event>, v: real)
    requires Dca.NewSchedule(s) && ReportedRight(Dca.Run(s, events)) && v > 0.0
    ensures var t, u := Dca.Run(s, events), Dca.Run(s, events + [Dca.EditAmount(v)]);
      ReportedRight(u) <==> v == t.amount || forall i | 0 <= i < |t.runs| :: t.runs[i].outcome != Dca.Bought
  {
    var t := Dca.Run(s, events);
    assert (events + [Dca.EditAmount(v)])[..|events|] == events;
    StepReportedIff(t, Dca.EditAmount(v));
    NoBuys(t.runs);
  }

  lemma {:induction false} NoBuys(xs: seq<Dca.Purchase>)
    ensures Buys(xs, None) == 0 <==> forall i | 0 <= i < |xs| :: xs[i].outcome != Dca.Bought
  {
    if |xs| > 0 {
      var init, last := xs[..|xs| - 1], xs[|xs| - 1];
      NoBuys(init);
      assert xs == init + [last];
    }
  }

  /** No event of the run misprices. */
  predicate NeverMisprices(s: Dca.Schedule, events: seq<Dca.Event>) {
    forall i | 0 <= i < |events| :: !Misprices(Dca.Run(s, events[..i]), events[i])
  }

  /** The figure is right at the start of the run and after each of its events. */
  predicate RightAllAlong(s: Dca.Schedule, events: seq<Dca.Event>) {
    ReportedRight(Dca.Run(s, events)) && (|events| == 0 || RightAllAlong(s, events[..|events| - 1]))
  }

  lemma MispricesSnoc(s: Dca.Schedule, events: seq<Dca.Event>)
    requires |events| > 0
    ensures var n := |events| - 1;
      NeverMisprices(s, events) <==> NeverMisprices(s, events[..n]) && !Misprices(Dca.Run(s, events[..n]), events[n])
  {
    var n := |events| - 1;
    assert forall i | 0 <= i < n :: events[..n][..i] == events[..i] && events[..n][i] == events[i];
  }

  lemma LastEventIff(s: Dca.Schedule, events: seq<Dca.Event>)
    requires |events| > 0 && ReportedRight(Dca.Run(s, events[..|events| - 1]))
    ensures ReportedRight(Dca.Run(s, events)) <==> !Misprices(Dca.Run(s, events[..|events| - 1]), events[|events| - 1])
  {
    StepReportedIff(Dca.Run(s, events[..|events| - 1]), events[|events| - 1]);
  }

  /** The figure is right all along a run if and only if no event of it misprices. */
  lemma {:induction false} DcaFigureIff(s: Dca.Schedule, events: seq<Dca.Event>)
    requires Dca.NewSchedule(s)
    ensures NeverMisprices(s, events) <==> RightAllAlong(s, events)
  {
    if |events| > 0 {
      var init := events[..|events| - 1];
      DcaFigureIff(s, init);
      MispricesSnoc(s, events);
      if NeverMisprices(s, init) {
        assert RightAllAlong(s, init);
        LastEventIff(s, events);
      }
    }
  }

  /** The running totals of the sender's schedules. */
  function DcaSpentBy(ss: seq<Dca.Schedule>, sender: string): real {
    if |ss| == 0 then 0.0
    else DcaSpentBy(ss[..|ss| - 1], sender) + if ss[|ss| - 1].sender == sender then ss[|ss| - 1].totalSpent else 0.0
  }

  /** The all-time DCA figure is the sum of the sender's running totals, for schedules that no event of their runs misprices. */
  lemma {:induction false} DcaFigureIsTotals(
    added: seq<Dca.Schedule>, lives: seq<seq<Dca.Event>>, ss: seq<Dca.Schedule>, sender: string)
    requires |added| == |lives| == |ss|
    requires forall i | 0 <= i < |ss| ::
      Dca.NewSchedule(added[i]) && NeverMisprices(added[i], lives[i]) && ss[i] == Dca.Run(added[i], lives[i])
    ensures DcaFigure(ss, sender, None) == DcaSpentBy(ss, sender)
  {
    if |ss| > 0 {
      var n := |ss| - 1;
      DcaFigureIsTotals(added[..n], lives[..n], ss[..n], sender);
      DcaFigureIff(added[n], lives[n]);
    }
  }

  /** A schedule whose amount was never edited is reported right. */
  lemma UneditedFigure(s: Dca.Schedule, events: seq<Dca.Event>)
    requires Dca.NewSchedule(s) && forall i | 0 <= i < |events| :: !events[i].EditAmount?
    ensures ReportedRight(Dca.Run(s, events))
  {
    DcaFigureIff(s, events);
  }

  /** And one edit to another amount, once something was bought, makes the figure wrong. */
  lemma EditMisreports(s: Dca.Schedule, events: seq<Dca.Event>, v: real)
    requires Dca.NewSchedule(s) && forall i | 0 <= i < |events| :: !events[i].EditAmount?
    requires var t := Dca.Run(s, events);
      v > 0.0 && v != t.amount && exists i :: 0 <= i < |t.runs| && t.runs[i].outcome == Dca.Bought
    ensures !ReportedRight(Dca.Run(s, events + [Dca.EditAmount(v)]))
  {
    UneditedFigure(s, events);
    EditReportedIff(s, events, v);
  }
}
