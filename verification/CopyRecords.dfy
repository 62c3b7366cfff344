/** What each record of a copy follow says happened, over every run (clawmes/commands/copy.py). */
module CopyRecords {
  import opened Bytes
  import opened SlidingCap
  import opened CopyTrader
  import opened CopyWatermark

  // ---- one copy ------------------------------------------------------------------------------------

  /** A percentage of what the watched transaction is worth, if it is worth anything, up to the fixed amount. */
  predicate AmountIs(f: Follow, s: Seen, amount: real) {
    if f.pct.None? || s.targetWei <= 0 then amount == f.ethPerCopy
    else
      && amount <= f.ethPerCopy
      && amount * 100.0 * 1000000000000000000.0 <= s.targetWei as real * f.pct.value
      && (amount == f.ethPerCopy || amount * 100.0 * 1000000000000000000.0 == s.targetWei as real * f.pct.value)
  }

  lemma ScaledAmount(wei: real, pct: real)
    ensures wei / WEI_PER_ETH * (pct / 100.0) * 100.0 * WEI_PER_ETH == wei * pct
  {
  }

  lemma AmountMeans(f: Follow, s: Seen)
    ensures AmountIs(f, s, CopyAmount(f, s))
  {
    if f.pct.Some? { ScaledAmount(s.targetWei as real, f.pct.value); }
  }

  predicate PastTotal(f: Follow, amount: real) {
    f.maxTotal.Some? && f.totalSpent + amount > f.maxTotal.value
  }

  /** The estimate is today's amount for every successful record of the 86400 seconds before the check. */
  predicate PastDay(f: Follow, s: Seen, amount: real) {
    f.dailyCap.Some?
    && f.ethPerCopy * |SinceAt(Entries(f.executions), s.checkAt - 86400)| as real + amount > f.dailyCap.value
  }

  /** A buy is refused by a cap, or comes to what its swap comes to. */
  predicate BuyIs(f: Follow, s: Seen, amount: real, o: CopyTrader.Status) {
    && (o == TotalCapped <==> PastTotal(f, amount))
    && (o == DailyCapped <==> !PastTotal(f, amount) && PastDay(f, s, amount))
    && (o == Walletless <==> !PastTotal(f, amount) && !PastDay(f, s, amount) && s.swap == NoWallet)
    && (o == Failed <==> !PastTotal(f, amount) && !PastDay(f, s, amount) && s.swap == Fails)
    && (o == Done <==> !PastTotal(f, amount) && !PastDay(f, s, amount) && s.swap == Succeeds)
  }

  lemma BuyMeans(f: Follow, amount: real, s: Seen)
    ensures BuyIs(f, s, amount, ExecuteCopy(f, amount, s))
  {
    CountIsSince(Entries(f.executions), s.checkAt - DAY);
  }

  /** A sell needs a wallet and a balance, and spends nothing. */
  predicate SellIs(s: Seen, o: CopyTrader.Status) {
    && (o == Walletless <==> s.swap == NoWallet)
    && (o == NoBalance <==> s.swap != NoWallet && s.balance <= 0)
    && (o == Done <==> s.swap == Succeeds && s.balance > 0)
    && (o == Failed <==> s.swap == Fails && s.balance > 0)
  }

  // ---- one record ------------------------------------------------------------------------------------

  /**
   The record of a transfer that a follow `f` saw: a blocklisted token is noted and not acted on; otherwise an
   incoming transfer is a buy, an outgoing one of an inverted follow a sell.
   */
  predicate RecordIs(f: Follow, wallet: string, s: Seen, x: Execution) {
    && x.wallet == wallet && x.seen == s.tx && x.at == s.recordAt && |s.tx.token| == 42
    && (x.direction == Unacted <==> s.tx.token in f.blocklist)
    && (x.direction == Buy <==> s.tx.token !in f.blocklist && s.tx.dst == wallet)
    && (x.direction == Sell <==> s.tx.token !in f.blocklist && s.tx.dst != wallet)
    && match x.direction
       case Unacted => x.status == Blocklisted && x.ethAmount == 0.0
       case Buy => AmountIs(f, s, x.ethAmount) && BuyIs(f, s, x.ethAmount, x.status)
       case Sell => s.tx.src == wallet && f.invert && x.ethAmount == 0.0 && SellIs(s, x.status)
  }

  /** A transfer leaves exactly one record, or none if it has no proper token or is none of the follow's business. */
  lemma RecordMeans(f: Follow, wallet: string, s: Seen)
    ensures RecordFor(f, wallet, s).Some? <==> LeavesRecord(f, wallet, s.tx)
    ensures RecordFor(f, wallet, s).Some? ==> RecordIs(f, wallet, s, RecordFor(f, wallet, s).value)
  {
    var amount := CopyAmount(f, s);
    AmountMeans(f, s);
    BuyMeans(f, amount, s);
  }

  // ---- the records of a tick ----------------------------------------------------------------------------

  /** What a transfer is judged by: the settings of `f`, with the records and the total so far. */
  predicate SameSettings(f: Follow, g: Follow) {
    g == f.(executions := g.executions, totalSpent := g.totalSpent)
  }

  /** Record `i` is of a transfer of one of these batches, seen by the follow as it then was. */
  ghost predicate FromBatch(f: Follow, wallet: string, txs: seq<Seen>, xs: seq<Execution>, i: nat)
    requires i < |xs|
  {
    exists j, g :: 0 <= j < |txs| && JudgedBy(f, g, wallet, txs[j], xs, i)
  }

  predicate JudgedBy(f: Follow, g: Follow, wallet: string, s: Seen, xs: seq<Execution>, i: nat)
    requires i < |xs|
  {
    SameSettings(f, g) && g.executions == xs[..i] && RecordIs(g, wallet, s, xs[i])
  }

  /** Later records do not change what an earlier one is. */
  lemma SameJudgement(f: Follow, g: Follow, wallet: string, s: Seen, xs: seq<Execution>, ys: seq<Execution>, i: nat)
    requires i < |xs| && xs <= ys && JudgedBy(f, g, wallet, s, xs, i)
    ensures JudgedBy(f, g, wallet, s, ys, i)
  {
    assert ys[..i] == xs[..i] && ys[i] == xs[i];
  }

  ghost predicate BatchFrom(f: Follow, p: Progress, wallet: string, txs: seq<Seen>, q: Progress) {
    && SameSettings(f, q.follow) && p.follow.executions <= q.follow.executions
    && forall i | |p.follow.executions| <= i < |q.follow.executions| :: FromBatch(f, wallet, txs, q.follow.executions, i)
  }

  lemma {:induction false} BatchOrigins(f: Follow, p: Progress, wallet: string, txs: seq<Seen>)
    requires SameSettings(f, p.follow)
    ensures BatchFrom(f, p, wallet, txs, ProcessBatch(p, wallet, txs))
  {
    if |txs| > 0 {
      var n := |txs| - 1;
      BatchOrigins(f, p, wallet, txs[..n]);
      LastOrigin(f, p, wallet, txs, ProcessBatch(p, wallet, txs[..n]));
    }
  }

  lemma LastOrigin(f: Follow, p: Progress, wallet: string, txs: seq<Seen>, q: Progress)
    requires |txs| > 0 && BatchFrom(f, p, wallet, txs[..|txs| - 1], q)
    ensures BatchFrom(f, p, wallet, txs, ProcessTransfer(q, wallet, txs[|txs| - 1]))
  {
    var n, r := |txs| - 1, ProcessTransfer(q, wallet, txs[|txs| - 1]);
    var xs, ys := q.follow.executions, r.follow.executions;
    RecordMeans(q.follow, wallet, txs[n]);
    forall i | |p.follow.executions| <= i < |ys| ensures FromBatch(f, wallet, txs, ys, i) {
      if i < |xs| {
        assert FromBatch(f, wallet, txs[..n], xs, i);
        var j, g :| 0 <= j < n && JudgedBy(f, g, wallet, txs[..n][j], xs, i);
        SameJudgement(f, g, wallet, txs[j], xs, ys, i);
      } else {
        assert ys[..i] == xs && JudgedBy(f, q.follow, wallet, txs[n], ys, i);
      }
    }
  }

  /** Record `i` is of a transfer that some watched wallet's truncated batch carried. */
  ghost predicate FromFetch(f: Follow, wallets: seq<string>, fetches: seq<Fetch>, xs: seq<Execution>, i: nat)
    requires |fetches| == |wallets| && i < |xs|
  {
    exists k :: 0 <= k < |wallets| && fetches[k].Batch? && FromBatch(f, wallets[k], Truncate(fetches[k].txs), xs, i)
  }

  ghost predicate WalletsFrom(f: Follow, n: nat, wallets: seq<string>, fetches: seq<Fetch>, q: Progress)
    requires |fetches| == |wallets|
  {
    && SameSettings(f, q.follow) && n <= |q.follow.executions|
    && forall i | n <= i < |q.follow.executions| :: FromFetch(f, wallets, fetches, q.follow.executions, i)
  }

  lemma FromBatchLonger(f: Follow, wallet: string, txs: seq<Seen>, xs: seq<Execution>, ys: seq<Execution>, i: nat)
    requires i < |xs| && xs <= ys && FromBatch(f, wallet, txs, xs, i)
    ensures FromBatch(f, wallet, txs, ys, i)
  {
    var j, g :| 0 <= j < |txs| && JudgedBy(f, g, wallet, txs[j], xs, i);
    SameJudgement(f, g, wallet, txs[j], xs, ys, i);
  }

  lemma {:induction false} WalletOrigins(f: Follow, p: Progress, wallets: seq<string>, fetches: seq<Fetch>)
    requires |fetches| == |wallets| && SameSettings(f, p.follow)
    ensures WalletsFrom(f, |p.follow.executions|, wallets, fetches, ProcessWallets(p, wallets, fetches))
  {
    if |wallets| > 0 {
      var n := |wallets| - 1;
      WalletOrigins(f, p, wallets[..n], fetches[..n]);
      LastWallet(f, |p.follow.executions|, wallets, fetches, ProcessWallets(p, wallets[..n], fetches[..n]));
    }
  }

  lemma LastWallet(f: Follow, m: nat, wallets: seq<string>, fetches: seq<Fetch>, q: Progress)
    requires |fetches| == |wallets| > 0 && WalletsFrom(f, m, wallets[..|wallets| - 1], fetches[..|wallets| - 1], q)
    ensures var n := |wallets| - 1;
      WalletsFrom(f, m, wallets, fetches,
        if q.raised then q else if fetches[n].Raises? then q.(raised := true)
        else ProcessBatch(q, wallets[n], Truncate(fetches[n].txs)))
  {
    var n := |wallets| - 1;
    var goesOn := !q.raised && fetches[n].Batch?;
    var r := if goesOn then ProcessBatch(q, wallets[n], Truncate(fetches[n].txs)) else q;
    var xs, ys := q.follow.executions, r.follow.executions;
    if goesOn { BatchOrigins(f, q, wallets[n], Truncate(fetches[n].txs)); }
    forall i | m <= i < |ys| ensures FromFetch(f, wallets, fetches, ys, i) {
      if i < |xs| {
        assert FromFetch(f, wallets[..n], fetches[..n], xs, i);
        var k :| 0 <= k < n && fetches[..n][k].Batch? && FromBatch(f, wallets[..n][k], Truncate(fetches[..n][k].txs), xs, i);
        FromBatchLonger(f, wallets[k], Truncate(fetches[k].txs), xs, ys, i);
      }
    }
  }

  /**
   Each record a tick adds is of a transfer that one of its batches carried, and is what that transfer calls
   for, judged by the follow's settings with the records and the total up to then.
   */
  lemma TickRecords(f: Follow, e: Event)
    requires Live(f, e)
    ensures var g := Step(f, e);
      && f.executions <= g.executions
      && forall i | |f.executions| <= i < |g.executions| :: FromFetch(f, WatchedWallets(f), e.fetches, g.executions, i)
  {
    WatermarkMonotone(f, e);
    WalletOrigins(f, Progress(f, f.lastSeenBlock, false), WatchedWallets(f), e.fetches);
  }

  /** So each new record of a blocklisted token is not acted on, and each other one is a buy or a sell. */
  predicate ObeysBlocklist(f: Follow, x: Execution) {
    if x.seen.token in f.blocklist then x.direction == Unacted && x.status == Blocklisted && x.ethAmount == 0.0
    else if x.seen.dst == x.wallet then x.direction == Buy && x.status != Blocklisted
    else x.direction == Sell && x.seen.src == x.wallet && f.invert && x.status != Blocklisted && x.ethAmount == 0.0
  }

  lemma TickObeysBlocklist(f: Follow, e: Event, i: nat)
    requires |f.executions| <= i < |Step(f, e).executions|
    ensures ObeysBlocklist(f, Step(f, e).executions[i])
  {
    if Live(f, e) {
      var xs, ws := Step(f, e).executions, WatchedWallets(f);
      TickRecords(f, e);
      assert FromFetch(f, ws, e.fetches, xs, i);
      var k :| 0 <= k < |ws| && e.fetches[k].Batch? && FromBatch(f, ws[k], Truncate(e.fetches[k].txs), xs, i);
      var txs := Truncate(e.fetches[k].txs);
      var j, g :| 0 <= j < |txs| && JudgedBy(f, g, ws[k], txs[j], xs, i);
    }
  }

  // ---- over runs -----------------------------------------------------------------------------------------

  /** Event `i` of the run added record `j`. */
  predicate AddedBy(f: Follow, events: seq<Event>, j: nat, i: nat) {
    i < |events| && |Run(f, events[..i]).executions| <= j < |Run(f, events[..i + 1]).executions|
  }

  /** Over every run, every record obeys the blocklist in force when it was added: no blocked token is ever bought. */
  lemma {:induction false} NeverBuysBlocked(f: Follow, events: seq<Event>, j: nat) returns (i: nat)
    requires NewFollow(f) && j < |Run(f, events).executions|
    ensures AddedBy(f, events, j, i) && ObeysBlocklist(Run(f, events[..i]), Run(f, events).executions[j])
  {
    var n := |events| - 1;
    var init, before := events[..n], Run(f, events[..n]);
    WatermarkMonotone(before, events[n]);
    if j < |before.executions| {
      i := NeverBuysBlocked(f, init, j);
      assert init[..i] == events[..i] && init[..i + 1] == events[..i + 1];
    } else {
      i := n;
      assert events[..n + 1] == events;
      TickObeysBlocklist(before, events[n], j);
    }
  }

  /** The wallets a tick reads: the primary one first, and the extra ones, each once. */
  lemma WatchedMeans(f: Follow)
    ensures var ws := WatchedWallets(f);
      && DistinctWallets(ws)
      && (forall w :: w in ws <==> (w == f.wallet && f.wallet != "") || w in f.extraWallets)
      && (f.wallet != "" ==> ws != [] && ws[0] == f.wallet)
  {
    var out: seq<string> := if f.wallet == "" then [] else [f.wallet];
    WatchedAreDistinct(out, f.extraWallets);
    AddedBehind(out, f.extraWallets);
  }

  lemma {:induction false} AddedBehind(out: seq<string>, ws: seq<string>)
    ensures out <= AddUnseen(out, ws)
  {
    if |ws| > 0 { AddedBehind(out, ws[..|ws| - 1]); }
  }

  // ---- pausing ----------------------------------------------------------------------------------------------

  /** The last `n` records are all failures; blocklisted tokens and empty balances are none. */
  predicate FailureStreak(xs: seq<Execution>, n: int) {
    0 <= n <= |xs| && forall i | |xs| - n <= i < |xs| :: xs[i].status in {Failed, Walletless, DailyCapped, TotalCapped}
  }

  /** A tick in which no fetch raises and something is recorded pauses the follow exactly on a streak of failures. */
  lemma TickPausesIff(f: Follow, e: Event)
    requires Live(f, e) && !SomeFetchRaises(e.fetches) && |Step(f, e).executions| > |f.executions|
    ensures !Step(f, e).active <==> FailureStreak(Step(f, e).executions, f.maxFailures)
  {
    var p := Progress(f, f.lastSeenBlock, false);
    RaisedIff(p, WatchedWallets(f), e.fetches);
    WalletsBlocks(p, WatchedWallets(f), e.fetches);
    assert forall s: CopyTrader.Status :: IsFailure(s) <==> s in {Failed, Walletless, DailyCapped, TotalCapped};
  }

  // ---- commands --------------------------------------------------------------------------------------------

  /** A command sets its one field; a value out of range changes nothing, nor does a tick of a paused follow. */
  predicate CommandMakes(f: Follow, e: Event, g: Follow) {
    match e
    case Tick(_, _) => f.active || g == f
    case Pause => g == f.(active := false)
    case Resume => g == f.(active := true)
    case EditEthPerCopy(v) => g == f.(ethPerCopy := if v > 0.0 then v else f.ethPerCopy)
    case EditDailyCap(cap) => g == f.(dailyCap := if cap.Some? && cap.value <= 0.0 then f.dailyCap else cap)
    case EditMaxTotal(total) => g == f.(maxTotal := if total.Some? && total.value <= 0.0 then f.maxTotal else total)
    case EditMaxFailures(n) => g == f.(maxFailures := if n >= 1 then n else f.maxFailures)
    case EditBlocklist(tokens) => g == f.(blocklist := tokens)
    case EditInvert(on) => g == f.(invert := on)
    case EditExtraWallets(ws) => g == f.(extraWallets := ws)
  }

  lemma CommandMeans(f: Follow, e: Event)
    ensures CommandMakes(f, e, Step(f, e))
  {
  }
}
