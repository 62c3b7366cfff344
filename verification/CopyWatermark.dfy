/** The block watermark of a copy follow: no transfer is acted on twice, and none of a snapshot is missed. */
module CopyWatermark {
  import opened Bytes
  import opened SlidingCap
  import opened CopyTrader

  // ---- the watermark never goes back ------------------------------------------------------

  lemma {:induction false} BatchBlocks(p: Progress, wallet: string, txs: seq<Seen>)
    ensures var q := ProcessBatch(p, wallet, txs);
      && q.maxBlock >= p.maxBlock && q.raised == p.raised
      && q.follow == p.follow.(executions := q.follow.executions, totalSpent := q.follow.totalSpent)
      && p.follow.executions <= q.follow.executions
      && forall i | 0 <= i < |txs| && Eligible(txs[i].tx) :: txs[i].tx.block <= q.maxBlock
  {
    if |txs| > 0 {
      BatchBlocks(p, wallet, txs[..|txs| - 1]);
    }
  }

  lemma {:induction false} WalletsBlocks(p: Progress, wallets: seq<string>, fetches: seq<Fetch>)
    requires |fetches| == |wallets|
    ensures var q := ProcessWallets(p, wallets, fetches);
      && q.maxBlock >= p.maxBlock
      && q.follow == p.follow.(executions := q.follow.executions, totalSpent := q.follow.totalSpent)
      && p.follow.executions <= q.follow.executions
  {
    if |wallets| > 0 {
      var n := |wallets| - 1;
      WalletsBlocks(p, wallets[..n], fetches[..n]);
      var q := ProcessWallets(p, wallets[..n], fetches[..n]);
      if !q.raised && fetches[n].Batch? { BatchBlocks(q, wallets[n], Truncate(fetches[n].txs)); }
    }
  }

  /** No event lowers the watermark, and records are only ever added. */
  lemma WatermarkMonotone(f: Follow, e: Event)
    ensures Step(f, e).lastSeenBlock >= f.lastSeenBlock
    ensures f.executions <= Step(f, e).executions
  {
    if e.Tick? && f.active && |e.fetches| == |WatchedWallets(f)| {
      WalletsBlocks(Progress(f, f.lastSeenBlock, false), WatchedWallets(f), e.fetches);
    }
  }

  // ---- at most once ---------------------------------------------------------------------------

  predicate SameKey(x: Execution, y: Execution) {
    x.wallet == y.wallet && x.seen == y.seen
  }

  /** No (watched wallet, transfer) has two records. */
  predicate NoRepeats(xs: seq<Execution>) {
    forall i, j | 0 <= i < j < |xs| :: !SameKey(xs[i], xs[j])
  }

  /** Every record is of a transfer at or below the watermark. */
  predicate BelowWatermark(f: Follow) {
    forall i | 0 <= i < |f.executions| :: f.executions[i].seen.block <= f.lastSeenBlock
  }

  ghost predicate OnceEach(f: Follow) {
    NoRepeats(f.executions) && BelowWatermark(f)
  }

  predicate DistinctTransfers(txs: seq<Seen>) {
    forall i, j | 0 <= i < j < |txs| :: txs[i].tx != txs[j].tx
  }

  /** What the explorer is asked for: transfers from the block after the watermark on, each once. */
  predicate HonoursStart(fetch: Fetch, start: int) {
    fetch.Batch? ==>
      DistinctTransfers(fetch.txs) && forall i | 0 <= i < |fetch.txs| :: fetch.txs[i].tx.block >= start
  }

  /** A tick of an active follow, with an answer for each watched wallet. */
  predicate Live(f: Follow, e: Event) {
    e.Tick? && f.active && |e.fetches| == |WatchedWallets(f)|
  }

  predicate AllHonourStart(f: Follow, e: Event) {
    Live(f, e) ==> forall i | 0 <= i < |e.fetches| :: HonoursStart(e.fetches[i], f.lastSeenBlock + 1)
  }

  /** Records of this batch so far are of its first transfers; older ones are of other wallets or lower blocks. */
  ghost predicate BatchOnce(xs: seq<Execution>, mark: int, wallet: string, txs: seq<Seen>, maxBlock: int) {
    && NoRepeats(xs) && mark <= maxBlock
    && forall i | 0 <= i < |xs| ::
         && xs[i].seen.block <= maxBlock
         && (xs[i].seen.block <= mark || xs[i].wallet != wallet || exists j :: 0 <= j < |txs| && txs[j].tx == xs[i].seen)
  }

  lemma NoRepeatsSnoc(xs: seq<Execution>, x: Execution)
    requires NoRepeats(xs) && forall i | 0 <= i < |xs| :: !SameKey(xs[i], x)
    ensures NoRepeats(xs + [x])
  {
  }

  lemma {:induction false} BatchActsOnce(p: Progress, mark: int, wallet: string, txs: seq<Seen>)
    requires BatchOnce(p.follow.executions, mark, wallet, [], p.maxBlock)
    requires DistinctTransfers(txs) && forall i | 0 <= i < |txs| :: txs[i].tx.block > mark
    ensures var q := ProcessBatch(p, wallet, txs);
      BatchOnce(q.follow.executions, mark, wallet, txs, q.maxBlock)
      && forall i | |p.follow.executions| <= i < |q.follow.executions| :: q.follow.executions[i].wallet == wallet
  {
    if |txs| > 0 {
      var init, s := txs[..|txs| - 1], txs[|txs| - 1];
      BatchActsOnce(p, mark, wallet, init);
      BatchBlocks(p, wallet, init);
      var q := ProcessBatch(p, wallet, init);
      TransferActsOnce(q, mark, wallet, init, s);
      assert txs == init + [s];
    }
  }

  lemma TransferActsOnce(q: Progress, mark: int, wallet: string, init: seq<Seen>, s: Seen)
    requires BatchOnce(q.follow.executions, mark, wallet, init, q.maxBlock)
    requires s.tx.block > mark && forall j | 0 <= j < |init| :: init[j].tx != s.tx
    ensures var r := ProcessTransfer(q, wallet, s);
      && BatchOnce(r.follow.executions, mark, wallet, init + [s], r.maxBlock)
      && (r.follow.executions == q.follow.executions
          || exists x: Execution :: x.wallet == wallet && r.follow.executions == q.follow.executions + [x])
  {
    var xs, r := q.follow.executions, ProcessTransfer(q, wallet, s);
    var all := init + [s];
    assert all[|init|].tx == s.tx;
    forall i | 0 <= i < |xs|
      ensures xs[i].seen.block <= mark || xs[i].wallet != wallet || exists j :: 0 <= j < |all| && all[j].tx == xs[i].seen
    {
      if !(xs[i].seen.block <= mark || xs[i].wallet != wallet) {
        var j :| 0 <= j < |init| && init[j].tx == xs[i].seen;
        assert all[j].tx == xs[i].seen;
      }
    }
    if Eligible(s.tx) && RecordFor(q.follow, wallet, s).Some? {
      var x := RecordFor(q.follow, wallet, s).value;
      assert x.wallet == wallet && x.seen == s.tx;
      NoRepeatsSnoc(xs, x);
      assert r.follow.executions == xs + [x];
    }
  }

  /** After some wallets: records are below the old mark, or of one of those wallets. */
  ghost predicate WalletsOnce(p: Progress, mark: int, wallets: seq<string>) {
    && NoRepeats(p.follow.executions) && mark <= p.maxBlock
    && forall i | 0 <= i < |p.follow.executions| ::
         var x := p.follow.executions[i];
         x.seen.block <= p.maxBlock && (x.seen.block <= mark || x.wallet in wallets)
  }

  predicate DistinctWallets(ws: seq<string>) {
    forall i, j | 0 <= i < j < |ws| :: ws[i] != ws[j]
  }

  lemma {:induction false} WalletsActOnce(p: Progress, mark: int, wallets: seq<string>, fetches: seq<Fetch>)
    requires |fetches| == |wallets| && DistinctWallets(wallets) && WalletsOnce(p, mark, [])
    requires forall i | 0 <= i < |fetches| :: HonoursStart(fetches[i], mark + 1)
    ensures WalletsOnce(ProcessWallets(p, wallets, fetches), mark, wallets)
  {
    if |wallets| > 0 {
      var n := |wallets| - 1;
      WalletsActOnce(p, mark, wallets[..n], fetches[..n]);
      var q := ProcessWallets(p, wallets[..n], fetches[..n]);
      assert wallets == wallets[..n] + [wallets[n]];
      if !q.raised && fetches[n].Batch? {
        var txs := Truncate(fetches[n].txs);
        assert wallets[n] !in wallets[..n];
        BatchActsOnce(q, mark, wallets[n], txs);
        BatchBlocks(q, wallets[n], txs);
      }
    }
  }

  lemma {:induction false} WatchedAreDistinct(out: seq<string>, ws: seq<string>)
    requires DistinctWallets(out)
    ensures DistinctWallets(AddUnseen(out, ws))
    ensures forall w :: w in AddUnseen(out, ws) <==> w in out || w in ws
  {
    if |ws| > 0 {
      var init := ws[..|ws| - 1];
      WatchedAreDistinct(out, init);
      assert ws == init + [ws[|ws| - 1]];
    }
  }

  // ---- fetches that fail ------------------------------------------------------------------------

  predicate SomeFetchRaises(fetches: seq<Fetch>) {
    exists i :: 0 <= i < |fetches| && fetches[i].Raises?
  }

  /** No fetch up to the `n`th raises. */
  predicate Reaches(fetches: seq<Fetch>, n: nat) {
    n < |fetches| && forall i | 0 <= i <= n :: fetches[i].Batch?
  }

  /** The transfer leaves a record, whatever comes of it. */
  predicate LeavesRecord(f: Follow, wallet: string, tx: Transfer) {
    Eligible(tx) && (tx.token in f.blocklist || Incoming(tx, wallet) || (Outgoing(tx, wallet) && f.invert))
  }

  predicate QuietBatch(f: Follow, wallet: string, txs: seq<Seen>) {
    forall j | 0 <= j < |txs| :: !LeavesRecord(f, wallet, txs[j].tx)
  }

  /** No transfer in a batch before the first fetch that raises leaves a record. */
  predicate Quiet(f: Follow, wallets: seq<string>, fetches: seq<Fetch>)
    requires |fetches| == |wallets|
  {
    forall n | 0 <= n < |wallets| && Reaches(fetches, n) :: QuietBatch(f, wallets[n], Truncate(fetches[n].txs))
  }

  /** A tick in which a fetch raises, if any, finds nothing to record before it. */
  predicate Harmless(f: Follow, e: Event) {
    Live(f, e) && SomeFetchRaises(e.fetches) ==> Quiet(f, WatchedWallets(f), e.fetches)
  }

  lemma {:induction false} RaisedIff(p: Progress, wallets: seq<string>, fetches: seq<Fetch>)
    requires |fetches| == |wallets| && !p.raised
    ensures ProcessWallets(p, wallets, fetches).raised <==> SomeFetchRaises(fetches)
  {
    if |wallets| > 0 {
      var n := |wallets| - 1;
      var q := ProcessWallets(p, wallets[..n], fetches[..n]);
      RaisedIff(p, wallets[..n], fetches[..n]);
      if SomeFetchRaises(fetches[..n]) {
        var i :| 0 <= i < n && fetches[..n][i].Raises?;
        assert fetches[i].Raises?;
      } else {
        assert forall i | 0 <= i < n :: !fetches[..n][i].Raises?;
        if fetches[n].Batch? { BatchBlocks(q, wallets[n], Truncate(fetches[n].txs)); }
      }
    }
  }

  /** From position `n` on, some record is of this wallet and transfer. */
  ghost predicate RecordedFrom(xs: seq<Execution>, n: nat, wallet: string, x: Transfer) {
    exists i :: n <= i < |xs| && xs[i].wallet == wallet && xs[i].seen == x
  }

  lemma RecordedStays(xs: seq<Execution>, ys: seq<Execution>, n: nat, wallet: string, x: Transfer)
    requires RecordedFrom(xs, n, wallet, x) && xs <= ys
    ensures RecordedFrom(ys, n, wallet, x)
  {
    var i :| n <= i < |xs| && xs[i].wallet == wallet && xs[i].seen == x;
    assert ys[i] == xs[i];
  }

  /** A batch records exactly the transfers that leave a record; the rest changes nothing. */
  lemma {:induction false} BatchRecords(p: Progress, wallet: string, txs: seq<Seen>)
    ensures var q := ProcessBatch(p, wallet, txs);
      && (QuietBatch(p.follow, wallet, txs) ==> q.follow == p.follow)
      && forall j | 0 <= j < |txs| && LeavesRecord(p.follow, wallet, txs[j].tx) ::
           RecordedFrom(q.follow.executions, |p.follow.executions|, wallet, txs[j].tx)
  {
    if |txs| > 0 {
      var init, s := txs[..|txs| - 1], txs[|txs| - 1];
      var q, r := ProcessBatch(p, wallet, init), ProcessBatch(p, wallet, txs);
      BatchRecords(p, wallet, init);
      BatchBlocks(p, wallet, init);
      forall j | 0 <= j < |txs| && LeavesRecord(p.follow, wallet, txs[j].tx)
        ensures RecordedFrom(r.follow.executions, |p.follow.executions|, wallet, txs[j].tx)
      {
        if j < |init| {
          assert init[j] == txs[j];
          RecordedStays(q.follow.executions, r.follow.executions, |p.follow.executions|, wallet, txs[j].tx);
        } else {
          assert r.follow.executions[|q.follow.executions|].seen == s.tx;
        }
      }
      if QuietBatch(p.follow, wallet, txs) { assert QuietBatch(p.follow, wallet, init); }
    }
  }

  lemma {:induction false} QuietRecordsNothing(p: Progress, wallets: seq<string>, fetches: seq<Fetch>)
    requires |fetches| == |wallets| && !p.raised && Quiet(p.follow, wallets, fetches)
    ensures ProcessWallets(p, wallets, fetches).follow == p.follow
  {
    if |wallets| > 0 {
      var n := |wallets| - 1;
      QuietPrefix(p.follow, wallets, fetches);
      QuietRecordsNothing(p, wallets[..n], fetches[..n]);
      RaisedIff(p, wallets[..n], fetches[..n]);
      var q := ProcessWallets(p, wallets[..n], fetches[..n]);
      if !q.raised && fetches[n].Batch? {
        assert forall i | 0 <= i < n :: fetches[i] == fetches[..n][i];
        assert Reaches(fetches, n);
        BatchRecords(q, wallets[n], Truncate(fetches[n].txs));
      }
    }
  }

  lemma QuietPrefix(f: Follow, wallets: seq<string>, fetches: seq<Fetch>)
    requires |fetches| == |wallets| && |wallets| > 0 && Quiet(f, wallets, fetches)
    ensures Quiet(f, wallets[..|wallets| - 1], fetches[..|wallets| - 1])
  {
    var n := |wallets| - 1;
    forall i | 0 <= i < n && Reaches(fetches[..n], i) ensures QuietBatch(f, wallets[..n][i], Truncate(fetches[..n][i].txs)) {
      assert forall k | 0 <= k <= i :: fetches[k] == fetches[..n][k];
      assert Reaches(fetches, i);
    }
  }

  lemma {:induction false} ReachedRecords(p: Progress, wallets: seq<string>, fetches: seq<Fetch>, n: nat, j: nat)
    requires |fetches| == |wallets| && !p.raised && Reaches(fetches, n) && j < |Truncate(fetches[n].txs)|
    requires LeavesRecord(p.follow, wallets[n], fetches[n].txs[j].tx)
    ensures RecordedFrom(ProcessWallets(p, wallets, fetches).follow.executions, |p.follow.executions|,
                         wallets[n], fetches[n].txs[j].tx)
  {
    var m := |wallets| - 1;
    var q := ProcessWallets(p, wallets[..m], fetches[..m]);
    WalletsBlocks(p, wallets[..m], fetches[..m]);
    if n == m {
      NeverRaises(p, wallets[..m], fetches[..m]);
      BatchRecords(q, wallets[m], Truncate(fetches[m].txs));
      BatchRecordsLater(q, wallets[m], Truncate(fetches[m].txs), j, |p.follow.executions|);
    } else {
      assert Reaches(fetches[..m], n);
      ReachedRecords(p, wallets[..m], fetches[..m], n, j);
      LastWalletKeeps(p, wallets, fetches);
      RecordedStays(q.follow.executions, ProcessWallets(p, wallets, fetches).follow.executions,
                    |p.follow.executions|, wallets[n], fetches[n].txs[j].tx);
    }
  }

  lemma BatchRecordsLater(q: Progress, wallet: string, txs: seq<Seen>, j: nat, n: nat)
    requires j < |txs| && LeavesRecord(q.follow, wallet, txs[j].tx) && n <= |q.follow.executions|
    ensures RecordedFrom(ProcessBatch(q, wallet, txs).follow.executions, n, wallet, txs[j].tx)
  {
    BatchRecords(q, wallet, txs);
    var xs := ProcessBatch(q, wallet, txs).follow.executions;
    assert RecordedFrom(xs, |q.follow.executions|, wallet, txs[j].tx);
    var i :| |q.follow.executions| <= i < |xs| && xs[i].wallet == wallet && xs[i].seen == txs[j].tx;
    assert n <= i;
  }

  lemma LastWalletKeeps(p: Progress, wallets: seq<string>, fetches: seq<Fetch>)
    requires |fetches| == |wallets| && |wallets| > 0
    ensures ProcessWallets(p, wallets[..|wallets| - 1], fetches[..|wallets| - 1]).follow.executions
      <= ProcessWallets(p, wallets, fetches).follow.executions
  {
    var n := |wallets| - 1;
    var q := ProcessWallets(p, wallets[..n], fetches[..n]);
    if !q.raised && fetches[n].Batch? { BatchBlocks(q, wallets[n], Truncate(fetches[n].txs)); }
  }

  /** A tick that is not quiet has a transfer that leaves a record before the first fetch that raises. */
  lemma Loud(f: Follow, wallets: seq<string>, fetches: seq<Fetch>) returns (n: nat, j: nat)
    requires |fetches| == |wallets| && !Quiet(f, wallets, fetches)
    ensures Reaches(fetches, n) && j < |Truncate(fetches[n].txs)| && LeavesRecord(f, wallets[n], fetches[n].txs[j].tx)
  {
    n :| 0 <= n < |wallets| && Reaches(fetches, n) && !QuietBatch(f, wallets[n], Truncate(fetches[n].txs));
    j :| 0 <= j < |Truncate(fetches[n].txs)| && LeavesRecord(f, wallets[n], Truncate(fetches[n].txs)[j].tx);
  }

  /** What a tick in which a fetch raises leaves: the follow as it was, but for new records and their spend. */
  lemma RaisingTick(f: Follow, e: Event)
    requires Live(f, e) && SomeFetchRaises(e.fetches)
    ensures var g := Step(f, e);
      && g == ProcessWallets(Progress(f, f.lastSeenBlock, false), WatchedWallets(f), e.fetches).follow
      && g == f.(executions := g.executions, totalSpent := g.totalSpent) && f.executions <= g.executions
      && (Quiet(f, WatchedWallets(f), e.fetches) ==> g == f)
  {
    var p, ws := Progress(f, f.lastSeenBlock, false), WatchedWallets(f);
    RaisedIff(p, ws, e.fetches);
    WalletsBlocks(p, ws, e.fetches);
    if Quiet(f, ws, e.fetches) { QuietRecordsNothing(p, ws, e.fetches); }
  }

  lemma StepActsOnce(f: Follow, e: Event)
    requires OnceEach(f) && AllHonourStart(f, e) && Harmless(f, e)
    ensures OnceEach(Step(f, e))
  {
    if Live(f, e) {
      if SomeFetchRaises(e.fetches) {
        RaisingTick(f, e);
      } else {
        var p := Progress(f, f.lastSeenBlock, false);
        RaisedIff(p, WatchedWallets(f), e.fetches);
        WatchedAreDistinct(if f.wallet == "" then [] else [f.wallet], f.extraWallets);
        WalletsActOnce(p, f.lastSeenBlock, WatchedWallets(f), e.fetches);
      }
    }
  }

  /** One event keeps each transfer once, at or below the watermark, if and only if it is harmless. */
  lemma StepOnceIff(f: Follow, e: Event)
    requires OnceEach(f) && AllHonourStart(f, e)
    ensures OnceEach(Step(f, e)) <==> Harmless(f, e)
  {
    if Harmless(f, e) {
      StepActsOnce(f, e);
    } else {
      var ws, g := WatchedWallets(f), Step(f, e);
      var n, j := Loud(f, ws, e.fetches);
      RaisingTick(f, e);
      ReachedRecords(Progress(f, f.lastSeenBlock, false), ws, e.fetches, n, j);
      var x := e.fetches[n].txs[j].tx;
      var i :| |f.executions| <= i < |g.executions| && g.executions[i].wallet == ws[n] && g.executions[i].seen == x;
      assert HonoursStart(e.fetches[n], f.lastSeenBlock + 1);
      assert g.executions[i].seen.block > g.lastSeenBlock;
    }
  }

  /** And the same tick once more acts on some transfer twice, if and only if it is not harmless. */
  lemma RepeatsIff(f: Follow, e: Event)
    requires OnceEach(f) && AllHonourStart(f, e) && Live(f, e) && SomeFetchRaises(e.fetches)
    ensures NoRepeats(Run(f, [e, e]).executions) <==> Quiet(f, WatchedWallets(f), e.fetches)
  {
    var g, ws := Step(f, e), WatchedWallets(f);
    TwoSteps(f, e, e);
    RaisingTick(f, e);
    if !Quiet(f, ws, e.fetches) {
      var n, j := Loud(f, ws, e.fetches);
      var h, w, x := Step(g, e), ws[n], e.fetches[n].txs[j].tx;
      ReachedRecords(Progress(f, f.lastSeenBlock, false), ws, e.fetches, n, j);
      RaisingTick(g, e);
      ReachedRecords(Progress(g, g.lastSeenBlock, false), ws, e.fetches, n, j);
      var i :| |f.executions| <= i < |g.executions| && g.executions[i].wallet == w && g.executions[i].seen == x;
      var k :| |g.executions| <= k < |h.executions| && h.executions[k].wallet == w && h.executions[k].seen == x;
      assert h.executions[i] == g.executions[i] && SameKey(h.executions[i], h.executions[k]);
    }
  }

  lemma TwoSteps(f: Follow, e1: Event, e2: Event)
    ensures Run(f, [e1, e2]) == Step(Step(f, e1), e2)
  {
    assert [e1, e2][..1] == [e1] && [e1][..0] == [];
    assert Run(f, [e1]) == Step(f, e1);
  }

  // ---- over a run -----------------------------------------------------------------------------------

  /** Each event of the run starts where the explorer honours the requested block, and is harmless. */
  ghost predicate HarmlessRun(f: Follow, events: seq<Event>) {
    forall i | 0 <= i < |events| :: AllHonourStart(Run(f, events[..i]), events[i]) && Harmless(Run(f, events[..i]), events[i])
  }

  lemma HarmlessPrefix(f: Follow, events: seq<Event>)
    requires |events| > 0 && HarmlessRun(f, events)
    ensures HarmlessRun(f, events[..|events| - 1])
  {
    var init := events[..|events| - 1];
    assert forall i | 0 <= i < |init| :: init[..i] == events[..i] && init[i] == events[i];
  }

  /** Over all runs of harmless ticks, no (watched wallet, transfer) is acted on twice. */
  lemma {:induction false} ActedOnAtMostOnce(f: Follow, events: seq<Event>)
    requires NewFollow(f) && HarmlessRun(f, events)
    ensures OnceEach(Run(f, events))
  {
    if |events| > 0 {
      HarmlessPrefix(f, events);
      ActedOnAtMostOnce(f, events[..|events| - 1]);
      StepActsOnce(Run(f, events[..|events| - 1]), events[|events| - 1]);
    }
  }

  // ---- exactly once -----------------------------------------------------------------------------

  ghost predicate Handled(f: Follow, wallet: string, x: Transfer) {
    exists i :: 0 <= i < |f.executions| && f.executions[i].wallet == wallet && f.executions[i].seen == x
  }

  /** The explorer answers for one wallet from a snapshot of the chain up to block `head`, untruncated. */
  ghost predicate FromSnapshot(f: Follow, wallet: string, fetch: Fetch, chain: set<Transfer>, head: int) {
    && fetch.Batch? && |fetch.txs| <= MAX_TX_PER_TICK && DistinctTransfers(fetch.txs)
    && (forall i | 0 <= i < |fetch.txs| :: f.lastSeenBlock < fetch.txs[i].tx.block <= head)
    && (forall x | x in chain && f.lastSeenBlock < x.block <= head && Incoming(x, wallet) :: InBatch(fetch.txs, x))
  }

  ghost predicate InBatch(txs: seq<Seen>, x: Transfer) {
    exists i :: 0 <= i < |txs| && txs[i].tx == x
  }

  /** All wallets of the tick read the same snapshot. */
  ghost predicate SnapshotTick(f: Follow, e: Event, chain: set<Transfer>, head: int) {
    && e.Tick? && f.active && |e.fetches| == |WatchedWallets(f)|
    && forall i | 0 <= i < |e.fetches| :: FromSnapshot(f, WatchedWallets(f)[i], e.fetches[i], chain, head)
  }

  lemma {:induction false} BatchHandles(p: Progress, wallet: string, txs: seq<Seen>, x: Transfer)
    requires Eligible(x) && Incoming(x, wallet) && InBatch(txs, x)
    ensures Handled(ProcessBatch(p, wallet, txs).follow, wallet, x)
  {
    var init, s := txs[..|txs| - 1], txs[|txs| - 1];
    var q := ProcessBatch(p, wallet, init);
    var i :| 0 <= i < |txs| && txs[i].tx == x;
    if i < |init| {
      assert init[i].tx == x;
      BatchHandles(p, wallet, init, x);
      KeepsHandled(q.follow, ProcessTransfer(q, wallet, s).follow, wallet, x);
    } else {
      var r := ProcessTransfer(q, wallet, s).follow;
      assert r.executions[|r.executions| - 1].seen == x && r.executions[|r.executions| - 1].wallet == wallet;
    }
  }

  lemma KeepsHandled(f: Follow, g: Follow, wallet: string, x: Transfer)
    requires f.executions <= g.executions && Handled(f, wallet, x)
    ensures Handled(g, wallet, x)
  {
    var i :| 0 <= i < |f.executions| && f.executions[i].wallet == wallet && f.executions[i].seen == x;
    assert g.executions[i] == f.executions[i];
  }

  lemma {:induction false} WalletsHandle(p: Progress, wallets: seq<string>, fetches: seq<Fetch>, n: nat, x: Transfer)
    requires |fetches| == |wallets| && n < |wallets|
    requires !p.raised && forall i | 0 <= i < |fetches| :: fetches[i].Batch? && |fetches[i].txs| <= MAX_TX_PER_TICK
    requires Eligible(x) && Incoming(x, wallets[n]) && InBatch(fetches[n].txs, x)
    ensures Handled(ProcessWallets(p, wallets, fetches).follow, wallets[n], x)
  {
    var m := |wallets| - 1;
    var q := ProcessWallets(p, wallets[..m], fetches[..m]);
    NeverRaises(p, wallets[..m], fetches[..m]);
    if n == m {
      BatchHandles(q, wallets[m], fetches[m].txs, x);
    } else {
      WalletsHandle(p, wallets[..m], fetches[..m], n, x);
      BatchBlocks(q, wallets[m], fetches[m].txs);
      KeepsHandled(q.follow, ProcessWallets(p, wallets, fetches).follow, wallets[n], x);
    }
  }

  lemma {:induction false} NeverRaises(p: Progress, wallets: seq<string>, fetches: seq<Fetch>)
    requires |fetches| == |wallets| && !p.raised && forall i | 0 <= i < |fetches| :: fetches[i].Batch?
    ensures !ProcessWallets(p, wallets, fetches).raised
  {
    if |wallets| > 0 {
      var n := |wallets| - 1;
      NeverRaises(p, wallets[..n], fetches[..n]);
      BatchBlocks(ProcessWallets(p, wallets[..n], fetches[..n]), wallets[n], Truncate(fetches[n].txs));
    }
  }

  lemma {:induction false} BatchHead(p: Progress, wallet: string, txs: seq<Seen>, head: int)
    requires p.maxBlock <= head && forall i | 0 <= i < |txs| :: txs[i].tx.block <= head
    ensures ProcessBatch(p, wallet, txs).maxBlock <= head
  {
    if |txs| > 0 { BatchHead(p, wallet, txs[..|txs| - 1], head); }
  }

  lemma {:induction false} WalletsHead(p: Progress, wallets: seq<string>, fetches: seq<Fetch>, head: int)
    requires |fetches| == |wallets| && p.maxBlock <= head
    requires forall i | 0 <= i < |fetches| ::
      fetches[i].Batch? ==> forall j | 0 <= j < |fetches[i].txs| :: fetches[i].txs[j].tx.block <= head
    ensures ProcessWallets(p, wallets, fetches).maxBlock <= head
  {
    if |wallets| > 0 {
      var n := |wallets| - 1;
      WalletsHead(p, wallets[..n], fetches[..n], head);
      if fetches[n].Batch? {
        BatchHead(ProcessWallets(p, wallets[..n], fetches[..n]), wallets[n], Truncate(fetches[n].txs), head);
      }
    }
  }

  /** Every eligible incoming transfer above `base`, up to the given block, has a record. */
  ghost predicate Complete(f: Follow, chain: set<Transfer>, wallet: string, base: int, upTo: int) {
    forall x | x in chain && Eligible(x) && Incoming(x, wallet) && base < x.block <= upTo :: Handled(f, wallet, x)
  }

  lemma SnapshotHonours(f: Follow, e: Event, chain: set<Transfer>, head: int)
    requires e.Tick? && f.active ==> SnapshotTick(f, e, chain, head)
    ensures AllHonourStart(f, e) && Harmless(f, e)
  {
    if e.Tick? && f.active {
      var ws := WatchedWallets(f);
      forall i | 0 <= i < |e.fetches| ensures HonoursStart(e.fetches[i], f.lastSeenBlock + 1) && e.fetches[i].Batch? {
        assert FromSnapshot(f, ws[i], e.fetches[i], chain, head);
      }
    }
  }

  /** After a tick on a snapshot, everything up to its head has been handled, and the watermark is not past it. */
  lemma SnapshotTickCompletes(f: Follow, e: Event, chain: set<Transfer>, head: int, wallet: string, base: int)
    requires SnapshotTick(f, e, chain, head) && wallet in WatchedWallets(f)
    requires Complete(f, chain, wallet, base, f.lastSeenBlock)
    ensures Complete(Step(f, e), chain, wallet, base, head)
    ensures Complete(Step(f, e), chain, wallet, base, Step(f, e).lastSeenBlock)
  {
    var g, ws := ProcessFollow(f, e.fetches).follow, WatchedWallets(f);
    var p := Progress(f, f.lastSeenBlock, false);
    WalletsBlocks(p, ws, e.fetches);
    NeverRaises(p, ws, e.fetches);
    var n :| 0 <= n < |ws| && ws[n] == wallet;
    assert FromSnapshot(f, ws[n], e.fetches[n], chain, head);
    forall x | x in chain && Eligible(x) && Incoming(x, wallet) && base < x.block <= head ensures Handled(g, wallet, x) {
      if x.block <= f.lastSeenBlock {
        KeepsHandled(f, g, wallet, x);
      } else {
        assert InBatch(e.fetches[n].txs, x);
        WalletsHandle(p, ws, e.fetches, n, x);
      }
    }
    var top := if head >= f.lastSeenBlock then head else f.lastSeenBlock;
    WalletsHead(p, ws, e.fetches, top);
    forall x | x in chain && Eligible(x) && Incoming(x, wallet) && base < x.block <= g.lastSeenBlock ensures Handled(g, wallet, x) {
      if x.block <= f.lastSeenBlock { KeepsHandled(f, g, wallet, x); }
    }
    if Step(f, e) != g { NothingRecorded(f, g, chain, wallet, base, head); }
  }

  /** A tick that is not saved has recorded nothing, so nothing was there to handle. */
  lemma NothingRecorded(f: Follow, g: Follow, chain: set<Transfer>, wallet: string, base: int, head: int)
    requires f.executions <= g.executions && f.lastSeenBlock <= g.lastSeenBlock && Complete(g, chain, wallet, base, head)
    requires |g.executions| == |f.executions|
    ensures Complete(f, chain, wallet, base, head)
  {
    assert f.executions == g.executions;
    forall x | x in chain && Eligible(x) && Incoming(x, wallet) && base < x.block <= head ensures Handled(f, wallet, x) {
      KeepsHandled(g, f, wallet, x);
    }
  }

  /** Every tick of the run reads one snapshot of the chain and watches `wallet`. */
  ghost predicate SnapshotRun(f: Follow, events: seq<Event>, heads: seq<int>, chain: set<Transfer>, wallet: string) {
    && |heads| == |events|
    && forall i | 0 <= i < |events| ::
         events[i].Tick? && Run(f, events[..i]).active ==>
           SnapshotTick(Run(f, events[..i]), events[i], chain, heads[i]) && wallet in WatchedWallets(Run(f, events[..i]))
  }

  lemma StepCompletes(f: Follow, e: Event, chain: set<Transfer>, head: int, wallet: string, base: int)
    requires e.Tick? && f.active ==> SnapshotTick(f, e, chain, head) && wallet in WatchedWallets(f)
    requires Complete(f, chain, wallet, base, f.lastSeenBlock)
    ensures Complete(Step(f, e), chain, wallet, base, Step(f, e).lastSeenBlock)
  {
    if e.Tick? && f.active {
      SnapshotTickCompletes(f, e, chain, head, wallet, base);
    } else {
      var g := Step(f, e);
      forall x | x in chain && Eligible(x) && Incoming(x, wallet) && base < x.block <= g.lastSeenBlock ensures Handled(g, wallet, x) {
        KeepsHandled(f, g, wallet, x);
      }
    }
  }

  lemma {:induction false} RunCompletes(f: Follow, events: seq<Event>, heads: seq<int>, chain: set<Transfer>, wallet: string)
    requires SnapshotRun(f, events, heads, chain, wallet)
    ensures var g := Run(f, events); Complete(g, chain, wallet, f.lastSeenBlock, g.lastSeenBlock)
  {
    if |events| > 0 {
      var n := |events| - 1;
      assert forall i | 0 <= i < n :: events[..n][..i] == events[..i];
      RunCompletes(f, events[..n], heads[..n], chain, wallet);
      assert events[..n] == events[..|events| - 1];
      StepCompletes(Run(f, events[..n]), events[n], chain, heads[n], wallet, f.lastSeenBlock);
    }
  }

  /** Records of one (wallet, transfer). */
  function TimesHandled(xs: seq<Execution>, wallet: string, x: Transfer): nat {
    if |xs| == 0 then 0
    else
      var last := xs[|xs| - 1];
      TimesHandled(xs[..|xs| - 1], wallet, x) + if last.wallet == wallet && last.seen == x then 1 else 0
  }

  lemma {:induction false} NoRepeatsCount(xs: seq<Execution>, wallet: string, x: Transfer)
    requires NoRepeats(xs)
    ensures TimesHandled(xs, wallet, x) == if exists i :: 0 <= i < |xs| && xs[i].wallet == wallet && xs[i].seen == x then 1 else 0
  {
    if |xs| > 0 {
      var init, last := xs[..|xs| - 1], xs[|xs| - 1];
      NoRepeatsCount(init, wallet, x);
      if exists i :: 0 <= i < |init| && init[i].wallet == wallet && init[i].seen == x {
        var i :| 0 <= i < |init| && init[i].wallet == wallet && init[i].seen == x;
        assert xs[i] == init[i] && !SameKey(xs[i], last);
      } else if last.wallet == wallet && last.seen == x {
        assert xs[|xs| - 1] == last;
      }
    }
  }

  /**
   When no batch is truncated, ticks read one snapshot each and `wallet` stays watched, every
   eligible incoming transfer above the starting block and up to the last tick's head is handled
   exactly once.
   */
  lemma HandledExactlyOnce(f: Follow, events: seq<Event>, heads: seq<int>, chain: set<Transfer>, wallet: string, x: Transfer)
    requires NewFollow(f) && |events| > 0 && SnapshotRun(f, events, heads, chain, wallet)
    requires events[|events| - 1].Tick? && Run(f, events[..|events| - 1]).active
    requires x in chain && Eligible(x) && Incoming(x, wallet) && f.lastSeenBlock < x.block <= heads[|events| - 1]
    ensures TimesHandled(Run(f, events).executions, wallet, x) == 1
  {
    var n := |events| - 1;
    var g := Run(f, events[..n]);
    assert forall i | 0 <= i < n :: events[..n][..i] == events[..i];
    RunCompletes(f, events[..n], heads[..n], chain, wallet);
    SnapshotTickCompletes(g, events[n], chain, heads[n], wallet, f.lastSeenBlock);
    forall i | 0 <= i < |events|
      ensures AllHonourStart(Run(f, events[..i]), events[i]) && Harmless(Run(f, events[..i]), events[i])
    {
      SnapshotHonours(Run(f, events[..i]), events[i], chain, heads[i]);
    }
    ActedOnAtMostOnce(f, events);
    NoRepeatsCount(Run(f, events).executions, wallet, x);
  }

  // ---- a raised fetch does repeat --------------------------------------------------------------

  /**
   When the fetch for a later wallet raises, the records made for an earlier one stay while the watermark
   does not move: a follow of two wallets buys the same transfer again at the next tick.
   */
  lemma RaiseRepeats(f: Follow, e: Event, s: Seen)
    requires NewFollow(f) && Live(f, e) && |e.fetches| == 2 && e.fetches == [Batch([s]), Raises]
    requires s.tx.block > f.lastSeenBlock && Eligible(s.tx) && Incoming(s.tx, WatchedWallets(f)[0])
    ensures AllHonourStart(f, e) && !NoRepeats(Run(f, [e, e]).executions)
  {
    assert e.fetches[1].Raises? && Reaches(e.fetches, 0) && Truncate(e.fetches[0].txs)[0] == s;
    assert LeavesRecord(f, WatchedWallets(f)[0], Truncate(e.fetches[0].txs)[0].tx);
    RepeatsIff(f, e);
  }
}
