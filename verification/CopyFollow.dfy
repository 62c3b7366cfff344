/** The follow record that a copy tick updates in place, against the functions of `CopyTrader`. */
module CopyFollow {
  import opened Bytes
  import opened SlidingCap
  import opened CopyTrader

  class Following {
    const sender: string
    const wallet: string
    var extraWallets: seq<string>
    var ethPerCopy: real
    const pct: Option<real>
    var invert: bool
    var dailyCap: Option<real>
    var maxTotal: Option<real>
    var maxFailures: int
    var blocklist: set<string>
    var active: bool
    var lastSeenBlock: int
    var totalSpent: real
    var executions: seq<Execution>

    function Model(): Follow
      reads this
    {
      Follow(sender, wallet, extraWallets, ethPerCopy, pct, invert, dailyCap, maxTotal, maxFailures, blocklist,
             active, lastSeenBlock, totalSpent, executions)
    }

    /** `/copy add`. */
    constructor (sender: string, wallet: string, extraWallets: seq<string>, ethPerCopy: real, pct: Option<real>,
                 invert: bool, dailyCap: Option<real>, maxTotal: Option<real>, maxFailures: int, blocklist: set<string>,
                 head: int)
      requires ethPerCopy > 0.0 && (pct.Some? ==> pct.value > 0.0) && Positive(dailyCap) && Positive(maxTotal)
      requires maxFailures >= 1 && wallet != ""
      ensures NewFollow(Model()) && Model().lastSeenBlock == head
      ensures Model().sender == sender && Model().dailyCap == dailyCap && Model().maxTotal == maxTotal
    {
      this.sender, this.wallet, this.extraWallets := sender, wallet, extraWallets;
      this.ethPerCopy, this.pct, this.invert := ethPerCopy, pct, invert;
      this.dailyCap, this.maxTotal, this.maxFailures, this.blocklist := dailyCap, maxTotal, maxFailures, blocklist;
      this.active, this.lastSeenBlock, this.totalSpent, this.executions := true, head, 0.0, [];
    }

    /** `_spend_in_last_24h`. */
    method SpentInLastDay(now: int) returns (total: real)
      ensures total == SpendInLastDay(Model(), now)
    {
      var cutoff := now - DAY;
      total := 0.0;
      var i := 0;
      assert Entries(executions)[..0] == [];
      while i < |executions|
        invariant 0 <= i <= |executions|
        invariant total == Estimate(ethPerCopy, Entries(executions), i, cutoff)
      {
        EstimateStep(ethPerCopy, Entries(executions), i, cutoff);
        var run := executions[i];
        if run.status == Done && run.at >= cutoff {
          total := total + ethPerCopy;
        }
        i := i + 1;
      }
      assert Entries(executions)[..|executions|] == Entries(executions);
    }

    /** `_execute_copy`. */
    method Execute(amount: real, s: Seen) returns (status: Status)
      ensures status == ExecuteCopy(Model(), amount, s)
    {
      if maxTotal.Some? && totalSpent + amount > maxTotal.value {
        return TotalCapped;
      }
      if dailyCap.Some? {
        var spent := SpentInLastDay(s.checkAt);
        if spent + amount > dailyCap.value {
          return DailyCapped;
        }
      }
      match s.swap
      case NoWallet => return Walletless;
      case Fails => return Failed;
      case Succeeds => return Done;
    }

    /** The body of the transfer loop, for a transfer of a proper token. */
    method Handle(walletLower: string, s: Seen)
      requires Eligible(s.tx)
      modifies `executions, `totalSpent
      ensures Model() == HandleTransfer(old(Model()), walletLower, s)
    {
      if s.tx.token in blocklist {
        executions := executions + [Execution(s.recordAt, s.tx, walletLower, Unacted, 0.0, Blocklisted)];
      } else if Incoming(s.tx, walletLower) {
        var amount := CopyAmount(Model(), s);
        var status := Execute(amount, s);
        executions := executions + [Execution(s.recordAt, s.tx, walletLower, Buy, amount, status)];
        if status == Done {
          totalSpent := totalSpent + amount;
        }
      } else if Outgoing(s.tx, walletLower) && invert {
        executions := executions + [Execution(s.recordAt, s.tx, walletLower, Sell, 0.0, ExecuteSell(s))];
      }
    }

    /** `_all_watched_wallets`. */
    method AllWatchedWallets() returns (out: seq<string>)
      ensures out == WatchedWallets(Model())
    {
      var seen: set<string> := {};
      out := [];
      if wallet != "" {
        seen := seen + {wallet};
        out := out + [wallet];
      }
      ghost var start := out;
      assert start == if wallet == "" then [] else [wallet];
      var i := 0;
      while i < |extraWallets|
        invariant 0 <= i <= |extraWallets|
        invariant out == AddUnseen(start, extraWallets[..i])
        invariant forall w :: w in seen <==> w in out
      {
        var w := extraWallets[i];
        assert extraWallets[..i + 1][..i] == extraWallets[..i];
        if w !in seen {
          seen := seen + {w};
          out := out + [w];
        }
        i := i + 1;
      }
      assert extraWallets[..|extraWallets|] == extraWallets;
    }

    /** `_maybe_auto_pause`. */
    method MaybeAutoPause()
      requires maxFailures >= 1
      modifies `active
      ensures Model() == AutoPaused(old(Model()))
    {
      if |executions| < maxFailures {
        return;
      }
      var i := |executions| - maxFailures;
      while i < |executions|
        invariant |executions| - maxFailures <= i <= |executions|
        invariant forall k | |executions| - maxFailures <= k < i :: IsFailure(executions[k].status)
        invariant Model() == old(Model())
      {
        if !IsFailure(executions[i].status) {
          return;
        }
        i := i + 1;
      }
      active := false;
    }

    /** `/copy pause`, `resume` and `edit`: one field at a time, a value out of range refused. */
    method Command(e: Event)
      requires !e.Tick?
      modifies this
      ensures Model() == Step(old(Model()), e)
    {
      match e
      case Pause => active := false;
      case Resume => active := true;
      case EditEthPerCopy(v) => if v > 0.0 { ethPerCopy := v; }
      case EditDailyCap(cap) => if Positive(cap) { dailyCap := cap; }
      case EditMaxTotal(total) => if Positive(total) { maxTotal := total; }
      case EditMaxFailures(n) => if n >= 1 { maxFailures := n; }
      case EditBlocklist(tokens) => blocklist := tokens;
      case EditInvert(on) => invert := on;
      case EditExtraWallets(wallets) => extraWallets := wallets;
    }

    /** One wallet's transfers. */
    method ProcessOneWallet(walletLower: string, txs: seq<Seen>, maxBlock: int) returns (highest: int)
      modifies `executions, `totalSpent
      ensures Progress(Model(), highest, false) == ProcessBatch(Progress(old(Model()), maxBlock, false), walletLower, txs)
    {
      ghost var start := Progress(Model(), maxBlock, false);
      highest := maxBlock;
      var i := 0;
      while i < |txs|
        invariant 0 <= i <= |txs|
        invariant Progress(Model(), highest, false) == ProcessBatch(start, walletLower, txs[..i])
      {
        assert txs[..i + 1][..i] == txs[..i];
        if Eligible(txs[i].tx) {
          if txs[i].tx.block > highest {
            highest := txs[i].tx.block;
          }
          Handle(walletLower, txs[i]);
        }
        i := i + 1;
      }
      assert txs[..|txs|] == txs;
    }

    /** `_process_follow`: the explorer's answers come wallet by wallet; `raised` is an exception leaving it. */
    method Process(fetches: seq<Fetch>) returns (raised: bool)
      requires maxFailures >= 1 && |fetches| == |WatchedWallets(Model())|
      modifies `executions, `totalSpent, `lastSeenBlock, `active
      ensures Model() == ProcessFollow(old(Model()), fetches).follow
      ensures raised == ProcessFollow(old(Model()), fetches).raised
    {
      var wallets := AllWatchedWallets();
      var maxBlock := lastSeenBlock;
      ghost var start := Progress(Model(), lastSeenBlock, false);
      var i := 0;
      while i < |wallets|
        invariant 0 <= i <= |wallets|
        invariant Progress(Model(), maxBlock, false) == ProcessWallets(start, wallets[..i], fetches[..i])
        invariant maxFailures == start.follow.maxFailures
      {
        assert wallets[..i + 1][..i] == wallets[..i] && fetches[..i + 1][..i] == fetches[..i];
        match fetches[i] {
          case Raises =>
            StaysRaised(start, wallets, fetches, i + 1);
            return true;
          case Batch(txs) =>
            maxBlock := ProcessOneWallet(wallets[i], Truncate(txs), maxBlock);
        }
        i := i + 1;
      }
      assert wallets[..|wallets|] == wallets && fetches[..|wallets|] == fetches;
      lastSeenBlock := maxBlock;
      MaybeAutoPause();
      raised := false;
    }
  }

  /** Once a fetch has raised, the wallets after it are not reached. */
  lemma {:induction false} StaysRaised(p: Progress, wallets: seq<string>, fetches: seq<Fetch>, n: nat)
    requires |fetches| == |wallets| && n <= |wallets| && ProcessWallets(p, wallets[..n], fetches[..n]).raised
    ensures ProcessWallets(p, wallets, fetches) == ProcessWallets(p, wallets[..n], fetches[..n])
  {
    var m := |wallets| - 1;
    if n == |wallets| {
      assert wallets[..n] == wallets && fetches[..n] == fetches;
    } else {
      assert wallets[..m][..n] == wallets[..n] && fetches[..m][..n] == fetches[..n];
      StaysRaised(p, wallets[..m], fetches[..m], n);
    }
  }

  // ---- a tick over all follows ------------------------------------------------------------------

  predicate DistinctFollows(all: seq<Following>) {
    forall i, j | 0 <= i < j < |all| :: all[i] != all[j]
  }

  ghost predicate Are(all: seq<Following>, models: seq<Follow>)
    reads all
  {
    |models| == |all| && forall i | 0 <= i < |all| :: all[i].Model() == models[i]
  }

  /** The explorer answers for each watched wallet of an active follow. */
  ghost predicate Answered(models: seq<Follow>, answers: seq<seq<Fetch>>) {
    && |answers| == |models|
    && forall i | 0 <= i < |models| :: models[i].maxFailures >= 1 && (models[i].active ==> |answers[i]| == |WatchedWallets(models[i])|)
  }

  /** Whether a follow's own tick prints a line. */
  predicate Speaks(f: Follow, fetches: seq<Fetch>) {
    f.active && |fetches| == |WatchedWallets(f)| &&
    (ProcessFollow(f, fetches).raised || |ProcessFollow(f, fetches).follow.executions| > |f.executions|)
  }

  function Processed(f: Follow, fetches: seq<Fetch>): Follow {
    if f.active && |fetches| == |WatchedWallets(f)| then ProcessFollow(f, fetches).follow else f
  }

  /** The follows in memory when the first `n` have had their turn. */
  ghost function InMemory(models: seq<Follow>, answers: seq<seq<Fetch>>, n: nat): (r: seq<Follow>)
    requires |answers| == |models|
    ensures |r| == |models|
    ensures forall i | 0 <= i < |models| :: r[i] == if i < n then Processed(models[i], answers[i]) else models[i]
  {
    seq(|models|, i requires 0 <= i < |models| => if i < n then Processed(models[i], answers[i]) else models[i])
  }

  /**
   `_run_due_with_lines`: every active follow in turn, an exception ending only its own turn; the
   state is saved when some line was printed.
   */
  method RunDue(all: seq<Following>, answers: seq<seq<Fetch>>, ghost models: seq<Follow>) returns (saved: bool)
    requires DistinctFollows(all) && Are(all, models) && Answered(models, answers)
    modifies all
    ensures Are(all, InMemory(models, answers, |all|))
    ensures saved <==> exists i :: 0 <= i < |models| && Speaks(models[i], answers[i])
  {
    saved := false;
    for n := 0 to |all|
      invariant Are(all, InMemory(models, answers, n))
      invariant saved <==> exists i :: 0 <= i < n && Speaks(models[i], answers[i])
    {
      var spoke := RunOne(all, n, answers, models);
      saved := saved || spoke;
    }
  }

  method RunOne(all: seq<Following>, n: nat, answers: seq<seq<Fetch>>, ghost models: seq<Follow>) returns (spoke: bool)
    requires n < |all| && DistinctFollows(all) && Answered(models, answers) && |models| == |all|
    requires Are(all, InMemory(models, answers, n))
    modifies all[n]
    ensures Are(all, InMemory(models, answers, n + 1)) && spoke == Speaks(models[n], answers[n])
  {
    assert all[n].Model() == models[n];
    spoke := false;
    if all[n].active {
      var before := |all[n].executions|;
      var raised := all[n].Process(answers[n]);
      spoke := raised || |all[n].executions| > before;
    }
  }

  /** What is on disk after a tick is, follow by follow, the tick of the run model. */
  lemma DiskIsTicked(models: seq<Follow>, answers: seq<seq<Fetch>>, saved: bool, i: nat)
    requires Answered(models, answers) && i < |models|
    requires saved <==> exists j :: 0 <= j < |models| && Speaks(models[j], answers[j])
    ensures exists others: bool ::
      (if saved then InMemory(models, answers, |models|)[i] else models[i]) == Step(models[i], Tick(answers[i], others))
  {
    var others := exists j :: 0 <= j < |models| && j != i && Speaks(models[j], answers[j]);
    assert saved <==> others || Speaks(models[i], answers[i]);
    assert (if saved then InMemory(models, answers, |models|)[i] else models[i]) == Step(models[i], Tick(answers[i], others));
  }
}
