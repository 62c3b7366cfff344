/** The copy trader's tick (clawmes/commands/copy.py) on the values of one follow. */
module CopyTrader {
  import opened Bytes
  import opened SlidingCap

  const MAX_TX_PER_TICK := 20
  const WEI_PER_ETH := 1000000000000000000.0

  /** A token transfer on chain; `uid` tells transfers apart. Addresses are lower-case text. */
  datatype Transfer = Transfer(uid: nat, block: int, src: string, dst: string, token: string)

  /**
   A transfer as a tick sees it, with what the world answered while it was handled: the watched
   transaction's ETH value, the clock at the cap check and at recording, our balance, the swap.
   */
  datatype Seen = Seen(tx: Transfer, targetWei: int, checkAt: int, recordAt: int, balance: int, swap: Swap)

  /** What one explorer request gave. */
  datatype Fetch = Raises | Batch(txs: seq<Seen>)

  datatype Status = Done | Failed | Walletless | DailyCapped | TotalCapped | Blocklisted | NoBalance

  datatype Direction = Buy | Sell | Unacted

  datatype Execution =
    Execution(at: int, seen: Transfer, wallet: string, direction: Direction, ethAmount: real, status: Status)

  datatype Follow = Follow(
    sender: string,
    wallet: string,
    extraWallets: seq<string>,
    ethPerCopy: real,
    pct: Option<real>,
    invert: bool,
    dailyCap: Option<real>,
    maxTotal: Option<real>,
    maxFailures: int,
    blocklist: set<string>,
    active: bool,
    lastSeenBlock: int,
    totalSpent: real,
    executions: seq<Execution>)

  // ---- amounts and safeguards ---------------------------------------------------------

  function Min(a: real, b: real): real {
    if a <= b then a else b
  }

  /** `_compute_copy_amount`: fixed, or scaled to the watched transaction and capped at the fixed amount. */
  function CopyAmount(f: Follow, s: Seen): real {
    if f.pct.None? || s.targetWei <= 0 then f.ethPerCopy
    else Min(s.targetWei as real / WEI_PER_ETH * (f.pct.value / 100.0), f.ethPerCopy)
  }

  /** What an execution record contributes to the daily window: a sell spends nothing. */
  function EntryOf(x: Execution): Entry {
    Entry(x.at, x.status == Done, x.ethAmount)
  }

  function Entries(xs: seq<Execution>): (r: seq<Entry>)
    ensures |r| == |xs| && forall i | 0 <= i < |xs| :: r[i] == EntryOf(xs[i])
  {
    seq(|xs|, i requires 0 <= i < |xs| => EntryOf(xs[i]))
  }

  /** `_spend_in_last_24h`: the current per-copy amount for every ok record of the last day. */
  function SpendInLastDay(f: Follow, now: int): real {
    f.ethPerCopy * CountSince(Entries(f.executions), now - DAY) as real
  }

  /** `_execute_copy`: lifetime cap, daily cap, wallet, swap, in that order. */
  function ExecuteCopy(f: Follow, amount: real, s: Seen): Status {
    if f.maxTotal.Some? && f.totalSpent + amount > f.maxTotal.value then TotalCapped
    else if f.dailyCap.Some? && SpendInLastDay(f, s.checkAt) + amount > f.dailyCap.value then DailyCapped
    else match s.swap
      case NoWallet => Walletless
      case Fails => Failed
      case Succeeds => Done
  }

  /** `_execute_sell`: the wallet, then our balance, then the swap. */
  function ExecuteSell(s: Seen): Status {
    if s.swap.NoWallet? then Walletless
    else if s.balance <= 0 then NoBalance
    else if s.swap.Succeeds? then Done else Failed
  }

  // ---- one transfer ---------------------------------------------------------------------

  predicate Eligible(tx: Transfer) {
    |tx.token| == 42
  }

  predicate Incoming(tx: Transfer, wallet: string) {
    tx.dst == wallet
  }

  predicate Outgoing(tx: Transfer, wallet: string) {
    tx.src == wallet && tx.dst != wallet
  }

  /** The record a transfer leaves, if it leaves one. */
  function RecordFor(f: Follow, wallet: string, s: Seen): Option<Execution> {
    if !Eligible(s.tx) then None
    else if s.tx.token in f.blocklist then Some(Execution(s.recordAt, s.tx, wallet, Unacted, 0.0, Blocklisted))
    else if Incoming(s.tx, wallet) then
      var amount := CopyAmount(f, s);
      Some(Execution(s.recordAt, s.tx, wallet, Buy, amount, ExecuteCopy(f, amount, s)))
    else if Outgoing(s.tx, wallet) && f.invert then
      Some(Execution(s.recordAt, s.tx, wallet, Sell, 0.0, ExecuteSell(s)))
    else None
  }

  function HandleTransfer(f: Follow, wallet: string, s: Seen): Follow {
    var x := RecordFor(f, wallet, s);
    if x.None? then f
    else
      f.(executions := f.executions + [x.value],
         totalSpent := f.totalSpent + if x.value.direction == Buy && x.value.status == Done then x.value.ethAmount else 0.0)
  }

  /** A follow part-way through a tick, with the highest block met so far. */
  datatype Progress = Progress(follow: Follow, maxBlock: int, raised: bool)

  function ProcessTransfer(p: Progress, wallet: string, s: Seen): Progress {
    if !Eligible(s.tx) then p
    else Progress(HandleTransfer(p.follow, wallet, s), if s.tx.block > p.maxBlock then s.tx.block else p.maxBlock, p.raised)
  }

  function ProcessBatch(p: Progress, wallet: string, txs: seq<Seen>): Progress {
    if |txs| == 0 then p
    else ProcessTransfer(ProcessBatch(p, wallet, txs[..|txs| - 1]), wallet, txs[|txs| - 1])
  }

  function Truncate(txs: seq<Seen>): (r: seq<Seen>)
    ensures r <= txs && |r| == if |txs| <= 20 then |txs| else 20
  {
    if |txs| > MAX_TX_PER_TICK then txs[..MAX_TX_PER_TICK] else txs
  }

  /** Wallets in turn; an explorer failure ends the follow's tick where it is. */
  function ProcessWallets(p: Progress, wallets: seq<string>, fetches: seq<Fetch>): Progress
    requires |fetches| == |wallets|
  {
    if |wallets| == 0 then p
    else
      var n := |wallets| - 1;
      var q := ProcessWallets(p, wallets[..n], fetches[..n]);
      if q.raised then q
      else match fetches[n]
        case Raises => q.(raised := true)
        case Batch(txs) => ProcessBatch(q, wallets[n], Truncate(txs))
  }

  // ---- a tick of one follow ------------------------------------------------------------------

  function AddUnseen(out: seq<string>, ws: seq<string>): seq<string> {
    if |ws| == 0 then out
    else
      var init := AddUnseen(out, ws[..|ws| - 1]);
      if ws[|ws| - 1] in init then init else init + [ws[|ws| - 1]]
  }

  /** `_all_watched_wallets`: the primary wallet and the extras, once each. */
  function WatchedWallets(f: Follow): seq<string> {
    AddUnseen(if f.wallet == "" then [] else [f.wallet], f.extraWallets)
  }

  predicate IsFailure(s: Status) {
    s == Failed || s == Walletless || s == DailyCapped || s == TotalCapped
  }

  /** `_maybe_auto_pause`: pause when the last `maxFailures` records are all failures. */
  predicate StreakReached(f: Follow) {
    0 <= f.maxFailures <= |f.executions|
    && forall i | |f.executions| - f.maxFailures <= i < |f.executions| :: IsFailure(f.executions[i].status)
  }

  function AutoPaused(f: Follow): Follow {
    if StreakReached(f) then f.(active := false) else f
  }

  function ProcessFollow(f: Follow, fetches: seq<Fetch>): Progress
    requires |fetches| == |WatchedWallets(f)|
  {
    var p := ProcessWallets(Progress(f, f.lastSeenBlock, false), WatchedWallets(f), fetches);
    if p.raised then p else p.(follow := AutoPaused(p.follow.(lastSeenBlock := p.maxBlock)))
  }

  /**
   What a tick leaves behind: the state is saved only when some line was printed, by this follow (every
   record and every error prints one) or by `others` of the same tick.
   */
  function Ticked(f: Follow, fetches: seq<Fetch>, others: bool): Follow
    requires |fetches| == |WatchedWallets(f)|
  {
    var p := ProcessFollow(f, fetches);
    if p.raised || others || |p.follow.executions| > |f.executions| then p.follow else f
  }

  // ---- commands and ticks over a follow's life --------------------------------------------------

  datatype Event =
    | Tick(fetches: seq<Fetch>, others: bool)
    | Pause
    | Resume
    | EditEthPerCopy(v: real)
    | EditDailyCap(cap: Option<real>)
    | EditMaxTotal(total: Option<real>)
    | EditMaxFailures(n: int)
    | EditBlocklist(tokens: set<string>)
    | EditInvert(on: bool)
    | EditExtraWallets(wallets: seq<string>)

  /** One event; refused edits, and ticks of a follow that is not active, change nothing. */
  function Step(f: Follow, e: Event): Follow {
    match e
    case Tick(fetches, others) => if f.active && |fetches| == |WatchedWallets(f)| then Ticked(f, fetches, others) else f
    case Pause => f.(active := false)
    case Resume => f.(active := true)
    case EditEthPerCopy(v) => if v <= 0.0 then f else f.(ethPerCopy := v)
    case EditDailyCap(cap) => if Positive(cap) then f.(dailyCap := cap) else f
    case EditMaxTotal(total) => if Positive(total) then f.(maxTotal := total) else f
    case EditMaxFailures(n) => if n < 1 then f else f.(maxFailures := n)
    case EditBlocklist(tokens) => f.(blocklist := tokens)
    case EditInvert(on) => f.(invert := on)
    case EditExtraWallets(wallets) => f.(extraWallets := wallets)
  }

  function Run(f: Follow, events: seq<Event>): Follow {
    if |events| == 0 then f else Step(Run(f, events[..|events| - 1]), events[|events| - 1])
  }

  /** A follow as `/copy add` stores it. */
  predicate NewFollow(f: Follow) {
    && f.ethPerCopy > 0.0 && (f.pct.None? || 0.0 < f.pct.value) && Positive(f.dailyCap) && Positive(f.maxTotal)
    && f.maxFailures >= 1 && f.wallet != "" && f.active
    && f.executions == [] && f.totalSpent == 0.0
  }
}
