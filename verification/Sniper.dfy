/** The launch sniper (clawmes/commands/sniper.py) on the values of one config. */
module Sniper {
  import opened Bytes
  import opened AutoSell

  /** An entry of the launches feed, its timestamp already read as epoch seconds; lower-case address. */
  datatype Launch = Launch(addr: string, epoch: int, source: string, symbolHit: bool, mcap: Option<real>)

  /** An entry as a tick meets it: whether reading its fields raises, what a buy and a price read would give. */
  datatype Seen = Seen(launch: Launch, raises: bool, bought: bool, price: Option<real>)

  datatype Status = Active | Paused | Exhausted

  datatype Snipe = Snipe(token: string, ok: bool)

  datatype Config = Config(
    maxBuys: int,
    buysMade: nat,
    lastSeen: int,
    maxAge: int,
    sourceFilter: string,
    symbolFilter: bool,
    maxMcap: Option<real>,
    rules: Rules,
    status: Status,
    snipes: seq<Snipe>,
    watches: seq<Watch>)

  // ---- matching launches -------------------------------------------------------------------

  predicate HasAddress(l: Launch) {
    |l.addr| >= 2 && l.addr[..2] == "0x"
  }

  /** New since the last tick, and young enough. */
  predicate Fresh(c: Config, l: Launch, now: int) {
    HasAddress(l) && l.epoch > c.lastSeen && now - l.epoch <= c.maxAge
  }

  predicate Selected(c: Config, l: Launch) {
    && (c.sourceFilter == "" || Lower(l.source) == Lower(c.sourceFilter))
    && (c.symbolFilter ==> l.symbolHit)
    && (c.maxMcap.Some? && l.mcap.Some? ==> l.mcap.value <= c.maxMcap.value)
  }

  predicate Watches(r: Rules) {
    r.gain.Some? || r.trail.Some?
  }

  /** One buy: recorded, counted when it went through, and then watched if a price can be read. */
  function Fired(c: Config, s: Seen): Config {
    var snipes := c.snipes + [Snipe(s.launch.addr, s.bought)];
    if !s.bought then c.(snipes := snipes)
    else if Watches(c.rules) && s.price.Some? && s.price.value > 0.0 then
      c.(snipes := snipes, buysMade := c.buysMade + 1,
         watches := c.watches + [Watch(s.launch.addr, s.price.value, s.price.value, Watching, 0.0, None)])
    else c.(snipes := snipes, buysMade := c.buysMade + 1)
  }

  datatype Pass = Pass(config: Config, raised: bool)

  function TryLaunch(p: Pass, s: Seen, now: int): Pass {
    if p.raised || p.config.buysMade >= p.config.maxBuys || !Fresh(p.config, s.launch, now) then p
    else if s.raises then p.(raised := true)
    else if Selected(p.config, s.launch) then Pass(Fired(p.config, s), false)
    else p
  }

  /** `_process_config`: launches in feed order, until the limit is reached. */
  function ProcessConfig(p: Pass, feed: seq<Seen>, now: int): Pass {
    if |feed| == 0 then p else TryLaunch(ProcessConfig(p, feed[..|feed| - 1], now), feed[|feed| - 1], now)
  }

  function LookAt(looks: seq<Look>, i: nat): Look {
    if i < |looks| then looks[i] else Look(None, false)
  }

  function EvaluateWatches(c: Config, looks: seq<Look>): Config {
    if !Watches(c.rules) then c
    else c.(watches := seq(|c.watches|, i requires 0 <= i < |c.watches| => Evaluate(c.rules, c.watches[i], LookAt(looks, i))))
  }

  // ---- a tick of one config -------------------------------------------------------------------

  /** Processing an active config; without an exception its clock advances and a full config is exhausted. */
  function Processed(c: Config, feed: seq<Seen>, now: int): Pass {
    if c.status != Active then Pass(c, false)
    else
      var p := ProcessConfig(Pass(c, false), feed, now);
      if p.raised then p
      else
        Pass(p.config.(lastSeen := now, status := if p.config.buysMade >= p.config.maxBuys then Exhausted else Active), false)
  }

  /** Whether the tick prints a line for this config. */
  predicate Speaks(c: Config, feed: seq<Seen>, now: int, looks: seq<Look>) {
    var p := Processed(c, feed, now);
    || p.raised || |p.config.snipes| > |c.snipes|
    || (Watches(c.rules)
        && exists i :: 0 <= i < |p.config.watches| && Sells(c.rules, p.config.watches[i], LookAt(looks, i)))
  }

  /**
   `_run_due_with_lines` for one config. The feed is absent when fetching failed; an empty feed only
   advances the clock; otherwise the result is saved when this config or `others` printed a line.
   `othersActive` says that another config is active, so that the tick happens at all.
   */
  function Ticked(c: Config, feed: Option<seq<Seen>>, now: int, looks: seq<Look>, others: bool, othersActive: bool): Config {
    if feed.None? || (c.status != Active && !othersActive) then c
    else if |feed.value| == 0 then if c.status == Active then c.(lastSeen := now) else c
    else if others || Speaks(c, feed.value, now, looks) then EvaluateWatches(Processed(c, feed.value, now).config, looks)
    else c
  }

  /** `EditFilters` sets the three filters; an edit of one of them repeats the other two. */
  datatype Event =
    | Tick(feed: Option<seq<Seen>>, now: int, looks: seq<Look>, others: bool, othersActive: bool)
    | Pause
    | Resume
    | EditMaxBuys(n: int)
    | EditMaxAge(n: int)
    | EditFilters(source: string, symbol: bool, mcap: Option<real>)

  function Step(c: Config, e: Event): Config {
    match e
    case Tick(feed, now, looks, others, othersActive) => Ticked(c, feed, now, looks, others, othersActive)
    case Pause => c.(status := Paused)
    case Resume => c.(status := Active)
    case EditMaxBuys(n) => if n < 1 then c else c.(maxBuys := n)
    case EditMaxAge(n) => if n < 1 then c else c.(maxAge := n)
    case EditFilters(source, symbol, mcap) =>
      if mcap.Some? && mcap.value <= 0.0 then c
      else c.(sourceFilter := source, symbolFilter := symbol, maxMcap := mcap)
  }

  function Run(c: Config, events: seq<Event>): Config {
    if |events| == 0 then c else Step(Run(c, events[..|events| - 1]), events[|events| - 1])
  }

  /** A config as `/sniper add` stores it. */
  predicate NewConfig(c: Config) {
    c.maxBuys >= 1 && c.buysMade == 0 && c.maxAge >= 1 && c.status == Active && c.snipes == [] && c.watches == []
  }

  // ---- the buy limit --------------------------------------------------------------------------

  function CountOk(xs: seq<Snipe>): nat {
    if |xs| == 0 then 0 else CountOk(xs[..|xs| - 1]) + if xs[|xs| - 1].ok then 1 else 0
  }

  /** The counter is right, and every snipe beyond the first `from` was submitted below the limit. */
  ghost predicate WithinLimit(c: Config, from: nat) {
    && c.buysMade == CountOk(c.snipes)
    && forall i | from <= i < |c.snipes| :: CountOk(c.snipes[..i]) < c.maxBuys
  }

  lemma TryWithinLimit(p: Pass, s: Seen, now: int, from: nat)
    requires WithinLimit(p.config, from)
    ensures WithinLimit(TryLaunch(p, s, now).config, from)
  {
    var c, d := p.config, TryLaunch(p, s, now).config;
    if d.snipes != c.snipes {
      assert d.snipes[..|c.snipes|] == c.snipes;
      forall i | from <= i < |d.snipes| ensures CountOk(d.snipes[..i]) < d.maxBuys {
        if i < |c.snipes| { assert d.snipes[..i] == c.snipes[..i]; }
      }
    }
  }

  lemma {:induction false} FeedWithinLimit(p: Pass, feed: seq<Seen>, now: int, from: nat)
    requires WithinLimit(p.config, from)
    ensures var q := ProcessConfig(p, feed, now);
      && WithinLimit(q.config, from) && q.config == p.config.(snipes := q.config.snipes, buysMade := q.config.buysMade, watches := q.config.watches)
      && p.config.snipes <= q.config.snipes
  {
    if |feed| > 0 {
      FeedWithinLimit(p, feed[..|feed| - 1], now, from);
      TryWithinLimit(ProcessConfig(p, feed[..|feed| - 1], now), feed[|feed| - 1], now, from);
    }
  }

  lemma {:induction false} FullStays(p: Pass, feed: seq<Seen>, now: int)
    requires p.config.buysMade >= p.config.maxBuys
    ensures ProcessConfig(p, feed, now) == p
  {
    if |feed| > 0 { FullStays(p, feed[..|feed| - 1], now); }
  }

  /**
   Each event leaves the counter equal to the successful snipes, and submits a snipe only while the
   successful snipes so far are below the limit in force.
   */
  lemma StepWithinLimit(c: Config, e: Event)
    requires c.buysMade == CountOk(c.snipes)
    ensures WithinLimit(Step(c, e), |c.snipes|) && c.snipes <= Step(c, e).snipes
    ensures c.buysMade >= c.maxBuys ==> Step(c, e).snipes == c.snipes
  {
    if e.Tick? && e.feed.Some? {
      FeedWithinLimit(Pass(c, false), e.feed.value, e.now, |c.snipes|);
      if c.buysMade >= c.maxBuys { FullStays(Pass(c, false), e.feed.value, e.now); }
      TickedSnipes(c, e);
    }
  }

  /** A tick keeps what processing made of the snipes and the limit, or leaves the config as it was. */
  lemma TickedSnipes(c: Config, e: Event)
    requires e.Tick? && e.feed.Some?
    ensures var d, q := Step(c, e), ProcessConfig(Pass(c, false), e.feed.value, e.now).config;
      || (d.snipes == c.snipes && d.buysMade == c.buysMade && d.maxBuys == c.maxBuys)
      || (d.snipes == q.snipes && d.buysMade == q.buysMade && d.maxBuys == q.maxBuys)
  {
  }

  /** In every reachable state the counter is the number of successful snipes, whatever was paused, resumed or edited. */
  lemma {:induction false} BuysAreOkSnipes(c: Config, events: seq<Event>)
    requires NewConfig(c)
    ensures Run(c, events).buysMade == CountOk(Run(c, events).snipes)
  {
    if |events| > 0 {
      BuysAreOkSnipes(c, events[..|events| - 1]);
      StepWithinLimit(Run(c, events[..|events| - 1]), events[|events| - 1]);
    }
  }

  /** The largest limit that was ever in force. */
  function HighestLimit(c: Config, events: seq<Event>): int {
    if |events| == 0 then c.maxBuys
    else
      var before, now := HighestLimit(c, events[..|events| - 1]), Run(c, events).maxBuys;
      if now > before then now else before
  }

  /** So over a whole run no more buys are made than the highest limit ever allowed. */
  lemma {:induction false} NeverAboveLimits(c: Config, events: seq<Event>)
    requires NewConfig(c)
    ensures Run(c, events).buysMade <= HighestLimit(c, events) && Run(c, events).maxBuys <= HighestLimit(c, events)
  {
    if |events| > 0 {
      var before := Run(c, events[..|events| - 1]);
      NeverAboveLimits(c, events[..|events| - 1]);
      BuysAreOkSnipes(c, events[..|events| - 1]);
      StepWithinLimit(before, events[|events| - 1]);
      LastBuy(before.snipes, Run(c, events));
    }
  }

  lemma LastBuy(prior: seq<Snipe>, c: Config)
    requires prior <= c.snipes && WithinLimit(c, |prior|)
    ensures c.buysMade <= CountOk(prior) || c.buysMade <= c.maxBuys
  {
    if |c.snipes| > |prior| {
      assert CountOk(c.snipes[..|c.snipes| - 1]) < c.maxBuys;
    } else {
      assert c.snipes == prior;
    }
  }

  // ---- at most one attempt per launch -----------------------------------------------------------

  /** Addresses of the feed are distinct, stamped by `epochOf`, and not after the tick's clock. */
  ghost predicate GoodFeed(feed: seq<Seen>, epochOf: string -> int, now: int) {
    && (forall i, j | 0 <= i < j < |feed| :: feed[i].launch.addr != feed[j].launch.addr)
    && forall i | 0 <= i < |feed| :: feed[i].launch.epoch == epochOf(feed[i].launch.addr) <= now
  }

  predicate DistinctTokens(xs: seq<Snipe>) {
    forall i, j | 0 <= i < j < |xs| :: xs[i].token != xs[j].token
  }

  /** Every attempt was of a launch stamped no later than `mark`. */
  ghost predicate AllBy(xs: seq<Snipe>, epochOf: string -> int, mark: int) {
    forall i | 0 <= i < |xs| :: epochOf(xs[i].token) <= mark
  }

  /** Part-way through a feed: attempts are old, or of the entries met so far. */
  ghost predicate FeedOnce(c: Config, feed: seq<Seen>, epochOf: string -> int) {
    && DistinctTokens(c.snipes)
    && forall i | 0 <= i < |c.snipes| ::
         epochOf(c.snipes[i].token) <= c.lastSeen || exists j :: 0 <= j < |feed| && feed[j].launch.addr == c.snipes[i].token
  }

  lemma TryOnce(p: Pass, init: seq<Seen>, s: Seen, now: int, epochOf: string -> int)
    requires FeedOnce(p.config, init, epochOf) && s.launch.epoch == epochOf(s.launch.addr)
    requires forall j | 0 <= j < |init| :: init[j].launch.addr != s.launch.addr
    ensures FeedOnce(TryLaunch(p, s, now).config, init + [s], epochOf)
  {
    MetStays(p.config, init, s, epochOf);
    assert (init + [s])[|init|] == s;
  }

  lemma MetStays(c: Config, init: seq<Seen>, s: Seen, epochOf: string -> int)
    requires FeedOnce(c, init, epochOf)
    ensures FeedOnce(c, init + [s], epochOf)
  {
    var xs, feed := c.snipes, init + [s];
    forall i | 0 <= i < |xs|
      ensures epochOf(xs[i].token) <= c.lastSeen || exists j :: 0 <= j < |feed| && feed[j].launch.addr == xs[i].token
    {
      if epochOf(xs[i].token) > c.lastSeen {
        var j :| 0 <= j < |init| && init[j].launch.addr == xs[i].token;
        assert feed[j].launch.addr == xs[i].token;
      }
    }
  }

  lemma {:induction false} FeedAttemptsOnce(p: Pass, feed: seq<Seen>, now: int, epochOf: string -> int)
    requires FeedOnce(p.config, [], epochOf) && GoodFeed(feed, epochOf, now)
    ensures FeedOnce(ProcessConfig(p, feed, now).config, feed, epochOf)
    ensures ProcessConfig(p, feed, now).config.lastSeen == p.config.lastSeen
  {
    if |feed| > 0 {
      var init, s := feed[..|feed| - 1], feed[|feed| - 1];
      FeedAttemptsOnce(p, init, now, epochOf);
      TryOnce(ProcessConfig(p, init, now), init, s, now, epochOf);
      assert feed == init + [s];
    }
  }

  /** No launch has two attempts, and all attempts are at or before the config's clock. */
  ghost predicate OnceEach(c: Config, epochOf: string -> int) {
    DistinctTokens(c.snipes) && AllBy(c.snipes, epochOf, c.lastSeen)
  }

  // ---- entries that raise -------------------------------------------------------------------------

  predicate RaisesAt(c: Config, s: Seen, now: int) {
    Fresh(c, s.launch, now) && s.raises
  }

  predicate FiresAt(c: Config, s: Seen, now: int) {
    Fresh(c, s.launch, now) && !s.raises && Selected(c, s.launch)
  }

  /** How many of the first `n` entries would be bought. */
  function Bought(c: Config, feed: seq<Seen>, n: nat, now: int): nat
    requires n <= |feed|
  {
    if n == 0 then 0
    else Bought(c, feed, n - 1, now) + if FiresAt(c, feed[n - 1], now) && feed[n - 1].bought then 1 else 0
  }

  predicate NoneRaises(c: Config, feed: seq<Seen>, n: nat, now: int)
    requires n <= |feed|
  {
    forall j | 0 <= j < n :: !RaisesAt(c, feed[j], now)
  }

  predicate NoneFires(c: Config, feed: seq<Seen>, n: nat, now: int)
    requires n <= |feed|
  {
    forall j | 0 <= j < n :: !FiresAt(c, feed[j], now)
  }

  /** The first `n` entries are gone through with the limit not reached. */
  predicate Reaches(c: Config, feed: seq<Seen>, n: nat, now: int)
    requires n <= |feed|
  {
    NoneRaises(c, feed, n, now) && c.buysMade + Bought(c, feed, n, now) < c.maxBuys
  }

  /** Entry `n` raises, and is the first to do so. */
  predicate FirstRaise(c: Config, feed: seq<Seen>, n: nat, now: int) {
    n < |feed| && Reaches(c, feed, n, now) && RaisesAt(c, feed[n], now)
  }

  lemma {:induction false} BoughtMonotone(c: Config, feed: seq<Seen>, m: nat, n: nat, now: int)
    requires m <= n <= |feed|
    ensures Bought(c, feed, m, now) <= Bought(c, feed, n, now)
    ensures NoneFires(c, feed, n, now) ==> Bought(c, feed, n, now) == 0
    decreases n
  {
    if m < n {
      BoughtMonotone(c, feed, m, n - 1, now);
    } else if n > 0 {
      BoughtMonotone(c, feed, n - 1, n - 1, now);
    }
  }

  /** The pass over the first `n` entries. */
  function PassTo(c: Config, feed: seq<Seen>, n: nat, now: int): Pass
    requires n <= |feed|
  {
    ProcessConfig(Pass(c, false), feed[..n], now)
  }

  lemma PassNext(c: Config, feed: seq<Seen>, n: nat, now: int)
    requires n < |feed|
    ensures PassTo(c, feed, n + 1, now) == TryLaunch(PassTo(c, feed, n, now), feed[n], now)
  {
    assert feed[..n + 1][..n] == feed[..n];
  }

  /** A pass changes nothing but the snipes, their count and the watches. */
  ghost predicate SameButSnipes(c: Config, d: Config) {
    d == c.(snipes := d.snipes, buysMade := d.buysMade, watches := d.watches) && c.snipes <= d.snipes
  }

  lemma {:induction false} PassKeeps(c: Config, feed: seq<Seen>, n: nat, now: int)
    requires n <= |feed|
    ensures SameButSnipes(c, PassTo(c, feed, n, now).config)
  {
    if n > 0 {
      PassKeeps(c, feed, n - 1, now);
      PassNext(c, feed, n - 1, now);
    }
  }

  /** The pass is open and below the limit exactly as long as the feed's entries say so. */
  lemma {:induction false} PassReaches(c: Config, feed: seq<Seen>, n: nat, now: int)
    requires n <= |feed|
    ensures var q := PassTo(c, feed, n, now);
      && (!q.raised && q.config.buysMade < q.config.maxBuys <==> Reaches(c, feed, n, now))
      && (Reaches(c, feed, n, now) ==> q.config.buysMade == c.buysMade + Bought(c, feed, n, now))
      && (NoneFires(c, feed, n, now) ==> q.config == c)
  {
    if n > 0 {
      PassReaches(c, feed, n - 1, now);
      PassKeeps(c, feed, n - 1, now);
      PassNext(c, feed, n - 1, now);
    }
  }

  lemma {:induction false} PassRaised(c: Config, feed: seq<Seen>, n: nat, now: int)
    requires n <= |feed|
    ensures PassTo(c, feed, n, now).raised <==> exists m: nat :: m < n && FirstRaise(c, feed, m, now)
  {
    if n > 0 {
      PassRaised(c, feed, n - 1, now);
      PassReaches(c, feed, n - 1, now);
      PassKeeps(c, feed, n - 1, now);
      PassNext(c, feed, n - 1, now);
      assert PassTo(c, feed, n, now).raised <==> PassTo(c, feed, n - 1, now).raised || FirstRaise(c, feed, n - 1, now);
    }
  }

  /** A pass raises exactly when some first raising entry is met before the limit. */
  lemma RaisedIff(c: Config, feed: seq<Seen>, now: int)
    ensures ProcessConfig(Pass(c, false), feed, now).raised <==> exists n: nat :: FirstRaise(c, feed, n, now)
  {
    assert feed[..|feed|] == feed;
    PassRaised(c, feed, |feed|, now);
  }

  /** A snipe from position `n` on is of this launch. */
  ghost predicate AttemptedFrom(xs: seq<Snipe>, n: nat, token: string) {
    exists i :: n <= i < |xs| && xs[i].token == token
  }

  lemma AttemptedStays(xs: seq<Snipe>, ys: seq<Snipe>, n: nat, token: string)
    requires AttemptedFrom(xs, n, token) && xs <= ys
    ensures AttemptedFrom(ys, n, token)
  {
    var i :| n <= i < |xs| && xs[i].token == token;
    assert ys[i] == xs[i];
  }

  lemma TryKeepsSnipes(p: Pass, s: Seen, now: int)
    ensures p.config.snipes <= TryLaunch(p, s, now).config.snipes
  {
  }

  lemma {:induction false} FiredIsAttempted(c: Config, feed: seq<Seen>, j: nat, n: nat, now: int)
    requires j < n <= |feed| && Reaches(c, feed, j, now) && FiresAt(c, feed[j], now)
    ensures AttemptedFrom(PassTo(c, feed, n, now).config.snipes, |c.snipes|, feed[j].launch.addr)
    decreases n
  {
    var q := PassTo(c, feed, n - 1, now);
    PassNext(c, feed, n - 1, now);
    PassKeeps(c, feed, n - 1, now);
    if j == n - 1 {
      PassReaches(c, feed, j, now);
      assert TryLaunch(q, feed[j], now).config.snipes[|q.config.snipes|].token == feed[j].launch.addr;
    } else {
      FiredIsAttempted(c, feed, j, n - 1, now);
      TryKeepsSnipes(q, feed[n - 1], now);
      AttemptedStays(q.config.snipes, PassTo(c, feed, n, now).config.snipes, |c.snipes|, feed[j].launch.addr);
    }
  }

  // ---- ticks that raise -------------------------------------------------------------------------------

  predicate Live(c: Config, e: Event) {
    e.Tick? && e.feed.Some? && c.status == Active
  }

  /** No launch before the first raising entry, if one is met, is fired. */
  ghost predicate Harmless(c: Config, e: Event) {
    Live(c, e) ==> forall n: nat | FirstRaise(c, e.feed.value, n, e.now) :: NoneFires(c, e.feed.value, n, e.now)
  }

  /** A tick with a good feed and a clock that is not behind the config's. */
  ghost predicate TimelyTick(c: Config, e: Event, epochOf: string -> int) {
    Live(c, e) ==> GoodFeed(e.feed.value, epochOf, e.now) && c.lastSeen <= e.now
  }

  /** What a raising tick leaves: the snipes of its pass, and the clock as it was. */
  lemma RaisingTick(c: Config, e: Event, n: nat)
    requires Live(c, e) && FirstRaise(c, e.feed.value, n, e.now)
    ensures var d := Step(c, e);
      && SameButSnipes(c, d)
      && d.snipes == PassTo(c, e.feed.value, |e.feed.value|, e.now).config.snipes
      && d.buysMade == c.buysMade + Bought(c, e.feed.value, n, e.now) < c.maxBuys
      && (NoneFires(c, e.feed.value, n, e.now) ==> d.snipes == c.snipes)
  {
    var feed := e.feed.value;
    RaisedIff(c, feed, e.now);
    assert feed[..|feed|] == feed;
    PassKeeps(c, feed, |feed|, e.now);
    RaisedStays(c, feed, n, |feed|, e.now);
    PassReaches(c, feed, n, e.now);
  }

  lemma {:induction false} RaisedStays(c: Config, feed: seq<Seen>, n: nat, k: nat, now: int)
    requires n < k <= |feed| && FirstRaise(c, feed, n, now)
    ensures PassTo(c, feed, k, now) == PassTo(c, feed, n, now).(raised := true)
    decreases k
  {
    PassNext(c, feed, k - 1, now);
    if k == n + 1 {
      PassReaches(c, feed, n, now);
      PassKeeps(c, feed, n, now);
    } else {
      RaisedStays(c, feed, n, k - 1, now);
    }
  }

  lemma StepAttemptsOnce(c: Config, e: Event, epochOf: string -> int)
    requires OnceEach(c, epochOf) && TimelyTick(c, e, epochOf) && Harmless(c, e)
    ensures OnceEach(Step(c, e), epochOf)
  {
    if Live(c, e) {
      var feed := e.feed.value;
      RaisedIff(c, feed, e.now);
      if ProcessConfig(Pass(c, false), feed, e.now).raised {
        var n: nat :| FirstRaise(c, feed, n, e.now);
        RaisingTick(c, e, n);
      } else {
        FeedAttemptsOnce(Pass(c, false), feed, e.now, epochOf);
      }
    }
  }

  /** The first launch that is fired before a given entry. */
  lemma {:induction false} FirstFired(c: Config, feed: seq<Seen>, n: nat, now: int) returns (j: nat)
    requires n <= |feed| && !NoneFires(c, feed, n, now)
    ensures j < n && FiresAt(c, feed[j], now) && NoneFires(c, feed, j, now)
  {
    if NoneFires(c, feed, n - 1, now) { j := n - 1; } else { j := FirstFired(c, feed, n - 1, now); }
  }

  /** Before the first raise some launch was fired: it is attempted by this tick. */
  lemma RaisingTickAttempts(c: Config, e: Event, n: nat, j: nat)
    requires Live(c, e) && FirstRaise(c, e.feed.value, n, e.now)
    requires j < n && FiresAt(c, e.feed.value[j], e.now) && NoneFires(c, e.feed.value, j, e.now)
    ensures AttemptedFrom(Step(c, e).snipes, |c.snipes|, e.feed.value[j].launch.addr)
  {
    var feed := e.feed.value;
    BoughtMonotone(c, feed, j, n, e.now);
    FiredIsAttempted(c, feed, j, |feed|, e.now);
    RaisingTick(c, e, n);
  }

  /** One event keeps every launch attempted once and by the clock if and only if it is harmless. */
  lemma StepOnceIff(c: Config, e: Event, epochOf: string -> int)
    requires OnceEach(c, epochOf) && TimelyTick(c, e, epochOf)
    ensures OnceEach(Step(c, e), epochOf) <==> Harmless(c, e)
  {
    if Harmless(c, e) {
      StepAttemptsOnce(c, e, epochOf);
    } else {
      var n: nat :| FirstRaise(c, e.feed.value, n, e.now) && !NoneFires(c, e.feed.value, n, e.now);
      var j := FirstFired(c, e.feed.value, n, e.now);
      RaisingTickAttempts(c, e, n, j);
      RaisingTick(c, e, n);
      var d := Step(c, e);
      var i :| |c.snipes| <= i < |d.snipes| && d.snipes[i].token == e.feed.value[j].launch.addr;
      assert epochOf(d.snipes[i].token) > d.lastSeen;
    }
  }

  /** A live tick that meets a launch to fire, below the limit, attempts it. */
  lemma TickAttempts(c: Config, e: Event, j: nat)
    requires Live(c, e) && j < |e.feed.value| && FiresAt(c, e.feed.value[j], e.now) && Reaches(c, e.feed.value, j, e.now)
    ensures AttemptedFrom(Step(c, e).snipes, |c.snipes|, e.feed.value[j].launch.addr)
    ensures c.snipes <= Step(c, e).snipes
  {
    var feed := e.feed.value;
    FiredIsAttempted(c, feed, j, |feed|, e.now);
    PassKeeps(c, feed, |feed|, e.now);
    assert feed[..|feed|] == feed;
  }

  /** Config `d` reads the feed as `c` does. */
  lemma SameReading(c: Config, d: Config, feed: seq<Seen>, n: nat, now: int)
    requires n <= |feed| && SameButSnipes(c, d)
    ensures NoneRaises(c, feed, n, now) == NoneRaises(d, feed, n, now)
    ensures NoneFires(c, feed, n, now) == NoneFires(d, feed, n, now)
    ensures forall j | 0 <= j < |feed| ::
      FiresAt(c, feed[j], now) == FiresAt(d, feed[j], now) && RaisesAt(c, feed[j], now) == RaisesAt(d, feed[j], now)
  {
  }

  /** The same raising tick once more attempts some launch twice if and only if one was fired before the raise. */
  lemma RepeatsIff(c: Config, e: Event, n: nat, epochOf: string -> int)
    requires OnceEach(c, epochOf) && TimelyTick(c, e, epochOf) && Live(c, e) && FirstRaise(c, e.feed.value, n, e.now)
    ensures DistinctTokens(Run(c, [e, e]).snipes) <==> NoneFires(c, e.feed.value, n, e.now)
  {
    var feed, d := e.feed.value, Step(c, e);
    TwoSteps(c, e);
    RaisingTick(c, e, n);
    SameReading(c, d, feed, n, e.now);
    if NoneFires(c, feed, n, e.now) {
      BoughtMonotone(c, feed, n, n, e.now);
      BoughtMonotone(d, feed, n, n, e.now);
      RaisingTick(d, e, n);
    } else {
      var j := FirstFired(c, feed, n, e.now);
      RaisingTickAttempts(c, e, n, j);
      SameReading(c, d, feed, j, e.now);
      BoughtMonotone(d, feed, j, j, e.now);
      TickAttempts(d, e, j);
      Twice(c.snipes, d.snipes, Step(d, e).snipes, feed[j].launch.addr);
    }
  }

  lemma Twice(prior: seq<Snipe>, xs: seq<Snipe>, ys: seq<Snipe>, token: string)
    requires xs <= ys && AttemptedFrom(xs, |prior|, token) && AttemptedFrom(ys, |xs|, token)
    ensures !DistinctTokens(ys)
  {
    var i :| |prior| <= i < |xs| && xs[i].token == token;
    var k :| |xs| <= k < |ys| && ys[k].token == token;
    assert ys[i] == xs[i];
  }

  lemma TwoSteps(c: Config, e: Event)
    ensures Run(c, [e, e]) == Step(Step(c, e), e)
  {
    assert [e, e][..1] == [e] && [e][..0] == [];
    assert Run(c, [e]) == Step(c, e);
  }

  ghost predicate HarmlessRun(c: Config, events: seq<Event>, epochOf: string -> int) {
    forall i | 0 <= i < |events| ::
      TimelyTick(Run(c, events[..i]), events[i], epochOf) && Harmless(Run(c, events[..i]), events[i])
  }

  /**
   Over any run of harmless ticks whose clock does not go back and whose feeds carry distinct
   addresses with fixed timestamps not after the tick's clock, no launch is attempted twice.
   */
  lemma {:induction false} AttemptedAtMostOnce(c: Config, events: seq<Event>, epochOf: string -> int)
    requires NewConfig(c) && HarmlessRun(c, events, epochOf)
    ensures OnceEach(Run(c, events), epochOf)
  {
    if |events| > 0 {
      var init := events[..|events| - 1];
      assert forall i | 0 <= i < |init| :: init[..i] == events[..i] && init[i] == events[i];
      AttemptedAtMostOnce(c, init, epochOf);
      assert events[..|init|] == init;
      StepAttemptsOnce(Run(c, init), events[|init|], epochOf);
    }
  }

  /** A launch that is fired before one that raises is attempted again at the next tick. */
  lemma RaiseRepeats(c: Config, a: Seen, b: Seen, now: int)
    requires NewConfig(c) && c.maxBuys >= 2 && c.lastSeen <= now && a.launch.addr != b.launch.addr
    requires FiresAt(c, a, now) && RaisesAt(c, b, now) && a.launch.epoch <= now && b.launch.epoch <= now
    ensures var tick := Tick(Some([a, b]), now, [], false, false);
      !DistinctTokens(Run(c, [tick, tick]).snipes)
  {
    var tick := Tick(Some([a, b]), now, [], false, false);
    var epochOf := (t: string) => if t == a.launch.addr then a.launch.epoch else b.launch.epoch;
    assert Bought(c, [a, b], 1, now) <= 1;
    assert FirstRaise(c, [a, b], 1, now) && FiresAt(c, [a, b][0], now);
    RepeatsIff(c, tick, 1, epochOf);
  }

  // ---- one sell per watch ---------------------------------------------------------------------------

  /** Over whole runs a watch that has been closed is never sold or reopened, and no watch disappears. */
  lemma StepKeepsClosed(c: Config, e: Event, i: nat)
    requires i < |c.watches|
    ensures i < |Step(c, e).watches|
    ensures c.watches[i].phase != Watching ==> Step(c, e).watches[i] == c.watches[i]
    ensures Step(c, e).watches[i].token == c.watches[i].token && Step(c, e).watches[i].buy == c.watches[i].buy
  {
    if e.Tick? && e.feed.Some? {
      FeedKeepsWatches(Pass(c, false), e.feed.value, e.now);
    }
  }

  lemma {:induction false} FeedKeepsWatches(p: Pass, feed: seq<Seen>, now: int)
    ensures p.config.watches <= ProcessConfig(p, feed, now).config.watches
  {
    if |feed| > 0 { FeedKeepsWatches(p, feed[..|feed| - 1], now); }
  }
}
