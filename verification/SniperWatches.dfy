/**
 The auto-sell watches of a sniper config over every run (clawmes/commands/sniper.py), and the launches it attempts:
 which of the looks of a run reach a watch, and what comes of it.
 */
module SniperWatches {
  import opened Bytes
  import opened AutoSell
  import opened Sniper

  // ---- a tick of the watches -------------------------------------------------------------------------

  /** A tick walks the watches of a config whatever its status, once some config is active and the feed is not empty. */
  predicate Walks(c: Config, e: Event) {
    && e.Tick? && e.feed.Some? && e.feed.value != [] && (c.status == Active || e.othersActive)
    && (c.rules.gain.Some? || c.rules.trail.Some?)
  }

  /** The config as the walk finds it: after its own launches, if it is active. */
  function AtWalk(c: Config, e: Event): Config
    requires e.Tick? && e.feed.Some?
  {
    Processed(c, e.feed.value, e.now).config
  }

  /** The walk sells for some watch. */
  predicate SomeSale(c: Config, e: Event)
    requires e.Tick? && e.feed.Some?
  {
    exists i :: 0 <= i < |AtWalk(c, e).watches| && Sells(c.rules, AtWalk(c, e).watches[i], LookAt(e.looks, i))
  }

  /** Something is printed, so that the tick is saved: by another config, by a launch, by an exception, or by a sale. */
  predicate Saved(c: Config, e: Event)
    requires Walks(c, e)
  {
    || e.others || |AtWalk(c, e).snipes| > |c.snipes| || Processed(c, e.feed.value, e.now).raised || SomeSale(c, e)
  }

  /** The tick looks at watch `i` and saves what it saw. */
  predicate LooksAt(c: Config, e: Event, i: nat) {
    Walks(c, e) && Saved(c, e) && i < |AtWalk(c, e).watches|
  }

  /** A watch as it was when it was registered: at its buy price, open. */
  function Registered(w: Watch): Watch {
    Watch(w.token, w.buy, w.buy, Watching, 0.0, None)
  }

  /** A pass adds open watches at their buy price, and only with a snipe. */
  ghost predicate Registers(c: Config, d: Config) {
    && d.rules == c.rules && c.watches <= d.watches && c.snipes <= d.snipes
    && (|d.snipes| == |c.snipes| ==> d.watches == c.watches)
    && forall i | |c.watches| <= i < |d.watches| :: Registered(d.watches[i]) == d.watches[i]
  }

  lemma {:induction false} PassRegisters(c: Config, feed: seq<Seen>, n: nat, now: int)
    requires n <= |feed|
    ensures Registers(c, PassTo(c, feed, n, now).config)
  {
    if n > 0 {
      PassRegisters(c, feed, n - 1, now);
      PassNext(c, feed, n - 1, now);
    }
  }

  lemma ProcessedRegisters(c: Config, feed: seq<Seen>, now: int)
    ensures Registers(c, Processed(c, feed, now).config)
  {
    if c.status == Active {
      assert feed[..|feed|] == feed;
      PassRegisters(c, feed, |feed|, now);
    }
  }

  /** One event takes each watch through at most one look, which is then saved; without one nothing is sold. */
  lemma StepLooks(c: Config, e: Event, i: nat)
    requires i < |Step(c, e).watches|
    ensures Step(c, e).rules == c.rules && |c.watches| <= |Step(c, e).watches|
    ensures var w := if i < |c.watches| then c.watches[i] else Registered(Step(c, e).watches[i]);
      Step(c, e).watches[i] == if LooksAt(c, e, i) then Evaluate(c.rules, w, LookAt(e.looks, i)) else w
    ensures Walks(c, e) && !Saved(c, e) && i < |c.watches| ==> !Sells(c.rules, c.watches[i], LookAt(e.looks, i))
  {
    if e.Tick? && e.feed.Some? {
      ProcessedRegisters(c, e.feed.value, e.now);
      if Walks(c, e) {
        SpeaksIff(c, e);
        WalkedStep(c, e);
      }
    }
  }

  lemma WalkedStep(c: Config, e: Event)
    requires Walks(c, e)
    ensures var d, w := Step(c, e), AtWalk(c, e);
      if !Saved(c, e) then d == c
      else
        && d.rules == w.rules && |d.watches| == |w.watches|
        && forall i | 0 <= i < |w.watches| :: d.watches[i] == Evaluate(w.rules, w.watches[i], LookAt(e.looks, i))
  {
    ProcessedRegisters(c, e.feed.value, e.now);
    SpeaksIff(c, e);
  }

  lemma SpeaksIff(c: Config, e: Event)
    requires e.Tick? && e.feed.Some? && (c.rules.gain.Some? || c.rules.trail.Some?)
    ensures Speaks(c, e.feed.value, e.now, e.looks) <==>
      Processed(c, e.feed.value, e.now).raised || |AtWalk(c, e).snipes| > |c.snipes| || SomeSale(c, e)
  {
  }

  // ---- over runs -----------------------------------------------------------------------------------------

  /** The looks of a run that reached watch `i`: one for each saved tick that walked it. */
  function LooksOf(c: Config, events: seq<Event>, i: nat): seq<Look> {
    if |events| == 0 then []
    else
      var n := |events| - 1;
      LooksOf(c, events[..n], i) + if LooksAt(Run(c, events[..n]), events[n], i) then [LookAt(events[n].looks, i)] else []
  }

  lemma LooksSnoc(r: Rules, w: Watch, ls: seq<Look>, l: Look)
    ensures EvaluateAll(r, w, ls + [l]) == Evaluate(r, EvaluateAll(r, w, ls), l)
  {
    assert (ls + [l])[..|ls|] == ls;
  }

  lemma {:induction false} RulesConstant(c: Config, events: seq<Event>)
    ensures Run(c, events).rules == c.rules
  {
    if |events| > 0 {
      var n := |events| - 1;
      RulesConstant(c, events[..n]);
      StepRules(Run(c, events[..n]), events[n]);
    }
  }

  lemma StepRules(c: Config, e: Event)
    ensures Step(c, e).rules == c.rules && |c.watches| <= |Step(c, e).watches|
  {
    if e.Tick? && e.feed.Some? { ProcessedRegisters(c, e.feed.value, e.now); }
  }

  /** A look that is saved leaves its watch behind. */
  lemma LookedAtExists(c: Config, e: Event, i: nat)
    requires LooksAt(c, e, i)
    ensures i < |Step(c, e).watches|
  {
    WalkedStep(c, e);
  }

  lemma {:induction false} NoLooksBefore(c: Config, events: seq<Event>, i: nat)
    requires i >= |Run(c, events).watches|
    ensures LooksOf(c, events, i) == []
  {
    if |events| > 0 {
      var n := |events| - 1;
      StepRules(Run(c, events[..n]), events[n]);
      NoLooksBefore(c, events[..n], i);
      if LooksAt(Run(c, events[..n]), events[n], i) { LookedAtExists(Run(c, events[..n]), events[n], i); }
    }
  }

  /** In every reachable state a watch is what its looks made of it since it was registered. */
  lemma {:induction false} WatchHistory(c: Config, events: seq<Event>, i: nat)
    requires c.watches == [] && i < |Run(c, events).watches|
    ensures var w := Run(c, events).watches[i];
      w == EvaluateAll(c.rules, Registered(w), LooksOf(c, events, i))
  {
    var n := |events| - 1;
    var before, w := Run(c, events[..n]), Run(c, events).watches[i];
    RulesConstant(c, events[..n]);
    StepLooks(before, events[n], i);
    var prior := if i < |before.watches| then before.watches[i] else Registered(w);
    if i < |before.watches| {
      WatchHistory(c, events[..n], i);
    } else {
      NoLooksBefore(c, events[..n], i);
    }
    if LooksAt(before, events[n], i) {
      var l := LookAt(events[n].looks, i);
      SameRegistration(c.rules, prior, l);
      LooksSnoc(c.rules, Registered(w), LooksOf(c, events[..n], i), l);
    } else {
      assert LooksOf(c, events, i) == LooksOf(c, events[..n], i);
    }
  }

  lemma SameRegistration(r: Rules, w: Watch, l: Look)
    ensures Registered(Evaluate(r, w, l)) == Registered(w)
  {
  }

  /**
   Over every run, whatever happened to the config's status, a watch is closed if and only if one of its looks met a
   threshold; it was closed by the first such look, at its price, for the reason of highest priority. Until then it
   is open and its high-water mark is the maximum of the buy price and the prices of its looks.
   */
  lemma WatchClosesIff(c: Config, events: seq<Event>, i: nat)
    requires c.watches == [] && i < |Run(c, events).watches|
    ensures var w, ls := Run(c, events).watches[i], LooksOf(c, events, i);
      && (w.phase != Watching <==> exists k: nat :: k < |ls| && Hit(c.rules, w.buy, ls, k))
      && (w.phase == Watching ==> w == Registered(w).(high := Peak(w.buy, ls)))
      && forall k: nat | k < |ls| && FirstHit(c.rules, w.buy, ls, k) :: w == Closed(c.rules, Registered(w), ls, k)
  {
    var w, ls := Run(c, events).watches[i], LooksOf(c, events, i);
    WatchHistory(c, events, i);
    if exists k: nat :: k < |ls| && Hit(c.rules, w.buy, ls, k) {
      var k: nat :| k < |ls| && Hit(c.rules, w.buy, ls, k);
      var f := FirstHitUpTo(c.rules, w.buy, ls, k);
      ClosesAtFirstHit(c.rules, Registered(w), ls, f);
    } else {
      assert NoHit(c.rules, w.buy, ls);
      OpenUntilHit(c.rules, Registered(w), ls);
    }
    forall k: nat | k < |ls| && FirstHit(c.rules, w.buy, ls, k) ensures w == Closed(c.rules, Registered(w), ls, k) {
      ClosesAtFirstHit(c.rules, Registered(w), ls, k);
    }
  }

  lemma {:induction false} FirstHitUpTo(r: Rules, buy: Price, ls: seq<Look>, k: nat) returns (f: nat)
    requires k < |ls| && Hit(r, buy, ls, k)
    ensures f <= k && FirstHit(r, buy, ls, f)
  {
    if exists j: nat :: j < k && Hit(r, buy, ls, j) {
      var j: nat :| j < k && Hit(r, buy, ls, j);
      f := FirstHitUpTo(r, buy, ls, j);
    } else {
      f := k;
    }
  }

  /** A walk that is not saved loses no sale: the price it read for an open watch meets no threshold. */
  lemma UnsavedMissesNothing(c: Config, events: seq<Event>, e: Event, i: nat)
    requires c.watches == [] && i < |Run(c, events).watches| && Run(c, events).watches[i].phase == Watching
    requires Walks(Run(c, events), e) && !Saved(Run(c, events), e)
    ensures NoHit(c.rules, Run(c, events).watches[i].buy, LooksOf(c, events, i) + [LookAt(e.looks, i)])
  {
    var d, ls, l := Run(c, events), LooksOf(c, events, i), LookAt(e.looks, i);
    var w, all := d.watches[i], LooksOf(c, events, i) + [LookAt(e.looks, i)];
    StepLooksUnsaved(d, e, i);
    RulesConstant(c, events);
    WatchClosesIff(c, events, i);
    assert NoHit(c.rules, w.buy, ls);
    assert all[..|all| - 1] == ls;
    OpenUntilHit(c.rules, Registered(w), ls);
    LastLook(c.rules, Registered(w), all);
    NoHitPrefix(c.rules, w.buy, all);
  }

  lemma StepLooksUnsaved(c: Config, e: Event, i: nat)
    requires Walks(c, e) && !Saved(c, e) && i < |c.watches|
    ensures !Sells(c.rules, c.watches[i], LookAt(e.looks, i))
  {
    WalkedStep(c, e);
    StepLooks(c, e, i);
  }

  // ---- no walk without an active config -----------------------------------------------------------------

  /** While no config is active no watch is walked: ticks leave an exhausted or paused config, and its open watches, alone. */
  lemma {:induction false} IdleTicksStrand(c: Config, ticks: seq<Event>)
    requires c.status != Active && forall e | e in ticks :: e.Tick? && !e.othersActive
    ensures Run(c, ticks) == c
  {
    if |ticks| > 0 {
      var n := |ticks| - 1;
      IdleTicksStrand(c, ticks[..n]);
      assert ticks[n] in ticks;
    }
  }

  // ---- the launches a tick attempts ------------------------------------------------------------------------

  /** The launch is new, young enough, readable, and passes each filter that is set. */
  predicate Wanted(c: Config, s: Seen, now: int) {
    && |s.launch.addr| >= 2 && s.launch.addr[0] == '0' && s.launch.addr[1] == 'x'
    && c.lastSeen < s.launch.epoch && now <= s.launch.epoch + c.maxAge && !s.raises
    && !(c.sourceFilter != "" && Lower(s.launch.source) != Lower(c.sourceFilter))
    && !(c.symbolFilter && !s.launch.symbolHit)
    && !(c.maxMcap.Some? && s.launch.mcap.Some? && s.launch.mcap.value > c.maxMcap.value)
  }

  lemma FiresMeans(c: Config, s: Seen, now: int)
    ensures FiresAt(c, s, now) <==> Wanted(c, s, now)
  {
    assert HasAddress(s.launch) <==> |s.launch.addr| >= 2 && s.launch.addr[..2] == ['0', 'x'];
  }

  /** A snipe, and the watch it may have registered, of an entry of the feed that the filters let through. */
  predicate SnipeOf(c: Config, s: Seen, now: int, x: Snipe) {
    Wanted(c, s, now) && x == Snipe(s.launch.addr, s.bought)
  }

  predicate WatchOf(c: Config, s: Seen, now: int, w: Watch) {
    && Wanted(c, s, now) && s.bought && s.price == Some(w.buy) && w.token == s.launch.addr && w == Registered(w)
    && (c.rules.gain.Some? || c.rules.trail.Some?)
  }

  ghost predicate SnipeFrom(c: Config, feed: seq<Seen>, n: nat, now: int, x: Snipe)
    requires n <= |feed|
  {
    exists j :: 0 <= j < n && SnipeOf(c, feed[j], now, x)
  }

  ghost predicate WatchFrom(c: Config, feed: seq<Seen>, n: nat, now: int, w: Watch)
    requires n <= |feed|
  {
    exists j :: 0 <= j < n && WatchOf(c, feed[j], now, w)
  }

  ghost predicate FromFeed(c: Config, feed: seq<Seen>, n: nat, now: int, d: Config)
    requires n <= |feed|
  {
    && SameButSnipes(c, d) && c.watches <= d.watches
    && (forall i | |c.snipes| <= i < |d.snipes| :: SnipeFrom(c, feed, n, now, d.snipes[i]))
    && (forall i | |c.watches| <= i < |d.watches| :: WatchFrom(c, feed, n, now, d.watches[i]))
  }

  /** Every attempt of a pass, and every watch it registers, is of a launch that the filters let through. */
  lemma {:induction false} PassObeysFilters(c: Config, feed: seq<Seen>, n: nat, now: int)
    requires n <= |feed|
    ensures FromFeed(c, feed, n, now, PassTo(c, feed, n, now).config)
  {
    if n > 0 {
      PassObeysFilters(c, feed, n - 1, now);
      PassNext(c, feed, n - 1, now);
      FiresMeans(c, feed[n - 1], now);
      EntryObeys(c, feed, n - 1, now, PassTo(c, feed, n - 1, now));
    }
  }

  lemma EntryObeys(c: Config, feed: seq<Seen>, n: nat, now: int, p: Pass)
    requires n < |feed| && FromFeed(c, feed, n, now, p.config) && (FiresAt(c, feed[n], now) <==> Wanted(c, feed[n], now))
    ensures FromFeed(c, feed, n + 1, now, TryLaunch(p, feed[n], now).config)
  {
    var d, f, s := p.config, TryLaunch(p, feed[n], now).config, feed[n];
    assert f != d ==> FiresAt(c, s, now) && f == Fired(d, s);
    forall i | |c.snipes| <= i < |f.snipes| ensures SnipeFrom(c, feed, n + 1, now, f.snipes[i]) {
      if i < |d.snipes| {
        assert SnipeFrom(c, feed, n, now, d.snipes[i]) && f.snipes[i] == d.snipes[i];
      } else {
        assert SnipeOf(c, feed[n], now, f.snipes[i]);
      }
    }
    forall i | |c.watches| <= i < |f.watches| ensures WatchFrom(c, feed, n + 1, now, f.watches[i]) {
      if i < |d.watches| {
        assert WatchFrom(c, feed, n, now, d.watches[i]) && f.watches[i] == d.watches[i];
      } else {
        assert WatchOf(c, feed[n], now, f.watches[i]);
      }
    }
  }

  /** And an entry that the filters let through, met with no exception and buys left, is attempted and then watched. */
  lemma WantedIsAttempted(c: Config, feed: seq<Seen>, j: nat, now: int)
    requires j < |feed| && Reaches(c, feed, j, now) && Wanted(c, feed[j], now)
    ensures var d := ProcessConfig(Pass(c, false), feed, now).config;
      && AttemptedFrom(d.snipes, |c.snipes|, feed[j].launch.addr)
      && (feed[j].bought && feed[j].price.Some? && feed[j].price.value > 0.0 && (c.rules.gain.Some? || c.rules.trail.Some?)
          ==> WatchedFrom(d.watches, |c.watches|, feed[j].launch.addr, feed[j].price.value))
  {
    assert feed[..|feed|] == feed;
    FiresMeans(c, feed[j], now);
    FiredIsAttempted(c, feed, j, |feed|, now);
    if feed[j].bought && feed[j].price.Some? && feed[j].price.value > 0.0 && (c.rules.gain.Some? || c.rules.trail.Some?) {
      FiredIsWatched(c, feed, j, |feed|, now);
    }
  }

  ghost predicate WatchedFrom(ws: seq<Watch>, n: nat, token: string, buy: real) {
    exists i :: n <= i < |ws| && ws[i].token == token && ws[i].buy == buy
  }

  lemma {:induction false} FiredIsWatched(c: Config, feed: seq<Seen>, j: nat, n: nat, now: int)
    requires j < n <= |feed| && Reaches(c, feed, j, now) && FiresAt(c, feed[j], now)
    requires feed[j].bought && feed[j].price.Some? && feed[j].price.value > 0.0 && (c.rules.gain.Some? || c.rules.trail.Some?)
    ensures WatchedFrom(PassTo(c, feed, n, now).config.watches, |c.watches|, feed[j].launch.addr, feed[j].price.value)
    decreases n
  {
    var q, r := PassTo(c, feed, n - 1, now), PassTo(c, feed, n, now);
    PassNext(c, feed, n - 1, now);
    PassRegisters(c, feed, n - 1, now);
    if j == n - 1 {
      PassReaches(c, feed, j, now);
      PassKeeps(c, feed, j, now);
      assert r.config.watches[|q.config.watches|].token == feed[j].launch.addr;
    } else {
      FiredIsWatched(c, feed, j, n - 1, now);
      WatchedStays(q, feed[n - 1], now, |c.watches|, feed[j].launch.addr, feed[j].price.value);
    }
  }

  lemma WatchedStays(q: Pass, s: Seen, now: int, n: nat, token: string, buy: real)
    requires WatchedFrom(q.config.watches, n, token, buy)
    ensures WatchedFrom(TryLaunch(q, s, now).config.watches, n, token, buy)
  {
    var i :| n <= i < |q.config.watches| && q.config.watches[i].token == token && q.config.watches[i].buy == buy;
    assert TryLaunch(q, s, now).config.watches[i] == q.config.watches[i];
  }

  // ---- clock, status, commands -----------------------------------------------------------------------------

  /** What a tick does to clock and status, when it happens and is saved. */
  predicate ClockAndStatus(c: Config, e: Event, d: Config)
    requires e.Tick? && e.feed.Some?
  {
    if c.status != Active || Processed(c, e.feed.value, e.now).raised then d.lastSeen == c.lastSeen && d.status == c.status
    else d.lastSeen == e.now && d.status == if d.buysMade < d.maxBuys then Active else Exhausted
  }

  predicate CommandMakes(c: Config, e: Event, d: Config) {
    match e
    case Tick(feed, now, _, others, othersActive) =>
      if feed.None? || (c.status != Active && !othersActive) then d == c
      else if feed.value == [] then d == if c.status == Active then c.(lastSeen := now) else c
      else (d == c && !others) || ClockAndStatus(c, e, d)
    case Pause => d == c.(status := Paused)
    case Resume => d == c.(status := Active)
    case EditMaxBuys(n) => d == c.(maxBuys := if n >= 1 then n else c.maxBuys)
    case EditMaxAge(n) => d == c.(maxAge := if n >= 1 then n else c.maxAge)
    case EditFilters(source, symbol, mcap) =>
      d == if mcap.Some? && mcap.value <= 0.0 then c else c.(sourceFilter := source, symbolFilter := symbol, maxMcap := mcap)
  }

  lemma CommandMeans(c: Config, e: Event)
    ensures CommandMakes(c, e, Step(c, e))
  {
    if e.Tick? && e.feed.Some? {
      var feed := e.feed.value;
      assert feed[..|feed|] == feed;
      PassKeeps(c, feed, |feed|, e.now);
    }
  }
}
