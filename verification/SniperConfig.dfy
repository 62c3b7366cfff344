/** The sniper config that a tick updates in place, against the functions of `Sniper` and `AutoSell`. */
module SniperConfig {
  import opened Bytes
  import opened AutoSell
  import opened Sniper

  /** The watches of which a sell went through. */
  ghost function SoldSet(r: Rules, ws: seq<Watch>, looks: seq<Look>): set<int> {
    set i | 0 <= i < |ws| && Sells(r, ws[i], LookAt(looks, i)) && LookAt(looks, i).sold
  }

  class Sniping {
    var maxBuys: int
    var buysMade: nat
    var lastSeen: int
    var maxAge: int
    var sourceFilter: string
    var symbolFilter: bool
    var maxMcap: Option<real>
    const rules: Rules
    var status: Status
    var snipes: seq<Snipe>
    var watches: seq<Watch>

    function Model(): Config
      reads this
    {
      Config(maxBuys, buysMade, lastSeen, maxAge, sourceFilter, symbolFilter, maxMcap, rules, status, snipes, watches)
    }

    /** `/sniper add`. */
    constructor (maxBuys: int, maxAge: int, sourceFilter: string, symbolFilter: bool, maxMcap: Option<real>, rules: Rules, now: int)
      requires maxBuys >= 1 && maxAge >= 1
      ensures NewConfig(Model()) && Model().lastSeen == now && Model().rules == rules && Model().maxBuys == maxBuys
    {
      this.maxBuys, this.buysMade, this.lastSeen, this.maxAge := maxBuys, 0, now, maxAge;
      this.sourceFilter, this.symbolFilter, this.maxMcap, this.rules := sourceFilter, symbolFilter, maxMcap, rules;
      this.status, this.snipes, this.watches := Active, [], [];
    }

    /** What follows a launch that passed every filter. */
    method Fire(s: Seen)
      modifies `snipes, `buysMade, `watches
      ensures Model() == Fired(old(Model()), s)
    {
      snipes := snipes + [Snipe(s.launch.addr, s.bought)];
      if s.bought {
        buysMade := buysMade + 1;
        if Watches(rules) && s.price.Some? && s.price.value > 0.0 {
          watches := watches + [Watch(s.launch.addr, s.price.value, s.price.value, Watching, 0.0, None)];
        }
      }
    }

    /** `_process_config`: an exception ends it with what was recorded so far. */
    method Process(feed: seq<Seen>, now: int) returns (raised: bool)
      modifies `snipes, `buysMade, `watches
      ensures Pass(Model(), raised) == ProcessConfig(Pass(old(Model()), false), feed, now)
    {
      ghost var start := Pass(Model(), false);
      for i := 0 to |feed|
        invariant Pass(Model(), false) == ProcessConfig(start, feed[..i], now)
      {
        assert feed[..i + 1][..i] == feed[..i];
        if buysMade >= maxBuys {
          Stops(start, feed, i, now);
          return false;
        }
        var s := feed[i];
        if !Fresh(Model(), s.launch, now) { continue; }
        if s.raises {
          assert ProcessConfig(start, feed[..i + 1], now) == Pass(Model(), true);
          Stops(start, feed, i + 1, now);
          return true;
        }
        if !Selected(Model(), s.launch) { continue; }
        Fire(s);
      }
      assert feed[..|feed|] == feed;
      raised := false;
    }

    /** The body of the watch loop: the watch is updated in place; whether a sell went through. */
    method EvaluateAt(i: nat, l: Look) returns (sold: bool)
      requires i < |watches|
      modifies `watches
      ensures watches == old(watches)[i := Evaluate(rules, old(watches)[i], l)]
      ensures sold == (Sells(rules, old(watches)[i], l) && l.sold)
    {
      sold := false;
      var w := watches[i];
      if w.phase != Watching || !Readable(l) { return; }
      var high := w.high;
      if l.price.value > high {
        high := l.price.value;
        watches := watches[i := w.(high := high)];
      }
      var t := Triggered(rules, w.buy, high, l.price.value);
      if t.None? { return; }
      watches := watches[i := watches[i].(closedAt := l.price.value, why := t)];
      if l.sold {
        watches := watches[i := watches[i].(phase := Filled)];
        sold := true;
      } else {
        watches := watches[i := watches[i].(phase := CloseFailed)];
      }
    }

    /** `_evaluate_auto_sell_watches`; the number of sells that went through. */
    method EvaluateAutoSell(looks: seq<Look>) returns (sold: nat)
      modifies `watches
      ensures Model() == EvaluateWatches(old(Model()), looks)
      ensures Watches(rules) ==> sold == |SoldSet(rules, old(watches), looks)|
    {
      sold := 0;
      if |watches| == 0 || !Watches(rules) {
        assert |watches| == 0 ==> SoldSet(rules, watches, looks) == {};
        assert EvaluateWatches(Model(), looks).watches == watches;
        return;
      }
      ghost var before := watches;
      ghost var counted: set<int> := {};
      for i := 0 to |watches|
        invariant |watches| == |before|
        invariant forall j | 0 <= j < i :: watches[j] == Evaluate(rules, before[j], LookAt(looks, j))
        invariant forall j | i <= j < |before| :: watches[j] == before[j]
        invariant forall j :: j in counted <==> 0 <= j < i && j in SoldSet(rules, before, looks)
        invariant sold == |counted|
      {
        var done := EvaluateAt(i, LookAt(looks, i));
        if done {
          sold := sold + 1;
          counted := counted + {i};
        }
      }
      assert watches == EvaluateWatches(old(Model()), looks).watches;
      assert counted == SoldSet(rules, before, looks);
    }

    /** The part of `_run_due_with_lines` that handles one config of a non-empty feed. */
    method Turn(feed: seq<Seen>, now: int) returns (raised: bool)
      modifies this
      ensures Pass(Model(), raised) == Processed(old(Model()), feed, now)
    {
      raised := false;
      if status != Active { return; }
      raised := Process(feed, now);
      if raised { return; }
      lastSeen := now;
      if buysMade >= maxBuys {
        status := Exhausted;
      }
    }

    /** `/sniper pause`, `resume` and `edit`: one field at a time, a value out of range refused. */
    method Command(e: Event)
      requires !e.Tick?
      modifies this
      ensures Model() == Sniper.Step(old(Model()), e)
    {
      match e
      case Pause => status := Paused;
      case Resume => status := Active;
      case EditMaxBuys(n) => if n >= 1 { maxBuys := n; }
      case EditMaxAge(n) => if n >= 1 { maxAge := n; }
      case EditFilters(source, symbol, mcap) =>
        if mcap.None? || mcap.value > 0.0 {
          sourceFilter, symbolFilter, maxMcap := source, symbol, mcap;
        }
    }
  }

  /** Once the limit is reached or an exception raised, the rest of the feed makes no difference. */
  lemma {:induction false} Stops(p: Pass, feed: seq<Seen>, n: nat, now: int)
    requires n <= |feed|
    requires var q := ProcessConfig(p, feed[..n], now); q.raised || q.config.buysMade >= q.config.maxBuys
    ensures ProcessConfig(p, feed, now) == ProcessConfig(p, feed[..n], now)
  {
    if n == |feed| {
      assert feed[..n] == feed;
    } else {
      assert feed[..|feed| - 1][..n] == feed[..n];
      Stops(p, feed[..|feed| - 1], n, now);
    }
  }
}
