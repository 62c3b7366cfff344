/** Auto-sell watches of the sniper (clawmes/commands/sniper.py): high-water mark, triggers, a single sell. */
module AutoSell {
  import opened Bytes

  datatype Trigger = TakeProfit | TrailingStop | StopLoss

  datatype Phase = Watching | Filled | CloseFailed

  /** Prices that are anchored on are positive. */
  type Price = x: real | x > 0.0 witness 1.0

  datatype Watch = Watch(token: string, buy: Price, high: Price, phase: Phase, closedAt: real, why: Option<Trigger>)

  /** `--auto-sell gain:loss` and `--auto-trail pct`. */
  datatype Rules = Rules(gain: Option<real>, loss: Option<real>, trail: Option<real>)

  /** One price read, and what a sell would come to. */
  datatype Look = Look(price: Option<real>, sold: bool)

  // ---- as the code computes it -------------------------------------------------------------

  predicate Readable(l: Look) {
    l.price.Some? && l.price.value > 0.0
  }

  function Higher(high: Price, l: Look): Price {
    if Readable(l) && l.price.value > high then l.price.value else high
  }

  /** The percentage change between two prices. */
  function Change(from: Price, to: real): real {
    (to - from) / from * 100.0
  }

  function Triggered(r: Rules, buy: Price, high: Price, price: real): Option<Trigger> {
    if r.gain.Some? && Change(buy, price) >= r.gain.value then Some(TakeProfit)
    else if r.trail.Some? && Change(high, price) <= -r.trail.value then Some(TrailingStop)
    else if r.loss.Some? && Change(buy, price) <= -r.loss.value then Some(StopLoss)
    else None
  }

  /** Whether this look submits a sell. */
  predicate Sells(r: Rules, w: Watch, l: Look) {
    w.phase == Watching && Readable(l) && Triggered(r, w.buy, Higher(w.high, l), l.price.value).Some?
  }

  /** The body of the loop in `_evaluate_auto_sell_watches`. */
  function Evaluate(r: Rules, w: Watch, l: Look): Watch {
    if w.phase != Watching || !Readable(l) then w
    else
      var high := Higher(w.high, l);
      match Triggered(r, w.buy, high, l.price.value)
      case None => w.(high := high)
      case Some(t) =>
        w.(high := high, phase := if l.sold then Filled else CloseFailed, closedAt := l.price.value, why := Some(t))
  }

  function EvaluateAll(r: Rules, w: Watch, ls: seq<Look>): Watch {
    if |ls| == 0 then w else Evaluate(r, EvaluateAll(r, w, ls[..|ls| - 1]), ls[|ls| - 1])
  }

  function SellCount(r: Rules, w: Watch, ls: seq<Look>): nat {
    if |ls| == 0 then 0
    else
      SellCount(r, w, ls[..|ls| - 1]) + if Sells(r, EvaluateAll(r, w, ls[..|ls| - 1]), ls[|ls| - 1]) then 1 else 0
  }

  // ---- as the documentation states it --------------------------------------------------------

  /** The highest of the buy price and every price read. */
  function Peak(buy: Price, ls: seq<Look>): Price {
    if |ls| == 0 then buy else Higher(Peak(buy, ls[..|ls| - 1]), ls[|ls| - 1])
  }

  lemma {:induction false} PeakIsMaximum(buy: Price, ls: seq<Look>)
    ensures Peak(buy, ls) >= buy && forall i | 0 <= i < |ls| && Readable(ls[i]) :: ls[i].price.value <= Peak(buy, ls)
    ensures Peak(buy, ls) == buy || exists i :: 0 <= i < |ls| && Readable(ls[i]) && ls[i].price.value == Peak(buy, ls)
  {
    if |ls| > 0 {
      PeakIsMaximum(buy, ls[..|ls| - 1]);
      assert forall i | 0 <= i < |ls| - 1 :: ls[..|ls| - 1][i] == ls[i];
    }
  }

  predicate GainHit(r: Rules, buy: Price, price: real) {
    r.gain.Some? && price >= buy * (1.0 + r.gain.value / 100.0)
  }

  predicate TrailHit(r: Rules, peak: real, price: real) {
    r.trail.Some? && price <= peak * (1.0 - r.trail.value / 100.0)
  }

  predicate LossHit(r: Rules, buy: Price, price: real) {
    r.loss.Some? && price <= buy * (1.0 - r.loss.value / 100.0)
  }

  /** The `i`th look meets one of the thresholds, with the peak up to and including it. */
  predicate Hit(r: Rules, buy: Price, ls: seq<Look>, i: nat)
    requires i < |ls|
  {
    && Readable(ls[i])
    && (GainHit(r, buy, ls[i].price.value)
        || TrailHit(r, Peak(buy, ls[..i + 1]), ls[i].price.value)
        || LossHit(r, buy, ls[i].price.value))
  }

  predicate FirstHit(r: Rules, buy: Price, ls: seq<Look>, i: nat)
    requires i < |ls|
  {
    Hit(r, buy, ls, i) && forall j | 0 <= j < i :: !Hit(r, buy, ls, j)
  }

  /** Take-profit before trailing stop before stop-loss. */
  function Reason(r: Rules, buy: Price, peak: real, price: real): Trigger {
    if GainHit(r, buy, price) then TakeProfit else if TrailHit(r, peak, price) then TrailingStop else StopLoss
  }

  // ---- the two agree -------------------------------------------------------------------------------

  lemma ChangeAbove(base: Price, price: real, pct: real)
    ensures Change(base, price) >= pct <==> price >= base * (1.0 + pct / 100.0)
  {
    var q := (price - base) / base;
    assert q * base == price - base;
    ScaleOrder(pct / 100.0, q, base);
  }

  lemma ChangeBelow(base: Price, price: real, pct: real)
    ensures Change(base, price) <= -pct <==> price <= base * (1.0 - pct / 100.0)
  {
    var q := (price - base) / base;
    assert q * base == price - base;
    ScaleOrder(q, -(pct / 100.0), base);
  }

  lemma ScaleOrder(a: real, b: real, k: real)
    requires k > 0.0
    ensures a <= b <==> a * k <= b * k
  {
    var d := b - a;
    assert d >= 0.0 <==> d * k >= 0.0;
    assert d * k == b * k - a * k;
  }

  lemma TriggeredMeans(r: Rules, buy: Price, high: Price, price: real)
    ensures Triggered(r, buy, high, price).Some? <==> GainHit(r, buy, price) || TrailHit(r, high, price) || LossHit(r, buy, price)
    ensures Triggered(r, buy, high, price).Some? ==> Triggered(r, buy, high, price).value == Reason(r, buy, high, price)
  {
    if r.gain.Some? { ChangeAbove(buy, price, r.gain.value); }
    if r.trail.Some? { ChangeBelow(high, price, r.trail.value); }
    if r.loss.Some? { ChangeBelow(buy, price, r.loss.value); }
  }

  /** A watch as a successful snipe registers it. */
  predicate NewWatch(w: Watch) {
    w.high == w.buy && w.phase == Watching && w.why.None?
  }

  predicate NoHit(r: Rules, buy: Price, ls: seq<Look>) {
    forall i | 0 <= i < |ls| :: !Hit(r, buy, ls, i)
  }

  lemma HitPrefix(r: Rules, buy: Price, ls: seq<Look>, i: nat)
    requires i < |ls| - 1
    ensures Hit(r, buy, ls[..|ls| - 1], i) == Hit(r, buy, ls, i)
  {
    assert ls[..|ls| - 1][..i + 1] == ls[..i + 1];
  }

  lemma NoHitPrefix(r: Rules, buy: Price, ls: seq<Look>)
    requires |ls| > 0
    ensures NoHit(r, buy, ls) <==> NoHit(r, buy, ls[..|ls| - 1]) && !Hit(r, buy, ls, |ls| - 1)
  {
    var init := ls[..|ls| - 1];
    forall i | 0 <= i < |ls| - 1 ensures Hit(r, buy, init, i) == Hit(r, buy, ls, i) { HitPrefix(r, buy, ls, i); }
    assert NoHit(r, buy, ls) ==> forall i | 0 <= i < |init| :: !Hit(r, buy, ls, i);
    assert NoHit(r, buy, init) ==> forall i | 0 <= i < |init| :: !Hit(r, buy, init, i) && !Hit(r, buy, ls, i);
  }

  /**
   While no price has met a threshold the watch stays open, nothing has been sold, and its
   high-water mark is the maximum of the buy price and all positive prices read.
   */
  lemma {:induction false} OpenUntilHit(r: Rules, w: Watch, ls: seq<Look>)
    requires NewWatch(w) && NoHit(r, w.buy, ls)
    ensures EvaluateAll(r, w, ls) == w.(high := Peak(w.buy, ls)) && SellCount(r, w, ls) == 0
  {
    if |ls| > 0 {
      NoHitPrefix(r, w.buy, ls);
      OpenUntilHit(r, w, ls[..|ls| - 1]);
      LastLook(r, w, ls);
    }
  }

  /** The last look at a watch that is still open. */
  lemma LastLook(r: Rules, w: Watch, ls: seq<Look>)
    requires |ls| > 0 && w.phase == Watching
    requires EvaluateAll(r, w, ls[..|ls| - 1]) == w.(high := Peak(w.buy, ls[..|ls| - 1]))
    ensures Sells(r, EvaluateAll(r, w, ls[..|ls| - 1]), ls[|ls| - 1]) == Hit(r, w.buy, ls, |ls| - 1)
    ensures EvaluateAll(r, w, ls) ==
      if Hit(r, w.buy, ls, |ls| - 1) then Closed(r, w, ls, |ls| - 1) else w.(high := Peak(w.buy, ls))
  {
    var l := ls[|ls| - 1];
    assert ls[..|ls|] == ls;
    if Readable(l) {
      PeakIsMaximum(w.buy, ls);
      TriggeredMeans(r, w.buy, Peak(w.buy, ls), l.price.value);
    }
  }

  /** A watch closed by the `i`th look. */
  function Closed(r: Rules, w: Watch, ls: seq<Look>, i: nat): Watch
    requires i < |ls| && Hit(r, w.buy, ls, i)
  {
    var peak, price := Peak(w.buy, ls[..i + 1]), ls[i].price.value;
    w.(high := peak, phase := if ls[i].sold then Filled else CloseFailed, closedAt := price,
       why := Some(Reason(r, w.buy, peak, price)))
  }

  /**
   The watch closes at the first price that meets a threshold, for the reason of highest priority;
   that sells once, and no later look sells again.
   */
  lemma {:induction false} ClosesAtFirstHit(r: Rules, w: Watch, ls: seq<Look>, i: nat)
    requires NewWatch(w) && i < |ls| && FirstHit(r, w.buy, ls, i)
    ensures EvaluateAll(r, w, ls) == Closed(r, w, ls, i) && SellCount(r, w, ls) == 1
  {
    var init := ls[..|ls| - 1];
    if i == |ls| - 1 {
      NoHitBefore(r, w.buy, ls, i);
      assert ls[..i] == init;
      OpenUntilHit(r, w, init);
      LastLook(r, w, ls);
    } else {
      forall j | 0 <= j <= i ensures Hit(r, w.buy, init, j) == Hit(r, w.buy, ls, j) { HitPrefix(r, w.buy, ls, j); }
      ClosesAtFirstHit(r, w, init, i);
      assert init[..i + 1] == ls[..i + 1];
    }
  }

  lemma NoHitBefore(r: Rules, buy: Price, ls: seq<Look>, i: nat)
    requires i < |ls| && FirstHit(r, buy, ls, i)
    ensures NoHit(r, buy, ls[..i])
  {
    forall j | 0 <= j < i ensures !Hit(r, buy, ls[..i], j) {
      assert ls[..i][..j + 1] == ls[..j + 1];
      assert !Hit(r, buy, ls, j);
    }
  }

  /** Over any sequence of looks, at most one sell is ever submitted for a watch. */
  lemma {:induction false} SellsAtMostOnce(r: Rules, w: Watch, ls: seq<Look>)
    ensures SellCount(r, w, ls) <= if EvaluateAll(r, w, ls).phase == Watching then 0 else 1
  {
    if |ls| > 0 { SellsAtMostOnce(r, w, ls[..|ls| - 1]); }
  }
}
