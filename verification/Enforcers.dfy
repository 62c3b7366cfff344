/**
 What the caveat enforcers do on chain, as their encoders document them: each reads its terms
 bytes, keeps a ledger of its own, and refuses a redemption by reverting.
 */
module Enforcers {
  import opened Bytes
  import opened Encoding
  import opened Calldata
  import Digits

  datatype Enforcer =
    | ValueLte
    | NativeTokenTransferAmount
    | NativeTokenPeriodTransfer
    | Erc20TransferAmount
    | Erc20PeriodTransfer
    | LimitedCalls
    | Timestamp
    | AllowedTargets

  datatype CaveatTerms = CaveatTerms(enforcer: Enforcer, terms: string)

  /** One redemption that reached the chain: when, and the execution it carried. */
  datatype Redemption = Redemption(time: nat, target: Address, value: nat, callData: seq<Byte>)

  datatype Asset = Native | Token(token: Address)

  /** How much of an asset a redemption spends: its value, or what a transfer call names. */
  function AmountOf(a: Asset, r: Redemption): nat {
    match a
    case Native => r.value
    case Token(token) =>
      var call := ReadAddressAmount(TRANSFER_BYTES, r.callData);
      if r.target == token && call.Some? then call.value.1 else 0
  }

  /** What an enforcer makes of its terms. */
  datatype Rule =
    | PerCall(max: nat)
    | Total(asset: Asset, cap: nat)
    | Periodic(asset: Asset, cap: nat, start: nat, period: nat)
    | Calls(limit: nat)
    | Window(after: nat, before: nat)
    | Targets(targets: seq<Address>)

  function Parse(c: CaveatTerms): Option<Rule> {
    var b := WireBytes(c.terms);
    match c.enforcer
    case ValueLte => var u := ReadUints(b, 1); if u.Some? then Some(PerCall(u.value[0])) else None
    case NativeTokenTransferAmount => var u := ReadUints(b, 1); if u.Some? then Some(Total(Native, u.value[0])) else None
    case NativeTokenPeriodTransfer =>
      var u := ReadUints(b, 3); if u.Some? then Some(Periodic(Native, u.value[0], u.value[1], u.value[2])) else None
    case Erc20TransferAmount =>
      var p := ReadPackedAmount(c.terms); if p.Some? then Some(Total(Token(p.value.0), p.value.1)) else None
    case Erc20PeriodTransfer =>
      var p := ReadTokenPeriod(c.terms);
      if p.Some? then Some(Periodic(Token(p.value.0), p.value.1, p.value.2, p.value.3)) else None
    case LimitedCalls => var u := ReadUints(b, 1); if u.Some? then Some(Calls(u.value[0])) else None
    case Timestamp => var u := ReadUints(b, 2); if u.Some? then Some(Window(u.value[0], u.value[1])) else None
    case AllowedTargets => var t := ReadTargets(c.terms); if t.Some? then Some(Targets(t.value)) else None
  }

  /** An enforcer's storage for one caveat of one delegation. */
  datatype Ledger = Ledger(spent: nat, calls: nat, begun: bool, start: nat, slot: nat)

  const FRESH := Ledger(0, 0, false, 0, 0)

  /** The hook run before each redemption; `None` is a revert. */
  function Apply(rule: Rule, l: Ledger, r: Redemption): Option<Ledger> {
    match rule
    case PerCall(max) => if r.value <= max then Some(l) else None
    case Total(a, cap) =>
      var spent := l.spent + AmountOf(a, r);
      if spent <= cap then Some(l.(spent := spent)) else None
    case Periodic(a, cap, start, period) =>
      var s := if start > 0 then start else if l.begun then l.start else r.time;
      if period == 0 || r.time < s then None
      else
        var slot := (r.time - s) / period;
        var spent := (if l.begun && slot == l.slot then l.spent else 0) + AmountOf(a, r);
        if spent <= cap then Some(Ledger(spent, l.calls, true, s, slot)) else None
    case Calls(limit) => if l.calls + 1 <= limit then Some(l.(calls := l.calls + 1)) else None
    case Window(after, before) =>
      if (after == 0 || after < r.time) && (before == 0 || r.time < before) then Some(l) else None
    case Targets(targets) => if r.target in targets then Some(l) else None
  }

  /** The ledger after a run of redemptions, if none of them reverted. */
  function Replay(rule: Rule, rs: seq<Redemption>): Option<Ledger> {
    if |rs| == 0 then Some(FRESH)
    else
      var before := Replay(rule, rs[..|rs| - 1]);
      if before.None? then None else Apply(rule, before.value, rs[|rs| - 1])
  }

  /** Every caveat's terms are readable and every hook lets the whole run through. */
  predicate Accepts(caveats: seq<CaveatTerms>, rs: seq<Redemption>) {
    forall i | 0 <= i < |caveats| :: Parse(caveats[i]).Some? && Replay(Parse(caveats[i]).value, rs).Some?
  }

  predicate Chronological(rs: seq<Redemption>) {
    forall i, j | 0 <= i < j < |rs| :: rs[i].time <= rs[j].time
  }

  // ---- what a rule amounts to, without ledgers -------------------------------------------

  function SumOf(a: Asset, rs: seq<Redemption>): nat {
    if |rs| == 0 then 0 else SumOf(a, rs[..|rs| - 1]) + AmountOf(a, rs[|rs| - 1])
  }

  /** Spending in the `k`-th period counted from `start`. */
  function SumInSlot(a: Asset, rs: seq<Redemption>, start: nat, period: nat, k: int): nat
    requires period > 0
  {
    if |rs| == 0 then 0
    else
      var r := rs[|rs| - 1];
      SumInSlot(a, rs[..|rs| - 1], start, period, k) + if (r.time - start) / period == k then AmountOf(a, r) else 0
  }

  /** Budgets with start time zero run from the first redemption. */
  function Origin(start: nat, rs: seq<Redemption>): nat {
    if start > 0 then start else if |rs| > 0 then rs[0].time else 0
  }

  ghost predicate Allows(rule: Rule, rs: seq<Redemption>) {
    match rule
    case PerCall(max) => forall i | 0 <= i < |rs| :: rs[i].value <= max
    case Total(a, cap) => SumOf(a, rs) <= cap
    case Periodic(a, cap, start, period) =>
      |rs| > 0 ==>
        && period > 0 && Origin(start, rs) <= rs[0].time
        && forall k :: SumInSlot(a, rs, Origin(start, rs), period, k) <= cap
    case Calls(limit) => |rs| <= limit
    case Window(after, before) =>
      forall i | 0 <= i < |rs| :: (after > 0 ==> after < rs[i].time) && (before > 0 ==> rs[i].time < before)
    case Targets(targets) => forall i | 0 <= i < |rs| :: rs[i].target in targets
  }

  // ---- the ledgers compute exactly that ------------------------------------------------------

  lemma {:induction false} TotalLedger(a: Asset, cap: nat, rs: seq<Redemption>)
    ensures Replay(Total(a, cap), rs).Some? <==> SumOf(a, rs) <= cap
    ensures Replay(Total(a, cap), rs).Some? ==> Replay(Total(a, cap), rs).value.spent == SumOf(a, rs)
  {
    if |rs| > 0 { TotalLedger(a, cap, rs[..|rs| - 1]); }
  }

  lemma {:induction false} CallsLedger(limit: nat, rs: seq<Redemption>)
    ensures Replay(Calls(limit), rs).Some? <==> |rs| <= limit
    ensures Replay(Calls(limit), rs).Some? ==> Replay(Calls(limit), rs).value.calls == |rs|
  {
    if |rs| > 0 { CallsLedger(limit, rs[..|rs| - 1]); }
  }

  /** Rules that look at one redemption at a time. */
  lemma {:induction false} StatelessLedger(rule: Rule, rs: seq<Redemption>)
    requires rule.PerCall? || rule.Window? || rule.Targets?
    ensures Replay(rule, rs).Some? <==> Allows(rule, rs)
    ensures Replay(rule, rs).Some? ==> Replay(rule, rs).value == FRESH
  {
    if |rs| > 0 {
      var init := rs[..|rs| - 1];
      StatelessLedger(rule, init);
      assert rs == init + [rs[|rs| - 1]];
    }
  }

  /** Nothing is spent in periods that have not begun. */
  lemma {:induction false} FutureSlotsEmpty(a: Asset, rs: seq<Redemption>, start: nat, period: nat, k: int)
    requires period > 0 && forall i | 0 <= i < |rs| :: (rs[i].time - start) / period < k
    ensures SumInSlot(a, rs, start, period, k) == 0
  {
    if |rs| > 0 { FutureSlotsEmpty(a, rs[..|rs| - 1], start, period, k); }
  }

  lemma SlotMonotone(t: int, u: int, start: int, period: int)
    requires period > 0 && t <= u
    ensures (t - start) / period <= (u - start) / period
  {
    var x, y := t - start, u - start;
    assert x == (x / period) * period + x % period && y == (y / period) * period + y % period;
    if x / period > y / period {
      assert (x / period) * period >= (y / period + 1) * period by { MulMonotone(y / period + 1, x / period, period); }
    }
  }

  lemma MulMonotone(a: int, b: int, p: int)
    requires a <= b && p > 0
    ensures a * p <= b * p
  {
  }

  /**
   A periodic ledger that only keeps the current period's total accepts a chronological run
   exactly when every period's total is within the allowance.
   */
  lemma {:induction false} PeriodicLedger(a: Asset, cap: nat, start: nat, period: nat, rs: seq<Redemption>)
    requires Chronological(rs)
    ensures var rule := Periodic(a, cap, start, period);
      && (Replay(rule, rs).Some? <==> Allows(rule, rs))
      && (Replay(rule, rs).Some? && |rs| > 0 ==>
            var l := Replay(rule, rs).value;
            && l.begun && l.start == Origin(start, rs)
            && period > 0 && l.slot == (rs[|rs| - 1].time - l.start) / period
            && l.spent == SumInSlot(a, rs, l.start, period, l.slot))
  {
    if |rs| > 0 {
      var init, last := rs[..|rs| - 1], rs[|rs| - 1];
      PeriodicLedger(a, cap, start, period, init);
      PeriodicStep(a, cap, start, period, rs);
    }
  }

  lemma PeriodicStep(a: Asset, cap: nat, start: nat, period: nat, rs: seq<Redemption>)
    requires Chronological(rs) && |rs| > 0
    requires var rule, init := Periodic(a, cap, start, period), rs[..|rs| - 1];
      && (Replay(rule, init).Some? <==> Allows(rule, init))
      && (Replay(rule, init).Some? && |init| > 0 ==>
            var l := Replay(rule, init).value;
            && l.begun && l.start == Origin(start, init)
            && period > 0 && l.slot == (init[|init| - 1].time - l.start) / period
            && l.spent == SumInSlot(a, init, l.start, period, l.slot))
    ensures var rule := Periodic(a, cap, start, period);
      && (Replay(rule, rs).Some? <==> Allows(rule, rs))
      && (Replay(rule, rs).Some? ==>
            var l := Replay(rule, rs).value;
            && l.begun && l.start == Origin(start, rs)
            && period > 0 && l.slot == (rs[|rs| - 1].time - l.start) / period
            && l.spent == SumInSlot(a, rs, l.start, period, l.slot))
  {
    var rule, init, last := Periodic(a, cap, start, period), rs[..|rs| - 1], rs[|rs| - 1];
    var s := Origin(start, rs);
    assert |init| > 0 ==> init[0] == rs[0] && Origin(start, init) == s;
    if period > 0 && s <= rs[0].time {
      var k := (last.time - s) / period;
      CurrentSlot(a, init, s, period, last.time);
      assert forall j :: j != k ==> SumInSlot(a, rs, s, period, j) == SumInSlot(a, init, s, period, j);
      assert SumInSlot(a, rs, s, period, k) == SumInSlot(a, init, s, period, k) + AmountOf(a, last);
      assert Allows(rule, rs) <==> Allows(rule, init) && SumInSlot(a, rs, s, period, k) <= cap by {
        if Allows(rule, rs) {
          forall j ensures SumInSlot(a, init, s, period, j) <= cap {
            assert SumInSlot(a, rs, s, period, j) <= cap;
          }
        }
      }
    }
  }

  /** Before a redemption at `now`, its own period holds only what the last period may hold. */
  lemma CurrentSlot(a: Asset, init: seq<Redemption>, s: nat, period: nat, now: nat)
    requires period > 0 && forall i | 0 <= i < |init| :: init[i].time <= now
    requires forall i, j | 0 <= i < j < |init| :: init[i].time <= init[j].time
    ensures |init| == 0 || (now - s) / period != (init[|init| - 1].time - s) / period
      ==> SumInSlot(a, init, s, period, (now - s) / period) == 0
  {
    var k := (now - s) / period;
    if |init| > 0 && k != (init[|init| - 1].time - s) / period {
      var last := init[|init| - 1].time;
      SlotMonotone(last, now, s, period);
      forall i | 0 <= i < |init| ensures (init[i].time - s) / period < k {
        SlotMonotone(init[i].time, last, s, period);
      }
      FutureSlotsEmpty(a, init, s, period, k);
    }
  }

  /** Every rule's ledger accepts a chronological run exactly when the rule allows it. */
  lemma LedgersExact(rule: Rule, rs: seq<Redemption>)
    requires Chronological(rs)
    ensures Replay(rule, rs).Some? <==> Allows(rule, rs)
  {
    match rule
    case Total(a, cap) => TotalLedger(a, cap, rs);
    case Periodic(a, cap, start, period) => PeriodicLedger(a, cap, start, period, rs);
    case Calls(limit) => CallsLedger(limit, rs);
    case _ => StatelessLedger(rule, rs);
  }

  // ---- budgets over any span ---------------------------------------------------------------

  function SumBetween(a: Asset, rs: seq<Redemption>, from: int, until: int): nat {
    if |rs| == 0 then 0
    else
      var r := rs[|rs| - 1];
      SumBetween(a, rs[..|rs| - 1], from, until) + if from <= r.time < until then AmountOf(a, r) else 0
  }

  lemma {:induction false} SpanWithinTwoSlots(a: Asset, rs: seq<Redemption>, s: nat, period: nat, from: int)
    requires period > 0
    ensures var k := (from - s) / period;
      SumBetween(a, rs, from, from + period) <= SumInSlot(a, rs, s, period, k) + SumInSlot(a, rs, s, period, k + 1)
  {
    if |rs| > 0 {
      var t, k := rs[|rs| - 1].time, (from - s) / period;
      SpanWithinTwoSlots(a, rs[..|rs| - 1], s, period, from);
      if from <= t < from + period {
        SlotMonotone(from, t, s, period);
        SlotMonotone(t, from + period, s, period);
        assert (from + period - s) / period == k + 1 by { NextSlot(from - s, period); }
      }
    }
  }

  lemma NextSlot(x: int, period: int)
    requires period > 0
    ensures (x + period) / period == x / period + 1
  {
    var q, r := x / period, x % period;
    assert x + period == (q + 1) * period + r;
    var n := x + period;
    Digits.QuotientUnique(period, n / period, q + 1, n % period, r);
  }

  /** A budget that resets each period never lets more than two budgets through in any span of one period. */
  lemma PeriodicSpan(a: Asset, cap: nat, start: nat, period: nat, rs: seq<Redemption>, from: int)
    requires Chronological(rs) && period > 0 && Replay(Periodic(a, cap, start, period), rs).Some?
    ensures SumBetween(a, rs, from, from + period) <= 2 * cap
  {
    if |rs| > 0 {
      PeriodicLedger(a, cap, start, period, rs);
      var s := Origin(start, rs);
      SpanWithinTwoSlots(a, rs, s, period, from);
      assert SumInSlot(a, rs, s, period, (from - s) / period) <= cap;
      assert SumInSlot(a, rs, s, period, (from - s) / period + 1) <= cap;
    }
  }
}
