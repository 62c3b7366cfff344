/**
 The sliding daily cap that the copy trader and the DCA scheduler share: history is estimated as a
 fixed amount for every successful run of the last day, while what was paid may differ run by run.
 */
module SlidingCap {
  import opened Bytes

  /** What came of asking for a swap. */
  datatype Swap = NoWallet | Fails | Succeeds

  /** A cap that is set is positive. */
  predicate Positive(cap: Option<real>) {
    cap.None? || cap.value > 0.0
  }

  const DAY := 86400

  /** One recorded run: when it was recorded, whether it succeeded, and what it actually paid. */
  datatype Entry = Entry(at: int, ok: bool, paid: real)

  /** Successful runs recorded at or after `cutoff`. */
  function CountSince(es: seq<Entry>, cutoff: int): nat {
    if |es| == 0 then 0
    else
      var e := es[|es| - 1];
      CountSince(es[..|es| - 1], cutoff) + if e.ok && e.at >= cutoff then 1 else 0
  }

  /** What successful runs recorded in the closed interval paid. */
  function PaidWithin(es: seq<Entry>, from: int, until: int): real {
    if |es| == 0 then 0.0
    else
      var e := es[|es| - 1];
      PaidWithin(es[..|es| - 1], from, until) + if e.ok && from <= e.at <= until then e.paid else 0.0
  }

  function PaidTotal(es: seq<Entry>): real {
    if |es| == 0 then 0.0
    else
      var e := es[|es| - 1];
      PaidTotal(es[..|es| - 1]) + if e.ok then e.paid else 0.0
  }

  /** What the closed window of one day that starts at `t` paid. */
  function PaidInDay(es: seq<Entry>, t: int): real {
    PaidWithin(es, t, t + DAY)
  }

  /** Every closed window of one day paid at most `cap`. */
  ghost predicate Capped(es: seq<Entry>, cap: real) {
    forall t :: PaidInDay(es, t) <= cap
  }

  /** Successful runs recorded at or after `cutoff` paid at most `unit` each. */
  predicate BoundedSince(es: seq<Entry>, cutoff: int, unit: real) {
    forall i | 0 <= i < |es| :: es[i].ok && es[i].at >= cutoff ==> es[i].paid <= unit
  }

  lemma {:induction false} CountAntitone(es: seq<Entry>, early: int, late: int)
    requires early <= late
    ensures CountSince(es, late) <= CountSince(es, early)
  {
    if |es| > 0 { CountAntitone(es[..|es| - 1], early, late); }
  }

  lemma {:induction false} EstimateCovers(es: seq<Entry>, from: int, until: int, unit: real)
    requires unit >= 0.0 && BoundedSince(es, from, unit)
    ensures PaidWithin(es, from, until) <= unit * CountSince(es, from) as real
  {
    if |es| > 0 {
      var init, e := es[..|es| - 1], es[|es| - 1];
      EstimateCovers(init, from, until, unit);
      if e.ok && e.at >= from {
        OneMore(unit, CountSince(init, from));
      }
    }
  }

  /** The successful runs recorded at or after `cutoff`, by position. */
  function SinceAt(es: seq<Entry>, cutoff: int): set<nat> {
    set i: nat | i < |es| && es[i].ok && cutoff <= es[i].at
  }

  /** The count that the estimate multiplies is of exactly these runs. */
  lemma {:induction false} CountIsSince(es: seq<Entry>, cutoff: int)
    ensures CountSince(es, cutoff) == |SinceAt(es, cutoff)|
  {
    if |es| == 0 {
      assert SinceAt(es, cutoff) == {};
    } else {
      var n := |es| - 1;
      CountIsSince(es[..n], cutoff);
      assert SinceAt(es, cutoff) == SinceAt(es[..n], cutoff) + if es[n].ok && cutoff <= es[n].at then {n} else {};
    }
  }

  lemma OneMore(unit: real, count: nat)
    ensures unit * (count + 1) as real == unit * count as real + unit
  {
  }

  /** The estimate over the first `n` runs, as a loop over the history adds it up. */
  ghost function Estimate(unit: real, es: seq<Entry>, n: nat, cutoff: int): real
    requires n <= |es|
  {
    unit * CountSince(es[..n], cutoff) as real
  }

  lemma EstimateStep(unit: real, es: seq<Entry>, n: nat, cutoff: int)
    requires n < |es|
    ensures Estimate(unit, es, n + 1, cutoff)
      == Estimate(unit, es, n, cutoff) + if es[n].ok && es[n].at >= cutoff then unit else 0.0
  {
    assert es[..n + 1][..n] == es[..n];
    OneMore(unit, CountSince(es[..n], cutoff));
  }

  lemma ScaleMonotone(unit: real, a: nat, b: nat)
    requires unit >= 0.0 && a <= b
    ensures unit * a as real <= unit * b as real
  {
  }

  /**
   The check keeps every window within the cap: a run passes when the estimate for the day before
   the check plus its own amount is within the cap, and is recorded at or after the check. All
   that is needed of the history is that no run in that day paid more than the current unit.
   */
  lemma CheckKeepsCap(es: seq<Entry>, e: Entry, unit: real, cap: real, checkAt: int)
    requires Capped(es, cap) && unit >= 0.0 && BoundedSince(es, checkAt - DAY, unit)
    requires e.ok && checkAt <= e.at && unit * CountSince(es, checkAt - DAY) as real + e.paid <= cap
    ensures Capped(es + [e], cap)
  {
    forall t ensures PaidInDay(es + [e], t) <= cap {
      PaidSnoc(es, e, t);
      assert PaidInDay(es, t) <= cap;
      if t <= e.at <= t + DAY { WindowFits(es, unit, checkAt - DAY, t); }
    }
  }

  lemma PaidSnoc(es: seq<Entry>, e: Entry, t: int)
    ensures PaidInDay(es + [e], t) == PaidInDay(es, t) + if e.ok && t <= e.at <= t + DAY then e.paid else 0.0
  {
    assert (es + [e])[..|es|] == es;
  }

  /** The estimate from an earlier cutoff covers a window that starts later. */
  lemma WindowFits(es: seq<Entry>, unit: real, cutoff: int, t: int)
    requires unit >= 0.0 && BoundedSince(es, cutoff, unit) && cutoff <= t
    ensures PaidInDay(es, t) <= unit * CountSince(es, cutoff) as real
  {
    EstimateCovers(es, t, t + DAY, unit);
    CountAntitone(es, cutoff, t);
    ScaleMonotone(unit, CountSince(es, t), CountSince(es, cutoff));
  }

  /** Runs that did not succeed change no window. */
  lemma FailureKeepsCap(es: seq<Entry>, e: Entry, cap: real)
    requires Capped(es, cap) && (!e.ok || e.paid == 0.0)
    ensures Capped(es + [e], cap)
  {
    forall t ensures PaidInDay(es + [e], t) <= cap {
      PaidSnoc(es, e, t);
      assert PaidInDay(es, t) <= cap;
    }
  }
}
