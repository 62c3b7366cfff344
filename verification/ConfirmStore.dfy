/** One-time confirmation nonces (clawmes/policy/confirm_store.py) with lazily collected expiry. */
module ConfirmStore {
  import opened Bytes

  datatype Pending = Pending(nonce: string, fingerprint: string, expires: real)

  // ---- the list --------------------------------------------------------------------------

  /** `_gc_locked`. */
  function Live(ps: seq<Pending>, now: real): seq<Pending> {
    if |ps| == 0 then []
    else Live(ps[..|ps| - 1], now) + if ps[|ps| - 1].expires > now then [ps[|ps| - 1]] else []
  }

  predicate Answers(p: Pending, fingerprint: string, nonce: string) {
    p.nonce == nonce && p.fingerprint == fingerprint
  }

  predicate Found(ps: seq<Pending>, fingerprint: string, nonce: string) {
    exists i :: 0 <= i < |ps| && Answers(ps[i], fingerprint, nonce)
  }

  /** The list without its first entry for this nonce and fingerprint. */
  function WithoutFirst(ps: seq<Pending>, fingerprint: string, nonce: string): seq<Pending> {
    if |ps| == 0 then []
    else if Answers(ps[0], fingerprint, nonce) then ps[1..]
    else [ps[0]] + WithoutFirst(ps[1..], fingerprint, nonce)
  }

  // ---- runs -----------------------------------------------------------------------------------

  datatype Event = Issue(nonce: string, fingerprint: string, now: real) | Consume(nonce: string, fingerprint: string, now: real)

  function Step(ps: seq<Pending>, e: Event, ttl: real): seq<Pending> {
    var live := Live(ps, e.now);
    match e
    case Issue(nonce, fingerprint, now) => live + [Pending(nonce, fingerprint, now + ttl)]
    case Consume(nonce, fingerprint, now) => WithoutFirst(live, fingerprint, nonce)
  }

  function Run(events: seq<Event>, ttl: real): seq<Pending> {
    if |events| == 0 then [] else Step(Run(events[..|events| - 1], ttl), events[|events| - 1], ttl)
  }

  /** Whether the event is a consume that returns true. */
  predicate Granted(ps: seq<Pending>, e: Event) {
    e.Consume? && Found(Live(ps, e.now), e.fingerprint, e.nonce)
  }

  predicate GrantedAt(events: seq<Event>, ttl: real, i: nat)
    requires i < |events|
  {
    Granted(Run(events[..i], ttl), events[i])
  }

  predicate ClockForward(events: seq<Event>) {
    forall i, j | 0 <= i < j < |events| :: events[i].now <= events[j].now
  }

  /** Every issued nonce is new. */
  predicate FreshNonces(events: seq<Event>) {
    forall i, j | 0 <= i < j < |events| :: events[i].Issue? && events[j].Issue? ==> events[i].nonce != events[j].nonce
  }

  predicate DistinctNonces(ps: seq<Pending>) {
    forall i, j | 0 <= i < j < |ps| :: ps[i].nonce != ps[j].nonce
  }

  lemma {:induction false} LiveMembers(ps: seq<Pending>, now: real)
    ensures forall p :: p in Live(ps, now) <==> p in ps && p.expires > now
    ensures DistinctNonces(ps) ==> DistinctNonces(Live(ps, now))
  {
    if |ps| > 0 {
      var init, last := ps[..|ps| - 1], ps[|ps| - 1];
      assert ps == init + [last];
      LiveMembers(init, now);
      if DistinctNonces(ps) { LastNonceIsNew(init, last, now); }
    }
  }

  lemma LastNonceIsNew(init: seq<Pending>, last: Pending, now: real)
    requires DistinctNonces(init + [last]) && forall p :: p in Live(init, now) ==> p in init
    ensures forall p | p in Live(init, now) :: p.nonce != last.nonce
  {
    var ps := init + [last];
    forall p | p in Live(init, now) ensures p.nonce != last.nonce {
      var i :| 0 <= i < |init| && init[i] == p;
      assert ps[i].nonce != ps[|init|].nonce;
    }
  }

  lemma HeadNonceIsNew(ps: seq<Pending>)
    requires |ps| > 0 && DistinctNonces(ps)
    ensures DistinctNonces(ps[1..]) && forall p | p in ps[1..] :: p.nonce != ps[0].nonce
  {
    var rest := ps[1..];
    forall p | p in rest ensures p.nonce != ps[0].nonce {
      var i :| 0 <= i < |rest| && rest[i] == p;
      assert ps[i + 1] == p;
    }
  }

  lemma {:induction false} WithoutFirstMembers(ps: seq<Pending>, fingerprint: string, nonce: string)
    requires DistinctNonces(ps)
    ensures forall p :: p in WithoutFirst(ps, fingerprint, nonce) <==> p in ps && !Answers(p, fingerprint, nonce)
    ensures DistinctNonces(WithoutFirst(ps, fingerprint, nonce))
  {
    if |ps| > 0 {
      var rest := ps[1..];
      assert ps == [ps[0]] + rest;
      HeadNonceIsNew(ps);
      if !Answers(ps[0], fingerprint, nonce) { WithoutFirstMembers(rest, fingerprint, nonce); }
    }
  }

  lemma FoundMeans(ps: seq<Pending>, fingerprint: string, nonce: string)
    ensures Found(ps, fingerprint, nonce) <==> exists p :: p in ps && Answers(p, fingerprint, nonce)
  {
    if p :| p in ps && Answers(p, fingerprint, nonce) {
      var i :| 0 <= i < |ps| && ps[i] == p;
    }
  }

  // ---- what the store holds -----------------------------------------------------------------------

  /** Event `c` asks for what event `a` issued. */
  predicate Takes(c: Event, a: Event) {
    c.Consume? && a.Issue? && c.nonce == a.nonce && c.fingerprint == a.fingerprint
  }

  /** Event `i` asks for what event `j` issued, in time. */
  predicate AsksInTime(events: seq<Event>, j: nat, i: nat, ttl: real)
    requires j < |events| && i < |events|
  {
    Takes(events[i], events[j]) && events[i].now < events[j].now + ttl
  }

  /** Nothing between the issue and event `n` asked for it in time. */
  predicate Unasked(events: seq<Event>, j: nat, n: nat, ttl: real)
    requires n <= |events|
  {
    j < n && events[j].Issue? && forall k | j < k < n :: !AsksInTime(events, j, k, ttl)
  }

  /** Some clock between the issue and event `n` is past the deadline. */
  predicate Strayed(events: seq<Event>, j: nat, n: nat, ttl: real)
    requires j < n <= |events|
  {
    exists k :: j < k < n && events[k].now >= events[j].now + ttl
  }

  predicate Held(events: seq<Event>, j: nat, n: nat, ttl: real)
    requires n <= |events|
  {
    Unasked(events, j, n, ttl) && !Strayed(events, j, n, ttl)
  }

  function EntryAt(events: seq<Event>, j: nat, ttl: real): Pending
    requires j < |events| && events[j].Issue?
  {
    Pending(events[j].nonce, events[j].fingerprint, events[j].now + ttl)
  }

  /** The collecting store holds the entries that were not asked for and never met a clock past their deadline. */
  ghost predicate Holds(events: seq<Event>, n: nat, ttl: real, ps: seq<Pending>)
    requires n <= |events|
  {
    && DistinctNonces(ps)
    && (forall p | p in ps :: exists j: nat :: j < n && Held(events, j, n, ttl) && EntryAt(events, j, ttl) == p)
    && (forall j: nat | j < n && Held(events, j, n, ttl) :: EntryAt(events, j, ttl) in ps)
  }

  lemma UnaskedNext(events: seq<Event>, j: nat, n: nat, ttl: real)
    requires j < n < |events|
    ensures Unasked(events, j, n + 1, ttl) <==> Unasked(events, j, n, ttl) && !AsksInTime(events, j, n, ttl)
    ensures Strayed(events, j, n + 1, ttl) <==> Strayed(events, j, n, ttl) || events[n].now >= events[j].now + ttl
  {
  }

  lemma HeldNext(events: seq<Event>, j: nat, n: nat, ttl: real)
    requires j < n < |events|
    ensures Held(events, j, n + 1, ttl) <==>
      Held(events, j, n, ttl) && events[n].now < events[j].now + ttl && !Takes(events[n], events[j])
  {
    UnaskedNext(events, j, n, ttl);
  }

  lemma JustIssued(events: seq<Event>, n: nat, ttl: real)
    requires n < |events| && events[n].Issue?
    ensures Held(events, n, n + 1, ttl) && Unasked(events, n, n + 1, ttl)
  {
  }

  lemma SnocDistinct(ps: seq<Pending>, p: Pending)
    requires DistinctNonces(ps) && forall q | q in ps :: q.nonce != p.nonce
    ensures DistinctNonces(ps + [p])
  {
  }

  lemma IssueHolds(events: seq<Event>, n: nat, ttl: real, ps: seq<Pending>)
    requires n < |events| && FreshNonces(events) && Holds(events, n, ttl, ps) && events[n].Issue?
    ensures Holds(events, n + 1, ttl, Step(ps, events[n], ttl))
  {
    var live, added := Live(ps, events[n].now), EntryAt(events, n, ttl);
    LiveMembers(ps, events[n].now);
    JustIssued(events, n, ttl);
    SnocDistinct(live, added);
    forall p | p in live ensures exists j: nat :: j < n + 1 && Held(events, j, n + 1, ttl) && EntryAt(events, j, ttl) == p {
      var j: nat :| j < n && Held(events, j, n, ttl) && EntryAt(events, j, ttl) == p;
      HeldNext(events, j, n, ttl);
    }
    forall j: nat | j < n + 1 && Held(events, j, n + 1, ttl) ensures EntryAt(events, j, ttl) in live + [added] {
      if j < n { HeldNext(events, j, n, ttl); }
    }
  }

  lemma ConsumeHolds(events: seq<Event>, n: nat, ttl: real, ps: seq<Pending>)
    requires n < |events| && Holds(events, n, ttl, ps) && events[n].Consume?
    ensures Holds(events, n + 1, ttl, Step(ps, events[n], ttl))
  {
    var e, live, after := events[n], Live(ps, events[n].now), Step(ps, events[n], ttl);
    LiveMembers(ps, e.now);
    WithoutFirstMembers(live, e.fingerprint, e.nonce);
    forall p | p in after ensures exists j: nat :: j < n + 1 && Held(events, j, n + 1, ttl) && EntryAt(events, j, ttl) == p {
      var j: nat :| j < n && Held(events, j, n, ttl) && EntryAt(events, j, ttl) == p;
      HeldNext(events, j, n, ttl);
    }
    forall j: nat | j < n + 1 && Held(events, j, n + 1, ttl) ensures EntryAt(events, j, ttl) in after {
      HeldNext(events, j, n, ttl);
    }
  }

  lemma {:induction false} RunHolds(events: seq<Event>, n: nat, ttl: real)
    requires n <= |events| && FreshNonces(events)
    ensures Holds(events, n, ttl, Run(events[..n], ttl))
  {
    if n > 0 {
      RunHolds(events, n - 1, ttl);
      assert events[..n][..n - 1] == events[..n - 1];
      if events[n - 1].Issue? { IssueHolds(events, n - 1, ttl, Run(events[..n - 1], ttl)); }
      else { ConsumeHolds(events, n - 1, ttl, Run(events[..n - 1], ttl)); }
    }
  }

  lemma FoundLive(ps: seq<Pending>, e: Event)
    requires e.Consume?
    ensures Granted(ps, e) <==> exists p :: p in ps && p.expires > e.now && Answers(p, e.fingerprint, e.nonce)
  {
    LiveMembers(ps, e.now);
    FoundMeans(Live(ps, e.now), e.fingerprint, e.nonce);
  }

  /** Whatever the clocks, the collecting store grants exactly what is held and asked for in time. */
  lemma GrantedMeans(events: seq<Event>, ttl: real, i: nat)
    requires i < |events| && FreshNonces(events) && events[i].Consume?
    ensures GrantedAt(events, ttl, i) <==> exists j: nat :: j < i && Held(events, j, i, ttl) && AsksInTime(events, j, i, ttl)
  {
    var ps, e := Run(events[..i], ttl), events[i];
    RunHolds(events, i, ttl);
    FoundLive(ps, e);
    if GrantedAt(events, ttl, i) {
      var p :| p in ps && p.expires > e.now && Answers(p, e.fingerprint, e.nonce);
      var j: nat :| j < i && Held(events, j, i, ttl) && EntryAt(events, j, ttl) == p;
      assert AsksInTime(events, j, i, ttl);
    }
    if j: nat :| j < i && Held(events, j, i, ttl) && AsksInTime(events, j, i, ttl) {
      assert EntryAt(events, j, ttl) in ps;
    }
  }

  // ---- the meaning of an answer ---------------------------------------------------------------------

  ghost predicate IssuedFor(events: seq<Event>, nonce: string, fingerprint: string, at: real) {
    exists j :: 0 <= j < |events| && events[j] == Issue(nonce, fingerprint, at)
  }

  ghost predicate Spent(events: seq<Event>, ttl: real, nonce: string) {
    exists i :: 0 <= i < |events| && GrantedAt(events, ttl, i) && events[i].nonce == nonce
  }

  /** Under a forward clock nothing strays from an entry that is still asked for in time. */
  lemma InTimeNeverStrays(events: seq<Event>, j: nat, i: nat, ttl: real)
    requires j < i < |events| && ClockForward(events) && events[i].now < events[j].now + ttl
    ensures !Strayed(events, j, i, ttl)
  {
  }

  /** The first consume that asks in time. */
  lemma {:induction false} FirstAsk(events: seq<Event>, j: nat, n: nat, ttl: real) returns (k: nat)
    requires j < n <= |events| && events[j].Issue? && !Unasked(events, j, n, ttl)
    ensures j < k < n && AsksInTime(events, j, k, ttl) && Unasked(events, j, k, ttl)
    decreases n
  {
    if Unasked(events, j, n - 1, ttl) || n - 1 == j {
      k :| j < k < n && AsksInTime(events, j, k, ttl);
    } else {
      k := FirstAsk(events, j, n - 1, ttl);
    }
  }

  lemma SpentBefore(events: seq<Event>, ttl: real, i: nat, k: nat)
    requires k < i <= |events|
    ensures GrantedAt(events[..i], ttl, k) <==> GrantedAt(events, ttl, k)
  {
    assert events[..i][..k] == events[..k];
  }

  /** An entry that is asked for in time has been granted before exactly when it was asked for before. */
  lemma SpentIffAsked(events: seq<Event>, ttl: real, j: nat, i: nat)
    requires FreshNonces(events) && ClockForward(events) && j < i < |events| && AsksInTime(events, j, i, ttl)
    ensures Spent(events[..i], ttl, events[i].nonce) <==> !Unasked(events, j, i, ttl)
  {
    if !Unasked(events, j, i, ttl) {
      var k := FirstAsk(events, j, i, ttl);
      InTimeNeverStrays(events, j, k, ttl);
      GrantedMeans(events, ttl, k);
      SpentBefore(events, ttl, i, k);
    }
    if Spent(events[..i], ttl, events[i].nonce) {
      var k :| 0 <= k < i && GrantedAt(events[..i], ttl, k) && events[..i][k].nonce == events[i].nonce;
      SpentBefore(events, ttl, i, k);
      GrantedMeans(events, ttl, k);
      var a: nat :| a < k && Held(events, a, k, ttl) && AsksInTime(events, a, k, ttl);
      SameIssue(events, a, j);
      assert AsksInTime(events, j, k, ttl);
    }
  }

  lemma SameIssue(events: seq<Event>, a: nat, b: nat)
    requires FreshNonces(events) && a < |events| && b < |events| && events[a].Issue? && events[b].Issue?
    requires events[a].nonce == events[b].nonce
    ensures a == b
  {
  }

  /**
   With fresh nonces and a clock that does not go back, a consume is granted exactly when its nonce was
   issued for the same fingerprint, less than the time to live ago, and has not been granted before.
   So each nonce is granted at most once, only for its own action and only in time, and the first
   such consume is granted.
   */
  lemma GrantedIff(events: seq<Event>, ttl: real, i: nat)
    requires FreshNonces(events) && ClockForward(events) && i < |events| && events[i].Consume?
    ensures GrantedAt(events, ttl, i) <==>
      && (exists at: real :: IssuedFor(events[..i], events[i].nonce, events[i].fingerprint, at) && events[i].now < at + ttl)
      && !Spent(events[..i], ttl, events[i].nonce)
  {
    var before, e := events[..i], events[i];
    GrantedMeans(events, ttl, i);
    if GrantedAt(events, ttl, i) {
      var j: nat :| j < i && Held(events, j, i, ttl) && AsksInTime(events, j, i, ttl);
      assert before[j] == Issue(e.nonce, e.fingerprint, events[j].now);
      assert IssuedFor(before, e.nonce, e.fingerprint, events[j].now);
      SpentIffAsked(events, ttl, j, i);
    }
    if at: real :| IssuedFor(before, e.nonce, e.fingerprint, at) && e.now < at + ttl && !Spent(before, ttl, e.nonce) {
      var j :| 0 <= j < i && before[j] == Issue(e.nonce, e.fingerprint, at);
      assert AsksInTime(events, j, i, ttl);
      SpentIffAsked(events, ttl, j, i);
      InTimeNeverStrays(events, j, i, ttl);
    }
  }

  /** No nonce is granted twice, whatever the clocks. */
  lemma GrantedAtMostOnce(events: seq<Event>, ttl: real, i: nat, j: nat)
    requires FreshNonces(events) && i < j < |events|
    requires GrantedAt(events, ttl, i) && GrantedAt(events, ttl, j)
    ensures events[i].nonce != events[j].nonce
  {
    GrantedMeans(events, ttl, i);
    GrantedMeans(events, ttl, j);
    var a: nat :| a < i && Held(events, a, i, ttl) && AsksInTime(events, a, i, ttl);
    var b: nat :| b < j && Held(events, b, j, ttl) && AsksInTime(events, b, j, ttl);
    if events[i].nonce == events[j].nonce { SameIssue(events, a, b); }
  }

  // ---- collection is invisible -------------------------------------------------------------------------

  /** A store that never collects, and only looks at what has not expired. */
  function WithoutFirstLive(ps: seq<Pending>, fingerprint: string, nonce: string, now: real): seq<Pending> {
    if |ps| == 0 then []
    else if ps[0].expires > now && Answers(ps[0], fingerprint, nonce) then ps[1..]
    else [ps[0]] + WithoutFirstLive(ps[1..], fingerprint, nonce, now)
  }

  function LazyStep(ps: seq<Pending>, e: Event, ttl: real): seq<Pending> {
    match e
    case Issue(nonce, fingerprint, now) => ps + [Pending(nonce, fingerprint, now + ttl)]
    case Consume(nonce, fingerprint, now) => WithoutFirstLive(ps, fingerprint, nonce, now)
  }

  function LazyRun(events: seq<Event>, ttl: real): seq<Pending> {
    if |events| == 0 then [] else LazyStep(LazyRun(events[..|events| - 1], ttl), events[|events| - 1], ttl)
  }

  lemma LiveSnoc(ps: seq<Pending>, p: Pending, now: real)
    ensures Live(ps + [p], now) == Live(ps, now) + if p.expires > now then [p] else []
  {
    assert (ps + [p])[..|ps|] == ps;
  }

  lemma {:induction false} LiveCons(p: Pending, ps: seq<Pending>, now: real)
    ensures Live([p] + ps, now) == (if p.expires > now then [p] else []) + Live(ps, now)
  {
    if |ps| == 0 {
      assert [p] + ps == [] + [p] && ([p])[..0] == [];
    } else {
      var init, last := ps[..|ps| - 1], ps[|ps| - 1];
      LiveCons(p, init, now);
      assert [p] + ps == ([p] + init) + [last];
      LiveSnoc([p] + init, last, now);
    }
  }

  lemma {:induction false} LiveTwice(ps: seq<Pending>, early: real, late: real)
    requires early <= late
    ensures Live(Live(ps, early), late) == Live(ps, late)
  {
    if |ps| > 0 {
      var init, last := ps[..|ps| - 1], ps[|ps| - 1];
      LiveTwice(init, early, late);
      if last.expires > early {
        LiveSnoc(Live(init, early), last, late);
      } else {
        assert Live(init, early) + [] == Live(init, early);
      }
    }
  }

  lemma {:induction false} RemovalCommutes(ps: seq<Pending>, fingerprint: string, nonce: string, now: real)
    ensures Live(WithoutFirstLive(ps, fingerprint, nonce, now), now) == WithoutFirst(Live(ps, now), fingerprint, nonce)
  {
    if |ps| > 0 {
      var p, rest := ps[0], ps[1..];
      assert ps == [p] + rest;
      LiveCons(p, rest, now);
      if p.expires > now && Answers(p, fingerprint, nonce) {
        assert Live(ps, now)[1..] == Live(rest, now);
      } else {
        RemovalCommutes(rest, fingerprint, nonce, now);
        LiveCons(p, WithoutFirstLive(rest, fingerprint, nonce, now), now);
        if p.expires > now {
          assert Live(ps, now)[1..] == Live(rest, now);
        } else {
          assert [] + Live(rest, now) == Live(rest, now);
          assert [] + Live(WithoutFirstLive(rest, fingerprint, nonce, now), now) == Live(WithoutFirstLive(rest, fingerprint, nonce, now), now);
        }
      }
    }
  }

  /** From now on both stores hold the same live entries. */
  ghost predicate AlikeFrom(ps: seq<Pending>, qs: seq<Pending>, now: real) {
    forall at: real :: at >= now ==> Live(ps, at) == Live(qs, at)
  }

  lemma StepAlike(ps: seq<Pending>, qs: seq<Pending>, e: Event, ttl: real)
    requires AlikeFrom(ps, qs, e.now)
    ensures AlikeFrom(Step(ps, e, ttl), LazyStep(qs, e, ttl), e.now)
  {
    forall at: real | at >= e.now ensures Live(Step(ps, e, ttl), at) == Live(LazyStep(qs, e, ttl), at) {
      LiveTwice(ps, e.now, at);
      if e.Issue? {
        LiveSnoc(Live(ps, e.now), Pending(e.nonce, e.fingerprint, e.now + ttl), at);
        LiveSnoc(qs, Pending(e.nonce, e.fingerprint, e.now + ttl), at);
      } else {
        RemovalCommutes(qs, e.fingerprint, e.nonce, e.now);
        LiveTwice(WithoutFirstLive(qs, e.fingerprint, e.nonce, e.now), e.now, at);
      }
    }
  }

  lemma {:induction false} RunsAlike(events: seq<Event>, ttl: real, now: real)
    requires ClockForward(events) && forall i | 0 <= i < |events| :: events[i].now <= now
    ensures AlikeFrom(Run(events, ttl), LazyRun(events, ttl), now)
  {
    if |events| > 0 {
      var init, e := events[..|events| - 1], events[|events| - 1];
      RunsAlike(init, ttl, e.now);
      StepAlike(Run(init, ttl), LazyRun(init, ttl), e, ttl);
    }
  }

  predicate LazyGrantedAt(events: seq<Event>, ttl: real, i: nat)
    requires i < |events|
  {
    Granted(LazyRun(events[..i], ttl), events[i])
  }

  /** Collecting expired entries never changes an answer. */
  lemma CollectionInvisible(events: seq<Event>, ttl: real, i: nat)
    requires ClockForward(events) && i < |events|
    ensures GrantedAt(events, ttl, i) <==> LazyGrantedAt(events, ttl, i)
  {
    RunsAlike(events[..i], ttl, events[i].now);
  }

  // ---- when it is visible ------------------------------------------------------------------------------

  /** The store that never collects holds the entries that were not asked for. */
  ghost predicate HoldsAll(events: seq<Event>, n: nat, ttl: real, ps: seq<Pending>)
    requires n <= |events|
  {
    && DistinctNonces(ps)
    && (forall p | p in ps :: exists j: nat :: j < n && Unasked(events, j, n, ttl) && EntryAt(events, j, ttl) == p)
    && (forall j: nat | j < n && Unasked(events, j, n, ttl) :: EntryAt(events, j, ttl) in ps)
  }

  lemma {:induction false} WithoutFirstLiveMembers(ps: seq<Pending>, fingerprint: string, nonce: string, now: real)
    requires DistinctNonces(ps)
    ensures forall p ::
      p in WithoutFirstLive(ps, fingerprint, nonce, now) <==> p in ps && !(p.expires > now && Answers(p, fingerprint, nonce))
    ensures DistinctNonces(WithoutFirstLive(ps, fingerprint, nonce, now))
  {
    if |ps| > 0 {
      var rest := ps[1..];
      assert ps == [ps[0]] + rest;
      HeadNonceIsNew(ps);
      WithoutFirstLiveMembers(rest, fingerprint, nonce, now);
    }
  }

  lemma IssueHoldsAll(events: seq<Event>, n: nat, ttl: real, ps: seq<Pending>)
    requires n < |events| && FreshNonces(events) && HoldsAll(events, n, ttl, ps) && events[n].Issue?
    ensures HoldsAll(events, n + 1, ttl, LazyStep(ps, events[n], ttl))
  {
    var added := EntryAt(events, n, ttl);
    JustIssued(events, n, ttl);
    SnocDistinct(ps, added);
    forall p | p in ps ensures exists j: nat :: j < n + 1 && Unasked(events, j, n + 1, ttl) && EntryAt(events, j, ttl) == p {
      var j: nat :| j < n && Unasked(events, j, n, ttl) && EntryAt(events, j, ttl) == p;
      UnaskedNext(events, j, n, ttl);
    }
    forall j: nat | j < n + 1 && Unasked(events, j, n + 1, ttl) ensures EntryAt(events, j, ttl) in ps + [added] {
      if j < n { UnaskedNext(events, j, n, ttl); }
    }
  }

  lemma ConsumeHoldsAll(events: seq<Event>, n: nat, ttl: real, ps: seq<Pending>)
    requires n < |events| && HoldsAll(events, n, ttl, ps) && events[n].Consume?
    ensures HoldsAll(events, n + 1, ttl, LazyStep(ps, events[n], ttl))
  {
    var e, after := events[n], LazyStep(ps, events[n], ttl);
    WithoutFirstLiveMembers(ps, e.fingerprint, e.nonce, e.now);
    forall p | p in after ensures exists j: nat :: j < n + 1 && Unasked(events, j, n + 1, ttl) && EntryAt(events, j, ttl) == p {
      var j: nat :| j < n && Unasked(events, j, n, ttl) && EntryAt(events, j, ttl) == p;
      UnaskedNext(events, j, n, ttl);
    }
    forall j: nat | j < n + 1 && Unasked(events, j, n + 1, ttl) ensures EntryAt(events, j, ttl) in after {
      UnaskedNext(events, j, n, ttl);
    }
  }

  lemma {:induction false} LazyRunHolds(events: seq<Event>, n: nat, ttl: real)
    requires n <= |events| && FreshNonces(events)
    ensures HoldsAll(events, n, ttl, LazyRun(events[..n], ttl))
  {
    if n > 0 {
      LazyRunHolds(events, n - 1, ttl);
      assert events[..n][..n - 1] == events[..n - 1];
      if events[n - 1].Issue? { IssueHoldsAll(events, n - 1, ttl, LazyRun(events[..n - 1], ttl)); }
      else { ConsumeHoldsAll(events, n - 1, ttl, LazyRun(events[..n - 1], ttl)); }
    }
  }

  lemma LazyGrantedMeans(events: seq<Event>, ttl: real, i: nat)
    requires i < |events| && FreshNonces(events) && events[i].Consume?
    ensures LazyGrantedAt(events, ttl, i) <==>
      exists j: nat :: j < i && Unasked(events, j, i, ttl) && AsksInTime(events, j, i, ttl)
  {
    var ps, e := LazyRun(events[..i], ttl), events[i];
    LazyRunHolds(events, i, ttl);
    FoundLive(ps, e);
    if LazyGrantedAt(events, ttl, i) {
      var p :| p in ps && p.expires > e.now && Answers(p, e.fingerprint, e.nonce);
      var j: nat :| j < i && Unasked(events, j, i, ttl) && EntryAt(events, j, ttl) == p;
      assert AsksInTime(events, j, i, ttl);
    }
    if j: nat :| j < i && Unasked(events, j, i, ttl) && AsksInTime(events, j, i, ttl) {
      assert EntryAt(events, j, ttl) in ps;
    }
  }

  /**
   With fresh nonces the answer to a consume depends on collection if and only if the consume is the
   first in time for its nonce and action, and some clock read since the issue was past its deadline.
   */
  lemma DiffersIff(events: seq<Event>, ttl: real, i: nat)
    requires i < |events| && FreshNonces(events) && events[i].Consume?
    ensures GrantedAt(events, ttl, i) != LazyGrantedAt(events, ttl, i) <==>
      exists j: nat :: j < i && Unasked(events, j, i, ttl) && AsksInTime(events, j, i, ttl) && Strayed(events, j, i, ttl)
    ensures GrantedAt(events, ttl, i) ==> LazyGrantedAt(events, ttl, i)
  {
    GrantedMeans(events, ttl, i);
    LazyGrantedMeans(events, ttl, i);
    if LazyGrantedAt(events, ttl, i) {
      var j: nat :| j < i && Unasked(events, j, i, ttl) && AsksInTime(events, j, i, ttl);
      forall k: nat | k < i && AsksInTime(events, k, i, ttl) ensures k == j {
        assert events[k].nonce == events[j].nonce;
      }
      assert GrantedAt(events, ttl, i) <==> !Strayed(events, j, i, ttl);
    }
  }

  /** With clocks read out of order it does: what a later reading collected, an earlier one misses. */
  lemma OutOfOrderDiffers(nonce: string, other: string, fingerprint: string, ttl: real)
    requires ttl > 0.0 && nonce != other
    ensures var events := [Issue(nonce, fingerprint, 0.0), Issue(other, fingerprint, ttl), Consume(nonce, fingerprint, 0.0)];
      !GrantedAt(events, ttl, 2) && LazyGrantedAt(events, ttl, 2)
  {
    var events := [Issue(nonce, fingerprint, 0.0), Issue(other, fingerprint, ttl), Consume(nonce, fingerprint, 0.0)];
    assert events[1].now >= events[0].now + ttl;
    assert Unasked(events, 0, 2, ttl) && AsksInTime(events, 0, 2, ttl) && Strayed(events, 0, 2, ttl);
    DiffersIff(events, ttl, 2);
  }

  // ---- the store itself ------------------------------------------------------------------------------------

  class Store {
    var pending: seq<Pending>
    const ttl: real

    constructor (ttl: real)
      ensures pending == [] && this.ttl == ttl
    {
      this.pending, this.ttl := [], ttl;
    }

    /** `_gc_locked`. */
    method Collect(now: real)
      modifies `pending
      ensures pending == Live(old(pending), now)
    {
      var kept: seq<Pending> := [];
      for i := 0 to |pending|
        invariant kept == Live(pending[..i], now)
      {
        assert pending[..i + 1][..i] == pending[..i];
        if pending[i].expires > now { kept := kept + [pending[i]]; }
      }
      assert pending[..|pending|] == pending;
      pending := kept;
    }

    /** `issue`, with the nonce that was drawn. */
    method IssueNonce(fingerprint: string, nonce: string, now: real)
      modifies `pending
      ensures pending == Step(old(pending), Issue(nonce, fingerprint, now), ttl)
    {
      Collect(now);
      pending := pending + [Pending(nonce, fingerprint, now + ttl)];
    }

    /** `consume`. */
    method ConsumeNonce(fingerprint: string, nonce: string, now: real) returns (granted: bool)
      modifies `pending
      ensures granted == Granted(old(pending), Consume(nonce, fingerprint, now))
      ensures pending == Step(old(pending), Consume(nonce, fingerprint, now), ttl)
    {
      Collect(now);
      for i := 0 to |pending|
        invariant pending == Live(old(pending), now)
        invariant forall j | 0 <= j < i :: !Answers(pending[j], fingerprint, nonce)
      {
        if pending[i].nonce == nonce && pending[i].fingerprint == fingerprint {
          FirstIsPopped(pending, fingerprint, nonce, i);
          pending := pending[..i] + pending[i + 1..];
          return true;
        }
      }
      NothingPopped(pending, fingerprint, nonce);
      return false;
    }
  }

  lemma {:induction false} FirstIsPopped(ps: seq<Pending>, fingerprint: string, nonce: string, i: nat)
    requires i < |ps| && Answers(ps[i], fingerprint, nonce) && forall j | 0 <= j < i :: !Answers(ps[j], fingerprint, nonce)
    ensures WithoutFirst(ps, fingerprint, nonce) == ps[..i] + ps[i + 1..]
  {
    if i > 0 {
      FirstIsPopped(ps[1..], fingerprint, nonce, i - 1);
      assert ps[..i] == [ps[0]] + ps[1..][..i - 1] && ps[i + 1..] == ps[1..][i..];
    }
  }

  lemma {:induction false} NothingPopped(ps: seq<Pending>, fingerprint: string, nonce: string)
    requires forall j | 0 <= j < |ps| :: !Answers(ps[j], fingerprint, nonce)
    ensures WithoutFirst(ps, fingerprint, nonce) == ps
  {
    if |ps| > 0 {
      NothingPopped(ps[1..], fingerprint, nonce);
      assert [ps[0]] + ps[1..] == ps;
    }
  }
}
