/** What holds of every limit order, and of the book of all orders, in every run. */
module LimitSafety {
  import opened Bytes
  import opened LimitOrder
  import AutoSell

  // ---- properties of single orders, over all runs --------------------------------------------

  /** A property that every way an order can change keeps, and that new orders and children have. */
  ghost predicate Kept(inv: Order -> bool, edits: Edit -> bool) {
    && (forall o, w, id :: inv(o) ==> inv(Turn(o, w, id).0))
    && (forall o, price, id :: inv(o) ==> forall k | k in Materialize(o, price, id) :: inv(k))
    && (forall o :: inv(o) ==> inv(PausedOrder(o)) && inv(Resumed(o)))
    && (forall o, e :: inv(o) && edits(e) ==> inv(Edited(o, e)))
    && (forall id, sender, t :: Acceptable(t) ==> inv(NewOrder(id, sender, t)))
  }

  ghost predicate All(inv: Order -> bool, os: seq<Order>) {
    forall i | 0 <= i < |os| :: inv(os[i])
  }

  lemma {:induction false} TickKeeps(inv: Order -> bool, edits: Edit -> bool, orders: seq<Order>, worlds: seq<World>, next: Id)
    requires Kept(inv, edits) && All(inv, orders) && |worlds| == |orders|
    ensures var p := TickOrders(orders, worlds, next); All(inv, p.done) && All(inv, p.born)
  {
    if |orders| > 0 {
      var n := |orders| - 1;
      TickKeeps(inv, edits, orders[..n], worlds[..n], next);
      TurnKeeps(inv, edits, orders[n], worlds[n], next + |TickOrders(orders[..n], worlds[..n], next).born|);
    }
  }

  lemma TurnKeeps(inv: Order -> bool, edits: Edit -> bool, o: Order, w: World, id: Id)
    requires Kept(inv, edits) && inv(o)
    ensures inv(Turn(o, w, id).0) && All(inv, Turn(o, w, id).1)
  {
    var kids := Turn(o, w, id).1;
    if kids != [] {
      var price := w.price.value;
      assert kids == Materialize(o, price, id);
      forall i | 0 <= i < |kids| ensures inv(kids[i]) { assert kids[i] in kids; }
    }
  }

  lemma {:induction false} OnOrderKeeps(inv: Order -> bool, orders: seq<Order>, id: Id, sender: string, f: Order -> Order)
    requires All(inv, orders) && forall o :: inv(o) ==> inv(f(o))
    ensures All(inv, OnOrder(orders, id, sender, f))
  {
    if |orders| > 0 && !Is(orders[0], id, sender) { OnOrderKeeps(inv, orders[1..], id, sender, f); }
  }

  lemma {:induction false} WithoutKeeps(inv: Order -> bool, orders: seq<Order>, id: Id, sender: string)
    requires All(inv, orders)
    ensures All(inv, Without(orders, id, sender))
  {
    if |orders| > 0 { WithoutKeeps(inv, orders[..|orders| - 1], id, sender); }
  }

  lemma StepKeeps(inv: Order -> bool, edits: Edit -> bool, b: Book, e: Event)
    requires Kept(inv, edits) && All(inv, b.orders) && (e.Change? ==> edits(e.edit))
    ensures All(inv, Step(b, e).orders)
  {
    match e
    case Add(sender, t) =>
    case Pause(id, sender) => OnOrderKeeps(inv, b.orders, id, sender, PausedOrder);
    case Resume(id, sender) => OnOrderKeeps(inv, b.orders, id, sender, Resumed);
    case Change(id, sender, edit) => OnOrderKeeps(inv, b.orders, id, sender, (o: Order) => Edited(o, edit));
    case Cancel(id, sender) => WithoutKeeps(inv, b.orders, id, sender);
    case Tick(worlds) => if |worlds| == |b.orders| { TickKeeps(inv, edits, b.orders, worlds, |b.log|); }
  }

  lemma {:induction false} RunKeeps(inv: Order -> bool, edits: Edit -> bool, events: seq<Event>)
    requires Kept(inv, edits) && forall i | 0 <= i < |events| :: events[i].Change? ==> edits(events[i].edit)
    ensures All(inv, Run(events).orders)
  {
    if |events| > 0 {
      RunKeeps(inv, edits, events[..|events| - 1]);
      StepKeeps(inv, edits, Run(events[..|events| - 1]), events[|events| - 1]);
    }
  }

  // ---- attempts and statuses -------------------------------------------------------------------

  /** At most one attempt went through, the last one, and that is exactly when the order is filled. */
  predicate SoundAttempts(o: Order) {
    && (forall i | 0 <= i < |o.attempts| - 1 :: o.attempts[i].outcome != Bought)
    && (o.status == Filled <==> |o.attempts| > 0 && o.attempts[|o.attempts| - 1].outcome == Bought)
    && (o.status == Failed ==> |o.attempts| > 0)
  }

  predicate AnyEdit(e: Edit) {
    true
  }

  lemma TurnSoundAttempts(o: Order, w: World, id: Id)
    requires SoundAttempts(o)
    ensures SoundAttempts(Turn(o, w, id).0)
  {
  }

  lemma KeptSoundAttempts()
    ensures Kept(SoundAttempts, AnyEdit)
  {
    forall o, w, id | SoundAttempts(o) ensures SoundAttempts(Turn(o, w, id).0) { TurnSoundAttempts(o, w, id); }
  }

  lemma FilledIffLastOk(events: seq<Event>)
    ensures All(SoundAttempts, Run(events).orders)
  {
    KeptSoundAttempts();
    RunKeeps(SoundAttempts, AnyEdit, events);
  }

  /** An order that can still be tried has attempts left, and none has had more than allowed. */
  predicate WithinAttempts(o: Order) {
    |o.attempts| <= o.maxAttempts && (!Terminal(o) ==> |o.attempts| < o.maxAttempts)
  }

  predicate KeepsLimit(e: Edit) {
    !e.MaxAttempts?
  }

  lemma TurnWithinAttempts(o: Order, w: World, id: Id)
    requires WithinAttempts(o)
    ensures WithinAttempts(Turn(o, w, id).0)
  {
  }

  lemma KeptWithinAttempts()
    ensures Kept(WithinAttempts, KeepsLimit)
  {
    forall o, w, id | WithinAttempts(o) ensures WithinAttempts(Turn(o, w, id).0) { TurnWithinAttempts(o, w, id); }
  }

  /** The new limit leaves room for another attempt, or the order needs none. */
  predicate RoomFor(o: Order, n: int) {
    |o.attempts| < n || (Terminal(o) && |o.attempts| <= n)
  }

  /** An edit of the limit of any order that has it leaves room; values out of range are refused anyway. */
  ghost predicate LimitFits(b: Book, e: Event) {
    e.Change? && e.edit.MaxAttempts? && e.edit.n >= 1 ==>
      forall i | 0 <= i < |b.orders| && Is(b.orders[i], e.id, e.sender) :: RoomFor(b.orders[i], e.edit.n)
  }

  lemma {:induction false} OnOrderAt(orders: seq<Order>, id: Id, sender: string, f: Order -> Order, i: nat)
    requires DistinctIds(orders) && i < |orders|
    ensures OnOrder(orders, id, sender, f)[i] == if Is(orders[i], id, sender) then f(orders[i]) else orders[i]
  {
    if i > 0 {
      if Is(orders[0], id, sender) {
        assert orders[0].id != orders[i].id;
      } else {
        OnOrderAt(orders[1..], id, sender, f, i - 1);
      }
    }
  }

  lemma ChangeWithinIff(b: Book, e: Event)
    requires DistinctIds(b.orders) && All(WithinAttempts, b.orders) && e.Change? && e.edit.MaxAttempts?
    ensures All(WithinAttempts, Step(b, e).orders) <==> LimitFits(b, e)
  {
    var after := Step(b, e).orders;
    forall i | 0 <= i < |b.orders|
      ensures after[i] == if Is(b.orders[i], e.id, e.sender) then Edited(b.orders[i], e.edit) else b.orders[i]
    {
      OnOrderAt(b.orders, e.id, e.sender, (o: Order) => Edited(o, e.edit), i);
    }
    forall i | 0 <= i < |b.orders|
      ensures WithinAttempts(b.orders[i])
      ensures e.edit.n >= 1 ==> (WithinAttempts(Edited(b.orders[i], e.edit)) <==> RoomFor(b.orders[i], e.edit.n))
    {
    }
    if All(WithinAttempts, after) {
      forall i | 0 <= i < |b.orders| && Is(b.orders[i], e.id, e.sender) ensures e.edit.n >= 1 ==> RoomFor(b.orders[i], e.edit.n) {
        assert WithinAttempts(after[i]);
      }
    }
  }

  /** A step keeps every order within its limit exactly when it is not an edit that leaves no room. */
  lemma StepWithinIff(b: Book, e: Event)
    requires DistinctIds(b.orders) && All(WithinAttempts, b.orders)
    ensures All(WithinAttempts, Step(b, e).orders) <==> LimitFits(b, e)
  {
    if e.Change? && e.edit.MaxAttempts? {
      ChangeWithinIff(b, e);
    } else {
      KeptWithinAttempts();
      StepKeeps(WithinAttempts, KeepsLimit, b, e);
    }
  }

  /** As long as no edit of `max_attempts` leaves an order without room, none ever has more attempts than it allows. */
  lemma {:induction false} AttemptsBounded(events: seq<Event>)
    requires forall i | 0 <= i < |events| :: LimitFits(Run(events[..i]), events[i])
    ensures All(WithinAttempts, Run(events).orders)
  {
    if |events| > 0 {
      var init := events[..|events| - 1];
      assert forall i | 0 <= i < |init| :: init[..i] == events[..i] && init[i] == events[i];
      AttemptsBounded(init);
      BooksAreSound(init);
      assert events[..|init|] == init;
      StepWithinIff(Run(init), events[|init|]);
    }
  }

  /** A book of one order and its next attempt, which does not go through. */
  lemma OneTick(b: Book, w: World)
    requires |b.orders| == 1 && b.orders[0].status == Active && EvaluateOrder(b.orders[0], w).Some?
    requires !w.raises && w.outcome != Bought
    ensures Step(b, Tick([w])) == b.(orders := [Turn(b.orders[0], w, |b.log|).0]) && Turn(b.orders[0], w, |b.log|).1 == []
  {
    var o := b.orders[0];
    assert b.orders == [o] && [o][..0] == [] && [w][..0] == [];
    var q, t, kids := LastTurn([o], [w], |b.log|);
    assert q.done + [t] == [t] && q.born + kids == [] && [t] + [] == [t];
    assert b.log + Parents([]) == b.log;
  }

  /** The condition is needed: an order that has failed once, edited down to one attempt, makes a second. */
  lemma LoweringOvershoots(sender: string, t: Terms, w: World)
    requires Acceptable(t) && t.maxAttempts >= 2 && !w.raises && w.outcome != Bought
    requires EvaluateOrder(NewOrder(0, sender, t), w).Some?
    ensures var b := Run([Add(sender, t), Tick([w]), Change(0, sender, MaxAttempts(1)), Tick([w])]);
      |b.orders| == 1 && |b.orders[0].attempts| == 2 && b.orders[0].maxAttempts == 1
  {
    var o := NewOrder(0, sender, t);
    var o1 := Turn(o, w, 1).0;
    var o2 := Edited(o1, MaxAttempts(1));
    var first, lower := [Add(sender, t), Tick([w])], Change(0, sender, MaxAttempts(1));
    FirstAttempt(sender, t, w);
    RunSnoc(first, lower);
    OnOrderAt([o1], 0, sender, (x: Order) => Edited(x, MaxAttempts(1)), 0);
    assert Run(first + [lower]) == Book([o2], [None]);
    RunSnoc(first + [lower], Tick([w]));
    OneTick(Book([o2], [None]), w);
    assert first + [lower] + [Tick([w])] == [Add(sender, t), Tick([w]), lower, Tick([w])];
  }

  lemma FirstAttempt(sender: string, t: Terms, w: World)
    requires Acceptable(t) && !w.raises && w.outcome != Bought && EvaluateOrder(NewOrder(0, sender, t), w).Some?
    ensures Run([Add(sender, t), Tick([w])]) == Book([Turn(NewOrder(0, sender, t), w, 1).0], [None])
  {
    var o := NewOrder(0, sender, t);
    RunSnoc([], Add(sender, t));
    assert [] + [Add(sender, t)] == [Add(sender, t)] && [] + [o] == [o];
    RunSnoc([Add(sender, t)], Tick([w]));
    OneTick(Book([o], [None]), w);
  }

  lemma RunSnoc(events: seq<Event>, e: Event)
    ensures Run(events + [e]) == Step(Run(events), e)
  {
    assert (events + [e])[..|events|] == events;
  }

  /** Children of a bracket are plain sells; only root orders carry a bracket, and a positive one. */
  predicate SoundBracket(o: Order) {
    && (o.parent.Some? ==> o.bracket.None? && !o.isBuy)
    && (o.bracket.Some? ==> o.isBuy && o.bracket.value.takeProfit > 0.0 && o.bracket.value.stopLoss > 0.0)
  }

  lemma TurnSoundBracket(o: Order, w: World, id: Id)
    requires SoundBracket(o)
    ensures SoundBracket(Turn(o, w, id).0)
  {
  }

  lemma KeptSoundBracket()
    ensures Kept(SoundBracket, AnyEdit)
  {
    forall o, w, id | SoundBracket(o) ensures SoundBracket(Turn(o, w, id).0) { TurnSoundBracket(o, w, id); }
  }

  lemma ChildrenCarryNoBracket(events: seq<Event>)
    ensures All(SoundBracket, Run(events).orders)
  {
    KeptSoundBracket();
    RunKeeps(SoundBracket, AnyEdit, events);
  }

  /** A child waits for a percentage of the fill price: the take-profit for a gain, the stop-loss for a loss. */
  ghost predicate WaitsFor(tp: Order, sl: Order, fill: AutoSell.Price, b: Bracket) {
    forall price: real ::
      && (Crossed(tp, price) <==> AutoSell.Change(fill, price) >= b.takeProfit)
      && (Crossed(sl, price) <==> -AutoSell.Change(fill, price) >= b.stopLoss)
  }

  /** A plain sell of the parent's amount of the parent's token, for the parent's sender. */
  predicate SellsFor(k: Order, o: Order) {
    && k.parent == Some(o.id) && k.sender == o.sender && k.token == o.token && k.amount == o.amount
    && !k.isBuy && k.bracket.None? && k.maxAttempts == 5 && k.status == Active && k.attempts == []
  }

  /**
   A bracketed buy that fills at `price` spawns two plain sells of its amount for its sender. The first is
   triggered exactly by a gain of `takeProfit` percent on the fill price, the second exactly by a loss of
   `stopLoss` percent; no single price triggers both while their thresholds are not edited.
   */
  lemma SpawnsTwo(o: Order, w: World, id: Id)
    requires SoundBracket(o) && o.status == Active && !w.raises && EvaluateOrder(o, w).Some?
    requires w.outcome == Bought && o.bracket.Some? && w.price.value > 0.0
    ensures var (t, kids) := Turn(o, w, id);
      && t.status == Filled && |kids| == 2 && t.children == [kids[0].id, kids[1].id] == [id, id + 1]
      && (forall k | k in kids :: SellsFor(k, o))
      && WaitsFor(kids[0], kids[1], w.price.value, o.bracket.value)
      && kids[1].threshold < w.price.value < kids[0].threshold
      && forall price :: !(Crossed(kids[0], price) && Crossed(kids[1], price))
  {
    var price, b := w.price.value, o.bracket.value;
    Stretch(price, b.takeProfit / 100.0);
    Stretch(price, b.stopLoss / 100.0);
    var kids := Materialize(o, price, id);
    assert forall k | k in kids :: k == kids[0] || k == kids[1];
    forall p: real
      ensures Crossed(kids[0], p) <==> AutoSell.Change(price, p) >= b.takeProfit
      ensures Crossed(kids[1], p) <==> -AutoSell.Change(price, p) >= b.stopLoss
    {
      AutoSell.ChangeAbove(price, p, b.takeProfit);
      AutoSell.ChangeBelow(price, p, b.stopLoss);
    }
  }

  lemma Stretch(price: real, part: real)
    requires price > 0.0 && part > 0.0
    ensures price * (1.0 - part) < price < price * (1.0 + part)
  {
    assert price * part > 0.0;
  }

  // ---- the book: ids, parents, counts ---------------------------------------------------------------

  /** How many orders were ever created with this parent. */
  function Kids(log: seq<Option<Id>>, p: Id): nat {
    if |log| == 0 then 0 else Kids(log[..|log| - 1], p) + if log[|log| - 1] == Some(p) then 1 else 0
  }

  /** Orders of the book are distinct entries of the log. */
  ghost predicate Logged(orders: seq<Order>, log: seq<Option<Id>>) {
    && (forall i | 0 <= i < |orders| :: orders[i].id < |log| && log[orders[i].id] == orders[i].parent)
    && (forall i, j | 0 <= i < j < |orders| :: orders[i].id != orders[j].id)
  }

  /** Parents are earlier orders that have no parent themselves. */
  ghost predicate DepthOne(log: seq<Option<Id>>) {
    forall k | 0 <= k < |log| && log[k].Some? :: log[k].value < |log| && log[log[k].value].None?
  }

  /** What an order's bracket owes by now: a pair, once it has filled at a positive price. */
  function Owed(o: Order): nat {
    if o.status == Filled && |o.attempts| > 0 && o.attempts[|o.attempts| - 1].price > 0.0 && o.bracket.Some? then 2 else 0
  }

  /** Every order has spawned nothing or a pair, and those in the book exactly what they owe. */
  ghost predicate Paired(orders: seq<Order>, log: seq<Option<Id>>) {
    && (forall p :: Kids(log, p) == 0 || Kids(log, p) == 2)
    && (forall i | 0 <= i < |orders| :: Kids(log, orders[i].id) == Owed(orders[i]))
  }

  ghost predicate Sound(b: Book) {
    && Logged(b.orders, b.log) && DepthOne(b.log) && Paired(b.orders, b.log)
    && All(SoundBracket, b.orders)
  }

  lemma {:induction false} KidsConcat(a: seq<Option<Id>>, b: seq<Option<Id>>, p: Id)
    ensures Kids(a + b, p) == Kids(a, p) + Kids(b, p)
  {
    if |b| == 0 {
      assert a + b == a;
    } else {
      KidsConcat(a, b[..|b| - 1], p);
      assert (a + b)[..|a + b| - 1] == a + b[..|b| - 1];
    }
  }

  lemma {:induction false} NoKidsYet(log: seq<Option<Id>>, p: Id)
    requires forall k | 0 <= k < |log| :: log[k] != Some(p)
    ensures Kids(log, p) == 0
  {
    if |log| > 0 { NoKidsYet(log[..|log| - 1], p); }
  }

  /** Root orders that may still fill. */
  function Pending(orders: seq<Order>): nat {
    if |orders| == 0 then 0
    else
      var o := orders[|orders| - 1];
      Pending(orders[..|orders| - 1]) + if o.parent.None? && !Terminal(o) then 1 else 0
  }

  function Adds(events: seq<Event>): nat {
    if |events| == 0 then 0 else Adds(events[..|events| - 1]) + if events[|events| - 1].Add? then 1 else 0
  }

  // ---- what a tick does to the book --------------------------------------------------------------------

  /** A turn keeps who the order is; it spawns a pair only when a pending root fills. */
  predicate TurnFacts(o: Order, t: Order, kids: seq<Order>, id: Id) {
    && Same(o, t) && |kids| == Owed(t) - Owed(o)
    && (|kids| == 0 || (|kids| == 2 && kids[0].id == id && kids[1].id == id + 1 && !Terminal(o) && Terminal(t) && o.parent.None?))
    && (forall i | 0 <= i < |kids| :: kids[i].parent == Some(o.id) && !Terminal(kids[i]))
  }

  lemma TurnShape(o: Order, w: World, id: Id)
    requires SoundBracket(o)
    ensures TurnFacts(o, Turn(o, w, id).0, Turn(o, w, id).1, id)
  {
  }

  /** Orders keep who they are; the born ones take the next ids; a pair takes a pending root away. */
  ghost predicate Shape(orders: seq<Order>, p: Pass, next: Id)
    requires |p.done| == |orders|
  {
    && (forall i | 0 <= i < |orders| :: Same(orders[i], p.done[i]))
    && (forall i | 0 <= i < |p.born| :: p.born[i].id == next + i && p.born[i].parent.Some? && !Terminal(p.born[i]))
    && 2 * Pending(p.done) + |p.born| <= 2 * Pending(orders)
  }

  /** `t` is `o` later on: a terminal order's status and attempts are final. */
  predicate Same(o: Order, t: Order) {
    t.id == o.id && t.parent == o.parent && t.bracket == o.bracket && (Terminal(o) ==> t.status == o.status && t.attempts == o.attempts)
  }

  lemma PendingSnoc(orders: seq<Order>, o: Order)
    ensures Pending(orders + [o]) == Pending(orders) + if o.parent.None? && !Terminal(o) then 1 else 0
  {
    assert (orders + [o])[..|orders|] == orders;
  }

  /** The last order's turn, after the others'. */
  lemma LastTurn(orders: seq<Order>, worlds: seq<World>, next: Id) returns (q: Pass, t: Order, kids: seq<Order>)
    requires |worlds| == |orders| > 0
    ensures var n := |orders| - 1;
      && q == TickOrders(orders[..n], worlds[..n], next) && (t, kids) == Turn(orders[n], worlds[n], next + |q.born|)
    ensures TickOrders(orders, worlds, next) == Pass(q.done + [t], q.born + kids)
  {
    var n := |orders| - 1;
    q := TickOrders(orders[..n], worlds[..n], next);
    t, kids := Turn(orders[n], worlds[n], next + |q.born|).0, Turn(orders[n], worlds[n], next + |q.born|).1;
  }

  lemma {:induction false} TickShape(orders: seq<Order>, worlds: seq<World>, next: Id)
    requires |worlds| == |orders| && All(SoundBracket, orders)
    ensures Shape(orders, TickOrders(orders, worlds, next), next)
  {
    if |orders| > 0 {
      var n := |orders| - 1;
      var q, t, kids := LastTurn(orders, worlds, next);
      TickShape(orders[..n], worlds[..n], next);
      TurnShape(orders[n], worlds[n], next + |q.born|);
      ShapeSnoc(orders, q, t, kids, next);
    }
  }

  lemma ShapeSnoc(orders: seq<Order>, q: Pass, t: Order, kids: seq<Order>, next: Id)
    requires |orders| == |q.done| + 1 && Shape(orders[..|orders| - 1], q, next)
    requires TurnFacts(orders[|orders| - 1], t, kids, next + |q.born|)
    ensures Shape(orders, Pass(q.done + [t], q.born + kids), next)
  {
    PendingSnoc(q.done, t);
  }

  /** Each order of a tick spawns nothing, or a pair when it fills; nobody else's children are born. */
  ghost predicate Births(orders: seq<Order>, done: seq<Order>, born: seq<Order>)
    requires |done| == |orders|
  {
    && (forall i | 0 <= i < |orders| ::
          var k := Kids(Parents(born), orders[i].id);
          k == Owed(done[i]) - Owed(orders[i]) && (k == 0 || (k == 2 && orders[i].parent.None?)))
    && (forall p | (forall i | 0 <= i < |orders| :: orders[i].id != p) :: Kids(Parents(born), p) == 0)
  }

  predicate DistinctIds(orders: seq<Order>) {
    forall i, j | 0 <= i < j < |orders| :: orders[i].id != orders[j].id
  }

  lemma KidsOfTurn(born: seq<Order>, kids: seq<Order>, o: Order, p: Id)
    requires |kids| == 0 || |kids| == 2
    requires forall i | 0 <= i < |kids| :: kids[i].parent == Some(o.id)
    ensures Kids(Parents(born + kids), p) == Kids(Parents(born), p) + if p == o.id then |kids| else 0
  {
    KidsConcat(Parents(born), Parents(kids), p);
    assert Parents(born + kids) == Parents(born) + Parents(kids);
    if |kids| == 2 { KidsOfPair(Some(o.id), p); assert Parents(kids) == [Some(o.id), Some(o.id)]; }
  }

  lemma KidsOfPair(parent: Option<Id>, p: Id)
    ensures Kids([parent, parent], p) == if parent == Some(p) then 2 else 0
  {
    var one := [parent];
    assert [parent, parent][..1] == one && |one[..0]| == 0;
    assert Kids(one, p) == if parent == Some(p) then 1 else 0;
  }

  lemma BirthsSnoc(orders: seq<Order>, q: Pass, t: Order, kids: seq<Order>, id: Id)
    requires |orders| == |q.done| + 1 && DistinctIds(orders) && Births(orders[..|orders| - 1], q.done, q.born)
    requires TurnFacts(orders[|orders| - 1], t, kids, id)
    ensures Births(orders, q.done + [t], q.born + kids)
  {
    var n := |orders| - 1;
    var init, o := orders[..n], orders[n];
    forall x ensures Kids(Parents(q.born + kids), x) == Kids(Parents(q.born), x) + if x == o.id then |kids| else 0 {
      KidsOfTurn(q.born, kids, o, x);
    }
    forall i | 0 <= i < n ensures init[i] == orders[i] && orders[i].id != o.id && (q.done + [t])[i] == q.done[i] {
    }
    forall x | forall i | 0 <= i < |orders| :: orders[i].id != x ensures Kids(Parents(q.born + kids), x) == 0 {
      assert orders[n].id != x && forall i | 0 <= i < |init| :: init[i].id != x;
    }
  }

  lemma InitSound(orders: seq<Order>)
    requires |orders| > 0 && All(SoundBracket, orders) && DistinctIds(orders)
    ensures All(SoundBracket, orders[..|orders| - 1]) && DistinctIds(orders[..|orders| - 1])
  {
  }

  lemma {:induction false} TickBirths(orders: seq<Order>, worlds: seq<World>, next: Id)
    requires |worlds| == |orders| && All(SoundBracket, orders) && DistinctIds(orders)
    ensures var p := TickOrders(orders, worlds, next); Births(orders, p.done, p.born)
  {
    if |orders| > 0 {
      var n := |orders| - 1;
      var q, t, kids := LastTurn(orders, worlds, next);
      InitSound(orders);
      TickBirths(orders[..n], worlds[..n], next);
      TurnShape(orders[n], worlds[n], next + |q.born|);
      BirthsSnoc(orders, q, t, kids, next + |q.born|);
    }
  }

  // ---- the book stays sound --------------------------------------------------------------------

  lemma AddSound(b: Book, o: Order)
    requires Sound(b) && o.id == |b.log| && o.parent.None? && o.status == Active && SoundBracket(o)
    ensures Sound(Book(b.orders + [o], b.log + [None]))
  {
    var log := b.log + [None];
    KidsOfNew(b.log, |b.log|);
    forall p ensures Kids(log, p) == Kids(b.log, p) { assert log[..|log| - 1] == b.log; }
    assert forall i | 0 <= i < |b.log| :: log[i] == b.log[i];
  }

  /** Nobody has a future order for a parent. */
  lemma KidsOfNew(log: seq<Option<Id>>, p: Id)
    requires DepthOne(log) && p >= |log|
    ensures Kids(log, p) == 0
  {
    NoKidsYet(log, p);
  }

  predicate Continues(o: Order, t: Order) {
    Same(o, t) && Owed(t) == Owed(o)
  }

  /** Same orders under new statuses: what matters to the book is who they are, and that terminal stays terminal. */
  ghost predicate Follows(before: seq<Order>, after: seq<Order>) {
    && All(SoundBracket, after)
    && (forall j | 0 <= j < |after| :: exists i :: 0 <= i < |before| && Continues(before[i], after[j]))
    && DistinctIds(after)
  }

  lemma FollowSound(b: Book, after: seq<Order>)
    requires Sound(b) && Follows(b.orders, after)
    ensures Sound(Book(after, b.log))
  {
    forall j | 0 <= j < |after|
      ensures after[j].id < |b.log| && b.log[after[j].id] == after[j].parent
      ensures Kids(b.log, after[j].id) == Owed(after[j])
    {
      var i :| 0 <= i < |b.orders| && Continues(b.orders[i], after[j]);
    }
  }

  lemma {:induction false} OnOrderSame(orders: seq<Order>, id: Id, sender: string, f: Order -> Order)
    requires forall o :: Continues(o, f(o))
    ensures var after := OnOrder(orders, id, sender, f);
      |after| == |orders| && forall i | 0 <= i < |orders| :: Continues(orders[i], after[i])
  {
    if |orders| > 0 && !Is(orders[0], id, sender) { OnOrderSame(orders[1..], id, sender, f); }
  }

  lemma CommandFollows(b: Book, id: Id, sender: string, f: Order -> Order)
    requires Sound(b) && (forall o :: Continues(o, f(o))) && forall o :: SoundBracket(o) ==> SoundBracket(f(o))
    ensures Follows(b.orders, OnOrder(b.orders, id, sender, f))
  {
    OnOrderSame(b.orders, id, sender, f);
    OnOrderKeeps(SoundBracket, b.orders, id, sender, f);
  }

  lemma {:induction false} WithoutFollows(orders: seq<Order>, id: Id, sender: string)
    requires All(SoundBracket, orders) && DistinctIds(orders)
    ensures Follows(orders, Without(orders, id, sender))
    ensures forall o :: o in Without(orders, id, sender) <==> o in orders && !Is(o, id, sender)
  {
    if |orders| > 0 {
      var init, last := orders[..|orders| - 1], orders[|orders| - 1];
      WithoutFollows(init, id, sender);
      assert orders == init + [last];
      var after := Without(orders, id, sender);
      forall j | 0 <= j < |after| ensures exists i :: 0 <= i < |orders| && Continues(orders[i], after[j]) {
        assert after[j] in orders;
        var i :| 0 <= i < |orders| && orders[i] == after[j];
      }
    }
  }

  // ---- ticks -----------------------------------------------------------------------------------

  lemma TickSound(b: Book, worlds: seq<World>)
    requires Sound(b) && |worlds| == |b.orders|
    ensures Sound(Ticked(b, worlds))
  {
    var p := TickOrders(b.orders, worlds, |b.log|);
    TickShape(b.orders, worlds, |b.log|);
    TickBirths(b.orders, worlds, |b.log|);
    KeptSoundBracket();
    TickKeeps(SoundBracket, AnyEdit, b.orders, worlds, |b.log|);
    TickLogged(b, p);
    TickDepth(b, p);
    TickPaired(b, p);
  }

  /** Born orders are children of orders in the book that had no parent. */
  ghost predicate BornOf(b: Book, p: Pass) {
    && |p.done| == |b.orders| && Shape(b.orders, p, |b.log|) && Births(b.orders, p.done, p.born)
  }

  lemma TickLogged(b: Book, p: Pass)
    requires Sound(b) && |p.done| == |b.orders| && BornOf(b, p)
    ensures Logged(p.done + p.born, b.log + Parents(p.born))
  {
    var os, log := p.done + p.born, b.log + Parents(p.born);
    forall i | 0 <= i < |os| ensures os[i].id < |log| && log[os[i].id] == os[i].parent {
      if i < |p.done| { assert Same(b.orders[i], p.done[i]); } else { assert os[i] == p.born[i - |p.done|]; }
    }
    forall i, j | 0 <= i < j < |os| ensures os[i].id != os[j].id {
      if i < |p.done| { assert Same(b.orders[i], p.done[i]); }
      if j < |p.done| { assert Same(b.orders[j], p.done[j]); }
    }
  }

  lemma {:induction false} KidsPositive(log: seq<Option<Id>>, k: nat)
    requires k < |log| && log[k].Some?
    ensures Kids(log, log[k].value) > 0
  {
    if k < |log| - 1 { KidsPositive(log[..|log| - 1], k); }
  }

  lemma TickDepth(b: Book, p: Pass)
    requires Sound(b) && |p.done| == |b.orders| && BornOf(b, p)
    ensures DepthOne(b.log + Parents(p.born))
  {
    var log, more := b.log + Parents(p.born), Parents(p.born);
    forall k | 0 <= k < |log| && log[k].Some? ensures log[k].value < |log| && log[log[k].value].None? {
      if k < |b.log| {
        assert b.log[k].Some?;
      } else {
        assert more[k - |b.log|] == log[k];
        KidsPositive(more, k - |b.log|);
        var i :| 0 <= i < |b.orders| && b.orders[i].id == log[k].value;
        assert b.log[b.orders[i].id] == b.orders[i].parent;
      }
    }
  }

  lemma TickPaired(b: Book, p: Pass)
    requires Sound(b) && |p.done| == |b.orders| && BornOf(b, p)
    ensures Paired(p.done + p.born, b.log + Parents(p.born))
  {
    var os, log := p.done + p.born, b.log + Parents(p.born);
    forall x ensures Kids(log, x) == Kids(b.log, x) + Kids(Parents(p.born), x) { KidsConcat(b.log, Parents(p.born), x); }
    forall x ensures Kids(log, x) == 0 || Kids(log, x) == 2 {
      if i :| 0 <= i < |b.orders| && b.orders[i].id == x {
        assert Kids(b.log, x) == Owed(b.orders[i]);
      }
    }
    forall i | 0 <= i < |os| ensures Kids(log, os[i].id) == Owed(os[i]) {
      if i < |p.done| {
        assert Same(b.orders[i], p.done[i]);
      } else {
        assert os[i] == p.born[i - |p.done|];
        KidsOfNew(b.log, os[i].id);
      }
    }
  }

  // ---- whole runs --------------------------------------------------------------------------------

  lemma EditSame(o: Order, e: Edit)
    ensures Continues(o, Edited(o, e)) && (SoundBracket(o) ==> SoundBracket(Edited(o, e)))
  {
  }

  lemma StepSound(b: Book, e: Event)
    requires Sound(b)
    ensures Sound(Step(b, e))
  {
    match e
    case Add(sender, t) => if Acceptable(t) { AddSound(b, NewOrder(|b.log|, sender, t)); }
    case Pause(id, sender) =>
      CommandFollows(b, id, sender, PausedOrder);
      FollowSound(b, Step(b, e).orders);
    case Resume(id, sender) =>
      CommandFollows(b, id, sender, Resumed);
      FollowSound(b, Step(b, e).orders);
    case Change(id, sender, edit) =>
      forall o ensures Continues(o, Edited(o, edit)) && (SoundBracket(o) ==> SoundBracket(Edited(o, edit))) { EditSame(o, edit); }
      CommandFollows(b, id, sender, (o: Order) => Edited(o, edit));
      FollowSound(b, Step(b, e).orders);
    case Cancel(id, sender) =>
      WithoutFollows(b.orders, id, sender);
      FollowSound(b, Step(b, e).orders);
    case Tick(worlds) => if |worlds| == |b.orders| { TickSound(b, worlds); }
  }

  /**
   In every run: each order ever created has had no child or exactly two, a parent never has a
   parent itself, and an order has spawned its pair exactly when it carries a bracket and has filled
   at a positive price.
   */
  lemma {:induction false} BooksAreSound(events: seq<Event>)
    ensures Sound(Run(events))
  {
    if |events| == 0 {
      assert Run(events) == EMPTY;
    } else {
      BooksAreSound(events[..|events| - 1]);
      StepSound(Run(events[..|events| - 1]), events[|events| - 1]);
    }
  }

  lemma {:induction false} PendingPointwise(before: seq<Order>, after: seq<Order>)
    requires |before| == |after| && forall i | 0 <= i < |before| :: Same(before[i], after[i])
    ensures Pending(after) <= Pending(before)
  {
    if |before| > 0 {
      var n := |before| - 1;
      PendingPointwise(before[..n], after[..n]);
      assert Same(before[n], after[n]);
    }
  }

  lemma {:induction false} PendingWithout(orders: seq<Order>, id: Id, sender: string)
    ensures Pending(Without(orders, id, sender)) <= Pending(orders)
  {
    if |orders| > 0 {
      var last := orders[|orders| - 1];
      PendingWithout(orders[..|orders| - 1], id, sender);
      PendingSnoc(Without(orders[..|orders| - 1], id, sender), last);
      assert Without(orders[..|orders| - 1], id, sender) + [] == Without(orders[..|orders| - 1], id, sender);
    }
  }

  /** Children never bear no matter what: those born in a tick are no pending roots. */
  lemma {:induction false} PendingBorn(orders: seq<Order>, born: seq<Order>)
    requires forall i | 0 <= i < |born| :: born[i].parent.Some?
    ensures Pending(orders + born) == Pending(orders)
  {
    if |born| == 0 {
      assert orders + born == orders;
    } else {
      PendingBorn(orders, born[..|born| - 1]);
      PendingSnoc(orders + born[..|born| - 1], born[|born| - 1]);
      assert orders + born == orders + born[..|born| - 1] + [born[|born| - 1]];
    }
  }

  /** An event creates at most what it takes from the pending roots, and an added order brings three. */
  lemma StepBudget(b: Book, e: Event)
    requires Sound(b)
    ensures |Step(b, e).log| + 2 * Pending(Step(b, e).orders) <= |b.log| + 2 * Pending(b.orders) + if e.Add? then 3 else 0
  {
    match e
    case Add(sender, t) => PendingSnoc(b.orders, NewOrder(|b.log|, sender, t));
    case Pause(id, sender) =>
      OnOrderSame(b.orders, id, sender, PausedOrder);
      PendingPointwise(b.orders, Step(b, e).orders);
    case Resume(id, sender) =>
      OnOrderSame(b.orders, id, sender, Resumed);
      PendingPointwise(b.orders, Step(b, e).orders);
    case Change(id, sender, edit) =>
      forall o ensures Continues(o, Edited(o, edit)) { EditSame(o, edit); }
      OnOrderSame(b.orders, id, sender, (o: Order) => Edited(o, edit));
      PendingPointwise(b.orders, Step(b, e).orders);
    case Cancel(id, sender) => PendingWithout(b.orders, id, sender);
    case Tick(worlds) => if |worlds| == |b.orders| { TickBudget(b, worlds); }
  }

  lemma TickBudget(b: Book, worlds: seq<World>)
    requires Sound(b) && |worlds| == |b.orders|
    ensures |Ticked(b, worlds).log| + 2 * Pending(Ticked(b, worlds).orders) <= |b.log| + 2 * Pending(b.orders)
  {
    var p := TickOrders(b.orders, worlds, |b.log|);
    TickShape(b.orders, worlds, |b.log|);
    PendingBorn(p.done, p.born);
  }

  /** After k orders have been added, at most 3k orders have ever existed. */
  lemma {:induction false} AtMostThreePerAdd(events: seq<Event>)
    ensures |Run(events).log| + 2 * Pending(Run(events).orders) <= 3 * Adds(events)
  {
    if |events| == 0 {
      assert Run(events) == EMPTY;
    } else {
      var init := events[..|events| - 1];
      AtMostThreePerAdd(init);
      BooksAreSound(init);
      StepBudget(Run(init), events[|events| - 1]);
    }
  }

  /** The order comes from one before the event. */
  ghost predicate Descends(b: Book, o: Order) {
    exists i :: 0 <= i < |b.orders| && Same(b.orders[i], o)
  }

  lemma CommandDescends(b: Book, id: Id, sender: string, f: Order -> Order, o: Order)
    requires (forall x :: Continues(x, f(x))) && o in OnOrder(b.orders, id, sender, f)
    ensures Descends(b, o)
  {
    OnOrderSame(b.orders, id, sender, f);
    var j :| 0 <= j < |b.orders| && OnOrder(b.orders, id, sender, f)[j] == o;
    assert Same(b.orders[j], o);
  }

  lemma TickDescends(b: Book, worlds: seq<World>, o: Order)
    requires Sound(b) && |worlds| == |b.orders| && o in Ticked(b, worlds).orders
    ensures o.id >= |b.log| || Descends(b, o)
  {
    TickShape(b.orders, worlds, |b.log|);
    var j :| 0 <= j < |Ticked(b, worlds).orders| && Ticked(b, worlds).orders[j] == o;
    if j < |b.orders| { assert Same(b.orders[j], o); }
  }

  lemma StayedDescends(b: Book, o: Order)
    requires o in b.orders
    ensures Descends(b, o)
  {
    var j :| 0 <= j < |b.orders| && b.orders[j] == o;
    assert Same(b.orders[j], o);
  }

  /** Every order after an event is an order from before it, later on, or a new one. */
  lemma StepSame(b: Book, e: Event, o: Order)
    requires Sound(b) && o in Step(b, e).orders
    ensures o.id >= |b.log| || Descends(b, o)
  {
    match e
    case Add(sender, t) => if o in b.orders { StayedDescends(b, o); }
    case Pause(id, sender) => CommandDescends(b, id, sender, PausedOrder, o);
    case Resume(id, sender) => CommandDescends(b, id, sender, Resumed, o);
    case Change(id, sender, edit) =>
      forall x ensures Continues(x, Edited(x, edit)) { EditSame(x, edit); }
      CommandDescends(b, id, sender, (x: Order) => Edited(x, edit), o);
    case Cancel(id, sender) =>
      WithoutFollows(b.orders, id, sender);
      StayedDescends(b, o);
    case Tick(worlds) => if |worlds| == |b.orders| { TickDescends(b, worlds, o); } else { StayedDescends(b, o); }
  }

  lemma {:induction false} LogGrows(events: seq<Event>, n: nat)
    requires n <= |events|
    ensures Run(events[..n]).log <= Run(events).log
  {
    if n == |events| {
      assert events[..n] == events;
    } else {
      assert events[..|events| - 1][..n] == events[..n];
      LogGrows(events[..|events| - 1], n);
    }
  }

  /**
   Once an order is filled or failed, whatever follows, it never gains an attempt and never changes
   its status again.
   */
  lemma {:induction false} TerminalForever(events: seq<Event>, n: nat, o: Order, later: Order)
    requires n <= |events| && o in Run(events[..n]).orders && Terminal(o)
    requires later in Run(events).orders && later.id == o.id
    ensures later.status == o.status && later.attempts == o.attempts
  {
    BooksAreSound(events[..n]);
    if n == |events| {
      assert events[..n] == events;
    } else {
      var init := events[..|events| - 1];
      assert init[..n] == events[..n];
      BooksAreSound(init);
      LogGrows(init, n);
      StepSame(Run(init), events[|events| - 1], later);
      var i :| 0 <= i < |Run(init).orders| && Same(Run(init).orders[i], later);
      TerminalForever(init, n, o, Run(init).orders[i]);
    }
  }
}
