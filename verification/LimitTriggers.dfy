/** When a limit order is tried and what a try makes of it, in every tick of every run; and whose orders a command touches. */
module LimitTriggers {
  import opened Bytes
  import opened LimitOrder
  import opened LimitSafety

  // ---- one order in a tick -----------------------------------------------------------------------

  /** The order is tried: it is active, its price can be read and is on the waiting side of the threshold. */
  predicate Tried(o: Order, w: World) {
    && o.status == Active && !w.raises && w.price.Some?
    && if o.above then o.threshold <= w.price.value else w.price.value <= o.threshold
  }

  /** What the try comes to: filled, failed once the attempts are used up, or still active. */
  function StatusAfter(o: Order, outcome: Outcome): Status {
    if outcome == Bought then Status.Filled
    else if |o.attempts| + 1 < o.maxAttempts then Active
    else Failed
  }

  /** Exactly a tried order changes: it gains this attempt, its status, and the ids of its children. */
  predicate TurnsInto(o: Order, w: World, t: Order, kids: seq<Order>) {
    if !Tried(o, w) then t == o && kids == []
    else
      && t == o.(attempts := t.attempts, status := t.status, children := t.children)
      && t.attempts == o.attempts + [Attempt(w.outcome, w.price.value)] && t.status == StatusAfter(o, w.outcome)
      && (kids == [] ==> t.children == o.children)
      && (kids != [] <==> w.outcome == Bought && w.price.value > 0.0 && Bracketed(o))
  }

  predicate Bracketed(o: Order) {
    o.bracket.Some? && o.bracket.value.takeProfit > 0.0 && o.bracket.value.stopLoss > 0.0
  }

  lemma TurnMeans(o: Order, w: World, id: Id)
    ensures TurnsInto(o, w, Turn(o, w, id).0, Turn(o, w, id).1)
  {
  }

  // ---- a whole tick --------------------------------------------------------------------------------

  /** The orders `kids` stand in a row in the list. */
  ghost predicate Appears(orders: seq<Order>, kids: seq<Order>) {
    exists k: nat :: AppearsAt(orders, kids, k)
  }

  predicate AppearsAt(orders: seq<Order>, kids: seq<Order>, k: nat) {
    k + |kids| <= |orders| && orders[k..k + |kids|] == kids
  }

  /** The turn of the `j`th order, with the ids its children take. */
  ghost predicate TurnOf(orders: seq<Order>, worlds: seq<World>, p: Pass, j: nat, id: Id)
    requires |worlds| == |orders| == |p.done| && j < |orders|
  {
    p.done[j] == Turn(orders[j], worlds[j], id).0 && Appears(p.born, Turn(orders[j], worlds[j], id).1)
  }

  lemma {:induction false} TickTurns(orders: seq<Order>, worlds: seq<World>, next: Id, j: nat) returns (id: Id)
    requires |worlds| == |orders| && j < |orders|
    ensures TurnOf(orders, worlds, TickOrders(orders, worlds, next), j, id)
  {
    var n := |orders| - 1;
    var q, t, kids := LastTurn(orders, worlds, next);
    if j == n {
      id := next + |q.born|;
      assert AppearsAt(q.born + kids, kids, |q.born|);
    } else {
      id := TickTurns(orders[..n], worlds[..n], next, j);
      TurnOfLonger(orders, worlds, q, t, kids, j, id);
    }
  }

  lemma TurnOfLonger(orders: seq<Order>, worlds: seq<World>, q: Pass, t: Order, kids: seq<Order>, j: nat, id: Id)
    requires |worlds| == |orders| == |q.done| + 1 && j < |q.done|
    requires TurnOf(orders[..|orders| - 1], worlds[..|orders| - 1], q, j, id)
    ensures TurnOf(orders, worlds, Pass(q.done + [t], q.born + kids), j, id)
  {
    AppearsInLonger(q.born, kids, Turn(orders[j], worlds[j], id).1);
  }

  lemma AppearsInLonger(born: seq<Order>, more: seq<Order>, kids: seq<Order>)
    requires Appears(born, kids)
    ensures Appears(born + more, kids) && Appears(more + born, kids)
  {
    var k: nat :| AppearsAt(born, kids, k);
    assert AppearsAt(born + more, kids, k) && AppearsAt(more + born, kids, |more| + k);
  }

  /**
   In every reachable book a tick gives each order its turn in its place, and the two children of each
   bracketed buy that fills are in the book: exactly those tried are changed.
   */
  lemma TickMeans(b: Book, worlds: seq<World>, j: nat) returns (kids: seq<Order>)
    requires |worlds| == |b.orders| && j < |b.orders| && SoundBracket(b.orders[j])
    ensures var after := Step(b, Tick(worlds)).orders;
      && |after| >= |b.orders|
      && TurnsInto(b.orders[j], worlds[j], after[j], kids) && Appears(after, kids)
      && (kids == [] || (|kids| == 2 && after[j].children == [kids[0].id, kids[1].id] && SpawnedBy(b.orders[j], worlds[j], kids)))
  {
    var p := TickOrders(b.orders, worlds, |b.log|);
    var id := TickTurns(b.orders, worlds, |b.log|, j);
    kids := Turn(b.orders[j], worlds[j], id).1;
    TurnMeans(b.orders[j], worlds[j], id);
    AppearsInLonger(p.born, p.done, kids);
    if kids != [] { SpawnsTwo(b.orders[j], worlds[j], id); }
  }

  /** A pair of sells at the bracket's percentages of the fill price. */
  ghost predicate SpawnedBy(o: Order, w: World, kids: seq<Order>) {
    && |kids| == 2 && w.price.Some? && w.price.value > 0.0 && o.bracket.Some?
    && SellsFor(kids[0], o) && SellsFor(kids[1], o)
    && WaitsFor(kids[0], kids[1], w.price.value, o.bracket.value)
  }

  // ---- over runs: on which side of its threshold an order is tried ---------------------------------

  /** Buys wait for a price below their threshold, sells that are no child for one above it. */
  predicate Directed(o: Order) {
    (o.isBuy ==> !o.above) && (!o.isBuy && o.parent.None? ==> o.above)
  }

  lemma KeptDirected()
    ensures Kept(Directed, AnyEdit)
  {
  }

  /** Whoever gains an attempt in a tick of a run was active, and its price on the side its kind waits for. */
  lemma AttemptedOnItsSide(events: seq<Event>, worlds: seq<World>, j: nat)
    requires j < |Run(events).orders| == |worlds|
    ensures var b, after := Run(events), Step(Run(events), Tick(worlds)).orders;
      && j < |after|
      && (after[j].attempts != b.orders[j].attempts ==>
            var o := b.orders[j];
            && o.status == Active && worlds[j].price.Some?
            && (o.isBuy ==> worlds[j].price.value <= o.threshold)
            && (!o.isBuy && o.parent.None? ==> worlds[j].price.value >= o.threshold))
  {
    KeptDirected();
    RunKeeps(Directed, AnyEdit, events);
    ChildrenCarryNoBracket(events);
    var kids := TickMeans(Run(events), worlds, j);
  }

  // ---- commands touch the sender's own order --------------------------------------------------------

  /** The command is about this order: it names its id, and its sender gave it. */
  predicate About(e: Event, o: Order) {
    match e
    case Pause(id, sender) => o.id == id && o.sender == sender
    case Resume(id, sender) => o.id == id && o.sender == sender
    case Change(id, sender, _) => o.id == id && o.sender == sender
    case Cancel(id, sender) => o.id == id && o.sender == sender
    case _ => false
  }

  /** What pause, resume and the edits make of an order: a value out of range and a finished order are left alone. */
  predicate CommandMakes(e: Event, o: Order, t: Order) {
    match e
    case Pause(_, _) => t == if o.status in {Status.Filled, Failed} then o else o.(status := Status.Paused)
    case Resume(_, _) => t == if o.status == Status.Paused then o.(status := Active) else o
    case Change(_, _, Threshold(v)) => t == if v > 0.0 then o.(threshold := v) else o
    case Change(_, _, Amount(v)) => t == if v > 0.0 then o.(amount := v) else o
    case Change(_, _, MaxAttempts(n)) => t == if n >= 1 then o.(maxAttempts := n) else o
    case _ => t == o
  }

  /** A command changes the sender's order with that id, and no other. */
  lemma CommandMeans(b: Book, e: Event, j: nat)
    requires DistinctIds(b.orders) && j < |b.orders| && !e.Tick? && !e.Add? && !e.Cancel?
    ensures var after := Step(b, e).orders;
      |after| == |b.orders| && if About(e, b.orders[j]) then CommandMakes(e, b.orders[j], after[j]) else after[j] == b.orders[j]
  {
    match e
    case Pause(id, sender) => OnOrderAt(b.orders, id, sender, PausedOrder, j);
    case Resume(id, sender) => OnOrderAt(b.orders, id, sender, Resumed, j);
    case Change(id, sender, edit) => OnOrderAt(b.orders, id, sender, (o: Order) => Edited(o, edit), j);
  }

  /** Cancelling keeps exactly the orders it is not about. */
  lemma {:induction false} CancelMeans(b: Book, e: Event, o: Order)
    requires e.Cancel?
    ensures o in Step(b, e).orders <==> o in b.orders && !About(e, o)
    decreases |b.orders|
  {
    if |b.orders| > 0 {
      var n := |b.orders| - 1;
      CancelMeans(Book(b.orders[..n], b.log), e, o);
      assert b.orders == b.orders[..n] + [b.orders[n]];
    }
  }

  /** Everything is positive, and only a buy carries a bracket, with both of its percentages positive. */
  predicate InRange(t: Terms) {
    && 0.0 < t.amount && 0.0 < t.threshold && 0 < t.maxAttempts
    && !(t.bracket.Some? && (!t.isBuy || t.bracket.value.takeProfit <= 0.0 || t.bracket.value.stopLoss <= 0.0))
  }

  /** The order as its sender gave it, untried: a buy waits for a price below its threshold, a sell for one above. */
  ghost predicate AsGiven(o: Order, sender: string, t: Terms) {
    && o.sender == sender && o.isBuy == t.isBuy && o.token == t.token && o.amount == t.amount && o.threshold == t.threshold
    && o.maxAttempts == t.maxAttempts && o.bracket == t.bracket && o.status == Active && o.attempts == [] && o.parent.None?
    && forall w: World | !w.raises && w.price.Some? ::
         Tried(o, w) <==> if t.isBuy then w.price.value <= t.threshold else w.price.value >= t.threshold
  }

  /** An order in range is listed last; any other is refused. */
  lemma AddMeans(b: Book, sender: string, t: Terms)
    ensures var after := Step(b, Add(sender, t)).orders;
      if InRange(t) then |after| == |b.orders| + 1 && after[..|b.orders|] == b.orders && AsGiven(after[|b.orders|], sender, t)
      else Step(b, Add(sender, t)) == b
  {
  }
}
