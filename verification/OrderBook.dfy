/** The order list that `/limit_order` commands and ticks update in place, against the functions of `LimitOrder`. */
module OrderBook {
  import opened Bytes
  import opened LimitOrder

  class Orders {
    var orders: seq<Order>
    var nextId: Id
    ghost var log: seq<Option<Id>>

    ghost predicate Valid()
      reads this
    {
      nextId == |log|
    }

    ghost function Model(): Book
      reads this
    {
      Book(orders, log)
    }

    constructor ()
      ensures Valid() && Model() == EMPTY
    {
      orders, nextId, log := [], 0, [];
    }

    /** `_store_order`. */
    method Store(sender: string, t: Terms) returns (ok: bool)
      requires Valid()
      modifies this
      ensures Valid() && Model() == Step(old(Model()), Add(sender, t)) && ok == Acceptable(t)
    {
      ok := false;
      if t.amount <= 0.0 || t.threshold <= 0.0 || t.maxAttempts < 1 { return; }
      if t.bracket.Some? {
        if !t.isBuy || t.bracket.value.takeProfit <= 0.0 || t.bracket.value.stopLoss <= 0.0 { return; }
      }
      ok := true;
      orders := orders + [NewOrder(nextId, sender, t)];
      nextId, log := nextId + 1, log + [None];
    }

    /** `_find`: the position of the first order with this id and sender. */
    method Find(id: Id, sender: string) returns (at: Option<nat>)
      ensures at.Some? ==> at.value < |orders| && Is(orders[at.value], id, sender)
      ensures at.Some? ==> forall i | 0 <= i < at.value :: !Is(orders[i], id, sender)
      ensures at.None? ==> forall i | 0 <= i < |orders| :: !Is(orders[i], id, sender)
    {
      for i := 0 to |orders|
        invariant forall j | 0 <= j < i :: !Is(orders[j], id, sender)
      {
        if Is(orders[i], id, sender) { return Some(i); }
      }
      return None;
    }

    /** `/limit_order pause`: refused on a terminal order. */
    method PauseOrder(id: Id, sender: string) returns (ok: bool)
      requires Valid()
      modifies `orders
      ensures Valid() && Model() == Step(old(Model()), Pause(id, sender))
    {
      var at := Find(id, sender);
      OnFound(orders, id, sender, PausedOrder, at);
      ok := at.Some? && !Terminal(orders[at.value]);
      if ok { orders := orders[at.value := orders[at.value].(status := Paused)]; }
    }

    /** `/limit_order resume`: only from paused. */
    method ResumeOrder(id: Id, sender: string) returns (ok: bool)
      requires Valid()
      modifies `orders
      ensures Valid() && Model() == Step(old(Model()), Resume(id, sender))
    {
      var at := Find(id, sender);
      OnFound(orders, id, sender, Resumed, at);
      ok := at.Some? && orders[at.value].status == Paused;
      if ok { orders := orders[at.value := orders[at.value].(status := Active)]; }
    }

    /** `/limit_order edit`: refused when the value is out of range. */
    method EditOrder(id: Id, sender: string, e: Edit) returns (ok: bool)
      requires Valid()
      modifies `orders
      ensures Valid() && Model() == Step(old(Model()), Change(id, sender, e))
    {
      var at := Find(id, sender);
      OnFound(orders, id, sender, (o: Order) => Edited(o, e), at);
      if at.None? { return false; }
      var o := orders[at.value];
      match e {
        case Threshold(v) =>
          if v <= 0.0 { return false; }
          orders := orders[at.value := o.(threshold := v)];
        case Amount(v) =>
          if v <= 0.0 { return false; }
          orders := orders[at.value := o.(amount := v)];
        case MaxAttempts(n) =>
          if n < 1 { return false; }
          orders := orders[at.value := o.(maxAttempts := n)];
      }
      ok := true;
    }

    /** `/limit_order cancel`: every order but the named one is kept. */
    method CancelOrder(id: Id, sender: string) returns (ok: bool)
      requires Valid()
      modifies `orders
      ensures Valid() && Model() == Step(old(Model()), Cancel(id, sender))
      ensures ok == (|orders| < |old(orders)|)
    {
      var kept: seq<Order> := [];
      for i := 0 to |orders|
        invariant kept == Without(orders[..i], id, sender) && |kept| <= i
      {
        assert orders[..i + 1][..i] == orders[..i];
        if !Is(orders[i], id, sender) { kept := kept + [orders[i]]; }
      }
      assert orders[..|orders|] == orders;
      ok := |kept| != |orders|;
      orders := kept;
    }

    /** The body of the tick's loop: the order is updated in place; its children are returned. */
    method Visit(i: nat, w: World, id: Id) returns (kids: seq<Order>)
      requires i < |orders|
      modifies `orders
      ensures var turn := Turn(old(orders)[i], w, id);
        orders == old(orders)[i := turn.0] && kids == turn.1
    {
      kids := [];
      if orders[i].status != Active || w.raises { return; }
      var result := EvaluateOrder(orders[i], w);
      if result.None? { return; }
      orders := orders[i := orders[i].(attempts := orders[i].attempts + [result.value])];
      match result.value.outcome {
        case Bought =>
          orders := orders[i := orders[i].(status := Filled)];
          kids := Materialize(orders[i], result.value.price, id);
          if |kids| > 0 {
            orders := orders[i := orders[i].(children := [id, id + 1])];
          }
        case Erred => FailIfSpent(i);
        case Unconnected => FailIfSpent(i);
      }
    }

    method FailIfSpent(i: nat)
      requires i < |orders|
      modifies `orders
      ensures orders == old(orders)[i :=
        if |old(orders)[i].attempts| >= old(orders)[i].maxAttempts then old(orders)[i].(status := Failed) else old(orders)[i]]
    {
      if |orders[i].attempts| >= orders[i].maxAttempts {
        orders := orders[i := orders[i].(status := Failed)];
      }
    }

    /** The loop over all orders. */
    method VisitAll(worlds: seq<World>) returns (born: seq<Order>)
      requires |worlds| == |orders|
      modifies `orders
      ensures Pass(orders, born) == TickOrders(old(orders), worlds, nextId)
    {
      ghost var before, done: seq<Order> := orders, [];
      born := [];
      for i := 0 to |orders|
        invariant |orders| == |before| && |done| == i && (forall j | 0 <= j < i :: orders[j] == done[j])
        invariant forall j | i <= j < |before| :: orders[j] == before[j]
        invariant Pass(done, born) == TickOrders(before[..i], worlds[..i], nextId)
      {
        ghost var t;
        born, t := VisitNext(i, worlds, born, before, done);
        done := done + [t];
      }
      assert orders == done;
      assert before[..|before|] == before && worlds[..|worlds|] == worlds;
    }

    /** One turn of the loop. */
    method VisitNext(i: nat, worlds: seq<World>, born: seq<Order>, ghost before: seq<Order>, ghost done: seq<Order>)
      returns (more: seq<Order>, ghost t: Order)
      requires i < |orders| == |before| == |worlds| && orders[i] == before[i]
      requires Pass(done, born) == TickOrders(before[..i], worlds[..i], nextId)
      modifies `orders
      ensures orders == old(orders)[i := t]
      ensures Pass(done + [t], more) == TickOrders(before[..i + 1], worlds[..i + 1], nextId)
    {
      TickSnoc(before, worlds, i, nextId, done, born);
      t := Turn(before[i], worlds[i], nextId + |born|).0;
      var kids := Visit(i, worlds[i], nextId + |born|);
      more := born + kids;
    }

    /** `_run_due_with_lines`: every order in turn, children of this tick appended at its end. */
    method RunDue(worlds: seq<World>)
      requires Valid() && |worlds| == |orders|
      modifies this
      ensures Valid() && Model() == Step(old(Model()), Tick(worlds))
    {
      var born := VisitAll(worlds);
      orders := orders + born;
      nextId, log := nextId + |born|, log + Parents(born);
    }
  }

  lemma TickSnoc(orders: seq<Order>, worlds: seq<World>, i: nat, next: Id, done: seq<Order>, born: seq<Order>)
    requires i < |orders| == |worlds| && Pass(done, born) == TickOrders(orders[..i], worlds[..i], next)
    ensures var turn := Turn(orders[i], worlds[i], next + |born|);
      TickOrders(orders[..i + 1], worlds[..i + 1], next) == Pass(done + [turn.0], born + turn.1)
  {
    assert orders[..i + 1][..i] == orders[..i] && worlds[..i + 1][..i] == worlds[..i];
  }

  /** Changing the first match is changing it at its position. */
  lemma {:induction false} OnFound(orders: seq<Order>, id: Id, sender: string, f: Order -> Order, at: Option<nat>)
    requires at.Some? ==> at.value < |orders| && Is(orders[at.value], id, sender)
    requires at.Some? ==> forall i | 0 <= i < at.value :: !Is(orders[i], id, sender)
    requires at.None? ==> forall i | 0 <= i < |orders| :: !Is(orders[i], id, sender)
    ensures OnOrder(orders, id, sender, f) == if at.Some? then orders[at.value := f(orders[at.value])] else orders
  {
    if |orders| > 0 && !Is(orders[0], id, sender) {
      OnFound(orders[1..], id, sender, f, if at.Some? then Some(at.value - 1) else None);
      assert [orders[0]] + orders[1..] == orders;
    }
  }
}
