/** Limit orders and their brackets (clawmes/commands/limit_order.py) on the values of an order book. */
module LimitOrder {
  import opened Bytes

  const BRACKET_MAX_ATTEMPTS := 5

  type Id = nat

  datatype Outcome = Bought | Erred | Unconnected

  datatype Attempt = Attempt(outcome: Outcome, price: real)

  datatype Status = Active | Paused | Filled | Failed

  datatype Bracket = Bracket(takeProfit: real, stopLoss: real)

  datatype Order = Order(
    id: Id,
    sender: string,
    isBuy: bool,
    token: string,
    amount: real,
    above: bool,
    threshold: real,
    maxAttempts: int,
    bracket: Option<Bracket>,
    children: seq<Id>,
    status: Status,
    attempts: seq<Attempt>,
    parent: Option<Id>)

  /** What the world answers for one order of a tick: an exception, or a price and a swap's outcome. */
  datatype World = World(raises: bool, price: Option<real>, outcome: Outcome)

  // ---- one order in a tick ------------------------------------------------------------------

  predicate Crossed(o: Order, price: real) {
    (o.above && price >= o.threshold) || (!o.above && price <= o.threshold)
  }

  /** `_evaluate_order`: an attempt once the price has crossed. */
  function EvaluateOrder(o: Order, w: World): Option<Attempt> {
    if w.price.Some? && Crossed(o, w.price.value) then Some(Attempt(w.outcome, w.price.value)) else None
  }

  predicate Terminal(o: Order) {
    o.status == Filled || o.status == Failed
  }

  /** `_materialize_bracket`, with `id` and its successor for the two children. */
  function Materialize(o: Order, price: real, id: Id): (r: seq<Order>)
    ensures |r| == 0 || |r| == 2
  {
    if o.bracket.None? || price <= 0.0 || o.bracket.value.takeProfit <= 0.0 || o.bracket.value.stopLoss <= 0.0 then []
    else
      var b := o.bracket.value;
      [Order(id, o.sender, false, o.token, o.amount, true, price * (1.0 + b.takeProfit / 100.0),
             BRACKET_MAX_ATTEMPTS, None, [], Active, [], Some(o.id)),
       Order(id + 1, o.sender, false, o.token, o.amount, false, price * (1.0 - b.stopLoss / 100.0),
             BRACKET_MAX_ATTEMPTS, None, [], Active, [], Some(o.id))]
  }

  /** An order after its turn, and the orders it spawns. */
  function Turn(o: Order, w: World, id: Id): (Order, seq<Order>) {
    if o.status != Active || w.raises || EvaluateOrder(o, w).None? then (o, [])
    else
      var a := EvaluateOrder(o, w).value;
      var tried := o.(attempts := o.attempts + [a]);
      match a.outcome
      case Bought =>
        var kids := Materialize(o, a.price, id);
        (tried.(status := Filled, children := if |kids| == 2 then [id, id + 1] else o.children), kids)
      case Erred => (if |tried.attempts| >= o.maxAttempts then tried.(status := Failed) else tried, [])
      case Unconnected => (if |tried.attempts| >= o.maxAttempts then tried.(status := Failed) else tried, [])
  }

  // ---- the book --------------------------------------------------------------------------------

  /** `log` is the history of every order ever created, with its parent; its length gives the next id. */
  datatype Book = Book(orders: seq<Order>, log: seq<Option<Id>>)

  datatype Pass = Pass(done: seq<Order>, born: seq<Order>)

  /** The loop of a tick: orders in turn; the spawned ones are collected. */
  function TickOrders(orders: seq<Order>, worlds: seq<World>, next: Id): (p: Pass)
    requires |worlds| == |orders|
    ensures |p.done| == |orders|
  {
    if |orders| == 0 then Pass([], [])
    else
      var n := |orders| - 1;
      var p := TickOrders(orders[..n], worlds[..n], next);
      var (o, kids) := Turn(orders[n], worlds[n], next + |p.born|);
      Pass(p.done + [o], p.born + kids)
  }

  function Parents(os: seq<Order>): (r: seq<Option<Id>>)
    ensures |r| == |os| && forall i | 0 <= i < |os| :: r[i] == os[i].parent
  {
    seq(|os|, i requires 0 <= i < |os| => os[i].parent)
  }

  function Ticked(b: Book, worlds: seq<World>): Book
    requires |worlds| == |b.orders|
  {
    var p := TickOrders(b.orders, worlds, |b.log|);
    Book(p.done + p.born, b.log + Parents(p.born))
  }

  // ---- commands -----------------------------------------------------------------------------------

  datatype Terms = Terms(isBuy: bool, token: string, amount: real, threshold: real, maxAttempts: int, bracket: Option<Bracket>)

  datatype Edit = Threshold(v: real) | Amount(v: real) | MaxAttempts(n: int)

  datatype Event =
    | Add(sender: string, terms: Terms)
    | Pause(id: Id, sender: string)
    | Resume(id: Id, sender: string)
    | Change(id: Id, sender: string, edit: Edit)
    | Cancel(id: Id, sender: string)
    | Tick(worlds: seq<World>)

  predicate Acceptable(t: Terms) {
    && t.amount > 0.0 && t.threshold > 0.0 && t.maxAttempts >= 1
    && (t.bracket.Some? ==> t.isBuy && t.bracket.value.takeProfit > 0.0 && t.bracket.value.stopLoss > 0.0)
  }

  /** `_store_order`: buys trigger below, sells above. */
  function NewOrder(id: Id, sender: string, t: Terms): Order {
    Order(id, sender, t.isBuy, t.token, t.amount, !t.isBuy, t.threshold, t.maxAttempts, t.bracket, [], Active, [], None)
  }

  function PausedOrder(o: Order): Order {
    if Terminal(o) then o else o.(status := Paused)
  }

  function Resumed(o: Order): Order {
    if o.status == Paused then o.(status := Active) else o
  }

  function Edited(o: Order, e: Edit): Order {
    match e
    case Threshold(v) => if v <= 0.0 then o else o.(threshold := v)
    case Amount(v) => if v <= 0.0 then o else o.(amount := v)
    case MaxAttempts(n) => if n < 1 then o else o.(maxAttempts := n)
  }

  predicate Is(o: Order, id: Id, sender: string) {
    o.id == id && o.sender == sender
  }

  /** The first order with this id and sender, changed. */
  function OnOrder(orders: seq<Order>, id: Id, sender: string, f: Order -> Order): (r: seq<Order>)
    ensures |r| == |orders|
  {
    if |orders| == 0 then []
    else if Is(orders[0], id, sender) then [f(orders[0])] + orders[1..]
    else [orders[0]] + OnOrder(orders[1..], id, sender, f)
  }

  function Without(orders: seq<Order>, id: Id, sender: string): seq<Order> {
    if |orders| == 0 then []
    else
      Without(orders[..|orders| - 1], id, sender) + if Is(orders[|orders| - 1], id, sender) then [] else [orders[|orders| - 1]]
  }

  function Step(b: Book, e: Event): Book {
    match e
    case Add(sender, t) =>
      if Acceptable(t) then Book(b.orders + [NewOrder(|b.log|, sender, t)], b.log + [None]) else b
    case Pause(id, sender) => b.(orders := OnOrder(b.orders, id, sender, PausedOrder))
    case Resume(id, sender) => b.(orders := OnOrder(b.orders, id, sender, Resumed))
    case Change(id, sender, edit) => b.(orders := OnOrder(b.orders, id, sender, (o: Order) => Edited(o, edit)))
    case Cancel(id, sender) => b.(orders := Without(b.orders, id, sender))
    case Tick(worlds) => if |worlds| == |b.orders| then Ticked(b, worlds) else b
  }

  const EMPTY := Book([], [])

  function Run(events: seq<Event>): Book {
    if |events| == 0 then EMPTY else Step(Run(events[..|events| - 1]), events[|events| - 1])
  }
}
