/** The whole order saga: placing orders, payment transitions, the outbox and its relays, the broker,
    deduplicating consumers and the compensating handler, in any interleaving.

    Every step below is one atomic effect of one component: a committed transaction, one relay step, one
    dedupe check, or the commit (or rollback) of one handler's transaction.  The placing and handling
    transactions take the row locks of the order and stock they write and so act at their commit. */
module Saga {
  import opened Prelude
  import opened Inventory
  import opened Orders
  import Payments
  import RelayFleet
  import Dedupe

  type Event = Payments.PaymentEvent
  type ConsumerId = nat

  /** What an outbox row announces. */
  datatype Announcement = OrderPlaced(order: OrderId) | PaymentMoved(event: Event)

  /** `outbox[i]` is the content of relay row i.  `keys` are the dedupe keys in Redis: by content, which
      for a payment event includes the payment, the status and the order.  `inFlight` are events whose
      key was recorded (or whose check failed open) and whose handler has not ended.  The last two
      fields are history: how often each order was compensated, and which events have been handled. */
  datatype State = State(
    db: Db,
    ledger: Payments.Ledger,
    outbox: seq<Announcement>,
    fleet: RelayFleet.State,
    keys: set<Event>,
    inFlight: map<ConsumerId, Event>,
    compensations: seq<nat>,
    handled: set<Event>)

  datatype Cache = Answers | FailsOpen | Raises(stored: bool)

  datatype Step =
    | PlaceOrder(user: nat, stock: StockId, quantity: int, total: int, currency: string)
    | Pay(transition: Payments.Step)
    | Relay(move: RelayFleet.Step)
    | Receive(consumer: ConsumerId, position: nat, cache: Cache)
    | Handle(consumer: ConsumerId, commits: bool)
    | ExpireKey(event: Event)

  datatype Config = Config(relay: RelayFleet.Config)

  /** A row inserted with the transaction that announces it.  All rows get the same creation time, which
      leaves the order in which relays claim them entirely open. */
  ghost function Announced(c: Config, s: State, a: Announcement): State {
    s.(outbox := s.outbox + [a], fleet := RelayFleet.Next(c.relay, s.fleet, RelayFleet.Insert(0)))
  }

  /** A committed place_order; the total and currency come from an earlier read of the stock row. */
  ghost function PlaceNext(c: Config, s: State, user: nat, stock: StockId, quantity: int, total: int, currency: string): State {
    if quantity <= 0 || stock !in s.db.stocks || s.db.stocks[stock].available < quantity then s
    else
      var order := Order(user, stock, quantity, s.db.stocks[stock].version + 1, total, currency, Reserved);
      var t := Announced(c, s, OrderPlaced(|s.db.orders|));
      t.(db := WithOrder(s.db, order), compensations := s.compensations + [0])
  }

  ghost function PayNext(c: Config, s: State, step: Payments.Step): State {
    var ledger := Payments.Next(s.ledger, step);
    var t := s.(ledger := ledger);
    if |ledger.events| == |s.ledger.events| then t
    else Announced(c, t, PaymentMoved(ledger.events[|ledger.events| - 1]))
  }

  ghost predicate Receivable(s: State, consumer: ConsumerId, position: nat) {
    && consumer !in s.inFlight
    && position < |s.fleet.log| && s.fleet.log[position] < |s.outbox|
    && s.outbox[s.fleet.log[position]].PaymentMoved?
  }

  /** The dedupe check of a delivery of any stored message, first delivery or redelivery. */
  ghost function ReceiveNext(s: State, consumer: ConsumerId, position: nat, cache: Cache): State {
    if !Receivable(s, consumer, position) then s
    else
      var e := s.outbox[s.fleet.log[position]].event;
      match cache
      case FailsOpen => s.(inFlight := s.inFlight[consumer := e])
      case Raises(stored) => if stored then s.(keys := s.keys + {e}) else s
      case Answers =>
        if e in s.keys then s else s.(keys := s.keys + {e}, inFlight := s.inFlight[consumer := e])
  }

  /** What the handler of an event does to the database. */
  function Effect(db: Db, e: Event): Option<Db> {
    match e.status
    case Captured => Orders.Captured(db, e.order)
    case Failed => Compensated(db, e.order)
    case _ => Some(db)
  }

  predicate Compensates(e: Event) { e.status == Payments.Failed && e.order.Order? }

  /** The events whose handler changes an order. */
  predicate Moves(e: Event) { e.status in {Payments.Captured, Payments.Failed} && e.order.Order? }

  ghost function HandleNext(s: State, consumer: ConsumerId, commits: bool): State {
    if consumer !in s.inFlight then s
    else
      var e := s.inFlight[consumer];
      var t := s.(inFlight := s.inFlight - {consumer});
      var after := Effect(s.db, e);
      if !commits || after.None? then t
      else
        t.(db := after.value, handled := s.handled + {e},
           compensations := if Compensates(e) && e.order.id < |s.compensations|
                            then s.compensations[e.order.id := s.compensations[e.order.id] + 1]
                            else s.compensations)
  }

  ghost function Next(c: Config, s: State, step: Step): State {
    match step
    case PlaceOrder(u, stock, q, total, currency) => PlaceNext(c, s, u, stock, q, total, currency)
    case Pay(p) => PayNext(c, s, p)
    case Relay(r) => if r.Insert? then s else s.(fleet := RelayFleet.Next(c.relay, s.fleet, r))
    case Receive(x, k, cache) => ReceiveNext(s, x, k, cache)
    case Handle(x, commits) => HandleNext(s, x, commits)
    case ExpireKey(e) => s.(keys := s.keys - {e})
  }

  // ---------------------------------------------------------------- the steps are what the components do

  function Redis(cache: Cache): Dedupe.Cache {
    match cache
    case Answers => Dedupe.Answers
    case FailsOpen => Dedupe.BreakerOpen
    case Raises(stored) => Dedupe.Raises(stored)
  }

  /** A delivery is taken up exactly when check_and_record calls it new, and the key is there afterwards
      exactly when it is live in Redis. */
  lemma ReceiveIsDedupeCheck(s: State, x: ConsumerId, k: nat, cache: Cache, store: Dedupe.Store, id: Dedupe.Id, now: Dedupe.Time)
    requires Receivable(s, x, k)
    requires Dedupe.Live(store, id, now) <==> s.outbox[s.fleet.log[k]].event in s.keys
    ensures var e, next := s.outbox[s.fleet.log[k]].event, ReceiveNext(s, x, k, cache);
      && (x in next.inFlight <==> Dedupe.CheckResult(store, id, now, Redis(cache)) == Dedupe.New)
      && (x in next.inFlight ==> next.inFlight == s.inFlight[x := e])
      && (e in next.keys <==> Dedupe.Live(Dedupe.Recorded(store, id, Dedupe.DEFAULT_TTL, now, Redis(cache)), id, now))
      && next == s.(keys := next.keys, inFlight := next.inFlight)
  {
  }

  /** A handler that ends frees its consumer; if it is rolled back or raises, that is all that happens, and if
      it commits it has done what OrderSession's handlers do. */
  lemma HandleIsExact(s: State, x: ConsumerId, commits: bool)
    requires x in s.inFlight
    ensures var e, next := s.inFlight[x], HandleNext(s, x, commits);
      && next.inFlight == s.inFlight - {x} && next.keys == s.keys && next.outbox == s.outbox
      && next.ledger == s.ledger && next.fleet == s.fleet
      && (if commits && Effect(s.db, e).Some? then next.db == Effect(s.db, e).value && next.handled == s.handled + {e}
          else next == s.(inFlight := next.inFlight))
    ensures var e := s.inFlight[x];
      && (e.status == Payments.Captured ==> Effect(s.db, e) == Orders.Captured(s.db, e.order))
      && (e.status == Payments.Failed ==> Effect(s.db, e) == Compensated(s.db, e.order))
      && (e.status !in {Payments.Captured, Payments.Failed} ==> Effect(s.db, e) == Some(s.db))
  {
  }

  /** A place_order that succeeds is the PlaceOrder step on the table that its UPDATE met, and announces the
      order. */
  lemma PlacedIsAStep(c: Config, s: State, view: nat -> Table, a: nat, user: nat, stock: StockId, quantity: int,
                      r: PlaceResult, after: Db)
    requires 0 < quantity && r.Placed? && Wins(view, a, stock, quantity) && s.db.stocks == view(3 * a + 2)
    requires IsPlaced(view, a, user, stock, quantity, s.db.orders, r, after)
    ensures var next := Next(c, s, PlaceOrder(user, stock, quantity, r.order.total, r.order.currency));
      next.db == after && next.outbox == s.outbox + [OrderPlaced(r.event.order)]
  {
  }

  /** The system before any order, with the given stock. */
  ghost function Initial(stocks: Table): State {
    State(Db(stocks, []), Payments.Ledger(map[], []), [], RelayFleet.EMPTY, {}, map[], [], {})
  }

  ghost function RunFrom(c: Config, s: State, steps: seq<Step>): State {
    if steps == [] then s
    else Next(c, RunFrom(c, s, steps[..|steps| - 1]), steps[|steps| - 1])
  }

  ghost function Run(c: Config, stocks: Table, steps: seq<Step>): State { RunFrom(c, Initial(stocks), steps) }

  // ---------------------------------------------------------------- sums over orders

  /** Quantity ordered from a stock. */
  ghost function Ordered(orders: seq<Order>, stock: StockId): int {
    if orders == [] then 0
    else
      var o := orders[|orders| - 1];
      Ordered(orders[..|orders| - 1], stock) + (if o.stock == stock then o.quantity else 0)
  }

  /** Quantity of the orders that are not FAILED. */
  ghost function Held(orders: seq<Order>, stock: StockId): int {
    if orders == [] then 0
    else
      var o := orders[|orders| - 1];
      Held(orders[..|orders| - 1], stock) + (if o.stock == stock && o.status != Failed then o.quantity else 0)
  }

  /** Quantity given back by committed compensations. */
  ghost function GivenBack(orders: seq<Order>, times: seq<nat>, stock: StockId): int
    requires |orders| == |times|
  {
    if orders == [] then 0
    else
      var n := |orders| - 1;
      GivenBack(orders[..n], times[..n], stock) + (if orders[n].stock == stock then orders[n].quantity * times[n] else 0)
  }

  lemma {:induction false} StatusKeepsOrdered(orders: seq<Order>, id: nat, status: Status, times: seq<nat>, stock: StockId)
    requires id < |orders| == |times|
    ensures var updated := orders[id := orders[id].(status := status)];
      && Ordered(updated, stock) == Ordered(orders, stock)
      && GivenBack(updated, times, stock) == GivenBack(orders, times, stock)
  {
    var n := |orders| - 1;
    var updated := orders[id := orders[id].(status := status)];
    if id < n {
      assert updated[..n] == orders[..n][id := orders[..n][id].(status := status)];
      StatusKeepsOrdered(orders[..n], id, status, times[..n], stock);
    } else {
      assert updated[..n] == orders[..n];
    }
  }

  lemma {:induction false} OneMoreCompensation(orders: seq<Order>, times: seq<nat>, id: nat, stock: StockId)
    requires id < |orders| == |times|
    ensures GivenBack(orders, times[id := times[id] + 1], stock)
      == GivenBack(orders, times, stock) + (if orders[id].stock == stock then orders[id].quantity else 0)
  {
    var n := |orders| - 1;
    var more := times[id := times[id] + 1];
    if id < n {
      assert more[..n] == times[..n][id := times[..n][id] + 1];
      OneMoreCompensation(orders[..n], times[..n], id, stock);
    } else {
      assert more[..n] == times[..n];
      assert orders[n].quantity * (times[n] + 1) == orders[n].quantity * times[n] + orders[n].quantity;
    }
  }

  lemma HandledTotals(orders: seq<Order>, id: nat, status: Status, times: seq<nat>, stock: StockId)
    requires id < |orders| == |times|
    ensures var updated := orders[id := orders[id].(status := status)];
      && Ordered(updated, stock) == Ordered(orders, stock)
      && GivenBack(updated, times, stock) == GivenBack(orders, times, stock)
      && GivenBack(updated, times[id := times[id] + 1], stock)
           == GivenBack(orders, times, stock) + (if orders[id].stock == stock then orders[id].quantity else 0)
  {
    StatusKeepsOrdered(orders, id, status, times, stock);
    OneMoreCompensation(orders[id := orders[id].(status := status)], times, id, stock);
  }

  // ---------------------------------------------------------------- the unconditional ledger

  ghost function Available(t: Table, stock: StockId): int { if stock in t then t[stock].available else 0 }

  /** What every step keeps, with no assumption on dedupe, payments or relays. */
  ghost predicate LedgerInv(stocks: Table, s: State) {
    && |s.compensations| == |s.db.orders|
    && s.db.stocks.Keys == stocks.Keys
    && (forall i :: 0 <= i < |s.db.orders| ==>
          && s.db.orders[i].quantity > 0 && s.db.orders[i].stock in stocks
          && s.db.orders[i].status in {Reserved, Paid, Failed}
          && (s.db.orders[i].status == Failed ==> s.compensations[i] >= 1))
    && (forall stock :: stock in stocks ==>
          && 0 <= Available(s.db.stocks, stock)
          && Available(s.db.stocks, stock)
               == Available(stocks, stock) - Ordered(s.db.orders, stock) + GivenBack(s.db.orders, s.compensations, stock))
  }

  lemma PlaceKeepsLedger(c: Config, stocks: Table, s: State, step: Step)
    requires LedgerInv(stocks, s) && step.PlaceOrder?
    ensures LedgerInv(stocks, Next(c, s, step))
  {
    var next := Next(c, s, step);
    if next != s {
      var n := |s.db.orders|;
      assert next.db.orders[..n] == s.db.orders && next.compensations[..n] == s.compensations;
    }
  }

  /** The event in flight names an existing order. */
  ghost predicate Names(s: State, x: ConsumerId, status: Payments.Status, id: OrderId) {
    x in s.inFlight && s.inFlight[x].status == status && s.inFlight[x].order == Payments.Order(id) && id < |s.db.orders|
  }

  lemma CaptureKeepsLedger(stocks: Table, s: State, x: ConsumerId, id: OrderId)
    requires LedgerInv(stocks, s) && Names(s, x, Payments.Captured, id)
    ensures LedgerInv(stocks, HandleNext(s, x, true))
  {
    var next := HandleNext(s, x, true);
    var status := NextStatus(s.db.orders[id].status, Paid);
    assert next.db.orders == s.db.orders[id := s.db.orders[id].(status := status)];
    forall stock | stock in stocks
      ensures Ordered(next.db.orders, stock) == Ordered(s.db.orders, stock)
      ensures GivenBack(next.db.orders, next.compensations, stock) == GivenBack(s.db.orders, s.compensations, stock)
    {
      HandledTotals(s.db.orders, id, status, s.compensations, stock);
    }
  }

  lemma FailureKeepsLedger(stocks: Table, s: State, x: ConsumerId, id: OrderId)
    requires LedgerInv(stocks, s) && Names(s, x, Payments.Failed, id)
    ensures LedgerInv(stocks, HandleNext(s, x, true))
  {
    var next := HandleNext(s, x, true);
    var o := s.db.orders[id];
    var status := NextStatus(o.status, Failed);
    assert next.db.orders == s.db.orders[id := o.(status := status)];
    assert next.compensations == s.compensations[id := s.compensations[id] + 1];
    forall stock | stock in stocks
      ensures Ordered(next.db.orders, stock) == Ordered(s.db.orders, stock)
      ensures GivenBack(next.db.orders, next.compensations, stock)
        == GivenBack(s.db.orders, s.compensations, stock) + (if o.stock == stock then o.quantity else 0)
    {
      HandledTotals(s.db.orders, id, status, s.compensations, stock);
    }
  }

  lemma HandleKeepsLedger(stocks: Table, s: State, x: ConsumerId, commits: bool)
    requires LedgerInv(stocks, s)
    ensures LedgerInv(stocks, HandleNext(s, x, commits))
  {
    if commits && x in s.inFlight && s.inFlight[x].order.Order? && s.inFlight[x].order.id < |s.db.orders| {
      if s.inFlight[x].status == Payments.Failed {
        FailureKeepsLedger(stocks, s, x, s.inFlight[x].order.id);
      } else if s.inFlight[x].status == Payments.Captured {
        CaptureKeepsLedger(stocks, s, x, s.inFlight[x].order.id);
      }
    }
  }

  lemma StepKeepsLedger(c: Config, stocks: Table, s: State, step: Step)
    requires LedgerInv(stocks, s)
    ensures LedgerInv(stocks, Next(c, s, step))
  {
    match step
    case PlaceOrder(_, _, _, _, _) => PlaceKeepsLedger(c, stocks, s, step);
    case Handle(x, commits) => HandleKeepsLedger(stocks, s, x, commits);
    case _ =>
  }

  ghost predicate NonNegative(stocks: Table) { forall k :: k in stocks ==> 0 <= stocks[k].available }

  lemma {:induction false} RunKeepsLedger(c: Config, stocks: Table, steps: seq<Step>)
    requires NonNegative(stocks)
    ensures LedgerInv(stocks, Run(c, stocks, steps))
  {
    if steps != [] {
      RunKeepsLedger(c, stocks, steps[..|steps| - 1]);
      StepKeepsLedger(c, stocks, Run(c, stocks, steps[..|steps| - 1]), steps[|steps| - 1]);
    }
  }

  /** Unconditional ledger: in every run whatsoever, what is available of a stock is its initial quantity,
      less everything ordered, plus the quantity of every committed run of the payment_failed handler;
      and it is never negative. */
  lemma UnconditionalLedger(c: Config, stocks: Table, steps: seq<Step>, stock: StockId)
    requires NonNegative(stocks) && stock in stocks
    ensures var s := Run(c, stocks, steps);
      && |s.compensations| == |s.db.orders|
      && 0 <= Available(s.db.stocks, stock)
      && Available(s.db.stocks, stock)
           == Available(stocks, stock) - Ordered(s.db.orders, stock) + GivenBack(s.db.orders, s.compensations, stock)
  {
    RunKeepsLedger(c, stocks, steps);
  }

  // ---------------------------------------------------------------- what can happen to an order

  /** The statuses that no handler changes. */
  predicate Decided(status: Status) { status in {Paid, Failed, Shipped} }

  /** An order only ever changes by the committed handler of a payment event that names it: a capture makes
      a RESERVED order PAID, a failure makes a PENDING or RESERVED order FAILED, and nothing but the status
      changes. */
  lemma OrderMoves(c: Config, s: State, step: Step, id: OrderId)
    requires id < |s.db.orders|
    ensures var next := Next(c, s, step);
      && id < |next.db.orders|
      && next.db.orders[id] == s.db.orders[id].(status := next.db.orders[id].status)
      && (next.db.orders[id] != s.db.orders[id] ==>
            && step.Handle? && step.commits && step.consumer in s.inFlight
            && s.inFlight[step.consumer].order == Payments.Order(id)
            && var old_, new_ := s.db.orders[id].status, next.db.orders[id].status;
               match s.inFlight[step.consumer].status
               case Captured => old_ == Reserved && new_ == Paid
               case Failed => old_ in {Pending, Reserved} && new_ == Failed
               case _ => false)
  {
  }

  /** With no assumption on dedupe, payments or relays: an order that is PAID, FAILED or SHIPPED stays as it
      is in every later state of every run, whatever events still arrive for it. */
  lemma {:induction false} DecidedIsFinal(c: Config, s: State, steps: seq<Step>, id: OrderId)
    requires id < |s.db.orders| && Decided(s.db.orders[id].status)
    ensures var last := RunFrom(c, s, steps);
      id < |last.db.orders| && last.db.orders[id] == s.db.orders[id]
  {
    if steps != [] {
      var n := |steps| - 1;
      DecidedIsFinal(c, s, steps[..n], id);
      OrderMoves(c, RunFrom(c, s, steps[..n]), steps[n], id);
    }
  }

  // ---------------------------------------------------------------- conservation

  /** Available stock plus the quantity of all orders that are not FAILED is the initial quantity. */
  ghost predicate Conserved(stocks: Table, s: State, stock: StockId) {
    Available(s.db.stocks, stock) + Held(s.db.orders, stock) == Available(stocks, stock)
  }

  ghost function Due(o: Order): nat { if o.status == Failed then 1 else 0 }

  /** Every FAILED order of the stock was compensated once, every other order never. */
  ghost predicate Settled(orders: seq<Order>, times: seq<nat>, stock: StockId)
    requires |orders| == |times|
  {
    forall i :: 0 <= i < |orders| && orders[i].stock == stock ==> times[i] == Due(orders[i])
  }

  lemma MoreThanDue(q: int, times: nat, due: nat)
    requires q > 0 && due <= times
    ensures q * times >= q * due
    ensures q * times == q * due <==> times == due
  {
    if due < times {
      assert q * times == q * due + q * (times - due);
      assert q * (times - due) > 0;
    }
  }

  lemma {:induction false} BalanceIffSettled(orders: seq<Order>, times: seq<nat>, stock: StockId)
    requires |orders| == |times|
    requires forall i :: 0 <= i < |orders| ==> orders[i].quantity > 0 && Due(orders[i]) <= times[i]
    ensures GivenBack(orders, times, stock) + Held(orders, stock) >= Ordered(orders, stock)
    ensures GivenBack(orders, times, stock) + Held(orders, stock) == Ordered(orders, stock) <==> Settled(orders, times, stock)
  {
    if orders != [] {
      var n := |orders| - 1;
      BalanceIffSettled(orders[..n], times[..n], stock);
      MoreThanDue(orders[n].quantity, times[n], Due(orders[n]));
      assert Settled(orders, times, stock) <==>
        Settled(orders[..n], times[..n], stock) && (orders[n].stock == stock ==> times[n] == Due(orders[n])) by {
        if Settled(orders, times, stock) {
          assert forall i :: 0 <= i < n ==> orders[..n][i] == orders[i] && times[..n][i] == times[i];
        }
        if Settled(orders[..n], times[..n], stock) && (orders[n].stock == stock ==> times[n] == Due(orders[n])) {
          forall i | 0 <= i < |orders| && orders[i].stock == stock
            ensures times[i] == Due(orders[i])
          {
            if i < n { assert orders[..n][i] == orders[i] && times[..n][i] == times[i]; }
          }
        }
      }
    }
  }

  /** Conservation holds in a reachable state exactly when every FAILED order of the stock had one
      committed payment_failed run and every other order none. */
  lemma ConservedIffSettled(c: Config, stocks: Table, steps: seq<Step>, stock: StockId)
    requires NonNegative(stocks) && stock in stocks
    ensures var s := Run(c, stocks, steps);
      |s.compensations| == |s.db.orders| && (Conserved(stocks, s, stock) <==> Settled(s.db.orders, s.compensations, stock))
  {
    RunKeepsLedger(c, stocks, steps);
    var s := Run(c, stocks, steps);
    BalanceIffSettled(s.db.orders, s.compensations, stock);
  }

  lemma {:induction false} HeldAfterStatus(orders: seq<Order>, id: nat, status: Status, stock: StockId)
    requires id < |orders|
    ensures Held(orders[id := orders[id].(status := status)], stock)
      == Held(orders, stock)
         - (if orders[id].stock == stock && orders[id].status != Failed then orders[id].quantity else 0)
         + (if orders[id].stock == stock && status != Failed then orders[id].quantity else 0)
  {
    var n := |orders| - 1;
    var updated := orders[id := orders[id].(status := status)];
    if id < n {
      assert updated[..n] == orders[..n][id := orders[..n][id].(status := status)];
      HeldAfterStatus(orders[..n], id, status, stock);
    } else {
      assert updated[..n] == orders[..n];
    }
  }

  /** The release is not guarded by the status update: from any state that conserves the order's stock,
      a committed payment_failed run conserves it exactly when the order was still PENDING or RESERVED.
      On a PAID, SHIPPED or FAILED order the update is skipped but the stock is given back all the same. */
  lemma CompensationConservesIffOrderOpen(stocks: Table, s: State, x: ConsumerId)
    requires x in s.inFlight && Compensates(s.inFlight[x]) && s.inFlight[x].order.id < |s.db.orders|
    requires var o := s.db.orders[s.inFlight[x].order.id]; o.quantity > 0 && o.stock in s.db.stocks
    requires Conserved(stocks, s, s.db.orders[s.inFlight[x].order.id].stock)
    ensures var o := s.db.orders[s.inFlight[x].order.id];
      Conserved(stocks, HandleNext(s, x, true), o.stock) <==> o.status in {Pending, Reserved}
  {
    var id := s.inFlight[x].order.id;
    var o := s.db.orders[id];
    var next := HandleNext(s, x, true);
    HeldAfterStatus(s.db.orders, id, NextStatus(o.status, Failed), o.stock);
    assert Available(next.db.stocks, o.stock) == Available(s.db.stocks, o.stock) + o.quantity;
  }

  // ---------------------------------------------------------------- conservation over whole runs

  /** Every order belongs to at most one payment. */
  ghost predicate OnePaymentPerOrder(events: seq<Event>) {
    forall i, j :: 0 <= i < |events| && 0 <= j < |events| && events[i].order.Order? && events[i].order == events[j].order ==>
      events[i].payment == events[j].payment
  }

  /** Dedupe neither fails open nor expires.  Redis calls that raise, relay outages, lost commits, crashed
      relays and consumers, and rolled back handlers are all allowed. */
  predicate Dependable(step: Step) { !step.ExpireKey? && (step.Receive? ==> step.cache != FailsOpen) }

  ghost predicate HandledFor(s: State, status: Payments.Status, id: OrderId) {
    exists e :: e in s.handled && e.status == status && e.order == Payments.Order(id)
  }

  /** Messages only ever carry committed payment events, each recorded key belongs to one of them, and an
      event is handled at most once. */
  ghost predicate DeliveryInv(s: State) {
    && (forall p :: Payments.Tracks(s.ledger, p))
    && (forall i :: 0 <= i < |s.outbox| && s.outbox[i].PaymentMoved? ==> s.outbox[i].event in s.ledger.events)
    && (forall e :: e in s.keys ==> e in s.ledger.events)
    && s.handled <= s.keys
    && (forall x :: x in s.inFlight ==> s.inFlight[x] in s.keys && s.inFlight[x] !in s.handled)
    && (forall x, y :: x in s.inFlight && y in s.inFlight && s.inFlight[x] == s.inFlight[y] ==> x == y)
  }

  /** Each order was compensated exactly as often as it is due, and it is FAILED exactly if its failure
      was handled, PAID exactly if its capture was, and RESERVED otherwise. */
  ghost predicate OrdersInv(s: State) {
    && |s.compensations| == |s.db.orders|
    && (forall i :: 0 <= i < |s.db.orders| ==>
          && s.compensations[i] == Due(s.db.orders[i])
          && s.db.orders[i].status in {Reserved, Paid, Failed}
          && (s.db.orders[i].status == Failed <==> HandledFor(s, Payments.Failed, i))
          && (s.db.orders[i].status == Paid <==> HandledFor(s, Payments.Captured, i)))
    && (forall e :: e in s.handled && Moves(e) ==> e.order.id < |s.db.orders|)
  }

  lemma PayKeepsDelivery(c: Config, s: State, step: Payments.Step)
    requires DeliveryInv(s)
    ensures DeliveryInv(PayNext(c, s, step))
  {
    forall p ensures Payments.Tracks(PayNext(c, s, step).ledger, p) {
      Payments.StepTracks(s.ledger, step, p);
    }
    var grown := Payments.Next(s.ledger, step).events;
    assert forall e :: e in s.ledger.events ==> e in grown;
  }

  lemma StepKeepsDelivery(c: Config, s: State, step: Step)
    requires DeliveryInv(s) && Dependable(step)
    ensures DeliveryInv(Next(c, s, step))
  {
    match step
    case Pay(p) => PayKeepsDelivery(c, s, p);
    case PlaceOrder(_, _, _, _, _) =>
    case Relay(_) =>
    case Receive(_, _, _) =>
    case Handle(_, _) =>
  }

  /** Of one order at most one outcome is committed: two would be events of the same payment. */
  lemma OneOutcomePerOrder(s: State, e: Event, f: Event)
    requires DeliveryInv(s) && OnePaymentPerOrder(s.ledger.events)
    requires e in s.ledger.events && f in s.ledger.events && e != f
    requires e.order.Order? && e.order == f.order
    ensures !(Payments.Outcome(e.status) && Payments.Outcome(f.status))
  {
    var events := s.ledger.events;
    var i :| 0 <= i < |events| && events[i] == e;
    var j :| 0 <= j < |events| && events[j] == f;
    assert i != j && events[i].payment == events[j].payment;
    assert Payments.Tracks(s.ledger, e.payment);
    Payments.EventsOfOnePayment(s.ledger, if i < j then i else j, if i < j then j else i);
  }

  /** While a capture or failure is in flight, no outcome of its order was handled. */
  lemma NoOtherOutcome(s: State, x: ConsumerId, f: Event)
    requires DeliveryInv(s) && OnePaymentPerOrder(s.ledger.events)
    requires x in s.inFlight && Moves(s.inFlight[x])
    requires f in s.handled && f.order == s.inFlight[x].order
    ensures !Payments.Outcome(f.status)
  {
    OneOutcomePerOrder(s, s.inFlight[x], f);
  }

  /** Hence a capture or failure in flight finds its order still RESERVED. */
  lemma OutcomeFindsOrderReserved(s: State, x: ConsumerId)
    requires DeliveryInv(s) && OrdersInv(s) && OnePaymentPerOrder(s.ledger.events)
    requires x in s.inFlight && Moves(s.inFlight[x]) && s.inFlight[x].order.id < |s.db.orders|
    ensures s.db.orders[s.inFlight[x].order.id].status == Reserved
  {
    forall f | f in s.handled && f.order == s.inFlight[x].order
      ensures !Payments.Outcome(f.status)
    {
      NoOtherOutcome(s, x, f);
    }
  }

  lemma HandledForAfter(s: State, next: State, e: Event, status: Payments.Status, id: OrderId)
    requires next.handled == s.handled + {e}
    ensures HandledFor(next, status, id) <==> HandledFor(s, status, id) || (e.status == status && e.order == Payments.Order(id))
  {
    if HandledFor(s, status, id) {
      var f :| f in s.handled && f.status == status && f.order == Payments.Order(id);
      assert f in next.handled;
    }
    if e.status == status && e.order == Payments.Order(id) {
      assert e in next.handled;
    }
  }

  lemma HandleKeepsOrders(s: State, x: ConsumerId, commits: bool)
    requires DeliveryInv(s) && OrdersInv(s) && OnePaymentPerOrder(s.ledger.events)
    ensures OrdersInv(HandleNext(s, x, commits))
  {
    var next := HandleNext(s, x, commits);
    if next.handled != s.handled {
      var e := s.inFlight[x];
      assert next.handled == s.handled + {e};
      if Moves(e) {
        OutcomeFindsOrderReserved(s, x);
      }
      forall i | 0 <= i < |next.db.orders|
        ensures next.db.orders[i].status == Failed <==> HandledFor(next, Payments.Failed, i)
        ensures next.db.orders[i].status == Paid <==> HandledFor(next, Payments.Captured, i)
      {
        HandledForAfter(s, next, e, Payments.Failed, i);
        HandledForAfter(s, next, e, Payments.Captured, i);
      }
    }
  }

  lemma StepKeepsOrders(c: Config, s: State, step: Step)
    requires DeliveryInv(s) && OrdersInv(s) && OnePaymentPerOrder(s.ledger.events)
    ensures OrdersInv(Next(c, s, step))
  {
    var next := Next(c, s, step);
    match step
    case Handle(x, commits) => HandleKeepsOrders(s, x, commits);
    case _ =>
      assert next.handled == s.handled;
      assert forall status, i :: HandledFor(s, status, i) <==> HandledFor(next, status, i);
  }

  lemma EventsGrow(c: Config, s: State, step: Step)
    ensures s.ledger.events <= Next(c, s, step).ledger.events
  {
  }

  lemma {:induction false} RunKeepsOrders(c: Config, stocks: Table, steps: seq<Step>)
    requires forall k :: 0 <= k < |steps| ==> Dependable(steps[k])
    requires OnePaymentPerOrder(Run(c, stocks, steps).ledger.events)
    ensures DeliveryInv(Run(c, stocks, steps)) && OrdersInv(Run(c, stocks, steps))
  {
    if steps != [] {
      var n := |steps| - 1;
      var s := Run(c, stocks, steps[..n]);
      EventsGrow(c, s, steps[n]);
      var events := Run(c, stocks, steps).ledger.events;
      assert OnePaymentPerOrder(s.ledger.events) by {
        assert forall i :: 0 <= i < |s.ledger.events| ==> s.ledger.events[i] == events[i];
      }
      RunKeepsOrders(c, stocks, steps[..n]);
      StepKeepsDelivery(c, s, steps[n]);
      StepKeepsOrders(c, s, steps[n]);
    }
  }

  /** End-to-end stock conservation: in every interleaving of orders, payment transitions, relay steps
      with outages and lost commits, redeliveries and handler commits or rollbacks, if each order belongs
      to at most one payment and dedupe neither fails open nor expires, then the available quantity of a
      stock plus that of its non-FAILED orders is always its initial quantity. */
  lemma StockConservation(c: Config, stocks: Table, steps: seq<Step>, stock: StockId)
    requires NonNegative(stocks) && stock in stocks
    requires forall k :: 0 <= k < |steps| ==> Dependable(steps[k])
    requires OnePaymentPerOrder(Run(c, stocks, steps).ledger.events)
    ensures Conserved(stocks, Run(c, stocks, steps), stock)
  {
    RunKeepsOrders(c, stocks, steps);
    ConservedIffSettled(c, stocks, steps, stock);
  }

  /** Under the same conditions the order table follows the handled events exactly. */
  lemma OrderStatusIsExact(c: Config, stocks: Table, steps: seq<Step>, id: OrderId)
    requires forall k :: 0 <= k < |steps| ==> Dependable(steps[k])
    requires OnePaymentPerOrder(Run(c, stocks, steps).ledger.events)
    requires id < |Run(c, stocks, steps).db.orders|
    ensures var s := Run(c, stocks, steps);
      s.db.orders[id].status
        == if HandledFor(s, Payments.Failed, id) then Failed
           else if HandledFor(s, Payments.Captured, id) then Paid
           else Reserved
    ensures var s := Run(c, stocks, steps);
      !(HandledFor(s, Payments.Failed, id) && HandledFor(s, Payments.Captured, id))
  {
    RunKeepsOrders(c, stocks, steps);
  }

  /** A declined payment has no handler: once one is announced for an order, the order is RESERVED in
      every later state and its stock is never given back. */
  lemma DeclineHoldsStock(c: Config, stocks: Table, steps: seq<Step>, e: Event)
    requires forall k :: 0 <= k < |steps| ==> Dependable(steps[k])
    requires OnePaymentPerOrder(Run(c, stocks, steps).ledger.events)
    requires e in Run(c, stocks, steps).ledger.events && e.status == Payments.Declined && e.order.Order?
    requires e.order.id < |Run(c, stocks, steps).db.orders|
    ensures var s := Run(c, stocks, steps);
      |s.compensations| == |s.db.orders| && s.db.orders[e.order.id].status == Reserved && s.compensations[e.order.id] == 0
  {
    RunKeepsOrders(c, stocks, steps);
    var s := Run(c, stocks, steps);
    forall f | f in s.handled && f.order == e.order && f != e
      ensures !Payments.Outcome(f.status)
    {
      OneOutcomePerOrder(s, e, f);
    }
  }

  // ---------------------------------------------------------------- outside those conditions

  /** A stored message of an already compensated order breaks conservation as soon as it is delivered
      once more with Redis unavailable, or after its key has expired. */
  lemma SecondDeliveryBreaksConservation(c: Config, stocks: Table, s: State, x: ConsumerId, k: nat)
    requires LedgerInv(stocks, s) && Receivable(s, x, k)
    requires var e := s.outbox[s.fleet.log[k]].event;
      && Compensates(e) && e.order.id < |s.db.orders| && s.db.orders[e.order.id].status == Failed
      && Conserved(stocks, s, s.db.orders[e.order.id].stock)
    ensures var e := s.outbox[s.fleet.log[k]].event;
      var stock := s.db.orders[e.order.id].stock;
      && !Conserved(stocks, Next(c, Next(c, s, Receive(x, k, FailsOpen)), Handle(x, true)), stock)
      && !Conserved(stocks, Next(c, Next(c, Next(c, s, ExpireKey(e)), Receive(x, k, Answers)), Handle(x, true)), stock)
  {
    var e := s.outbox[s.fleet.log[k]].event;
    CompensationConservesIffOrderOpen(stocks, Next(c, s, Receive(x, k, FailsOpen)), x);
    var expired := Next(c, s, ExpireKey(e));
    assert Receivable(expired, x, k);
    CompensationConservesIffOrderOpen(stocks, Next(c, expired, Receive(x, k, Answers)), x);
  }

  /** Recorded, not being handled and never handled to the end: rolled back, crashed, or its check raised
      after storing the key. */
  ghost predicate Abandoned(s: State, e: Event) {
    e in s.keys && e !in s.handled && forall x :: x in s.inFlight ==> s.inFlight[x] != e
  }

  /** Such an event is never handled again while dedupe is dependable, however often it is redelivered:
      a rolled back compensation leaves its order RESERVED and its stock held. */
  lemma {:induction false} AbandonedStaysAbandoned(c: Config, s: State, steps: seq<Step>, e: Event)
    requires Abandoned(s, e)
    requires forall k :: 0 <= k < |steps| ==> Dependable(steps[k])
    ensures Abandoned(RunFrom(c, s, steps), e)
  {
    if steps != [] {
      AbandonedStaysAbandoned(c, s, steps[..|steps| - 1], e);
    }
  }

  ghost predicate RelaysInv(c: Config, s: State) {
    && |s.fleet.rows| == |s.outbox| && RelayFleet.Valid(c.relay, s.fleet)
    && forall k :: 0 <= k < |s.fleet.log| ==> s.fleet.log[k] < |s.outbox|
  }

  lemma StepKeepsRelays(c: Config, s: State, step: Step)
    requires RelaysInv(c, s)
    ensures RelaysInv(c, Next(c, s, step))
  {
    if step.Relay? {
      RelayFleet.StepKeepsValid(c.relay, s.fleet, step.move);
    } else {
      RelayFleet.StepKeepsValid(c.relay, s.fleet, RelayFleet.Insert(0));
    }
  }

  /** Everything the broker holds is the announcement of some outbox row. */
  lemma {:induction false} StoredMessagesAreRows(c: Config, stocks: Table, steps: seq<Step>)
    ensures RelaysInv(c, Run(c, stocks, steps))
  {
    if steps != [] {
      StoredMessagesAreRows(c, stocks, steps[..|steps| - 1]);
      StepKeepsRelays(c, Run(c, stocks, steps[..|steps| - 1]), steps[|steps| - 1]);
    }
  }
}
