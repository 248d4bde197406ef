/** Orders: `place_order` and `update_order_status` of src/modules/orders/services.py, and the payment
    event handlers of src/modules/orders/consumer.py. */
module Orders {
  import opened Prelude
  import opened Inventory
  import Payments

  type OrderId = nat

  datatype Status = Pending | Reserved | Paid | Failed | Shipped

  datatype Order = Order(user: nat, stock: StockId, quantity: int, expectedVersion: int, total: int, currency: string, status: Status)

  /** The rows one transaction sees and writes.  An order is named by its creation index. */
  datatype Db = Db(stocks: Table, orders: seq<Order>)

  /** The outbox row written with an order: orders.order_created. */
  datatype OrderCreated = OrderCreated(order: OrderId, user: nat, stock: StockId, quantity: int, total: int, currency: string)

  // ---------------------------------------------------------------- status updates

  /** Where update_order_status leaves an order that is asked to become PAID or FAILED. */
  function NextStatus(current: Status, target: Status): Status
    requires target in {Paid, Failed}
  {
    if target == Paid && current != Reserved then current
    else if target == Failed && current !in {Pending, Reserved} then current
    else target
  }

  /** payment_captured; None when the handler raises and the transaction is rolled back. */
  function Captured(db: Db, ref: Payments.OrderRef): Option<Db> {
    match ref
    case Order(id) =>
      if id >= |db.orders| then None
      else Some(db.(orders := db.orders[id := db.orders[id].(status := NextStatus(db.orders[id].status, Paid))]))
    case _ => Some(db)
  }

  /** payment_failed: the status update and then the release, whether or not the status changed. */
  function Compensated(db: Db, ref: Payments.OrderRef): Option<Db> {
    match ref
    case Order(id) =>
      if id >= |db.orders| || db.orders[id].quantity <= 0 then None
      else
        var o := db.orders[id];
        Some(Db(if o.stock in db.stocks then db.stocks[o.stock := Released(db.stocks[o.stock], o.quantity)] else db.stocks,
                db.orders[id := o.(status := NextStatus(o.status, Failed))]))
    case _ => Some(db)
  }

  // ---------------------------------------------------------------- placing an order

  /** One reservation and one order, committed together. */
  function WithOrder(db: Db, o: Order): Db
    requires o.stock in db.stocks
  {
    Db(db.stocks[o.stock := Inventory.Reserved(db.stocks[o.stock], o.quantity)], db.orders + [o])
  }

  const MAX_RESERVE_RETRIES := 3

  datatype PlaceResult = Placed(order: Order, event: OrderCreated) | Raised(error: ReserveResult)

  /** `view` gives the tables that attempt `a` meets: at get_stock, at the read inside reserve, and at its
      UPDATE.  Other transactions may have changed anything in between.  The attempt finds no row. */
  predicate Missing(view: nat -> Table, a: nat, id: StockId) { id !in view(3 * a) || id !in view(3 * a + 1) }

  /** The version that get_stock read is still there when reserve reads the row. */
  predicate SameVersion(view: nat -> Table, a: nat, id: StockId) {
    !Missing(view, a, id) && view(3 * a + 1)[id].version == view(3 * a)[id].version
  }

  /** The attempt finds too little stock. */
  predicate Short(view: nat -> Table, a: nat, id: StockId, quantity: int) {
    SameVersion(view, a, id) && view(3 * a + 1)[id].available < quantity
  }

  /** The WHERE clause of the attempt's UPDATE matches a row. */
  predicate Updates(view: nat -> Table, a: nat, id: StockId, quantity: int) {
    && !Missing(view, a, id) && id in view(3 * a + 2)
    && view(3 * a + 2)[id].version == view(3 * a)[id].version && view(3 * a + 2)[id].available >= quantity
  }

  /** The attempt reserves. */
  predicate Wins(view: nat -> Table, a: nat, id: StockId, quantity: int) {
    SameVersion(view, a, id) && view(3 * a + 1)[id].available >= quantity && Updates(view, a, id, quantity)
  }

  /** The attempt ends in ConcurrentUpdateError: the row changed before reserve read it, or between that
      read and the UPDATE. */
  predicate Conflicts(view: nat -> Table, a: nat, id: StockId, quantity: int) {
    !Missing(view, a, id) && (!SameVersion(view, a, id) || (!Short(view, a, id, quantity) && !Updates(view, a, id, quantity)))
  }

  /** Every attempt before `a` conflicted, so that it takes place. */
  ghost predicate Reached(view: nat -> Table, a: nat, id: StockId, quantity: int) {
    forall b :: 0 <= b < a ==> Conflicts(view, b, id, quantity)
  }

  ghost predicate RunsIntoMissing(view: nat -> Table, id: StockId, quantity: int) {
    exists a :: 0 <= a < MAX_RESERVE_RETRIES && Reached(view, a, id, quantity) && Missing(view, a, id)
  }

  ghost predicate RunsShort(view: nat -> Table, id: StockId, quantity: int) {
    exists a :: 0 <= a < MAX_RESERVE_RETRIES && Reached(view, a, id, quantity) && Short(view, a, id, quantity)
  }

  ghost predicate RunsToWin(view: nat -> Table, id: StockId, quantity: int) {
    exists a :: 0 <= a < MAX_RESERVE_RETRIES && Reached(view, a, id, quantity) && Wins(view, a, id, quantity)
  }

  /** The first attempt that does not conflict decides how the call ends. */
  lemma DecidedBy(view: nat -> Table, a: nat, id: StockId, quantity: int)
    requires a < MAX_RESERVE_RETRIES && Reached(view, a, id, quantity) && !Conflicts(view, a, id, quantity)
    ensures !Reached(view, MAX_RESERVE_RETRIES, id, quantity)
    ensures RunsIntoMissing(view, id, quantity) <==> Missing(view, a, id)
    ensures RunsShort(view, id, quantity) <==> Short(view, a, id, quantity)
    ensures RunsToWin(view, id, quantity) <==> Wins(view, a, id, quantity)
  {
    forall b | 0 <= b < MAX_RESERVE_RETRIES && Reached(view, b, id, quantity)
      ensures b <= a && (b < a ==> Conflicts(view, b, id, quantity))
    {
    }
  }

  lemma NeverDecided(view: nat -> Table, id: StockId, quantity: int)
    requires Reached(view, MAX_RESERVE_RETRIES, id, quantity)
    ensures !RunsIntoMissing(view, id, quantity) && !RunsShort(view, id, quantity) && !RunsToWin(view, id, quantity)
  {
    forall b | 0 <= b < MAX_RESERVE_RETRIES
      ensures !Missing(view, b, id) && !Short(view, b, id, quantity) && !Wins(view, b, id, quantity)
    {
      assert Conflicts(view, b, id, quantity);
    }
  }

  /** Attempt `a` placed an order on top of `before`: at the version its reservation wrote, priced as it
      read the stock, and with one reservation more in the table that its UPDATE met. */
  predicate IsPlaced(view: nat -> Table, a: nat, user: nat, stock: StockId, quantity: int,
                     before: seq<Order>, r: PlaceResult, after: Db)
    requires r.Placed? && Wins(view, a, stock, quantity)
  {
    var seen, table := view(3 * a)[stock], view(3 * a + 2);
    && r.order == Order(user, stock, quantity, table[stock].version + 1, seen.price * quantity, seen.currency, Reserved)
    && after == WithOrder(Db(table, before), r.order)
    && r.event == OrderCreated(|before|, user, stock, quantity, r.order.total, seen.currency)
  }

  /** The table is as attempt `a` met it: the attempt wrote nothing. */
  predicate Unwritten(view: nat -> Table, a: nat, table: Table) {
    table == view(3 * a) || table == view(3 * a + 1) || table == view(3 * a + 2)
  }

  /** How attempt `a` ends: what it read and returned, and the table it leaves. */
  ghost predicate Attempted(view: nat -> Table, a: nat, id: StockId, quantity: int,
                            seen: Option<Stock>, r: ReserveResult, table: Table) {
    && r != ValueError
    && (r == ConcurrentUpdate <==> Conflicts(view, a, id, quantity))
    && (r == StockNotFound <==> Missing(view, a, id))
    && (r == OutOfStock <==> Short(view, a, id, quantity))
    && (r.Success? <==> Wins(view, a, id, quantity))
    && (r.Success? ==>
          && seen == Some(view(3 * a)[id]) && r.newVersion == view(3 * a + 2)[id].version + 1
          && table == view(3 * a + 2)[id := Inventory.Reserved(view(3 * a + 2)[id], quantity)])
    && (!r.Success? ==> Unwritten(view, a, table))
  }

  datatype UpdateResult = Done | NotFound | BadTarget

  class OrderSession {
    const inventory: StockSession
    var orders: seq<Order>
    var outbox: seq<OrderCreated>

    constructor (db: Db)
      ensures Value() == db && outbox == [] && fresh(inventory)
    {
      inventory := new StockSession(db.stocks);
      orders := db.orders;
      outbox := [];
    }

    ghost function Value(): Db reads this, inventory { Db(inventory.table, orders) }

    /** One attempt of place_order's loop: get_stock, then reserve at the version just read. */
    method ReserveAsRead(stock: StockId, quantity: int, view: nat -> Table, a: nat)
      returns (seen: Option<Stock>, r: ReserveResult)
      requires 0 < quantity
      modifies inventory
      ensures Attempted(view, a, stock, quantity, seen, r, inventory.table)
    {
      inventory.table := view(3 * a);
      if stock !in inventory.table {
        return None, StockNotFound;
      }
      seen := Some(inventory.table[stock]);
      inventory.table := view(3 * a + 1);
      r := inventory.Reserve(stock, quantity, seen.value.version, view(3 * a + 2));
    }

    /** The loop of place_order: it goes on only after a ConcurrentUpdateError. */
    method ReserveWithRetries(stock: StockId, quantity: int, view: nat -> Table)
      returns (seen: Option<Stock>, r: ReserveResult, attempts: nat)
      requires 0 < quantity
      modifies inventory
      ensures 1 <= attempts <= MAX_RESERVE_RETRIES && Reached(view, attempts - 1, stock, quantity)
      ensures Attempted(view, attempts - 1, stock, quantity, seen, r, inventory.table)
      ensures r == ConcurrentUpdate ==> Reached(view, MAX_RESERVE_RETRIES, stock, quantity)
    {
      attempts := 1;
      seen, r := ReserveAsRead(stock, quantity, view, 0);
      while r == ConcurrentUpdate && attempts < MAX_RESERVE_RETRIES
        invariant 1 <= attempts <= MAX_RESERVE_RETRIES && Reached(view, attempts - 1, stock, quantity)
        invariant Attempted(view, attempts - 1, stock, quantity, seen, r, inventory.table)
        decreases MAX_RESERVE_RETRIES - attempts
      {
        seen, r := ReserveAsRead(stock, quantity, view, attempts);
        attempts := attempts + 1;
      }
    }

    /** The order and its outbox row, added to the transaction that holds the reservation. */
    method AddOrder(user: nat, stock: StockId, quantity: int, version: int, seen: Stock) returns (r: PlaceResult)
      modifies this
      ensures r.Placed?
      ensures r.order == Order(user, stock, quantity, version, seen.price * quantity, seen.currency, Reserved)
      ensures r.event == OrderCreated(|old(orders)|, user, stock, quantity, r.order.total, seen.currency)
      ensures orders == old(orders) + [r.order] && outbox == old(outbox) + [r.event]
    {
      var total := seen.price * quantity;
      var order := Order(user, stock, quantity, version, total, seen.currency, Reserved);
      var event := OrderCreated(|orders|, user, stock, quantity, total, seen.currency);
      orders := orders + [order];
      outbox := outbox + [event];
      r := Placed(order, event);
    }

    /** place_order.  Whatever other transactions do, it stops within three attempts, and either it has
        made exactly one reservation, one RESERVED order and one outbox row, or it raises and its
        transaction holds no write at all. */
    method PlaceOrder(user: nat, stock: StockId, quantity: int, view: nat -> Table)
      returns (r: PlaceResult, attempts: nat)
      modifies this, inventory
      ensures attempts <= 3 == MAX_RESERVE_RETRIES
      ensures 1 <= attempts ==> Reached(view, attempts - 1, stock, quantity)
      ensures r.Placed? ==>
        && 1 <= attempts && Wins(view, attempts - 1, stock, quantity) && 0 < quantity
        && IsPlaced(view, attempts - 1, user, stock, quantity, old(orders), r, Value())
        && outbox == old(outbox) + [r.event]
      ensures r.Raised? ==> orders == old(orders) && outbox == old(outbox)
      ensures r.Raised? && 0 < quantity ==>
        1 <= attempts && Unwritten(view, attempts - 1, inventory.table)
      ensures r == Raised(ValueError) <==> quantity <= 0
      ensures quantity <= 0 ==> inventory.table == old(inventory.table)
      ensures r == Raised(ConcurrentUpdate) <==> 0 < quantity && Reached(view, MAX_RESERVE_RETRIES, stock, quantity)
      ensures r == Raised(StockNotFound) <==> 0 < quantity && RunsIntoMissing(view, stock, quantity)
      ensures r == Raised(OutOfStock) <==> 0 < quantity && RunsShort(view, stock, quantity)
      ensures r.Placed? <==> 0 < quantity && RunsToWin(view, stock, quantity)
    {
      attempts := 0;
      if quantity <= 0 {
        return Raised(ValueError), 0;
      }
      var seen, reserved;
      seen, reserved, attempts := ReserveWithRetries(stock, quantity, view);
      if reserved == ConcurrentUpdate {
        NeverDecided(view, stock, quantity);
        return Raised(ConcurrentUpdate), attempts;
      }
      DecidedBy(view, attempts - 1, stock, quantity);
      if reserved.Success? {
        r := AddOrder(user, stock, quantity, reserved.newVersion, seen.value);
      } else {
        r := Raised(reserved);
      }
    }

    /** update_order_status on the row it holds FOR UPDATE. */
    method UpdateOrderStatus(id: OrderId, target: Status) returns (r: UpdateResult)
      modifies this
      ensures r == BadTarget <==> target !in {Paid, Failed}
      ensures r == NotFound <==> target in {Paid, Failed} && id >= |old(orders)|
      ensures r == Done ==> |orders| == |old(orders)| && orders == old(orders)[id := old(orders)[id].(status := orders[id].status)]
      ensures r == Done && target == Paid ==>
        orders[id].status == if old(orders)[id].status == Reserved then Paid else old(orders)[id].status
      ensures r == Done && target == Failed ==>
        orders[id].status == if old(orders)[id].status in {Pending, Reserved} then Failed else old(orders)[id].status
      ensures r != Done ==> orders == old(orders)
      ensures outbox == old(outbox)
    {
      if target !in {Paid, Failed} {
        return BadTarget;
      }
      if id >= |orders| {
        return NotFound;
      }
      r := Done;
      var order := orders[id];
      if order.status == target {
        return;
      }
      if target == Paid && order.status != Reserved {
        return;
      }
      if target == Failed && order.status !in {Pending, Reserved} {
        return;
      }
      orders := orders[id := order.(status := target)];
    }

    /** payment_captured: an event without a usable order id is ignored, one for an unknown order raises. */
    method OnPaymentCaptured(ref: Payments.OrderRef) returns (ok: bool)
      modifies this
      ensures !ok <==> ref.Order? && ref.id >= |old(orders)|
      ensures outbox == old(outbox) && |orders| == |old(orders)|
      ensures forall i :: 0 <= i < |orders| ==>
        orders[i] == if ref == Payments.Order(i) && old(orders)[i].status == Reserved then old(orders)[i].(status := Paid)
                     else old(orders)[i]
      ensures ok <==> Captured(old(Value()), ref).Some?
      ensures ok ==> Value() == Captured(old(Value()), ref).value
    {
      if !ref.Order? {
        return true;
      }
      var updated := UpdateOrderStatus(ref.id, Paid);
      ok := updated == Done;
    }

    /** payment_failed: the same, and then the release.  Without a positive quantity the release raises; a
        missing stock row is only logged. */
    method OnPaymentFailed(ref: Payments.OrderRef) returns (ok: bool)
      modifies this, inventory
      ensures !ok <==> ref.Order? && (ref.id >= |old(orders)| || old(orders)[ref.id].quantity <= 0)
      ensures outbox == old(outbox) && |orders| == |old(orders)|
      ensures forall i :: 0 <= i < |orders| ==>
        orders[i] == if ref == Payments.Order(i) && old(orders)[i].status in {Pending, Reserved}
                     then old(orders)[i].(status := Failed) else old(orders)[i]
      ensures inventory.table.Keys == old(inventory.table).Keys
      ensures forall k :: k in inventory.table ==>
        inventory.table[k] == if ok && ref.Order? && old(orders)[ref.id].stock == k
          then old(inventory.table)[k].(available := old(inventory.table)[k].available + old(orders)[ref.id].quantity)
          else old(inventory.table)[k]
      ensures ok <==> Compensated(old(Value()), ref).Some?
      ensures ok ==> Value() == Compensated(old(Value()), ref).value
    {
      if !ref.Order? {
        return true;
      }
      var updated := UpdateOrderStatus(ref.id, Failed);
      if updated != Done {
        return false;
      }
      var order := orders[ref.id];
      var released := inventory.Release(order.stock, order.quantity, order.expectedVersion);
      ok := released.Some?;
    }
  }
}
