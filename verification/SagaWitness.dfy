/** Concrete runs of the saga.  One meets every condition of the conservation theorem; the others meet all
    conditions but one and break conservation: with a fail-open dedupe check, with an expired dedupe key,
    and with two payments for one order.  So each condition is needed. */
module SagaWitness {
  import opened Prelude
  import opened Inventory
  import opened Orders
  import opened Saga
  import Payments
  import RelayBatch
  import RelayFleet
  import RelayTick

  const STOCKS: Table := map[0 := Stock(1, 0, 5, "USD")]

  /** The only order there is, and the database around it once it is placed. */
  function TheOrder(status: Status): Order { Order(0, 0, 1, 1, 5, "USD", status) }
  function Shop(available: int, status: Status): Db { Db(map[0 := Stock(available, 1, 5, "USD")], [TheOrder(status)]) }

  function Event7(status: Payments.Status): Event { Payments.PaymentEvent(7, status, Payments.Order(0)) }
  function Event8(status: Payments.Status): Event { Payments.PaymentEvent(8, status, Payments.Order(0)) }

  function Transition(e: Event): Step { Pay(Payments.Process(e.payment, e.status, e.order, true)) }

  const PLACE: Step := PlaceOrder(0, 0, 1, 5, "USD")

  lemma ShopCompensated(available: int, status: Status)
    ensures Compensated(Shop(available, status), Payments.Order(0)) == Some(Shop(available + 1, NextStatus(status, Failed)))
  {
    var db := Shop(available, status);
    assert db.orders[0 := TheOrder(NextStatus(status, Failed))] == [TheOrder(NextStatus(status, Failed))];
    assert db.stocks[0 := Stock(available + 1, 1, 5, "USD")] == map[0 := Stock(available + 1, 1, 5, "USD")];
  }

  ghost predicate AllDependable(steps: seq<Step>) { forall k :: 0 <= k < |steps| ==> Dependable(steps[k]) }

  // ---------------------------------------------------------------- running a few steps

  lemma {:induction false} RunConcat(c: Config, s: State, a: seq<Step>, b: seq<Step>)
    ensures RunFrom(c, s, a + b) == RunFrom(c, RunFrom(c, s, a), b)
  {
    if b == [] {
      assert a + b == a;
    } else {
      var n := |b| - 1;
      RunConcat(c, s, a, b[..n]);
      assert (a + b)[..|a + b| - 1] == a + b[..n];
    }
  }

  lemma {:induction false} TwoSteps(c: Config, s: State, steps: seq<Step>)
    requires |steps| == 2
    ensures RunFrom(c, s, steps) == Next(c, Next(c, s, steps[0]), steps[1])
  {
    var one := steps[..1];
    assert RunFrom(c, s, one) == Next(c, s, steps[0]);
  }

  lemma {:induction false} ThreeSteps(c: Config, s: State, t: seq<Step>)
    requires |t| == 3
    ensures RunFrom(c, s, t) == Next(c, Next(c, Next(c, s, t[0]), t[1]), t[2])
  {
    TwoSteps(c, s, t[..2]);
  }

  // ---------------------------------------------------------------- publishing everything

  const ROW := RelayBatch.Row(0, 0, false, false)

  function Rows(n: nat): seq<RelayBatch.Row> { seq(n, i => ROW) }
  function Ids(n: nat): seq<nat> { seq(n, i => i) }
  function Done(n: nat): seq<RelayBatch.Fate> { seq(n, i => RelayBatch.Published) }

  const ACK: RelayFleet.Step := RelayFleet.PublishNext(0, RelayBatch.Acked, true)

  /** One relay claims the n rows there are and has them all acknowledged. */
  function Publication(n: nat): (steps: seq<Step>)
    ensures |steps| == n + 1
  {
    [Relay(RelayFleet.ClaimBatch(0, Ids(n)))] + seq(n, i => Relay(ACK))
  }

  function Visiting(n: nat, k: nat): RelayFleet.State
    requires k <= n
  {
    RelayFleet.State(Rows(n), map[0 := RelayFleet.Claim(Ids(n), Done(k))], Ids(k))
  }

  lemma {:induction false} AckNext(c: RelayFleet.Config, n: nat, k: nat)
    requires k < n && c.maxAttempts >= 1
    ensures RelayFleet.Next(c, Visiting(n, k), ACK) == Visiting(n, k + 1)
  {
    var s := Visiting(n, k);
    assert Done(k + 1) == Done(k) + [RelayBatch.Published] && Ids(k + 1) == Ids(k) + [k];
    assert RelayFleet.Enabled(c, s, ACK);
    var next := RelayFleet.Next(c, s, ACK);
    assert s.claims[0].ids[|Done(k)|] == k && s.rows[k] == ROW;
    assert RelayBatch.FateOf(c.maxAttempts, ROW, RelayBatch.Acked) == RelayBatch.Published;
    assert next.claims == map[0 := RelayFleet.Claim(Ids(n), Done(k + 1))];
    assert next.log == Ids(k + 1) && next.rows == Rows(n);
  }

  lemma {:induction false} ClaimAll(c: RelayFleet.Config, n: nat)
    requires n <= c.batchSize
    ensures RelayFleet.Next(c, RelayFleet.State(Rows(n), map[], []), RelayFleet.ClaimBatch(0, Ids(n))) == Visiting(n, 0)
  {
    var s := RelayFleet.State(Rows(n), map[], []);
    assert RelayFleet.Locked(s) == {};
    forall id | 0 <= id < n
      ensures id in Ids(n)
    {
      assert Ids(n)[id] == id;
    }
    assert RelayTick.IsClaim(s.rows, {}, c.batchSize, Ids(n));
    assert Done(0) == [] && Ids(0) == [];
  }

  lemma RelayStep(c: Config, s: State, steps: seq<Step>, move: RelayFleet.Step)
    requires steps != [] && steps[|steps| - 1] == Relay(move) && !move.Insert?
    ensures var t := RunFrom(c, s, steps[..|steps| - 1]);
      RunFrom(c, s, steps) == t.(fleet := RelayFleet.Next(c.relay, t.fleet, move))
  {
  }

  lemma {:induction false} PublishedSoFar(c: Config, s: State, n: nat, k: nat)
    requires k <= n <= c.relay.batchSize && c.relay.maxAttempts >= 1
    requires s.fleet == RelayFleet.State(Rows(n), map[], [])
    ensures RunFrom(c, s, Publication(n)[..k + 1]) == s.(fleet := Visiting(n, k))
  {
    var steps := Publication(n)[..k + 1];
    assert steps[..k] == Publication(n)[..k];
    if k == 0 {
      ClaimAll(c.relay, n);
      RelayStep(c, s, steps, RelayFleet.ClaimBatch(0, Ids(n)));
      assert RunFrom(c, s, steps[..0]) == s;
    } else {
      PublishedSoFar(c, s, n, k - 1);
      AckNext(c.relay, n, k - 1);
      RelayStep(c, s, steps, ACK);
    }
  }

  lemma {:induction false} Published(c: Config, s: State, n: nat)
    requires n <= c.relay.batchSize && c.relay.maxAttempts >= 1
    requires s.fleet == RelayFleet.State(Rows(n), map[], [])
    ensures RunFrom(c, s, Publication(n)) == s.(fleet := Visiting(n, n))
  {
    PublishedSoFar(c, s, n, n);
    assert Publication(n)[..n + 1] == Publication(n);
  }

  lemma PublicationDependable(before: seq<Step>, n: nat, after: seq<Step>)
    requires AllDependable(before) && AllDependable(after)
    ensures AllDependable(before + Publication(n) + after)
  {
    assert AllDependable(Publication(n));
  }

  // ---------------------------------------------------------------- one order whose only payment fails

  const FAILING: seq<Step> := [PLACE, Pay(Payments.Create(7)), Transition(Event7(Payments.Failed))]
  const SCRIPT: seq<Step> := FAILING + Publication(2)

  /** Deliver the failure and commit its handler; again with Redis unavailable; again after its key expired. */
  const ONCE: seq<Step> := [Receive(0, 1, Answers), Handle(0, true)]
  const FAIL_OPEN: seq<Step> := [Receive(0, 1, FailsOpen), Handle(0, true)]
  const EXPIRED: seq<Step> := [ExpireKey(Event7(Payments.Failed)), Receive(0, 1, Answers), Handle(0, true)]

  lemma Announced(c: Config)
    ensures var s := Run(c, STOCKS, FAILING);
      && s.fleet == RelayFleet.State(Rows(2), map[], [])
      && s.outbox == [OrderPlaced(0), PaymentMoved(Event7(Payments.Failed))]
      && s.ledger.events == [Event7(Payments.Failed)]
      && s.keys == {} && s.inFlight == map[] && s.db == Shop(0, Reserved)
  {
    var s0 := Initial(STOCKS);
    var s1 := Next(c, s0, FAILING[0]);
    assert s1.db == Shop(0, Reserved);
    assert s1.fleet == RelayFleet.State([ROW], map[], []) && s1.outbox == [OrderPlaced(0)];
    var s2 := Next(c, s1, FAILING[1]);
    assert s2 == s1.(ledger := Payments.Ledger(map[7 := Payments.Pending], []));
    var s3 := Next(c, s2, FAILING[2]);
    assert s3.fleet.rows == [ROW, ROW] == Rows(2);
    ThreeSteps(c, s0, FAILING);
  }

  /** A delivery that passes the dedupe check, and the commit of its handler. */
  lemma DeliverAndHandle(c: Config, s: State, k: nat, cache: Cache)
    requires Receivable(s, 0, k) && s.inFlight == map[]
    requires Effect(s.db, s.outbox[s.fleet.log[k]].event).Some?
    requires var e := s.outbox[s.fleet.log[k]].event; cache == FailsOpen || (cache == Answers && e !in s.keys)
    ensures var e, t := s.outbox[s.fleet.log[k]].event, RunFrom(c, s, [Receive(0, k, cache), Handle(0, true)]);
      && t.db == Effect(s.db, e).value && t.keys <= s.keys + {e}
      && t.fleet == s.fleet && t.outbox == s.outbox && t.ledger == s.ledger && t.inFlight == map[]
  {
    var e := s.outbox[s.fleet.log[k]].event;
    TwoSteps(c, s, [Receive(0, k, cache), Handle(0, true)]);
    assert Next(c, s, Receive(0, k, cache)).inFlight == map[0 := e];
    assert map[0 := e] - {0} == map[];
  }

  lemma FailurePublished(c: Config)
    requires c.relay.batchSize >= 2 && c.relay.maxAttempts >= 1
    ensures var s := Run(c, STOCKS, SCRIPT);
      && s.db == Shop(0, Reserved) && s.keys == {} && s.inFlight == map[]
      && s.fleet.log == [0, 1] && s.outbox == [OrderPlaced(0), PaymentMoved(Event7(Payments.Failed))]
      && s.ledger.events == [Event7(Payments.Failed)]
  {
    Announced(c);
    Published(c, Run(c, STOCKS, FAILING), 2);
    RunConcat(c, Initial(STOCKS), FAILING, Publication(2));
    assert Ids(2) == [0, 1];
  }

  lemma HandledOnce(c: Config)
    requires c.relay.batchSize >= 2 && c.relay.maxAttempts >= 1
    ensures var s := Run(c, STOCKS, SCRIPT + ONCE);
      && s.db == Shop(1, Failed)
      && s.fleet.log == [0, 1] && s.outbox == [OrderPlaced(0), PaymentMoved(Event7(Payments.Failed))]
      && s.ledger.events == [Event7(Payments.Failed)] && s.inFlight == map[] && s.keys <= {Event7(Payments.Failed)}
  {
    FailurePublished(c);
    RunConcat(c, Initial(STOCKS), SCRIPT, ONCE);
    DeliverAndHandle(c, Run(c, STOCKS, SCRIPT), 1, Answers);
  }

  /** Delivered once, the failed order gives its stock back: the run meets every condition of the
      conservation theorem, and all the stock is available again. */
  lemma OneDeliveryRestoresStock(c: Config)
    requires c.relay.batchSize >= 2 && c.relay.maxAttempts >= 1
    ensures var s := Run(c, STOCKS, SCRIPT + ONCE);
      && AllDependable(SCRIPT + ONCE) && OnePaymentPerOrder(s.ledger.events)
      && s.db.orders == [TheOrder(Failed)] && Available(s.db.stocks, 0) == 1
      && Conserved(STOCKS, s, 0)
  {
    HandledOnce(c);
    PublicationDependable(FAILING, 2, ONCE);
    assert Run(c, STOCKS, SCRIPT + ONCE).db.orders[..0] == [];
  }

  /** One more delivery while Redis is unavailable, and the shop offers two of an item it has once. */
  lemma FailOpenDeliveryOversupplies(c: Config)
    requires c.relay.batchSize >= 2 && c.relay.maxAttempts >= 1
    ensures var s := Run(c, STOCKS, SCRIPT + ONCE + FAIL_OPEN);
      && OnePaymentPerOrder(s.ledger.events)
      && Available(s.db.stocks, 0) == 2 && !Conserved(STOCKS, s, 0)
  {
    HandledOnce(c);
    RunConcat(c, Initial(STOCKS), SCRIPT + ONCE, FAIL_OPEN);
    DeliverAndHandle(c, Run(c, STOCKS, SCRIPT + ONCE), 1, FailsOpen);
    var t := Run(c, STOCKS, SCRIPT + ONCE + FAIL_OPEN);
    assert t.db == Shop(2, Failed);
    assert t.db.orders[..0] == [];
  }

  lemma HandledAfterExpiry(c: Config, s: State)
    requires s.db == Shop(1, Failed) && s.inFlight == map[] && s.keys <= {Event7(Payments.Failed)}
    requires s.fleet.log == [0, 1] && s.outbox == [OrderPlaced(0), PaymentMoved(Event7(Payments.Failed))]
    ensures var t := RunFrom(c, s, EXPIRED); t.db == Shop(2, Failed) && t.ledger == s.ledger
  {
    var u := Next(c, s, EXPIRED[0]);
    assert EXPIRED == EXPIRED[..1] + EXPIRED[1..];
    RunConcat(c, s, EXPIRED[..1], EXPIRED[1..]);
    assert RunFrom(c, s, EXPIRED[..1]) == u;
    DeliverAndHandle(c, u, 1, Answers);
  }

  /** So does one more delivery after the dedupe key has expired. */
  lemma ExpiredKeyOversupplies(c: Config)
    requires c.relay.batchSize >= 2 && c.relay.maxAttempts >= 1
    ensures var s := Run(c, STOCKS, SCRIPT + ONCE + EXPIRED);
      && OnePaymentPerOrder(s.ledger.events)
      && Available(s.db.stocks, 0) == 2 && !Conserved(STOCKS, s, 0)
  {
    HandledOnce(c);
    HandledAfterExpiry(c, Run(c, STOCKS, SCRIPT + ONCE));
    RunConcat(c, Initial(STOCKS), SCRIPT + ONCE, EXPIRED);
    assert Run(c, STOCKS, SCRIPT + ONCE + EXPIRED).db.orders[..0] == [];
  }

  // ---------------------------------------------------------------- one order with two payments

  /** Payment 7 is captured, payment 8 fails. */
  const CAPTURED: seq<Step> := [Transition(Event7(Payments.Authorized)), Transition(Event7(Payments.Captured))]
  const FAILED: seq<Step> := [Pay(Payments.Create(8)), Transition(Event8(Payments.Failed))]
  const OPENED: seq<Step> := [PLACE, Pay(Payments.Create(7))]
  const TWO_PAYMENTS: seq<Step> := OPENED + CAPTURED + FAILED + Publication(4)

  const CAPTURE: seq<Step> := [Receive(0, 2, Answers), Handle(0, true)]
  const FAILURE: seq<Step> := [Receive(0, 3, Answers), Handle(0, true)]

  const ANNOUNCED: seq<Announcement> := [OrderPlaced(0)] + [PaymentMoved(Event7(Payments.Authorized))]
    + [PaymentMoved(Event7(Payments.Captured))] + [PaymentMoved(Event8(Payments.Failed))]

  /** A run before any delivery: its outbox is not yet published, the order holds the stock. */
  ghost predicate Undelivered(s: State, payments: map<Payments.PaymentId, Payments.Status>, outbox: seq<Announcement>) {
    && s.fleet == RelayFleet.State(Rows(|outbox|), map[], []) && s.outbox == outbox && s.ledger.payments == payments
    && s.keys == {} && s.inFlight == map[] && s.db == Shop(0, Reserved)
  }

  lemma Opened(c: Config)
    ensures Undelivered(Run(c, STOCKS, OPENED), map[7 := Payments.Pending], [OrderPlaced(0)])
  {
    var s1 := Next(c, Initial(STOCKS), OPENED[0]);
    assert s1.db == Shop(0, Reserved);
    assert s1.fleet.rows == [ROW] == Rows(1) && s1.outbox == [OrderPlaced(0)];
    TwoSteps(c, Initial(STOCKS), OPENED);
  }

  lemma TransitionAnnounced(
      c: Config, s: State, payments: map<Payments.PaymentId, Payments.Status>, outbox: seq<Announcement>, e: Event)
    requires Undelivered(s, payments, outbox) && e.payment in payments && Payments.Allowed(payments[e.payment], e.status)
    ensures Undelivered(Next(c, s, Transition(e)), payments[e.payment := e.status], outbox + [PaymentMoved(e)])
  {
    assert Rows(|outbox| + 1) == Rows(|outbox|) + [ROW];
  }

  lemma BothAnnounced(c: Config)
    ensures Undelivered(Run(c, STOCKS, OPENED + CAPTURED + FAILED), map[7 := Payments.Captured, 8 := Payments.Failed],
      ANNOUNCED)
  {
    Opened(c);
    var s2 := Run(c, STOCKS, OPENED);
    var outbox := [OrderPlaced(0)];
    TransitionAnnounced(c, s2, map[7 := Payments.Pending], outbox, Event7(Payments.Authorized));
    var s3 := Next(c, s2, CAPTURED[0]);
    assert map[7 := Payments.Pending][7 := Payments.Authorized] == map[7 := Payments.Authorized];
    outbox := outbox + [PaymentMoved(Event7(Payments.Authorized))];
    TransitionAnnounced(c, s3, map[7 := Payments.Authorized], outbox, Event7(Payments.Captured));
    var s4 := Next(c, s3, CAPTURED[1]);
    assert map[7 := Payments.Authorized][7 := Payments.Captured] == map[7 := Payments.Captured];
    outbox := outbox + [PaymentMoved(Event7(Payments.Captured))];
    var s5 := Next(c, s4, FAILED[0]);
    assert Undelivered(s5, map[7 := Payments.Captured, 8 := Payments.Pending], outbox);
    TransitionAnnounced(c, s5, map[7 := Payments.Captured, 8 := Payments.Pending], outbox, Event8(Payments.Failed));
    assert map[7 := Payments.Captured, 8 := Payments.Pending][8 := Payments.Failed]
      == map[7 := Payments.Captured, 8 := Payments.Failed];
    TwoSteps(c, s2, CAPTURED);
    TwoSteps(c, s4, FAILED);
    RunConcat(c, Initial(STOCKS), OPENED, CAPTURED);
    RunConcat(c, Initial(STOCKS), OPENED + CAPTURED, FAILED);
  }

  /** Everything is published and nothing delivered: the capture is the third message, the failure the last. */
  ghost predicate BothStored(s: State) {
    && Receivable(s, 0, 2) && Receivable(s, 0, 3) && s.inFlight == map[]
    && s.outbox[s.fleet.log[2]] == PaymentMoved(Event7(Payments.Captured))
    && s.outbox[s.fleet.log[3]] == PaymentMoved(Event8(Payments.Failed))
  }

  lemma StoredFrom(s: State, payments: map<Payments.PaymentId, Payments.Status>)
    requires Undelivered(s, payments, ANNOUNCED)
    ensures BothStored(s.(fleet := Visiting(4, 4)))
  {
    assert ANNOUNCED[2] == PaymentMoved(Event7(Payments.Captured)) && ANNOUNCED[3] == PaymentMoved(Event8(Payments.Failed));
  }

  lemma BothPublished(c: Config)
    requires c.relay.batchSize >= 4 && c.relay.maxAttempts >= 1
    ensures var s := Run(c, STOCKS, TWO_PAYMENTS);
      BothStored(s) && s.keys == {} && s.db == Shop(0, Reserved)
  {
    BothAnnounced(c);
    var s := Run(c, STOCKS, OPENED + CAPTURED + FAILED);
    StoredFrom(s, map[7 := Payments.Captured, 8 := Payments.Failed]);
    Published(c, s, 4);
    RunConcat(c, Initial(STOCKS), OPENED + CAPTURED + FAILED, Publication(4));
  }

  lemma PaidFirst(c: Config)
    requires c.relay.batchSize >= 4 && c.relay.maxAttempts >= 1
    ensures var s := Run(c, STOCKS, TWO_PAYMENTS + CAPTURE);
      BothStored(s) && s.db == Shop(0, Paid) && Event8(Payments.Failed) !in s.keys
  {
    BothPublished(c);
    RunConcat(c, Initial(STOCKS), TWO_PAYMENTS, CAPTURE);
    DeliverAndHandle(c, Run(c, STOCKS, TWO_PAYMENTS), 2, Answers);
  }

  lemma TwoPaymentsDependable()
    ensures AllDependable(TWO_PAYMENTS + CAPTURE + FAILURE)
  {
    PublicationDependable(OPENED + CAPTURED + FAILED, 4, CAPTURE + FAILURE);
    assert TWO_PAYMENTS + CAPTURE + FAILURE == TWO_PAYMENTS + (CAPTURE + FAILURE);
  }

  lemma FailureAfterCapture(c: Config, s: State)
    requires BothStored(s) && s.db == Shop(0, Paid) && Event8(Payments.Failed) !in s.keys
    ensures RunFrom(c, s, FAILURE).db == Shop(1, Paid)
  {
    ShopCompensated(0, Paid);
    assert Effect(s.db, Event8(Payments.Failed)) == Some(Shop(1, Paid));
    DeliverAndHandle(c, s, 3, Answers);
  }

  lemma FailedSecond(c: Config)
    requires c.relay.batchSize >= 4 && c.relay.maxAttempts >= 1
    ensures Run(c, STOCKS, TWO_PAYMENTS + CAPTURE + FAILURE).db == Shop(1, Paid)
  {
    PaidFirst(c);
    RunConcat(c, Initial(STOCKS), TWO_PAYMENTS + CAPTURE, FAILURE);
    FailureAfterCapture(c, Run(c, STOCKS, TWO_PAYMENTS + CAPTURE));
  }

  /** With two payments for one order a dependable run breaks conservation: the order is PAID by one, and
      the failure of the other gives its stock back all the same. */
  lemma SecondPaymentOversupplies(c: Config)
    requires c.relay.batchSize >= 4 && c.relay.maxAttempts >= 1
    ensures var s := Run(c, STOCKS, TWO_PAYMENTS + CAPTURE + FAILURE);
      && AllDependable(TWO_PAYMENTS + CAPTURE + FAILURE)
      && s.db.orders == [TheOrder(Paid)] && Available(s.db.stocks, 0) == 1 && !Conserved(STOCKS, s, 0)
  {
    TwoPaymentsDependable();
    FailedSecond(c);
    assert Run(c, STOCKS, TWO_PAYMENTS + CAPTURE + FAILURE).db.orders[..0] == [];
  }
}
