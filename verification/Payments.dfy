/** The payment state machine of src/modules/payments/services.py.

    `process_payment` reads the payment row FOR UPDATE, so transactions on one payment are serialised
    by the row lock and each one is modelled by its commit (or rollback) as one atomic step. */
module Payments {
  datatype Status = Pending | Authorized | Captured | Settled | Refunded | Declined | Failed

  /** _ALLOWED_TRANSITIONS. */
  predicate Allowed(current: Status, new_: Status) {
    match current
    case Pending => new_ in {Authorized, Failed, Declined}
    case Authorized => new_ in {Captured, Declined}
    case Captured => new_ in {Settled, Refunded}
    case _ => false
  }

  type PaymentId = nat
  type OrderId = nat

  /** `order_id` of the event payload; the payments module only writes it when the caller passes it
      in `extra_payload`, so it may be absent or not a UUID. */
  datatype OrderRef = Absent | Unparsable | Order(id: OrderId)

  datatype PaymentEvent = PaymentEvent(payment: PaymentId, status: Status, order: OrderRef)

  datatype Ledger = Ledger(payments: map<PaymentId, Status>, events: seq<PaymentEvent>)

  datatype Step =
    | Create(payment: PaymentId)
    | Process(payment: PaymentId, status: Status, order: OrderRef, commits: bool)

  predicate Accepts(l: Ledger, payment: PaymentId, status: Status) {
    payment in l.payments && Allowed(l.payments[payment], status)
  }

  function Next(l: Ledger, step: Step): Ledger {
    match step
    case Create(p) => if p in l.payments then l else l.(payments := l.payments[p := Pending])
    case Process(p, status, order, commits) =>
      if !commits || !Accepts(l, p, status) then l
      else Ledger(l.payments[p := status], l.events + [PaymentEvent(p, status, order)])
  }

  function Run(steps: seq<Step>): Ledger {
    if steps == [] then Ledger(map[], [])
    else Next(Run(steps[..|steps| - 1]), steps[|steps| - 1])
  }

  // ---------------------------------------------------------------- histories

  /** Statuses announced for one payment, oldest first. */
  ghost function History(events: seq<PaymentEvent>, p: PaymentId): seq<Status> {
    if events == [] then []
    else
      var e := events[|events| - 1];
      var rest := History(events[..|events| - 1], p);
      if e.payment == p then rest + [e.status] else rest
  }

  ghost predicate IsPath(path: seq<Status>) {
    forall i :: 0 < i < |path| ==> Allowed(path[i - 1], path[i])
  }

  function Rank(s: Status): nat {
    match s
    case Pending => 0
    case Authorized => 1
    case Captured => 2
    case _ => 3
  }

  /** The transition graph is acyclic: along a path the rank strictly rises. */
  lemma {:induction false} RankRises(path: seq<Status>, i: nat, j: nat)
    requires IsPath(path) && i < j < |path|
    ensures Rank(path[i]) + (j - i) <= Rank(path[j])
  {
    assert Allowed(path[j - 1], path[j]);
    if i < j - 1 {
      RankRises(path, i, j - 1);
    }
  }

  /** Statuses that decide an order's payment. */
  predicate Outcome(s: Status) { s in {Captured, Declined, Failed} }

  lemma OneOutcome(path: seq<Status>, i: nat, j: nat)
    requires IsPath(path) && i < j < |path|
    ensures !(Outcome(path[i]) && Outcome(path[j]))
  {
    assert Allowed(path[i], path[i + 1]) && Allowed(path[j - 1], path[j]);
    if i < j - 1 {
      RankRises(path, i, j - 1);
    }
  }

  /** What any path from PENDING looks like. */
  lemma PathsFromPending(path: seq<Status>)
    requires IsPath(path) && path != [] && path[0] == Pending
    ensures |path| <= 4
    ensures forall i, j :: 0 <= i < j < |path| ==> path[i] != path[j] && !(Outcome(path[i]) && Outcome(path[j]))
  {
    if |path| > 1 {
      RankRises(path, 0, |path| - 1);
    }
    forall i, j | 0 <= i < j < |path|
      ensures path[i] != path[j] && !(Outcome(path[i]) && Outcome(path[j]))
    {
      RankRises(path, i, j);
      OneOutcome(path, i, j);
    }
  }

  /** The only histories a payment can have. */
  const HISTORIES: set<seq<Status>> := {
    [], [Authorized], [Failed], [Declined], [Authorized, Captured], [Authorized, Declined],
    [Authorized, Captured, Settled], [Authorized, Captured, Refunded]}

  lemma HistoriesEnumerated(h: seq<Status>)
    ensures IsPath([Pending] + h) <==> h in HISTORIES
  {
    var path := [Pending] + h;
    if IsPath(path) {
      PathsFromPending(path);
      assert |h| > 0 ==> Allowed(path[0], path[1]) && path[1] == h[0];
      assert |h| > 1 ==> Allowed(path[1], path[2]) && path[2] == h[1];
      assert |h| > 2 ==> Allowed(path[2], path[3]) && path[3] == h[2];
      if |h| == 1 {
        assert h == [h[0]];
      } else if |h| == 2 {
        assert h == [h[0], h[1]];
      } else if |h| == 3 {
        assert h == [h[0], h[1], h[2]];
      }
    }
  }

  ghost predicate Tracks(l: Ledger, p: PaymentId) {
    var path := [Pending] + History(l.events, p);
    if p in l.payments then IsPath(path) && path[|path| - 1] == l.payments[p]
    else History(l.events, p) == []
  }

  lemma StepTracks(l: Ledger, step: Step, p: PaymentId)
    requires Tracks(l, p)
    ensures Tracks(Next(l, step), p)
  {
    var next := Next(l, step);
    if next.events != l.events {
      assert next.events[..|next.events| - 1] == l.events;
      if step.payment == p {
        var path := [Pending] + History(l.events, p);
        assert [Pending] + History(next.events, p) == path + [step.status];
      }
    }
  }

  /** A committed transition that the table allows changes the stored status and announces it; any other
      call leaves no trace. */
  lemma ProcessIsExact(l: Ledger, p: PaymentId, status: Status, order: OrderRef, commits: bool)
    ensures var next := Next(l, Process(p, status, order, commits));
      if commits && p in l.payments && Allowed(l.payments[p], status)
      then next.payments == l.payments[p := status] && next.events == l.events + [PaymentEvent(p, status, order)]
      else next == l
  {
  }

  lemma {:induction false} RunTracks(steps: seq<Step>, p: PaymentId)
    ensures Tracks(Run(steps), p)
  {
    if steps != [] {
      RunTracks(steps[..|steps| - 1], p);
      StepTracks(Run(steps[..|steps| - 1]), steps[|steps| - 1], p);
    }
  }

  /** Payment histories: in every interleaving the committed events of a payment are a path of the
      transition table from PENDING that ends in the stored status.  Hence at most three events, no
      status announced twice, and at most one of capture, decline and failure. */
  lemma {:induction false} PaymentHistories(steps: seq<Step>, p: PaymentId)
    ensures var l := Run(steps); var h := History(l.events, p);
      && (p in l.payments ==> IsPath([Pending] + h) && ([Pending] + h)[|h|] == l.payments[p])
      && |h| <= 3
      && (forall i, j :: 0 <= i < j < |h| ==> h[i] != h[j] && !(Outcome(h[i]) && Outcome(h[j])))
  {
    RunTracks(steps, p);
    var l := Run(steps);
    var h := History(l.events, p);
    if p in l.payments {
      HistoryIsDistinct(h);
    }
  }

  /** In full: a payment goes through one of eight histories. */
  lemma {:induction false} OneOfEightHistories(steps: seq<Step>, p: PaymentId)
    ensures History(Run(steps).events, p) in HISTORIES
  {
    RunTracks(steps, p);
    HistoriesEnumerated(History(Run(steps).events, p));
  }

  lemma {:induction false} InHistory(events: seq<PaymentEvent>, i: nat)
    requires i < |events|
    ensures events[i].status in History(events, events[i].payment)
  {
    var n := |events| - 1;
    if i < n {
      InHistory(events[..n], i);
    }
  }

  lemma {:induction false} TwiceInHistory(events: seq<PaymentEvent>, i: nat, j: nat) returns (a: nat, b: nat)
    requires i < j < |events| && events[i].payment == events[j].payment && events[i].status == events[j].status
    ensures var h := History(events, events[i].payment); a < b < |h| && h[a] == h[b]
  {
    var n := |events| - 1;
    var rest := History(events[..n], events[i].payment);
    if j < n {
      a, b := TwiceInHistory(events[..n], i, j);
    } else {
      InHistory(events[..n], i);
      a :| 0 <= a < |rest| && rest[a] == events[i].status;
      b := |rest|;
    }
  }

  lemma HistoryIsDistinct(h: seq<Status>)
    requires IsPath([Pending] + h)
    ensures |h| <= 3
    ensures forall a, b :: 0 <= a < b < |h| ==> h[a] != h[b] && !(Outcome(h[a]) && Outcome(h[b]))
  {
    var path := [Pending] + h;
    PathsFromPending(path);
    assert forall a :: 0 <= a < |h| ==> path[a + 1] == h[a];
  }

  /** In terms of single events: two events of one payment never have the same status, and never are
      two of capture, decline and failure.  Stated for any ledger whose histories are tracked. */
  lemma EventsOfOnePayment(l: Ledger, i: nat, j: nat)
    requires i < j < |l.events| && l.events[i].payment == l.events[j].payment
    requires Tracks(l, l.events[i].payment)
    ensures l.events[i].status != l.events[j].status
    ensures !(Outcome(l.events[i].status) && Outcome(l.events[j].status))
  {
    var h := History(l.events, l.events[i].payment);
    InHistory(l.events, i);
    InHistory(l.events, j);
    HistoryIsDistinct(h);
    if l.events[i].status == l.events[j].status {
      var a, b := TwiceInHistory(l.events, i, j);
    } else {
      var a :| 0 <= a < |h| && h[a] == l.events[i].status;
      var b :| 0 <= b < |h| && h[b] == l.events[j].status;
      assert a < b || b < a;
    }
  }

  // ---------------------------------------------------------------- the service

  datatype Result = Processed(event: PaymentEvent) | NotFound | AlreadyProcessed

  /** The body of process_payment inside one session.  The rows are only added to the session here:
      the caller commits or rolls back. */
  class PaymentSession {
    var ledger: Ledger

    constructor (l: Ledger) ensures ledger == l { ledger := l; }

    method ProcessPayment(payment: PaymentId, status: Status, order: OrderRef) returns (r: Result)
      modifies this
      ensures ledger == Next(old(ledger), Process(payment, status, order, true))
      ensures r.NotFound? <==> payment !in old(ledger).payments
      ensures r.AlreadyProcessed? <==> payment in old(ledger).payments && !Allowed(old(ledger).payments[payment], status)
      ensures r.Processed? ==>
        && r.event == PaymentEvent(payment, status, order)
        && ledger.payments == old(ledger).payments[payment := status] && ledger.events == old(ledger).events + [r.event]
      ensures !r.Processed? ==> ledger == old(ledger)
    {
      if payment !in ledger.payments {
        return NotFound;
      }
      if !Allowed(ledger.payments[payment], status) {
        return AlreadyProcessed;
      }
      var event := PaymentEvent(payment, status, order);
      ledger := Ledger(ledger.payments[payment := status], ledger.events + [event]);
      r := Processed(event);
    }
  }
}
