/** The envelopes of payment events, src/modules/payments/services.py `build_payment_event` and
    `build_outbox_event`, and why their content identifies the event. */
module PaymentEvents {
  import opened Prelude
  import opened Messaging
  import opened Payments

  /** PaymentStatus values, as stored and as part of the event type. */
  function Text(s: Payments.Status): string {
    match s
    case Pending => "pending"
    case Authorized => "authorized"
    case Captured => "captured"
    case Settled => "settled"
    case Refunded => "refunded"
    case Declined => "declined"
    case Failed => "failed"
  }

  const PREFIX := "payments.payment_"

  /** The moving parts of an event; ids and timestamps are texts chosen by the environment. */
  datatype Facts = Facts(payment: string, status: Payments.Status, amount: int, currency: string, occurredAt: string)

  function Payload(f: Facts, extra: map<string, Value>): map<string, Value> {
    map["payment_id" := Str(f.payment), "status" := Str(Text(f.status)), "amount_minor_units" := Int(f.amount),
        "currency" := Str(f.currency), "occurred_at" := Str(f.occurredAt)] + extra
  }

  function BuildPaymentEvent(f: Facts, extra: map<string, Value>, eventId: string, stamp: string): Envelope {
    Envelope(eventId, PREFIX + Text(f.status), 1, "Payment", f.payment, None, None, stamp, Dict(Payload(f, extra)))
  }

  /** build_outbox_event: the stored payload and the dedupe id. */
  function OutboxPayload(e: Envelope): Value { ToJson(e) }

  datatype Handler = OnPaymentCaptured | OnPaymentFailed

  /** The handlers the order consumer registers, by event type. */
  function Registered(eventType: string): Option<Handler> {
    if eventType == "payments.payment_captured" then Some(OnPaymentCaptured)
    else if eventType == "payments.payment_failed" then Some(OnPaymentFailed)
    else None
  }

  /** The event type of each status, in full. */
  function EventType(s: Payments.Status): string {
    match s
    case Pending => "payments.payment_pending"
    case Authorized => "payments.payment_authorized"
    case Captured => "payments.payment_captured"
    case Settled => "payments.payment_settled"
    case Refunded => "payments.payment_refunded"
    case Declined => "payments.payment_declined"
    case Failed => "payments.payment_failed"
  }

  lemma EventTypes(f: Facts, extra: map<string, Value>, eventId: string, stamp: string)
    ensures BuildPaymentEvent(f, extra, eventId, stamp).eventType == EventType(f.status)
  {
    var t := EventType(f.status);
    assert |t| == |PREFIX| + |Text(f.status)|;
    assert t[..|PREFIX|] == PREFIX && t[|PREFIX|..] == Text(f.status);
  }

  lemma RegisteredByStatus(s: Payments.Status)
    ensures Registered(EventType(s)) == Some(OnPaymentCaptured) <==> s == Payments.Captured
    ensures Registered(EventType(s)) == Some(OnPaymentFailed) <==> s == Payments.Failed
  {
    var t := EventType(s);
    assert s != Payments.Captured ==> |t| != |"payments.payment_captured"| || t[17] != 'c';
    assert s != Payments.Failed ==> |t| != |"payments.payment_failed"|;
  }

  /** A payment event reaches the handler of its outcome: the capture handler exactly for CAPTURED, the
      compensating one exactly for FAILED, and none otherwise, in particular not for DECLINED. */
  lemma RoutedByStatus(f: Facts, extra: map<string, Value>, eventId: string, stamp: string, relay: Defaults, consumer: Defaults)
    requires 1 <= |f.payment| <= 128
    ensures var received := Received(OutboxPayload(BuildPaymentEvent(f, extra, eventId, stamp)), relay, consumer);
      && received.Some?
      && received.value.aggregateType == "Payment" && received.value.aggregateId == f.payment && received.value.schemaVersion == 1
      && (Registered(received.value.eventType) == Some(OnPaymentCaptured) <==> f.status == Payments.Captured)
      && (Registered(received.value.eventType) == Some(OnPaymentFailed) <==> f.status == Payments.Failed)
  {
    var e := BuildPaymentEvent(f, extra, eventId, stamp);
    ConsumerHashIsDedupeIdIffStable(e, relay, consumer);
    EventTypes(f, extra, eventId, stamp);
    RegisteredByStatus(f.status);
  }

  /** What the consumer finds in the payload of a payment event; the extra payload overrides. */
  lemma ConsumerSeesFacts(f: Facts, extra: map<string, Value>)
    ensures var fields := Dump(Dict(Payload(f, extra))).fields;
      && fields.Keys == {"payment_id", "status", "amount_minor_units", "currency", "occurred_at"} + extra.Keys
      && (forall k :: k in extra ==> fields[k] == Dump(extra[k]))
      && ("payment_id" !in extra ==> fields["payment_id"] == Str(f.payment))
      && ("status" !in extra ==> fields["status"] == Str(Text(f.status)))
      && ("amount_minor_units" !in extra ==> fields["amount_minor_units"] == Int(f.amount))
      && ("currency" !in extra ==> fields["currency"] == Str(f.currency))
      && ("occurred_at" !in extra ==> fields["occurred_at"] == Str(f.occurredAt))
  {
    var p := Payload(f, extra);
    assert p.Keys == {"payment_id", "status", "amount_minor_units", "currency", "occurred_at"} + extra.Keys;
  }

  lemma TextInjective(a: Payments.Status, b: Payments.Status)
    requires PREFIX + Text(a) == PREFIX + Text(b)
    ensures a == b
  {
    assert Text(a) == (PREFIX + Text(a))[|PREFIX|..] == Text(b);
    var x, y := Text(a), Text(b);
    assert |x| == |y| && x[0] == y[0];
  }

  /** Content identifies the event: two envelopes with the same content hash are about the same payment
      and the same status, whatever the caller put in the extra payload. */
  lemma ContentIdentifiesTransition(f: Facts, g: Facts, extraF: map<string, Value>, extraG: map<string, Value>,
                                    idF: string, idG: string, stampF: string, stampG: string)
    requires ContentHash(BuildPaymentEvent(f, extraF, idF, stampF)) == ContentHash(BuildPaymentEvent(g, extraG, idG, stampG))
    ensures f.payment == g.payment && f.status == g.status
  {
    TextInjective(f.status, g.status);
  }

  /** A payment event keeps its dedupe id through any number of republications exactly when the caller's
      extra payload prints the same under both serialisers; the fixed fields always do. */
  lemma PaymentHashStableIffExtraStable(
      f: Facts, extra: map<string, Value>, eventId: string, stamp: string, relay: Defaults, consumer: Defaults)
    requires 1 <= |f.payment| <= 128
    ensures var e := BuildPaymentEvent(f, extra, eventId, stamp);
      var received := Received(OutboxPayload(e), relay, consumer);
      && e.Valid() && received.Some?
      && (ContentHash(received.value) == ContentHash(e) <==> forall k :: k in extra ==> Stable(extra[k]))
  {
    var e := BuildPaymentEvent(f, extra, eventId, stamp);
    ConsumerHashIsDedupeIdIffStable(e, relay, consumer);
    PayloadStableIffExtraStable(f, extra);
  }

  lemma PayloadStableIffExtraStable(f: Facts, extra: map<string, Value>)
    ensures Stable(Dict(Payload(f, extra))) <==> forall k :: k in extra ==> Stable(extra[k])
  {
    var p := Payload(f, extra);
    assert forall k :: k in extra ==> k in p && p[k] == extra[k];
    assert forall k :: k in p && k !in extra ==> Stable(p[k]);
  }

  /** What the order consumer finds under "order_id": the handlers do nothing unless it is a text. */
  function OrderIdText(e: Envelope): Option<string> {
    if e.payload.Dict? && HasText(e.payload.fields, "order_id") then Some(e.payload.fields["order_id"].s) else None
  }

  /** The order consumer finds an order in a payment event exactly when the caller of process_payment put
      one there, as a text or as an object that dumps to one. */
  lemma OrderOnlyFromExtra(
      f: Facts, extra: map<string, Value>, eventId: string, stamp: string, relay: Defaults, consumer: Defaults)
    requires 1 <= |f.payment| <= 128
    ensures var received := Received(OutboxPayload(BuildPaymentEvent(f, extra, eventId, stamp)), relay, consumer);
      received.Some? && OrderIdText(received.value)
        == if "order_id" in extra && Dump(extra["order_id"]).Str? then Some(Dump(extra["order_id"]).s) else None
  {
    var e := BuildPaymentEvent(f, extra, eventId, stamp);
    ConsumerHashIsDedupeIdIffStable(e, relay, consumer);
    DumpedOrder(f, extra);
  }

  lemma DumpedOrder(f: Facts, extra: map<string, Value>)
    ensures var fields := Dump(Dict(Payload(f, extra))).fields;
      && ("order_id" in fields <==> "order_id" in extra)
      && ("order_id" in extra ==> fields["order_id"] == Dump(extra["order_id"]))
  {
    var p := Payload(f, extra);
    assert "order_id" in p <==> "order_id" in extra;
  }
}
