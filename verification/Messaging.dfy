/** The event envelope of src/core/messaging.py: its wire form and its content hash.

    JSON text is modelled by the value it denotes, so key order plays no part; uuid5 (section 5.5 of
    RFC 9562) is taken to be injective on the canonical content and is left out, so a content hash is
    the hashed content itself. */
module Messaging {
  import opened Prelude

  /** A Python payload value.  Objects outside JSON (UUIDs, datetimes, sets, pydantic models) carry the two
      things they can turn into: the text `asStr` under json.dumps(default=str), and a value `asJson` under
      model_dump(mode="json"), which may be a text, a list or a dictionary with objects of its own. */
  datatype Value =
    | Null
    | Bool(b: bool)
    | Int(n: int)
    | Real(x: real)
    | Str(s: string)
    | List(items: seq<Value>)
    | Dict(fields: map<string, Value>)
    | Object(asStr: string, asJson: Value)

  /** What json.dumps(sort_keys=True, default=str) writes. */
  function Canonical(v: Value): Value {
    match v
    case List(items) => List(seq(|items|, i requires 0 <= i < |items| => Canonical(items[i])))
    case Dict(fields) => Dict(map k | k in fields :: Canonical(fields[k]))
    case Object(text, _) => Str(text)
    case _ => v
  }

  /** What model_dump(mode="json") and model_dump_json write. */
  function Dump(v: Value): Value {
    match v
    case List(items) => List(seq(|items|, i requires 0 <= i < |items| => Dump(items[i])))
    case Dict(fields) => Dict(map k | k in fields :: Dump(fields[k]))
    case Object(_, json) => Dump(json)
    case _ => v
  }

  /** Every embedded object dumps to the very text it prints as; true of every JSON value. */
  predicate Stable(v: Value) {
    match v
    case List(items) => forall i :: 0 <= i < |items| ==> Stable(items[i])
    case Dict(fields) => forall k :: k in fields ==> Stable(fields[k])
    case Object(text, json) => Dump(json) == Str(text)
    case _ => true
  }

  /** A dumped value is JSON: there is nothing left to turn into text. */
  lemma {:induction false} CanonicalOfDump(v: Value)
    ensures Canonical(Dump(v)) == Dump(v)
  {
    match v
    case List(items) =>
      forall i | 0 <= i < |items| { CanonicalOfDump(items[i]); }
      assert Canonical(Dump(v)).items == Dump(v).items;
    case Dict(fields) =>
      forall k | k in fields { CanonicalOfDump(fields[k]); }
      assert Canonical(Dump(v)).fields == Dump(v).fields;
    case Object(_, json) => CanonicalOfDump(json);
    case _ =>
  }

  lemma {:induction false} DumpKeepsContentIffStable(v: Value)
    ensures Canonical(Dump(v)) == Canonical(v) <==> Stable(v)
  {
    match v
    case List(items) =>
      forall i | 0 <= i < |items| { DumpKeepsContentIffStable(items[i]); }
      var a, b := Canonical(Dump(v)).items, Canonical(v).items;
      assert forall i :: 0 <= i < |items| ==> a[i] == Canonical(Dump(items[i])) && b[i] == Canonical(items[i]);
    case Dict(fields) =>
      forall k | k in fields { DumpKeepsContentIffStable(fields[k]); }
      var a, b := Canonical(Dump(v)).fields, Canonical(v).fields;
      assert forall k :: k in fields ==> a[k] == Canonical(Dump(fields[k])) && b[k] == Canonical(fields[k]);
    case Object(_, json) => CanonicalOfDump(json);
    case _ =>
  }

  lemma {:induction false} DumpTwice(v: Value)
    ensures Dump(Dump(v)) == Dump(v)
  {
    match v
    case List(items) =>
      forall i | 0 <= i < |items| { DumpTwice(items[i]); }
      assert Dump(Dump(v)).items == Dump(v).items;
    case Dict(fields) =>
      forall k | k in fields { DumpTwice(fields[k]); }
      assert Dump(Dump(v)).fields == Dump(v).fields;
    case Object(_, json) => DumpTwice(json);
    case _ =>
  }

  datatype Envelope = Envelope(
    eventId: string, eventType: string, schemaVersion: int, aggregateType: string, aggregateId: string,
    correlationId: Option<string>, causationId: Option<string>, occurredAt: string, payload: Value)
  {
    /** The field constraints of the model. */
    predicate Valid() {
      1 <= |eventType| <= 255 && 1 <= schemaVersion && 1 <= |aggregateType| <= 64 && 1 <= |aggregateId| <= 128
    }
  }

  function TextOrNull(t: Option<string>): Value { if t.Some? then Str(t.value) else Null }

  /** model_dump(mode="json"): the JSONB payload of the outbox row and the body of the message. */
  function ToJson(e: Envelope): Value {
    Dict(map[
      "event_id" := Str(e.eventId), "event_type" := Str(e.eventType), "schema_version" := Int(e.schemaVersion),
      "aggregate_type" := Str(e.aggregateType), "aggregate_id" := Str(e.aggregateId),
      "correlation_id" := TextOrNull(e.correlationId), "causation_id" := TextOrNull(e.causationId),
      "occurred_at" := Str(e.occurredAt), "payload" := Dump(e.payload)])
  }

  predicate HasText(m: map<string, Value>, k: string) { k in m && m[k].Str? }

  /** A text field with a default. */
  predicate TextOrMissing(m: map<string, Value>, k: string) { k !in m || m[k].Str? }

  predicate OptionalText(m: map<string, Value>, k: string) { k !in m || m[k].Str? || m[k].Null? }

  function Text(m: map<string, Value>, k: string, default_: string): string { if HasText(m, k) then m[k].s else default_ }

  function TextIfAny(m: map<string, Value>, k: string): Option<string> { if HasText(m, k) then Some(m[k].s) else None }

  /** What default factories draw when a document is read: a fresh event id and the time of reading. */
  datatype Defaults = Defaults(eventId: string, occurredAt: string)

  /** model_validate: None stands for a validation error; absent fields get their defaults. */
  function FromJson(v: Value, d: Defaults): Option<Envelope> {
    if !v.Dict? then None
    else
      var m := v.fields;
      if !(HasText(m, "event_type") && HasText(m, "aggregate_type") && HasText(m, "aggregate_id")
           && TextOrMissing(m, "event_id") && TextOrMissing(m, "occurred_at")
           && OptionalText(m, "correlation_id") && OptionalText(m, "causation_id")
           && ("schema_version" in m ==> m["schema_version"].Int?))
      then None
      else
        var e := Envelope(Text(m, "event_id", d.eventId), m["event_type"].s,
          if "schema_version" in m then m["schema_version"].n else 1, m["aggregate_type"].s,
          m["aggregate_id"].s, TextIfAny(m, "correlation_id"), TextIfAny(m, "causation_id"),
          Text(m, "occurred_at", d.occurredAt), if "payload" in m then m["payload"] else Null);
        if e.Valid() then Some(e) else None
  }

  datatype Content = Content(eventType: string, aggregateType: string, aggregateId: string, schemaVersion: int, payload: Value)

  /** What content_hash hashes: neither the event id nor the timestamp of the envelope. */
  function ContentHash(e: Envelope): Content {
    Content(e.eventType, e.aggregateType, e.aggregateId, e.schemaVersion, Canonical(e.payload))
  }

  /** Two events have the same dedupe identity exactly when they agree on everything but the event id, the
      timestamp and the trace ids. */
  lemma SameHashIff(a: Envelope, b: Envelope)
    ensures ContentHash(a) == ContentHash(b) <==>
      && a.eventType == b.eventType && a.aggregateType == b.aggregateType && a.aggregateId == b.aggregateId
      && a.schemaVersion == b.schemaVersion && Canonical(a.payload) == Canonical(b.payload)
  {
  }

  /** The document on the wire, field by field. */
  lemma WireFields(e: Envelope)
    ensures ToJson(e).Dict?
    ensures var m := ToJson(e).fields;
      && m.Keys == {"event_id", "event_type", "schema_version", "aggregate_type", "aggregate_id", "correlation_id",
                    "causation_id", "occurred_at", "payload"}
      && m["event_id"] == Str(e.eventId) && m["event_type"] == Str(e.eventType)
      && m["schema_version"] == Int(e.schemaVersion) && m["occurred_at"] == Str(e.occurredAt)
      && m["aggregate_type"] == Str(e.aggregateType) && m["aggregate_id"] == Str(e.aggregateId)
      && (m["correlation_id"] == Null <==> e.correlationId.None?) && (m["causation_id"] == Null <==> e.causationId.None?)
      && (e.correlationId.Some? ==> m["correlation_id"] == Str(e.correlationId.value))
      && (e.causationId.Some? ==> m["causation_id"] == Str(e.causationId.value))
  {
  }

  /** Reading accepts only envelopes within the field constraints, and fills what is absent: a fresh event
      id, version 1, no trace ids, the time of reading and no payload. */
  lemma ReadingFillsDefaults(v: Value, d: Defaults)
    ensures FromJson(v, d).Some? ==>
      && v.Dict? && FromJson(v, d).value.Valid()
      && var m, e := v.fields, FromJson(v, d).value;
         && HasText(m, "event_type") && HasText(m, "aggregate_type") && HasText(m, "aggregate_id")
         && ("event_id" !in m ==> e.eventId == d.eventId) && ("occurred_at" !in m ==> e.occurredAt == d.occurredAt)
         && ("schema_version" !in m ==> e.schemaVersion == 1) && ("payload" !in m ==> e.payload == Null)
         && ("correlation_id" !in m ==> e.correlationId.None?) && ("causation_id" !in m ==> e.causationId.None?)
  {
  }

  /** A valid envelope survives the wire with only its payload objects turned into JSON, and no default
      is used on the way. */
  lemma WireRoundTrip(e: Envelope, d: Defaults)
    requires e.Valid()
    ensures FromJson(ToJson(e), d) == Some(e.(payload := Dump(e.payload)))
    ensures Dump(e.payload) == e.payload ==> FromJson(ToJson(e), d) == Some(e)
  {
  }

  /** The dedupe identity of a document does not depend on the defaults drawn when it is read: every
      delivery of one message has the same content hash, even without an event id or a timestamp. */
  lemma HashIgnoresDefaults(v: Value, a: Defaults, b: Defaults)
    ensures FromJson(v, a).Some? <==> FromJson(v, b).Some?
    ensures FromJson(v, a).Some? ==> ContentHash(FromJson(v, a).value) == ContentHash(FromJson(v, b).value)
  {
  }

  /** The envelope the consumer sees for an outbox row: the relay validates the stored payload and
      serialises it again, the consumer deserialises that. */
  function Received(rowPayload: Value, relay: Defaults, consumer: Defaults): Option<Envelope> {
    var relayed := FromJson(rowPayload, relay);
    if relayed.None? then None else FromJson(ToJson(relayed.value), consumer)
  }

  /** The dedupe identity of a republished row: the hash the consumer computes is the dedupe_id the
      row was inserted with exactly when the payload prints the same under both serialisers. */
  lemma ConsumerHashIsDedupeIdIffStable(e: Envelope, relay: Defaults, consumer: Defaults)
    requires e.Valid()
    ensures Received(ToJson(e), relay, consumer) == Some(e.(payload := Dump(e.payload)))
    ensures ContentHash(Received(ToJson(e), relay, consumer).value) == ContentHash(e) <==> Stable(e.payload)
  {
    var relayed := e.(payload := Dump(e.payload));
    WireRoundTrip(e, relay);
    WireRoundTrip(relayed, consumer);
    DumpTwice(e.payload);
    DumpKeepsContentIffStable(e.payload);
  }
}
