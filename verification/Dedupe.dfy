/** Deduplication before handling: src/core/dedupe.py `check_and_record` and src/core/consumer.py
    `_handle_message`.

    The key is recorded before the handler runs.  Redis may answer, the breaker may be open (the
    check then fails open), or the call may raise, in which case the key may or may not have been
    stored before the error. */
module Dedupe {
  import opened Prelude

  type Id = string
  type Time = int

  const DEFAULT_TTL: Time := 7 * 24 * 60 * 60

  datatype Cache = Answers | BreakerOpen | Raises(stored: bool)

  type Store = map<Id, Time>

  /** A key is live until the clock passes its deadline. */
  predicate Live(store: Store, id: Id, now: Time) { id in store && now <= store[id] }

  datatype Check = New | Seen | Failed

  function CheckResult(store: Store, id: Id, now: Time, cache: Cache): Check {
    match cache
    case BreakerOpen => New
    case Raises(_) => Failed
    case Answers => if Live(store, id, now) then Seen else New
  }

  /** Whether this call is the one that creates the key. */
  predicate Records(store: Store, id: Id, now: Time, cache: Cache) {
    (cache == Answers || cache == Raises(true)) && !Live(store, id, now)
  }

  function Recorded(store: Store, id: Id, ttl: Time, now: Time, cache: Cache): Store {
    if Records(store, id, now, cache) then store[id := now + ttl] else store
  }

  // ---------------------------------------------------------------- runs of deliveries

  /** What the handler of an event does inside its transaction. */
  datatype Handler = NoHandler | Commits | RollsBack

  /** One delivery of a well-formed event to some consumer; redeliveries and relay republications
      of an event carry the same id. */
  datatype Delivery = Delivery(id: Id, now: Time, cache: Cache, handler: Handler)

  function StoreAfter(ttl: Time, ds: seq<Delivery>): Store {
    if ds == [] then map[]
    else
      var d := ds[|ds| - 1];
      Recorded(StoreAfter(ttl, ds[..|ds| - 1]), d.id, ttl, d.now, d.cache)
  }

  ghost predicate Invoked(ttl: Time, ds: seq<Delivery>, i: nat)
    requires i < |ds|
  {
    CheckResult(StoreAfter(ttl, ds[..i]), ds[i].id, ds[i].now, ds[i].cache) == New && ds[i].handler != NoHandler
  }

  ghost predicate ClockMonotone(ds: seq<Delivery>) {
    forall i, j :: 0 <= i <= j < |ds| ==> ds[i].now <= ds[j].now
  }

  // ---------------------------------------------------------------- history specification

  /** When the id was last recorded: at the latest delivery whose call reached Redis after the
      previous recording had expired. */
  ghost function LastRecorded(ttl: Time, ds: seq<Delivery>, id: Id): Option<Time> {
    if ds == [] then None
    else
      var d := ds[|ds| - 1];
      var before := LastRecorded(ttl, ds[..|ds| - 1], id);
      if d.id == id && (d.cache == Answers || d.cache == Raises(true))
        && (before.None? || before.value + ttl < d.now)
      then Some(d.now) else before
  }

  lemma {:induction false} StoreIsLastRecorded(ttl: Time, ds: seq<Delivery>, id: Id)
    ensures var r := LastRecorded(ttl, ds, id);
      if r.None? then id !in StoreAfter(ttl, ds)
      else id in StoreAfter(ttl, ds) && StoreAfter(ttl, ds)[id] == r.value + ttl
  {
    if ds != [] {
      StoreIsLastRecorded(ttl, ds[..|ds| - 1], id);
    }
  }

  /** Once recorded, an id stays recorded for at least ttl. */
  lemma {:induction false} RecordingLasts(ttl: Time, ds: seq<Delivery>, i: nat, j: nat)
    requires 0 < ttl && ClockMonotone(ds) && i < j <= |ds|
    requires ds[i].cache == Answers || ds[i].cache == Raises(true)
    requires ds[j - 1].now <= ds[i].now + ttl
    ensures var r := LastRecorded(ttl, ds[..j], ds[i].id);
      r.Some? && ds[i].now <= r.value + ttl
    ensures !Live(StoreAfter(ttl, ds[..i]), ds[i].id, ds[i].now) ==> LastRecorded(ttl, ds[..j], ds[i].id) == Some(ds[i].now)
  {
    assert ds[..j][..j - 1] == ds[..j - 1];
    if j == i + 1 {
      StoreIsLastRecorded(ttl, ds[..i], ds[i].id);
    } else {
      RecordingLasts(ttl, ds, i, j - 1);
    }
  }

  /** At most once per lifetime: while Redis answers both times, the handler of an event runs twice
      only if the key's whole lifetime passed in between. */
  lemma HandledTwiceOnlyAfterExpiry(ttl: Time, ds: seq<Delivery>, i: nat, j: nat)
    requires 0 < ttl && ClockMonotone(ds) && i < j < |ds| && ds[i].id == ds[j].id
    requires Invoked(ttl, ds, i) && Invoked(ttl, ds, j)
    requires ds[i].cache == Answers && ds[j].cache == Answers
    ensures ds[i].now + ttl < ds[j].now
  {
    if ds[j].now <= ds[i].now + ttl {
      RecordingLasts(ttl, ds, i, j);
      StoreIsLastRecorded(ttl, ds[..j], ds[i].id);
    }
  }

  /** The price of recording first: once a delivery has created the key, the event is not handled
      again while the key lives, whether its handler committed, was rolled back, or never ran
      because the Redis call raised after storing. */
  lemma NotHandledAgainWhileKeyLives(ttl: Time, ds: seq<Delivery>, i: nat, j: nat)
    requires 0 < ttl && ClockMonotone(ds) && i < j < |ds| && ds[i].id == ds[j].id
    requires Records(StoreAfter(ttl, ds[..i]), ds[i].id, ds[i].now, ds[i].cache)
    requires ds[j].cache != BreakerOpen && ds[j].now <= ds[i].now + ttl
    ensures !Invoked(ttl, ds, j)
  {
    RecordingLasts(ttl, ds, i, j);
    StoreIsLastRecorded(ttl, ds[..j], ds[i].id);
  }

  /** Exactly when a delivery reaches its handler. */
  lemma InvocationIsExact(ttl: Time, ds: seq<Delivery>, j: nat)
    requires j < |ds|
    ensures Invoked(ttl, ds, j) <==>
      var r := LastRecorded(ttl, ds[..j], ds[j].id);
      && ds[j].handler != NoHandler
      && (ds[j].cache == BreakerOpen || (ds[j].cache == Answers && (r.None? || r.value + ttl < ds[j].now)))
  {
    StoreIsLastRecorded(ttl, ds[..j], ds[j].id);
  }

  /** Every answer of the check in terms of the last recording: an error exactly when the call raises, a
      duplicate exactly when Redis answers within the lifetime of that recording, and new otherwise. */
  lemma CheckIsExact(ttl: Time, ds: seq<Delivery>, j: nat)
    requires j < |ds|
    ensures var check := CheckResult(StoreAfter(ttl, ds[..j]), ds[j].id, ds[j].now, ds[j].cache);
      var r := LastRecorded(ttl, ds[..j], ds[j].id);
      && (check == Failed <==> ds[j].cache.Raises?)
      && (check == Seen <==> ds[j].cache == Answers && r.Some? && ds[j].now <= r.value + ttl)
      && (check == New <==> ds[j].cache == BreakerOpen || (ds[j].cache == Answers && (r.None? || r.value + ttl < ds[j].now)))
  {
    StoreIsLastRecorded(ttl, ds[..j], ds[j].id);
  }

  /** Failing open breaks the at-most-once promise even within one lifetime. */
  lemma FailOpenHandlesTwice(ttl: Time)
    requires 0 < ttl
    ensures var ds := [Delivery("e", 0, Answers, Commits), Delivery("e", 0, BreakerOpen, Commits)];
      Invoked(ttl, ds, 0) && Invoked(ttl, ds, 1)
  {
  }

  // ---------------------------------------------------------------- the objects

  datatype Outcome = Answer(isNew: bool) | CacheError | ValueError

  class RedisDedupe {
    var store: Store

    constructor () ensures store == map[] { store := map[]; }

    method CheckAndRecord(id: Id, ttlSeconds: Option<Time>, now: Time, cache: Cache) returns (r: Outcome)
      modifies this
      ensures var ttl := if ttlSeconds.Some? then ttlSeconds.value else 604800;
        if id == "" || ttl <= 0 then r == ValueError && store == old(store)
        else
          var live := id in old(store) && now <= old(store)[id];
          && (r == CacheError <==> cache.Raises?)
          && (r == Answer(false) <==> cache == Answers && live)
          && (r == Answer(true) <==> cache == BreakerOpen || (cache == Answers && !live))
          && store == (if !live && (cache == Answers || cache == Raises(true)) then old(store)[id := now + ttl] else old(store))
    {
      if id == "" {
        return ValueError;
      }
      var ttl := DEFAULT_TTL;
      if ttlSeconds.Some? {
        ttl := ttlSeconds.value;
      }
      if ttl <= 0 {
        return ValueError;
      }
      match cache {
        case BreakerOpen =>
          return Answer(true);
        case Answers =>
          if Live(store, id, now) {
            return Answer(false);
          }
          store := store[id := now + ttl];
          return Answer(true);
        case Raises(stored) =>
          if stored && !Live(store, id, now) {
            store := store[id := now + ttl];
          }
          return CacheError;
      }
    }
  }

  /** A fetched record's value. */
  datatype Value = Tombstone | Malformed | Event(id: Id, handler: Handler)

  /** _handle_message: returns normally or raises; `committed` says whether the handler's transaction was
      committed.  `started` is false before start(), `sessions` without a session factory: the latter is
      noticed only after the dedupe key was recorded. */
  method HandleMessage(dedupe: RedisDedupe, started: bool, sessions: bool, value: Value, now: Time, cache: Cache)
    returns (returned: bool, committed: bool)
    requires value.Event? ==> value.id != ""
    modifies dedupe
    ensures started && value.Event? ==>
      var live := value.id in old(dedupe.store) && now <= old(dedupe.store)[value.id];
      var isNew := cache == BreakerOpen || (cache == Answers && !live);
      && dedupe.store == Recorded(old(dedupe.store), value.id, DEFAULT_TTL, now, cache)
      && (committed <==> isNew && value.handler == Commits && sessions)
      && (returned <==>
           || (cache == Answers && live)
           || (isNew && (value.handler == NoHandler || (value.handler == Commits && sessions))))
    ensures started && !value.Event? ==> returned && !committed && dedupe.store == old(dedupe.store)
    ensures !started ==> !returned && !committed && dedupe.store == old(dedupe.store)
  {
    committed := false;
    if !started {
      return false, false;
    }
    if !value.Event? {
      return true, false;
    }
    var r := dedupe.CheckAndRecord(value.id, None, now, cache);
    if r == CacheError || r == ValueError {
      return false, false;
    }
    if !r.isNew || value.handler.NoHandler? {
      return true, false;
    }
    if !sessions {
      return false, false;
    }
    committed := value.handler == Commits;
    returned := committed;
  }
}
