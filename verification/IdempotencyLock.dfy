/** The Redis lock on an Idempotency-Key, src/modules/payments/services.py: SET NX EX with a token, and
    a compare-and-delete release.

    Acquiring, the passing of time and releasing are atomic steps of any number of callers.  A release
    may fail to reach Redis, and an acquire may store the key although its caller sees an error. */
module IdempotencyLock {
  import opened Prelude

  type Key = string
  type Token = nat
  type Time = int

  datatype Entry = Entry(token: Token, deadline: Time)

  /** A caller between its acquire and its release. */
  datatype Holder = Holder(key: Key, acquiredAt: Time, deadline: Time)

  /** Holders are named by their token, which is unique; `issued` are the tokens drawn so far. */
  datatype State = State(now: Time, store: map<Key, Entry>, holders: map<Token, Holder>, issued: set<Token>)

  datatype Step =
    | Tick(seconds: nat)
    | Acquire(key: Key, token: Token, ttl: Time)
    | AcquireErrors(key: Key, token: Token, ttl: Time, stored: bool)
    | Release(token: Token)
    | ReleaseFails(token: Token)

  predicate Live(s: State, key: Key) { key in s.store && s.now <= s.store[key].deadline }

  predicate Fresh(s: State, token: Token, ttl: Time) { token !in s.issued && 0 < ttl }

  function Stored(s: State, key: Key, token: Token, ttl: Time): State {
    s.(store := s.store[key := Entry(token, s.now + ttl)], issued := s.issued + {token})
  }

  /** _LOCK_RELEASE_LUA: GET, compare, DEL. */
  function CompareAndDelete(s: State, key: Key, token: Token): map<Key, Entry> {
    if Live(s, key) && s.store[key].token == token then s.store - {key} else s.store
  }

  function Next(s: State, step: Step): State {
    match step
    case Tick(d) => s.(now := s.now + d)
    case Acquire(key, token, ttl) =>
      if !Fresh(s, token, ttl) || Live(s, key) then s
      else
        var t := Stored(s, key, token, ttl);
        t.(holders := s.holders[token := Holder(key, s.now, s.now + ttl)])
    case AcquireErrors(key, token, ttl, stored) =>
      if !Fresh(s, token, ttl) then s
      else if stored && !Live(s, key) then Stored(s, key, token, ttl)
      else s.(issued := s.issued + {token})
    case Release(token) =>
      if token !in s.holders then s
      else s.(store := CompareAndDelete(s, s.holders[token].key, token), holders := s.holders - {token})
    case ReleaseFails(token) =>
      if token !in s.holders then s else s.(holders := s.holders - {token})
  }

  const INITIAL := State(0, map[], map[], {})

  function Run(steps: seq<Step>): State {
    if steps == [] then INITIAL else Next(Run(steps[..|steps| - 1]), steps[|steps| - 1])
  }

  /** The earlier of two holders of one key had outlived its TTL before the later one acquired. */
  predicate Excluded(a: Holder, b: Holder) {
    a.key == b.key ==> a.deadline < b.acquiredAt || b.deadline < a.acquiredAt
  }

  ghost predicate Inv(s: State) {
    && s.holders.Keys <= s.issued
    && (forall k :: k in s.store ==> s.store[k].token in s.issued)
    && (forall t :: t in s.holders ==> s.holders[t].acquiredAt <= s.now && s.holders[t].acquiredAt < s.holders[t].deadline)
    && (forall t :: t in s.holders && s.now <= s.holders[t].deadline ==>
          s.holders[t].key in s.store && s.store[s.holders[t].key] == Entry(t, s.holders[t].deadline))
    && (forall t, u :: t in s.holders && u in s.holders && t != u ==> Excluded(s.holders[t], s.holders[u]))
    && (forall t :: t in s.holders && s.holders[t].key in s.store && s.store[s.holders[t].key].token == t ==>
          s.store[s.holders[t].key].deadline == s.holders[t].deadline)
  }

  lemma AcquireKeepsInv(s: State, step: Step)
    requires Inv(s) && step.Acquire?
    ensures Inv(Next(s, step))
  {
    var next := Next(s, step);
    if next != s {
      forall t | t in s.holders && s.holders[t].key == step.key
        ensures s.holders[t].deadline < s.now
      {
      }
    }
  }

  lemma AcquireErrorKeepsInv(s: State, step: Step)
    requires Inv(s) && step.AcquireErrors?
    ensures Inv(Next(s, step))
  {
  }

  lemma ReleaseKeepsInv(s: State, step: Step)
    requires Inv(s) && (step.Release? || step.ReleaseFails?)
    ensures Inv(Next(s, step))
  {
    if step.token in s.holders {
      forall t | t in s.holders && t != step.token && s.now <= s.holders[t].deadline
        ensures s.holders[t].key in Next(s, step).store
      {
        assert Excluded(s.holders[t], s.holders[step.token]);
      }
    }
  }

  lemma StepKeepsInv(s: State, step: Step)
    requires Inv(s)
    ensures Inv(Next(s, step))
  {
    match step
    case Tick(_) =>
    case Acquire(_, _, _) => AcquireKeepsInv(s, step);
    case AcquireErrors(_, _, _, _) => AcquireErrorKeepsInv(s, step);
    case Release(_) => ReleaseKeepsInv(s, step);
    case ReleaseFails(_) => ReleaseKeepsInv(s, step);
  }

  lemma {:induction false} RunInv(steps: seq<Step>)
    ensures Inv(Run(steps))
  {
    if steps != [] {
      RunInv(steps[..|steps| - 1]);
      StepKeepsInv(Run(steps[..|steps| - 1]), steps[|steps| - 1]);
    }
  }

  /** Mutual exclusion up to expiry: in every run, two callers are both between acquire and release on
      one key only if the TTL of one of them elapsed before the other acquired. */
  lemma MutualExclusionUntilExpiry(steps: seq<Step>, t: Token, u: Token)
    requires var s := Run(steps); t in s.holders && u in s.holders && t != u && s.holders[t].key == s.holders[u].key
    ensures var s := Run(steps);
      s.holders[t].deadline < s.holders[u].acquiredAt || s.holders[u].deadline < s.holders[t].acquiredAt
  {
    RunInv(steps);
  }

  /** In particular at most one caller is within its TTL. */
  lemma AtMostOneWithinTtl(steps: seq<Step>, t: Token, u: Token)
    requires var s := Run(steps); t in s.holders && u in s.holders && s.holders[t].key == s.holders[u].key
    requires var s := Run(steps); s.now <= s.holders[t].deadline && s.now <= s.holders[u].deadline
    ensures t == u
  {
    RunInv(steps);
  }

  /** A release only ever deletes its own entry: whatever else is stored, and in particular the lock
      of a caller that acquired after this one expired, stays. */
  lemma ReleaseDeletesOnlyItsOwn(steps: seq<Step>, t: Token, key: Key)
    requires key in Run(steps).store && key !in Next(Run(steps), Release(t)).store
    ensures var s := Run(steps);
      t in s.holders && s.holders[t].key == key && s.store[key] == Entry(t, s.holders[t].deadline)
  {
    RunInv(steps);
  }

  /** A holder that releases within its TTL frees its key, and one that is late changes nothing. */
  lemma ReleaseIsExact(steps: seq<Step>, t: Token)
    requires t in Run(steps).holders
    ensures var s := Run(steps); var h := s.holders[t];
      && (s.now <= h.deadline ==> h.key in s.store && Next(s, Release(t)).store == s.store - {h.key})
      && (h.deadline < s.now ==> Next(s, Release(t)).store == s.store)
  {
    RunInv(steps);
  }

  /** After a release within the TTL the next caller gets the key at once. */
  lemma ReleaseFreesKey(steps: seq<Step>, t: Token, u: Token, ttl: Time)
    requires t in Run(steps).holders && Run(steps).now <= Run(steps).holders[t].deadline && Fresh(Run(steps), u, ttl)
    ensures var s := Run(steps); var key := s.holders[t].key;
      var free := Next(s, Release(t));
      var next := Next(free, Acquire(key, u, ttl));
      && key !in free.store && t !in free.holders
      && u in next.holders && next.holders[u] == Holder(key, s.now, s.now + ttl)
      && key in next.store && next.store[key] == Entry(u, s.now + ttl)
  {
    ReleaseIsExact(steps, t);
  }

  /** The TTL really can elapse under a slow caller: then two callers overlap, and the slow one's
      release leaves the other's lock in place. */
  lemma SlowHolderOverlaps()
    ensures var steps := [Acquire("k", 1, 30), Tick(31), Acquire("k", 2, 30)];
      var s := Run(steps);
      && s.holders.Keys == {1, 2}
      && Next(s, Release(1)).store == s.store && "k" in s.store && s.store["k"].token == 2
  {
    var steps := [Acquire("k", 1, 30), Tick(31), Acquire("k", 2, 30)];
    assert steps[..2][..1] == [Acquire("k", 1, 30)] && steps[..1][..0] == [];
    assert Run(steps[..1]) == Next(INITIAL, steps[0]);
    assert Run(steps[..2]) == Next(Run(steps[..1]), steps[1]);
    assert steps[..3] == steps && steps[..3][..2] == steps[..2];
  }

  // ---------------------------------------------------------------- the client

  /** How Redis takes a call: it answers, the breaker is open, or the call raises after it had its effect
      or before. */
  datatype Cache = Answers | BreakerOpen | Raises(done: bool)

  datatype AcquireResult = Acquired(token: Token) | Conflict | ValueError | CacheUnavailable | RedisError

  datatype ReleaseResult = Released(owned: bool) | ReleaseError

  /** The step of the machine that an acquire is. */
  function AcquireStep(key: Key, token: Token, ttl: Time, cache: Cache): Step {
    if cache.Answers? then Acquire(key, token, ttl) else AcquireErrors(key, token, ttl, cache == Raises(true))
  }

  function ReleaseStep(token: Token, cache: Cache): Step {
    if cache == Answers || cache == Raises(true) then Release(token) else ReleaseFails(token)
  }

  class RedisLocks {
    var state: State

    constructor () ensures state == INITIAL { state := INITIAL; }

    /** acquire_idempotency_lock; the token is a fresh UUID. */
    method AcquireLock(idempotencyKey: string, token: Token, ttlSeconds: Option<Time>, cache: Cache)
      returns (r: AcquireResult)
      requires Inv(state) && token !in state.issued
      modifies this
      ensures Inv(state)
      ensures var ttl := if ttlSeconds.Some? then ttlSeconds.value else 30;
        var key := "idemp:" + idempotencyKey;
        if idempotencyKey == "" || ttl <= 0 then r == ValueError && state == old(state)
        else
          && state == Next(old(state), AcquireStep(key, token, ttl, cache))
          && r == (match cache
                   case Answers => if Live(old(state), key) then Conflict else Acquired(token)
                   case BreakerOpen => CacheUnavailable
                   case Raises(_) => RedisError)
          && (r.Acquired? <==> token in state.holders)
          && state.now == old(state).now
          && (r.Acquired? <==> cache == Answers && !(key in old(state).store && old(state).now <= old(state).store[key].deadline))
          && state.holders == (if r.Acquired? then old(state).holders[token := Holder(key, state.now, state.now + ttl)]
                               else old(state).holders)
          && (r.Acquired? ==> state.store == old(state).store[key := Entry(token, state.now + ttl)])
          && (r == Conflict || r == CacheUnavailable || cache == Raises(false) ==> state.store == old(state).store)
          && (cache == Raises(true) ==>
                state.store == if key in old(state).store && old(state).now <= old(state).store[key].deadline then old(state).store
                               else old(state).store[key := Entry(token, state.now + ttl)])
    {
      if idempotencyKey == "" {
        return ValueError;
      }
      var ttl := 30;
      if ttlSeconds.Some? {
        ttl := ttlSeconds.value;
      }
      if ttl <= 0 {
        return ValueError;
      }
      var key := "idemp:" + idempotencyKey;
      r := SetIfAbsent(key, token, ttl, cache);
    }

    /** SET NX EX through the breaker.  A caller that sees an error never uses its token again. */
    method SetIfAbsent(key: Key, token: Token, ttl: Time, cache: Cache) returns (r: AcquireResult)
      requires Inv(state) && Fresh(state, token, ttl)
      modifies this
      ensures Inv(state) && state == Next(old(state), AcquireStep(key, token, ttl, cache))
      ensures r == (match cache
                    case Answers => if Live(old(state), key) then Conflict else Acquired(token)
                    case BreakerOpen => CacheUnavailable
                    case Raises(_) => RedisError)
      ensures r.Acquired? <==> token in state.holders
    {
      ghost var before, step := state, AcquireStep(key, token, ttl, cache);
      assert token !in state.holders;
      StepKeepsInv(before, step);
      var busy := Live(state, key);
      match cache {
        case Answers =>
          if !busy {
            var t := Stored(state, key, token, ttl);
            state := t.(holders := state.holders[token := Holder(key, state.now, state.now + ttl)]);
          }
          r := if busy then Conflict else Acquired(token);
        case BreakerOpen =>
          state := state.(issued := state.issued + {token});
          r := CacheUnavailable;
        case Raises(stored) =>
          state := if stored && !busy then Stored(state, key, token, ttl) else state.(issued := state.issued + {token});
          r := RedisError;
      }
      assert state == Next(before, step);
    }

    /** release_idempotency_lock: an open breaker is swallowed, any other error propagates. */
    method ReleaseLock(token: Token, cache: Cache) returns (r: ReleaseResult)
      requires Inv(state) && token in state.holders
      modifies this
      ensures Inv(state)
      ensures state == Next(old(state), ReleaseStep(token, cache))
      ensures r.ReleaseError? <==> cache.Raises?
      ensures r.Released? ==> (r.owned <==> cache == Answers && old(state).now <= old(state).holders[token].deadline)
      ensures r == Released(true) ==> state.store == old(state).store - {old(state).holders[token].key}
      ensures r == Released(false) || cache == Raises(false) ==> state.store == old(state).store
      ensures cache == Raises(true) && old(state).now <= old(state).holders[token].deadline ==>
        state.store == old(state).store - {old(state).holders[token].key}
      ensures state.holders == old(state).holders - {token}
    {
      StepKeepsInv(state, ReleaseStep(token, cache));
      var key := state.holders[token].key;
      var released := false;
      if (cache == Answers || cache == Raises(true)) && Live(state, key) && state.store[key].token == token {
        released := true;
        assert key !in state.store - {key};
        state := state.(store := state.store - {key});
      }
      state := state.(holders := state.holders - {token});
      r := if cache.Raises? then ReleaseError else Released(released);
    }
  }
}
