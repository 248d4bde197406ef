/** The Redis circuit breaker of src/core/cache.py.

    A guarded call is three separate atomic steps: it is admitted (or turned away), the wrapped
    coroutine runs, and its result is recorded.  Other calls may be admitted or recorded in
    between, so a run is modelled as an arbitrary sequence of step events.  The three-state
    machine is proved to refine a specification that only looks at the recorded history. */
module CircuitBreaker {
  import opened Prelude

  datatype Mode = Closed | Open | HalfOpen

  datatype Config = Config(failMax: int, resetTimeout: real) {
    predicate Valid() { 0 < failMax && 0.0 < resetTimeout }
  }

  datatype State = State(mode: Mode, failures: nat, openedAt: Option<real>)

  const INITIAL := State(Closed, 0, None)

  function MaybeHalfOpen(c: Config, s: State, now: real): State {
    if s.mode == Open && s.openedAt.Some? && now - s.openedAt.value >= c.resetTimeout
    then s.(mode := HalfOpen)
    else s
  }

  function AfterFailure(c: Config, s: State, now: real): State {
    var failures := s.failures + 1;
    if s.mode == HalfOpen || failures >= c.failMax
    then State(Open, failures, Some(now))
    else s.(failures := failures)
  }

  /** One atomic step of some call; the clock reading is taken inside the step. */
  datatype Event =
    | Enter(now: real, admitted: bool)
    | Failure(now: real)
    | Success(now: real)
    | Reset(now: real)

  function Next(c: Config, s: State, e: Event): State {
    match e
    case Enter(now, _) => MaybeHalfOpen(c, s, now)
    case Failure(now) => AfterFailure(c, s, now)
    case Success(_) => INITIAL
    case Reset(_) => INITIAL
  }

  function After(c: Config, events: seq<Event>): State {
    if events == [] then INITIAL
    else Next(c, After(c, events[..|events| - 1]), events[|events| - 1])
  }

  ghost predicate ClockMonotone(events: seq<Event>) {
    forall i, j :: 0 <= i <= j < |events| ==> events[i].now <= events[j].now
  }

  /** Every Enter event carries the answer the breaker gave at that point. */
  ghost predicate IsRun(c: Config, events: seq<Event>) {
    && ClockMonotone(events)
    && forall i :: 0 <= i < |events| && events[i].Enter? ==>
         events[i].admitted == (After(c, events[..i + 1]).mode != Open)
  }

  // ---------------------------------------------------------------- history specification

  /** Failures recorded since the last recorded success or reset. */
  ghost function Streak(events: seq<Event>): nat {
    if events == [] then 0
    else
      var rest := Streak(events[..|events| - 1]);
      match events[|events| - 1]
      case Enter(_, _) => rest
      case Failure(_) => rest + 1
      case _ => 0
  }

  /** Time of the latest of those failures. */
  ghost function LastFailure(events: seq<Event>): Option<real> {
    if events == [] then None
    else
      match events[|events| - 1]
      case Enter(_, _) => LastFailure(events[..|events| - 1])
      case Failure(now) => Some(now)
      case _ => None
  }

  /** The answer a call deserves, in terms of the history alone. */
  ghost predicate Deserves(c: Config, events: seq<Event>, now: real) {
    || Streak(events) < c.failMax
    || (LastFailure(events).Some? && now - LastFailure(events).value >= c.resetTimeout)
  }

  // ---------------------------------------------------------------- refinement

  /** The concrete fields are functions of the history, whatever the interleaving. */
  lemma {:induction false} FieldsRefineHistory(c: Config, events: seq<Event>)
    requires c.Valid()
    ensures var s := After(c, events);
      && s.failures == Streak(events)
      && (s.mode == Closed <==> Streak(events) < c.failMax)
      && s.openedAt == (if s.mode == Closed then None else LastFailure(events))
      && (s.mode != Closed ==> LastFailure(events).Some?)
      && (s.mode == HalfOpen ==>
            exists k :: 0 <= k < |events| && events[k].now - LastFailure(events).value >= c.resetTimeout)
  {
    if events != [] {
      var n := |events| - 1;
      FieldsRefineHistory(c, events[..n]);
      var s := After(c, events);
      if s.mode == HalfOpen {
        if After(c, events[..n]).mode == HalfOpen {
          var k :| 0 <= k < n && events[..n][k].now - LastFailure(events[..n]).value >= c.resetTimeout;
          assert events[k].now - LastFailure(events).value >= c.resetTimeout;
        } else {
          assert events[n].now - LastFailure(events).value >= c.resetTimeout;
        }
      }
    }
  }

  /** A call is admitted exactly when fewer than fail_max failures were recorded since the last
      success or reset, or reset_timeout has passed since the latest of them. */
  lemma AdmissionIsExact(c: Config, events: seq<Event>, i: nat)
    requires c.Valid() && IsRun(c, events)
    requires i < |events| && events[i].Enter?
    ensures events[i].admitted <==> Deserves(c, events[..i], events[i].now)
  {
    var before := events[..i];
    assert events[..i + 1][..i] == before;
    FieldsRefineHistory(c, before);
    var s := After(c, before);
    if s.mode == HalfOpen {
      var k :| 0 <= k < i && before[k].now - LastFailure(before).value >= c.resetTimeout;
      assert events[k].now <= events[i].now;
    }
  }

  lemma {:induction false} StreakPersists(c: Config, events: seq<Event>, i: nat, j: nat)
    requires ClockMonotone(events)
    requires i < j <= |events| && events[i].Failure?
    requires forall k :: i < k < j ==> !events[k].Success? && !events[k].Reset?
    ensures Streak(events[..j]) >= Streak(events[..i + 1]) > 0
    ensures LastFailure(events[..j]).Some? && LastFailure(events[..j]).value >= events[i].now
  {
    assert events[..j][..j - 1] == events[..j - 1];
    if i + 1 < j {
      StreakPersists(c, events, i, j - 1);
      assert events[i].now <= events[j - 1].now;
    }
  }

  /** After the failure that trips the breaker nothing is admitted for reset_timeout, unless a
      late success or a reset is recorded in between. */
  lemma NothingAdmittedWhileTripped(c: Config, events: seq<Event>, i: nat, j: nat)
    requires c.Valid() && IsRun(c, events)
    requires i < j < |events| && events[i].Failure? && events[j].Enter?
    requires Streak(events[..i + 1]) >= c.failMax
    requires forall k :: i < k < j ==> !events[k].Success? && !events[k].Reset?
    requires events[j].now < events[i].now + c.resetTimeout
    ensures !events[j].admitted
  {
    StreakPersists(c, events, i, j);
    AdmissionIsExact(c, events, j);
  }

  /** In every reachable state the half-open test of _record_failure is redundant: the counter
      alone already decides. */
  lemma HalfOpenTestIsRedundant(c: Config, events: seq<Event>, now: real)
    requires c.Valid()
    ensures var s := After(c, events);
      AfterFailure(c, s, now)
        == if s.failures + 1 >= c.failMax then State(Open, s.failures + 1, Some(now))
           else s.(failures := s.failures + 1)
  {
    FieldsRefineHistory(c, events);
  }

  /** A success of a call admitted before the trip closes an open breaker at once: the next call
      is let in although reset_timeout has not passed. */
  lemma LateSuccessReopensGate()
    ensures var c := Config(1, 30.0);
      var run := [Enter(0.0, true), Enter(0.0, true), Failure(1.0), Enter(2.0, false), Success(3.0), Enter(4.0, true)];
      IsRun(c, run) && Streak(run[..3]) == 1
  {
    var c := Config(1, 30.0);
    var run := [Enter(0.0, true), Enter(0.0, true), Failure(1.0), Enter(2.0, false), Success(3.0), Enter(4.0, true)];
    assert run[..1][..0] == [] && run[..2][..1] == run[..1] && run[..3][..2] == run[..2];
    assert run[..4][..3] == run[..3] && run[..5][..4] == run[..4] && run[..6][..5] == run[..5];
    assert Streak(run[..1]) == 0 && Streak(run[..2]) == 0;
    assert After(c, run[..1]) == INITIAL && After(c, run[..2]) == INITIAL;
    assert After(c, run[..3]) == State(Open, 1, Some(1.0)) && After(c, run[..4]).mode == Open;
    assert After(c, run[..5]) == INITIAL && After(c, run[..6]) == INITIAL;
  }

  // ---------------------------------------------------------------- the object

  class AsyncCircuitBreaker {
    const config: Config
    var mode: Mode
    var failureCount: nat
    var openedAt: Option<real>

    ghost function Value(): State reads this { State(mode, failureCount, openedAt) }

    constructor (c: Config)
      requires c.Valid()
      ensures config == c && Value() == INITIAL
    {
      config := c;
      mode, failureCount, openedAt := Closed, 0, None;
    }

    /** __init__ refuses non-positive parameters with a ValueError. */
    static method Make(c: Config) returns (b: Option<AsyncCircuitBreaker>)
      ensures b.Some? <==> c.Valid()
      ensures b.Some? ==> fresh(b.value) && b.value.config == c && b.value.Value() == INITIAL
    {
      if c.failMax <= 0 || c.resetTimeout <= 0.0 {
        return None;
      }
      var made := new AsyncCircuitBreaker(c);
      b := Some(made);
    }

    /** First step of call(): half-open transition, then the open test. */
    method Admit(now: real) returns (admitted: bool)
      modifies this
      ensures Value() == Next(config, old(Value()), Enter(now, admitted))
      ensures admitted <==> Value().mode != Open
    {
      if mode == Open && openedAt.Some? && now - openedAt.value >= config.resetTimeout {
        mode := HalfOpen;
      }
      admitted := mode != Open;
    }

    method RecordFailure(now: real)
      modifies this
      ensures Value() == Next(config, old(Value()), Failure(now))
    {
      failureCount := failureCount + 1;
      if mode == HalfOpen || failureCount >= config.failMax {
        mode := Open;
        openedAt := Some(now);
      }
    }

    method RecordSuccess(now: real)
      modifies this
      ensures Value() == Next(config, old(Value()), Success(now))
    {
      mode := Closed;
      failureCount := 0;
      openedAt := None;
    }

    method ForceReset(now: real)
      modifies this
      ensures Value() == Next(config, old(Value()), Reset(now))
    {
      mode := Closed;
      failureCount := 0;
      openedAt := None;
    }
  }
}
