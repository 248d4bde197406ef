/** Any number of relays over one outbox table and one broker.

    Claiming a batch, publishing one row, committing and aborting are separate atomic steps of
    separate relays, interleaved in any order.  A claim holds the row locks of its batch; SKIP LOCKED
    makes other relays pass over them.  An abort stands for the rollback after an outage, a commit
    that is lost, and a relay that dies: all three drop the locks and every uncommitted change. */
module RelayFleet {
  import opened RelayBatch
  import opened RelayTick

  type RelayId = nat

  datatype Config = Config(batchSize: nat, maxAttempts: nat)

  /** Rows locked by one relay, and what became of those it has already visited. */
  datatype Claim = Claim(ids: seq<nat>, fates: seq<Fate>)

  /** `log` lists the rows whose message the broker has stored, oldest first. */
  datatype State = State(rows: seq<Row>, claims: map<RelayId, Claim>, log: seq<nat>)

  const EMPTY := State([], map[], [])

  datatype Step =
    | Insert(createdAt: int)
    | ClaimBatch(relay: RelayId, ids: seq<nat>)
    | PublishNext(relay: RelayId, outcome: Outcome, stored: bool)
    | Commit(relay: RelayId)
    | Abort(relay: RelayId)

  ghost function Locked(s: State): set<nat> {
    set r, i | r in s.claims && 0 <= i < |s.claims[r].ids| :: s.claims[r].ids[i]
  }

  /** The broker may have stored a message whose publish raised; an acknowledged one is stored. */
  ghost predicate Enabled(c: Config, s: State, step: Step) {
    match step
    case Insert(_) => true
    case ClaimBatch(r, ids) => r !in s.claims && IsClaim(s.rows, Locked(s), c.batchSize, ids)
    case PublishNext(r, outcome, stored) =>
      && r in s.claims && |s.claims[r].fates| < |s.claims[r].ids| && Outage !in s.claims[r].fates
      && s.claims[r].ids[|s.claims[r].fates|] < |s.rows|
      && (outcome.Acked? ==> stored)
    case Commit(r) =>
      && r in s.claims && |s.claims[r].fates| == |s.claims[r].ids| && Outage !in s.claims[r].fates
      && forall i :: 0 <= i < |s.claims[r].ids| ==> s.claims[r].ids[i] < |s.rows|
    case Abort(r) => r in s.claims
  }

  /** A step that is not enabled does nothing, so every step sequence is a run. */
  ghost function Next(c: Config, s: State, step: Step): State {
    if !Enabled(c, s, step) then s
    else
      match step
      case Insert(at) => s.(rows := s.rows + [Row(at, 0, false, false)])
      case ClaimBatch(r, ids) => s.(claims := s.claims[r := Claim(ids, [])])
      case PublishNext(r, outcome, stored) =>
        var claim := s.claims[r];
        var id := claim.ids[|claim.fates|];
        var fate := FateOf(c.maxAttempts, s.rows[id], outcome);
        s.(claims := s.claims[r := claim.(fates := claim.fates + [fate])],
           log := if fate != Exhausted && stored then s.log + [id] else s.log)
      case Commit(r) =>
        var claim := s.claims[r];
        s.(rows := WriteBack(s.rows, claim.ids, Flushed(Selected(s.rows, claim.ids), claim.fates)),
           claims := s.claims - {r})
      case Abort(r) => s.(claims := s.claims - {r})
  }

  ghost function Run(c: Config, s: State, steps: seq<Step>): State {
    if steps == [] then s
    else Next(c, Run(c, s, steps[..|steps| - 1]), steps[|steps| - 1])
  }

  // ---------------------------------------------------------------- what every step keeps

  ghost predicate ClaimValid(c: Config, s: State, claim: Claim) {
    && Distinct(claim.ids)
    && |claim.fates| <= |claim.ids| <= c.batchSize
    && (forall i :: 0 <= i < |claim.ids| ==> claim.ids[i] < |s.rows| && !s.rows[claim.ids[i]].Resolved())
    && (forall i :: 0 <= i < |claim.fates| ==>
          && (claim.fates[i] == Exhausted <==> s.rows[claim.ids[i]].attempts >= c.maxAttempts)
          && (claim.fates[i] == Published ==> claim.ids[i] in s.log))
  }

  ghost predicate Disjoint(a: Claim, b: Claim) {
    forall i, j :: 0 <= i < |a.ids| && 0 <= j < |b.ids| ==> a.ids[i] != b.ids[j]
  }

  /** Claims in flight are pairwise disjoint and only hold unresolved rows, no retry counter exceeds
      the maximum, and the broker holds nothing that is not a row. */
  ghost predicate Valid(c: Config, s: State) {
    && AttemptsBounded(c.maxAttempts, s.rows)
    && (forall r :: r in s.claims ==> ClaimValid(c, s, s.claims[r]))
    && (forall r, q :: r in s.claims && q in s.claims && r != q ==> Disjoint(s.claims[r], s.claims[q]))
    && (forall k :: 0 <= k < |s.log| ==> s.log[k] < |s.rows|)
  }

  lemma CommittedRows(c: Config, s: State, r: RelayId)
    requires Valid(c, s) && Enabled(c, s, Commit(r))
    ensures var claim, next := s.claims[r], Next(c, s, Commit(r));
      && (forall i :: 0 <= i < |claim.ids| ==>
            next.rows[claim.ids[i]] == Flushed(Selected(s.rows, claim.ids), claim.fates)[i])
      && (forall id :: 0 <= id < |s.rows| && id !in claim.ids ==> next.rows[id] == s.rows[id])
  {
    var claim := s.claims[r];
    WriteBackAt(s.rows, claim.ids, Flushed(Selected(s.rows, claim.ids), claim.fates));
  }

  lemma CommitKeepsValid(c: Config, s: State, r: RelayId)
    requires Valid(c, s) && Enabled(c, s, Commit(r))
    ensures Valid(c, Next(c, s, Commit(r)))
  {
    var claim, next := s.claims[r], Next(c, s, Commit(r));
    CommittedRows(c, s, r);
    WriteBackBounded(c.maxAttempts, s.rows, claim.ids, Flushed(Selected(s.rows, claim.ids), claim.fates));
    forall q | q in next.claims
      ensures ClaimValid(c, next, next.claims[q])
    {
      assert Disjoint(s.claims[q], claim);
      var other := s.claims[q];
      forall i | 0 <= i < |other.ids|
        ensures next.rows[other.ids[i]] == s.rows[other.ids[i]]
      {
        assert other.ids[i] !in claim.ids;
      }
    }
  }

  lemma ClaimKeepsValid(c: Config, s: State, r: RelayId, ids: seq<nat>)
    requires Valid(c, s) && Enabled(c, s, ClaimBatch(r, ids))
    ensures Valid(c, Next(c, s, ClaimBatch(r, ids)))
  {
    var next := Next(c, s, ClaimBatch(r, ids));
    forall q | q in s.claims
      ensures Disjoint(s.claims[q], Claim(ids, [])) && Disjoint(Claim(ids, []), s.claims[q])
    {
      assert forall i :: 0 <= i < |s.claims[q].ids| ==> s.claims[q].ids[i] in Locked(s);
    }
  }

  lemma PublishKeepsClaim(c: Config, s: State, step: Step)
    requires Valid(c, s) && step.PublishNext? && Enabled(c, s, step)
    ensures ClaimValid(c, Next(c, s, step), Next(c, s, step).claims[step.relay])
  {
    assert ClaimValid(c, s, s.claims[step.relay]);
  }

  lemma PublishKeepsOtherClaim(c: Config, s: State, step: Step, q: RelayId)
    requires Valid(c, s) && step.PublishNext? && Enabled(c, s, step) && q in s.claims && q != step.relay
    ensures var next := Next(c, s, step);
      q in next.claims && next.claims[q] == s.claims[q] && ClaimValid(c, next, next.claims[q])
  {
    assert ClaimValid(c, s, s.claims[q]);
  }

  lemma PublishKeepsValid(c: Config, s: State, step: Step)
    requires Valid(c, s) && step.PublishNext? && Enabled(c, s, step)
    ensures Valid(c, Next(c, s, step))
  {
    var next, r := Next(c, s, step), step.relay;
    PublishKeepsClaim(c, s, step);
    forall q | q in next.claims && q != r
      ensures ClaimValid(c, next, next.claims[q])
    {
      PublishKeepsOtherClaim(c, s, step, q);
    }
    forall p, q | p in next.claims && q in next.claims && p != q
      ensures Disjoint(next.claims[p], next.claims[q])
    {
      assert Disjoint(s.claims[p], s.claims[q]);
    }
  }

  lemma InsertKeepsValid(c: Config, s: State, step: Step)
    requires Valid(c, s) && step.Insert?
    ensures Valid(c, Next(c, s, step))
  {
    var next := Next(c, s, step);
    forall q | q in next.claims
      ensures ClaimValid(c, next, next.claims[q])
    {
      assert ClaimValid(c, s, s.claims[q]);
    }
  }

  lemma AbortKeepsValid(c: Config, s: State, step: Step)
    requires Valid(c, s) && step.Abort?
    ensures Valid(c, Next(c, s, step))
  {
    var next := Next(c, s, step);
    forall q | q in next.claims
      ensures ClaimValid(c, next, next.claims[q])
    {
      assert ClaimValid(c, s, s.claims[q]);
    }
  }

  lemma {:induction false} StepKeepsValid(c: Config, s: State, step: Step)
    requires Valid(c, s)
    ensures Valid(c, Next(c, s, step))
  {
    if Enabled(c, s, step) {
      match step {
        case Commit(r) => CommitKeepsValid(c, s, r);
        case ClaimBatch(r, ids) => ClaimKeepsValid(c, s, r, ids);
        case PublishNext(_, _, _) => PublishKeepsValid(c, s, step);
        case Insert(_) => InsertKeepsValid(c, s, step);
        case Abort(_) => AbortKeepsValid(c, s, step);
      }
    }
  }

  /** Many relays, every run: claims stay disjoint and retry counters bounded. */
  lemma {:induction false} RunsStayValid(c: Config, s: State, steps: seq<Step>)
    requires Valid(c, s)
    ensures Valid(c, Run(c, s, steps))
  {
    if steps != [] {
      RunsStayValid(c, s, steps[..|steps| - 1]);
      StepKeepsValid(c, Run(c, s, steps[..|steps| - 1]), steps[|steps| - 1]);
    }
  }

  // ---------------------------------------------------------------- resolved rows are final

  lemma StepKeepsResolved(c: Config, s: State, step: Step, id: nat)
    requires Valid(c, s) && id < |s.rows| && s.rows[id].Resolved()
    ensures var next := Next(c, s, step);
      id < |next.rows| && next.rows[id] == s.rows[id] && multiset(next.log)[id] == multiset(s.log)[id]
  {
    if Enabled(c, s, step) && step.Commit? {
      CommittedRows(c, s, step.relay);
      assert id !in s.claims[step.relay].ids;
    }
  }

  /** A row persisted as processed or failed is never changed and never published again. */
  lemma {:induction false} ResolvedIsFinal(c: Config, s: State, steps: seq<Step>, id: nat)
    requires Valid(c, s) && id < |s.rows| && s.rows[id].Resolved()
    ensures var last := Run(c, s, steps);
      id < |last.rows| && last.rows[id] == s.rows[id] && multiset(last.log)[id] == multiset(s.log)[id]
  {
    if steps != [] {
      var n := |steps| - 1;
      ResolvedIsFinal(c, s, steps[..n], id);
      RunsStayValid(c, s, steps[..n]);
      StepKeepsResolved(c, Run(c, s, steps[..n]), steps[n], id);
    }
  }

  // ---------------------------------------------------------------- processed means published

  ghost function Processed(s: State): set<nat> { set id | 0 <= id < |s.rows| && s.rows[id].processed }

  /** Rows of a batch whose publish the broker acknowledged. */
  ghost function Acknowledged(claim: Claim): set<nat> {
    set i | 0 <= i < |claim.fates| && i < |claim.ids| && claim.fates[i] == Published :: claim.ids[i]
  }

  /** Rows whose publish was acknowledged in a batch of the run that committed. */
  ghost function Confirmed(c: Config, s: State, steps: seq<Step>): set<nat> {
    if steps == [] then {}
    else
      var n := |steps| - 1;
      var t := Run(c, s, steps[..n]);
      Confirmed(c, s, steps[..n])
        + (if steps[n].Commit? && Enabled(c, t, steps[n]) then Acknowledged(t.claims[steps[n].relay]) else {})
  }

  /** Every batch that commits has no unexpected error before a published row. */
  ghost predicate CommitsInOrder(c: Config, s: State, steps: seq<Step>) {
    forall k :: 0 <= k < |steps| && steps[k].Commit? && Enabled(c, Run(c, s, steps[..k]), steps[k]) ==>
      InOrder(Run(c, s, steps[..k]).claims[steps[k].relay].fates)
  }

  /** One commit persists as processed exactly the published rows of its batch if and only if the
      batch is in order. */
  lemma CommitMarksPublishedIffInOrder(c: Config, s: State, r: RelayId)
    requires Valid(c, s) && Enabled(c, s, Commit(r))
    ensures var claim := s.claims[r];
      (forall i :: 0 <= i < |claim.ids| ==>
        (Next(c, s, Commit(r)).rows[claim.ids[i]].processed <==> claim.fates[i] == Published)) <==> InOrder(claim.fates)
  {
    var claim := s.claims[r];
    MarkedIsPublishedIffInOrder(claim.fates);
    CommitMarks(c, s, r);
  }

  lemma CommitMarks(c: Config, s: State, r: RelayId)
    requires Valid(c, s) && Enabled(c, s, Commit(r))
    ensures var claim := s.claims[r];
      forall i :: 0 <= i < |claim.ids| ==> (Next(c, s, Commit(r)).rows[claim.ids[i]].processed <==> Marks(claim.fates, i))
  {
    var claim, next := s.claims[r], Next(c, s, Commit(r));
    CommittedRows(c, s, r);
    forall i | 0 <= i < |claim.ids|
      ensures next.rows[claim.ids[i]].processed <==> Marks(claim.fates, i)
    {
      assert next.rows[claim.ids[i]] == Flushed(Selected(s.rows, claim.ids), claim.fates)[i];
    }
  }

  lemma CommitProcesses(c: Config, s: State, r: RelayId)
    requires Valid(c, s) && Enabled(c, s, Commit(r))
    ensures var claim, next := s.claims[r], Next(c, s, Commit(r));
      && Processed(s) <= Processed(next)
      && (InOrder(claim.fates) ==> Processed(next) == Processed(s) + Acknowledged(claim))
  {
    var claim, next := s.claims[r], Next(c, s, Commit(r));
    CommittedRows(c, s, r);
    CommitMarksPublishedIffInOrder(c, s, r);
    forall id | id in Processed(s)
      ensures id in Processed(next)
    {
      assert id !in claim.ids;
    }
    if InOrder(claim.fates) {
      forall id | 0 <= id < |s.rows|
        ensures id in Processed(next) <==> id in Processed(s) + Acknowledged(claim)
      {
        if id in claim.ids {
          var i :| 0 <= i < |claim.ids| && claim.ids[i] == id;
          assert id in Acknowledged(claim) <==> claim.fates[i] == Published;
        }
      }
    }
  }

  /** The first commit out of order marks a row that no committed batch had published. */
  lemma OutOfOrderMarksUnconfirmed(c: Config, s: State, r: RelayId) returns (id: nat)
    requires Valid(c, s) && Enabled(c, s, Commit(r)) && !InOrder(s.claims[r].fates)
    ensures id in Processed(Next(c, s, Commit(r))) && id !in Processed(s) && id !in Acknowledged(s.claims[r])
  {
    var claim := s.claims[r];
    var i := OutOfOrderMarksTransient(claim.fates);
    CommitMarks(c, s, r);
    id := claim.ids[i];
  }

  lemma OtherStepsProcessNothing(c: Config, s: State, step: Step)
    requires !step.Commit? || !Enabled(c, s, step)
    ensures Processed(Next(c, s, step)) == Processed(s)
  {
  }

  lemma {:induction false} InOrderSoFar(c: Config, s: State, steps: seq<Step>)
    requires steps != []
    ensures var n := |steps| - 1;
      var t := Run(c, s, steps[..n]);
      CommitsInOrder(c, s, steps) <==>
        && CommitsInOrder(c, s, steps[..n])
        && (steps[n].Commit? && Enabled(c, t, steps[n]) ==> InOrder(t.claims[steps[n].relay].fates))
  {
    var n := |steps| - 1;
    assert forall k :: 0 <= k < n ==> steps[..n][..k] == steps[..k] && steps[..n][k] == steps[k];
  }

  /** One step of the equivalence below; `known` are the rows processed at the start or confirmed since. */
  lemma CommitKeepsEquivalence(c: Config, s: State, r: RelayId, known: set<nat>, inOrder: bool)
    requires Valid(c, s) && Enabled(c, s, Commit(r))
    requires if inOrder then Processed(s) == known else !(Processed(s) <= known)
    ensures var next, more := Processed(Next(c, s, Commit(r))), known + Acknowledged(s.claims[r]);
      if inOrder && InOrder(s.claims[r].fates) then next == more else !(next <= more)
  {
    CommitProcesses(c, s, r);
    if inOrder && !InOrder(s.claims[r].fates) {
      var id := OutOfOrderMarksUnconfirmed(c, s, r);
      assert id !in known + Acknowledged(s.claims[r]);
    } else if !inOrder {
      var id :| id in Processed(s) && id !in known;
      assert id !in s.claims[r].ids;
      assert id !in known + Acknowledged(s.claims[r]);
    }
  }

  /** Processed means published, exactly, over whole runs of any number of relays: the rows processed
      during a run are those whose publish was acknowledged in the batch that committed them if and only
      if every committed batch was in order; and already their inclusion fails otherwise. */
  lemma {:induction false} ProcessedIsConfirmedIffInOrder(c: Config, s: State, steps: seq<Step>)
    requires Valid(c, s)
    ensures var processed, known := Processed(Run(c, s, steps)), Processed(s) + Confirmed(c, s, steps);
      && (processed <= known <==> CommitsInOrder(c, s, steps))
      && (processed == known <==> CommitsInOrder(c, s, steps))
  {
    if steps == [] {
      assert Processed(s) + Confirmed(c, s, steps) == Processed(s);
    } else {
      var n := |steps| - 1;
      var t := Run(c, s, steps[..n]);
      var known := Processed(s) + Confirmed(c, s, steps[..n]);
      ProcessedIsConfirmedIffInOrder(c, s, steps[..n]);
      RunsStayValid(c, s, steps[..n]);
      InOrderSoFar(c, s, steps);
      if steps[n].Commit? && Enabled(c, t, steps[n]) {
        CommitKeepsEquivalence(c, t, steps[n].relay, known, CommitsInOrder(c, s, steps[..n]));
        assert Processed(s) + Confirmed(c, s, steps) == known + Acknowledged(t.claims[steps[n].relay]);
      } else {
        OtherStepsProcessNothing(c, t, steps[n]);
      }
    }
  }

  /** What a committed batch published is in the broker. */
  lemma {:induction false} ConfirmedIsStored(c: Config, s: State, steps: seq<Step>)
    requires Valid(c, s)
    ensures forall id :: id in s.log || id in Confirmed(c, s, steps) ==> id in Run(c, s, steps).log
  {
    if steps != [] {
      var n := |steps| - 1;
      ConfirmedIsStored(c, s, steps[..n]);
      RunsStayValid(c, s, steps[..n]);
    }
  }

  /** None is lost: if every committed batch is in order, a row is marked processed only after the
      broker has stored it, in any interleaving of any number of relays. */
  lemma ProcessedWasPublished(c: Config, s: State, steps: seq<Step>)
    requires Valid(c, s) && CommitsInOrder(c, s, steps) && forall id :: id in Processed(s) ==> id in s.log
    ensures forall id :: id in Processed(Run(c, s, steps)) ==> id in Run(c, s, steps).log
  {
    ProcessedIsConfirmedIffInOrder(c, s, steps);
    ConfirmedIsStored(c, s, steps);
  }

  lemma {:induction false} NeverStoredLater(c: Config, s: State, steps: seq<Step>, id: nat)
    requires Valid(c, s) && id < |s.rows| && s.rows[id].Resolved() && id !in s.log
    ensures id !in Run(c, s, steps).log
  {
    ResolvedIsFinal(c, s, steps, id);
    assert multiset(s.log)[id] == 0;
    assert id in Run(c, s, steps).log ==> id in multiset(Run(c, s, steps).log);
  }

  /** Outside that condition rows are lost: a committed batch that is out of order persists as
      processed some row whose publish raised an unexpected error, and if the broker had not stored
      that row by then, nothing any relay does afterwards ever publishes it. */
  lemma {:induction false} OutOfOrderCommitLosesRow(c: Config, s: State, r: RelayId, more: seq<Step>) returns (i: nat)
    requires Valid(c, s) && Enabled(c, s, Commit(r)) && !InOrder(s.claims[r].fates)
    ensures var claim, last := s.claims[r], Run(c, Next(c, s, Commit(r)), more);
      && i < |claim.ids| && claim.fates[i] == Transient
      && claim.ids[i] < |last.rows| && last.rows[claim.ids[i]].processed
      && (claim.ids[i] !in s.log ==> claim.ids[i] !in last.log)
  {
    var claim, next := s.claims[r], Next(c, s, Commit(r));
    i := OutOfOrderMarksTransient(claim.fates);
    CommittedRows(c, s, r);
    assert next.rows[claim.ids[i]] == Flushed(Selected(s.rows, claim.ids), claim.fates)[i];
    StepKeepsValid(c, s, Commit(r));
    ResolvedIsFinal(c, next, more, claim.ids[i]);
    if claim.ids[i] !in s.log {
      NeverStoredLater(c, next, more, claim.ids[i]);
    }
  }

  // ---------------------------------------------------------------- failed means rejected

  /** The step visits row `id` without attempts left, or its publish raises an infrastructure error other
      than an outage. */
  ghost predicate Rejects(c: Config, s: State, step: Step, id: nat) {
    && step.PublishNext? && Enabled(c, s, step)
    && var claim := s.claims[step.relay];
       && claim.ids[|claim.fates|] == id
       && (s.rows[id].attempts >= c.maxAttempts || step.outcome == Raised(OtherInfrastructure))
  }

  /** Rows rejected in the course of a run. */
  ghost predicate WasRejected(c: Config, s: State, steps: seq<Step>, id: nat) {
    exists k :: 0 <= k < |steps| && Rejects(c, Run(c, s, steps[..k]), steps[k], id)
  }

  ghost function RejectedBy(c: Config, s: State, step: Step): set<nat> {
    set id: nat | id < |s.rows| && Rejects(c, s, step, id)
  }

  ghost function Rejected(c: Config, s: State, steps: seq<Step>): set<nat> {
    if steps == [] then {}
    else
      var n := |steps| - 1;
      Rejected(c, s, steps[..n]) + RejectedBy(c, Run(c, s, steps[..n]), steps[n])
  }

  ghost predicate ClaimExplained(claim: Claim, rejected: set<nat>) {
    forall i :: 0 <= i < |claim.fates| && i < |claim.ids| ==>
      (claim.fates[i] in {Exhausted, Permanent} ==> claim.ids[i] in rejected)
  }

  /** Every failed row, and every row that a claim in flight would fail, was rejected. */
  ghost predicate FailuresExplained(s: State, rejected: set<nat>) {
    && (forall id :: 0 <= id < |s.rows| && s.rows[id].failed ==> id in rejected)
    && (forall r :: r in s.claims ==> ClaimExplained(s.claims[r], rejected))
  }

  lemma CommitFails(c: Config, s: State, r: RelayId)
    requires Valid(c, s) && Enabled(c, s, Commit(r))
    ensures var claim, next := s.claims[r], Next(c, s, Commit(r));
      && (forall i :: 0 <= i < |claim.ids| ==>
            (next.rows[claim.ids[i]].failed <==> claim.fates[i] in {Exhausted, Permanent}))
      && (forall id :: 0 <= id < |s.rows| && id !in claim.ids ==> next.rows[id] == s.rows[id])
  {
    var claim, next := s.claims[r], Next(c, s, Commit(r));
    CommittedRows(c, s, r);
    forall i | 0 <= i < |claim.ids|
      ensures next.rows[claim.ids[i]].failed <==> claim.fates[i] in {Exhausted, Permanent}
    {
      assert next.rows[claim.ids[i]] == Flushed(Selected(s.rows, claim.ids), claim.fates)[i];
      assert !s.rows[claim.ids[i]].Resolved();
    }
  }

  lemma CommitExplains(c: Config, s: State, r: RelayId, rejected: set<nat>)
    requires Valid(c, s) && Enabled(c, s, Commit(r)) && FailuresExplained(s, rejected)
    ensures FailuresExplained(Next(c, s, Commit(r)), rejected)
  {
    var claim, next := s.claims[r], Next(c, s, Commit(r));
    CommitFails(c, s, r);
    forall id | 0 <= id < |next.rows| && next.rows[id].failed
      ensures id in rejected
    {
      if id in claim.ids {
        var i :| 0 <= i < |claim.ids| && claim.ids[i] == id;
        assert claim.fates[i] in {Exhausted, Permanent};
      }
    }
  }

  lemma PublishExplains(c: Config, s: State, step: Step, rejected: set<nat>)
    requires Valid(c, s) && step.PublishNext? && Enabled(c, s, step) && FailuresExplained(s, rejected)
    ensures FailuresExplained(Next(c, s, step), rejected + RejectedBy(c, s, step))
  {
    var claim, next := s.claims[step.relay], Next(c, s, step);
    var n := |claim.fates|;
    FateCases(c.maxAttempts, s.rows[claim.ids[n]], step.outcome);
    assert next.claims[step.relay].fates[n] in {Exhausted, Permanent} ==> claim.ids[n] in RejectedBy(c, s, step);
    assert ClaimExplained(claim, rejected);
    assert ClaimExplained(next.claims[step.relay], rejected + RejectedBy(c, s, step));
  }

  lemma StepExplainsFailures(c: Config, s: State, step: Step, rejected: set<nat>)
    requires Valid(c, s) && FailuresExplained(s, rejected)
    ensures FailuresExplained(Next(c, s, step), rejected + RejectedBy(c, s, step))
  {
    if Enabled(c, s, step) {
      if step.Commit? {
        CommitExplains(c, s, step.relay, rejected);
      } else if step.PublishNext? {
        PublishExplains(c, s, step, rejected);
      }
    }
  }

  lemma {:induction false} RunExplainsFailures(c: Config, steps: seq<Step>)
    ensures FailuresExplained(Run(c, EMPTY, steps), Rejected(c, EMPTY, steps))
  {
    if steps != [] {
      var n := |steps| - 1;
      RunExplainsFailures(c, steps[..n]);
      RunsStayValid(c, EMPTY, steps[..n]);
      StepExplainsFailures(c, Run(c, EMPTY, steps[..n]), steps[n], Rejected(c, EMPTY, steps[..n]));
    }
  }

  lemma {:induction false} RejectedHasCause(c: Config, s: State, steps: seq<Step>, id: nat)
    requires id in Rejected(c, s, steps)
    ensures WasRejected(c, s, steps, id)
  {
    var n := |steps| - 1;
    if id in Rejected(c, s, steps[..n]) {
      RejectedHasCause(c, s, steps[..n], id);
      var k :| 0 <= k < n && Rejects(c, Run(c, s, steps[..n][..k]), steps[..n][k], id);
      assert steps[..n][..k] == steps[..k];
    } else {
      assert Rejects(c, Run(c, s, steps[..n]), steps[n], id);
    }
  }

  /** A row is persisted as failed only if some relay found it without attempts left, or some publish of it
      raised an infrastructure error other than an outage: no outage of the broker ever fails a row. */
  lemma FailedWasRejected(c: Config, steps: seq<Step>, id: nat)
    requires id < |Run(c, EMPTY, steps).rows| && Run(c, EMPTY, steps).rows[id].failed
    ensures WasRejected(c, EMPTY, steps, id)
  {
    RunExplainsFailures(c, steps);
    RejectedHasCause(c, EMPTY, steps, id);
  }

  /** A message reaches the broker only through a publish, and a row without attempts left is not published. */
  lemma StoredByPublish(c: Config, s: State, step: Step)
    requires Enabled(c, s, step)
    ensures if !step.PublishNext? then Next(c, s, step).log == s.log
      else
        var id := s.claims[step.relay].ids[|s.claims[step.relay].fates|];
        Next(c, s, step).log == if step.stored && s.rows[id].attempts < c.maxAttempts then s.log + [id] else s.log
  {
    if step.PublishNext? {
      FateCases(c.maxAttempts, s.rows[s.claims[step.relay].ids[|s.claims[step.relay].fates|]], step.outcome);
    }
  }

  /** Once a publish finds the broker down, the batch can only be aborted. */
  lemma OutageOnlyAborts(c: Config, s: State, r: RelayId, stored: bool)
    requires var step := PublishNext(r, Raised(BrokerUnavailable), stored);
      Enabled(c, s, step) && s.rows[s.claims[r].ids[|s.claims[r].fates|]].attempts < c.maxAttempts
    ensures var next := Next(c, s, PublishNext(r, Raised(BrokerUnavailable), stored));
      && next.rows == s.rows && !Enabled(c, next, Commit(r))
      && (forall outcome, again :: !Enabled(c, next, PublishNext(r, outcome, again)))
      && Next(c, next, Abort(r)).rows == s.rows
  {
    var next := Next(c, s, PublishNext(r, Raised(BrokerUnavailable), stored));
    assert next.claims[r].fates[|s.claims[r].fates|] == Outage;
  }

  // ---------------------------------------------------------------- a sequential tick is a run

  lemma RunSnoc(c: Config, s: State, steps: seq<Step>, step: Step)
    ensures Run(c, s, steps + [step]) == Next(c, Run(c, s, steps), step)
  {
    assert (steps + [step])[..|steps|] == steps;
  }

  lemma {:induction false} RunConcat(c: Config, s: State, a: seq<Step>, b: seq<Step>)
    ensures Run(c, s, a + b) == Run(c, Run(c, s, a), b)
  {
    if b == [] {
      assert a + b == a;
    } else {
      var n := |b| - 1;
      RunConcat(c, s, a, b[..n]);
      assert (a + b)[..|a + b| - 1] == a + b[..n];
    }
  }

  lemma ClaimStep(c: Config, s: State, r: RelayId, ids: seq<nat>)
    requires s.claims == map[] && IsClaim(s.rows, {}, c.batchSize, ids)
    ensures Next(c, s, ClaimBatch(r, ids)) == s.(claims := map[r := Claim(ids, [])])
  {
    assert Locked(s) == {};
  }

  /** The first k publish attempts of a tick. */
  ghost function Attempts(r: RelayId, outcomes: seq<Outcome>, k: nat): seq<Step>
    requires k <= |outcomes|
  {
    if k == 0 then []
    else Attempts(r, outcomes, k - 1) + [PublishNext(r, outcomes[k - 1], outcomes[k - 1].Acked?)]
  }

  lemma AttemptStep(c: Config, t: State, r: RelayId, ids: seq<nat>, done: seq<Fate>, outcome: Outcome)
    requires t.claims == map[r := Claim(ids, done)] && |done| < |ids| && Outage !in done && ids[|done|] < |t.rows|
    ensures var next := Next(c, t, PublishNext(r, outcome, outcome.Acked?));
      && next.rows == t.rows
      && next.claims == map[r := Claim(ids, done + [FateOf(c.maxAttempts, t.rows[ids[|done|]], outcome)])]
  {
  }

  lemma {:induction false} AttemptRun(
      c: Config, s: State, before: seq<Step>, r: RelayId, ids: seq<nat>, fates: seq<Fate>, k: nat, outcome: Outcome)
    requires k < |ids| == |fates| && Outage !in fates[..k]
    requires var t := Run(c, s, before);
      && t.claims == map[r := Claim(ids, fates[..k])]
      && ids[k] < |t.rows| && fates[k] == FateOf(c.maxAttempts, t.rows[ids[k]], outcome)
    ensures var next := Run(c, s, before + [PublishNext(r, outcome, outcome.Acked?)]);
      next.rows == Run(c, s, before).rows && next.claims == map[r := Claim(ids, fates[..k + 1])]
  {
    AttemptStep(c, Run(c, s, before), r, ids, fates[..k], outcome);
    RunSnoc(c, s, before, PublishNext(r, outcome, outcome.Acked?));
    assert fates[..k + 1] == fates[..k] + [fates[k]];
  }

  lemma {:induction false} AttemptsBuildFates(
      c: Config, s: State, r: RelayId, ids: seq<nat>, outcomes: seq<Outcome>, fates: seq<Fate>, k: nat)
    requires s.claims == map[r := Claim(ids, [])] && |outcomes| == |ids| == |fates|
    requires forall i :: 0 <= i < |ids| ==> ids[i] < |s.rows| && fates[i] == FateOf(c.maxAttempts, s.rows[ids[i]], outcomes[i])
    requires k <= |ids| && forall i :: 0 <= i < k - 1 ==> fates[i] != Outage
    ensures var t := Run(c, s, Attempts(r, outcomes, k));
      t.rows == s.rows && t.claims == map[r := Claim(ids, fates[..k])]
  {
    if k == 0 {
      assert fates[..0] == [];
    } else {
      AttemptsBuildFates(c, s, r, ids, outcomes, fates, k - 1);
      assert Outage !in fates[..k - 1];
      AttemptRun(c, s, Attempts(r, outcomes, k - 1), r, ids, fates, k - 1, outcomes[k - 1]);
    }
  }

  lemma FinishStep(c: Config, t: State, r: RelayId, ids: seq<nat>, fates: seq<Fate>)
    requires t.claims == map[r := Claim(ids, fates)] && forall i :: 0 <= i < |ids| ==> ids[i] < |t.rows|
    ensures Next(c, t, Abort(r)) == t.(claims := map[])
    ensures |fates| == |ids| && Outage !in fates ==>
      Next(c, t, Commit(r)) == t.(claims := map[], rows := WriteBack(t.rows, ids, Flushed(Selected(t.rows, ids), fates)))
  {
    assert map[r := Claim(ids, fates)] - {r} == map[];
  }

  lemma {:induction false} AttemptsAndFinish(
      c: Config, s: State, r: RelayId, ids: seq<nat>, outcomes: seq<Outcome>, fates: seq<Fate>, tried: nat, commits: bool)
    requires s.claims == map[r := Claim(ids, [])] && |outcomes| == |ids| == |fates|
    requires forall i :: 0 <= i < |ids| ==> ids[i] < |s.rows| && fates[i] == FateOf(c.maxAttempts, s.rows[ids[i]], outcomes[i])
    requires tried <= |ids| && forall i :: 0 <= i < tried - 1 ==> fates[i] != Outage
    requires commits ==> tried == |ids| && Outage !in fates
    ensures var last := Run(c, s, Attempts(r, outcomes, tried) + [if commits then Commit(r) else Abort(r)]);
      && last.claims == map[]
      && last.rows == if commits then WriteBack(s.rows, ids, Flushed(Selected(s.rows, ids), fates)) else s.rows
  {
    var attempts := Attempts(r, outcomes, tried);
    AttemptsBuildFates(c, s, r, ids, outcomes, fates, tried);
    FinishStep(c, Run(c, s, attempts), r, ids, fates[..tried]);
    RunSnoc(c, s, attempts, if commits then Commit(r) else Abort(r));
    assert tried == |ids| ==> fates[..tried] == fates;
  }

  /** The steps lead to a table with the given rows, none of them locked. */
  ghost predicate EndsIdle(c: Config, s: State, steps: seq<Step>, rows: seq<Row>) {
    Run(c, s, steps).rows == rows && Run(c, s, steps).claims == map[]
  }

  ghost function BatchSteps(r: RelayId, ids: seq<nat>, outcomes: seq<Outcome>, tried: nat, commits: bool): seq<Step>
    requires tried <= |outcomes|
  {
    [ClaimBatch(r, ids)] + (Attempts(r, outcomes, tried) + [if commits then Commit(r) else Abort(r)])
  }

  /** The steps of one _tick: claim, attempts up to and including an outage, then commit or abort. */
  ghost function TickSteps(c: Config, rows: seq<Row>, r: RelayId, w: Weather): seq<Step>
    requires w.Runs? && Possible(rows, c.batchSize, w)
  {
    var k := FirstOutage(Fates(c.maxAttempts, Selected(rows, w.ids), w.outcomes));
    var tried := if k < |w.ids| then k + 1 else k;
    BatchSteps(r, w.ids, w.outcomes, tried, k == |w.ids| && w.commits)
  }

  lemma {:induction false} ClaimThen(c: Config, s: State, r: RelayId, ids: seq<nat>, rest: seq<Step>)
    requires s.claims == map[] && IsClaim(s.rows, {}, c.batchSize, ids)
    ensures Run(c, s, [ClaimBatch(r, ids)] + rest) == Run(c, s.(claims := map[r := Claim(ids, [])]), rest)
  {
    ClaimStep(c, s, r, ids);
    RunOne(c, s, ClaimBatch(r, ids));
    RunConcat(c, s, [ClaimBatch(r, ids)], rest);
  }

  lemma RunOne(c: Config, s: State, step: Step)
    ensures Run(c, s, [step]) == Next(c, s, step)
  {
    assert [step][..0] == [];
  }

  lemma {:induction false} ClaimAttemptsAndFinish(
      c: Config, s: State, r: RelayId, ids: seq<nat>, outcomes: seq<Outcome>, fates: seq<Fate>, tried: nat, commits: bool)
    requires s.claims == map[] && IsClaim(s.rows, {}, c.batchSize, ids) && |outcomes| == |ids| == |fates|
    requires forall i :: 0 <= i < |ids| ==> fates[i] == FateOf(c.maxAttempts, s.rows[ids[i]], outcomes[i])
    requires tried <= |ids| && forall i :: 0 <= i < tried - 1 ==> fates[i] != Outage
    requires commits ==> tried == |ids| && Outage !in fates
    ensures EndsIdle(c, s, BatchSteps(r, ids, outcomes, tried, commits),
      if commits then WriteBack(s.rows, ids, Flushed(Selected(s.rows, ids), fates)) else s.rows)
  {
    AttemptsAndFinish(c, s.(claims := map[r := Claim(ids, [])]), r, ids, outcomes, fates, tried, commits);
    ClaimThen(c, s, r, ids, Attempts(r, outcomes, tried) + [if commits then Commit(r) else Abort(r)]);
  }

  lemma TickOutcome(c: Config, rows: seq<Row>, w: Weather)
    requires w.Runs? && Possible(rows, c.batchSize, w)
    ensures var fates := Fates(c.maxAttempts, Selected(rows, w.ids), w.outcomes);
      && (Outage in fates <==> FirstOutage(fates) < |w.ids|)
      && RowsAfterTick(c.maxAttempts, rows, w)
           == if FirstOutage(fates) == |w.ids| && w.commits then WriteBack(rows, w.ids, Flushed(Selected(rows, w.ids), fates))
              else rows
  {
  }

  /** The sequential _tick is a run of the interleaved machine with the same effect on the table, and
      leaves no row locked. */
  lemma {:induction false} TickIsARun(c: Config, s: State, r: RelayId, w: Weather)
    requires s.claims == map[] && w.Runs? && Possible(s.rows, c.batchSize, w)
    ensures EndsIdle(c, s, TickSteps(c, s.rows, r, w), RowsAfterTick(c.maxAttempts, s.rows, w))
  {
    var fates := Fates(c.maxAttempts, Selected(s.rows, w.ids), w.outcomes);
    var k := FirstOutage(fates);
    var tried := if k < |w.ids| then k + 1 else k;
    TickOutcome(c, s.rows, w);
    ClaimAttemptsAndFinish(c, s, r, w.ids, w.outcomes, fates, tried, k == |w.ids| && w.commits);
  }
}
