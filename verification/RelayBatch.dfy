/** One batch of the outbox relay, src/workers/outbox_relay.py: publish every claimed row, then mark
    rows processed by count.

    The functions say what one pass does to the rows, and the lemmas what the two passes together
    achieve.  The passes themselves are methods on an array of rows, in module RelayTick. */
module RelayBatch {
  /** The persisted fields of an outbox row that the relay reads or writes. */
  datatype Row = Row(createdAt: int, attempts: nat, processed: bool, failed: bool) {
    predicate Resolved() { processed || failed }
  }

  /** Exceptions that _publish_one can raise, by class: BrokerUnavailableError is itself an
      InfrastructureError, so the order of the handlers matters. */
  datatype Error = BrokerUnavailable | OtherInfrastructure | OtherException

  predicate IsInfrastructureError(e: Error) { !e.OtherException? }

  datatype Outcome = Acked | Raised(error: Error)

  /** What becomes of a visited row. */
  datatype Fate = Exhausted | Published | Outage | Permanent | Transient

  function FateOf(maxAttempts: nat, row: Row, outcome: Outcome): Fate {
    if row.attempts >= maxAttempts then Exhausted
    else
      match outcome
      case Acked => Published
      case Raised(BrokerUnavailable) => Outage
      case Raised(OtherInfrastructure) => Permanent
      case Raised(OtherException) => Transient
  }

  /** The in-memory row after its publish attempt. */
  function Visited(row: Row, fate: Fate): Row {
    match fate
    case Exhausted => row.(failed := true)
    case Published => row
    case Outage => row.(attempts := row.attempts + 1)
    case Permanent => row.(attempts := row.attempts + 1, failed := true)
    case Transient => row.(attempts := row.attempts + 1)
  }

  /** Which outcome leads to which fate: only an outage of the broker stops the batch, only another
      infrastructure error is permanent, and a row without attempts left is not published at all. */
  lemma FateCases(maxAttempts: nat, row: Row, outcome: Outcome)
    ensures var fate, left := FateOf(maxAttempts, row, outcome), row.attempts < maxAttempts;
      && (fate == Exhausted <==> !left)
      && (fate == Published <==> left && outcome == Acked)
      && (fate == Outage <==> left && outcome == Raised(BrokerUnavailable))
      && (fate == Permanent <==> left && outcome == Raised(OtherInfrastructure))
      && (fate == Transient <==> left && outcome == Raised(OtherException))
  {
  }

  /** What a visit leaves of the row: every raised publish costs an attempt, and the failed flag is set
      without attempts left or by a permanent error. */
  predicate IsVisited(maxAttempts: nat, row: Row, outcome: Outcome, visited: Row) {
    var left := row.attempts < maxAttempts;
    && visited.createdAt == row.createdAt && visited.processed == row.processed
    && visited.attempts == row.attempts + (if left && outcome.Raised? then 1 else 0)
    && (visited.failed <==> row.failed || !left || outcome == Raised(OtherInfrastructure))
  }

  lemma VisitedCases(maxAttempts: nat, row: Row, outcome: Outcome)
    ensures IsVisited(maxAttempts, row, outcome, Visited(row, FateOf(maxAttempts, row, outcome)))
  {
  }

  function Tally(kind: Fate, fates: seq<Fate>): nat {
    if fates == [] then 0
    else Tally(kind, fates[..|fates| - 1]) + (if fates[|fates| - 1] == kind then 1 else 0)
  }

  /** Rows that carry no failed flag after the publish pass. */
  function Markable(fates: seq<Fate>): nat { Tally(Published, fates) + Tally(Transient, fates) }

  lemma {:induction false} TalliesCover(fates: seq<Fate>)
    ensures Tally(Exhausted, fates) + Tally(Published, fates) + Tally(Outage, fates)
      + Tally(Permanent, fates) + Tally(Transient, fates) == |fates|
  {
    if fates != [] {
      TalliesCover(fates[..|fates| - 1]);
    }
  }

  ghost function With(kind: Fate, fates: seq<Fate>): set<nat> { set i: nat | i < |fates| && fates[i] == kind }

  /** A tally counts the rows with that fate. */
  lemma {:induction false} TallyCounts(kind: Fate, fates: seq<Fate>)
    ensures Tally(kind, fates) == |With(kind, fates)|
  {
    if fates != [] {
      var n := |fates| - 1;
      TallyCounts(kind, fates[..n]);
      if fates[n] == kind {
        assert With(kind, fates) == With(kind, fates[..n]) + {n};
      } else {
        assert With(kind, fates) == With(kind, fates[..n]);
      }
    }
  }

  lemma {:induction false} TallyStep(fates: seq<Fate>, i: nat)
    requires i < |fates|
    ensures forall kind :: Tally(kind, fates[..i + 1]) == Tally(kind, fates[..i]) + (if fates[i] == kind then 1 else 0)
  {
    assert fates[..i + 1][..i] == fates[..i];
  }

  lemma {:induction false} TallyMonotone(kind: Fate, fates: seq<Fate>, i: nat, j: nat)
    requires i <= j <= |fates|
    ensures Tally(kind, fates[..i]) <= Tally(kind, fates[..j])
    ensures i < j && fates[i] == kind ==> Tally(kind, fates[..i]) < Tally(kind, fates[..j])
  {
    if i < j {
      TallyMonotone(kind, fates, i, j - 1);
      assert fates[..j][..j - 1] == fates[..j - 1];
    }
  }

  lemma {:induction false} TallyAbsent(kind: Fate, fates: seq<Fate>, i: nat, j: nat)
    requires i <= j <= |fates|
    requires forall k :: i <= k < j ==> fates[k] != kind
    ensures Tally(kind, fates[..i]) == Tally(kind, fates[..j])
  {
    if i < j {
      TallyAbsent(kind, fates, i, j - 1);
      assert fates[..j][..j - 1] == fates[..j - 1];
    }
  }

  // ---------------------------------------------------------------- the marking pass

  /** Whether the counting loop of _mark_batch reaches row i with quota left. */
  predicate Marks(fates: seq<Fate>, i: nat)
    requires i < |fates|
  {
    fates[i] in {Published, Transient} && Markable(fates[..i]) < Tally(Published, fates)
  }

  /** The row as it is flushed by a tick that publishes without an outage and marks by count. */
  function Flushed(rows: seq<Row>, fates: seq<Fate>): (r: seq<Row>)
    requires |rows| == |fates|
    ensures |r| == |rows|
  {
    seq(|rows|, i requires 0 <= i < |rows| =>
      if Marks(fates, i) then Visited(rows[i], fates[i]).(processed := true) else Visited(rows[i], fates[i]))
  }

  /** No row that hit an unexpected error comes before a published one. */
  ghost predicate InOrder(fates: seq<Fate>) {
    forall i, j :: 0 <= i < j < |fates| && fates[i] == Transient ==> fates[j] != Published
  }

  /** Marking is by count, not by row: the marked rows are the published rows exactly when no row
      with an unexpected error precedes a published one. */
  lemma MarkedIsPublishedIffInOrder(fates: seq<Fate>)
    ensures (forall i :: 0 <= i < |fates| ==> (Marks(fates, i) <==> fates[i] == Published)) <==> InOrder(fates)
  {
    var n := |fates|;
    assert fates[..n] == fates;
    if InOrder(fates) {
      forall i | 0 <= i < n
        ensures Marks(fates, i) <==> fates[i] == Published
      {
        if fates[i] == Published {
          TallyAbsent(Transient, fates, 0, i);
          assert fates[..0] == [];
          TallyMonotone(Published, fates, i, n);
        } else if fates[i] == Transient {
          TallyAbsent(Published, fates, i, n);
        }
      }
    } else {
      var i, j :| 0 <= i < j < n && fates[i] == Transient && fates[j] == Published;
      TallyMonotone(Published, fates, i, j);
      TallyMonotone(Transient, fates, i, j);
      assert Marks(fates, j) ==> Marks(fates, i);
    }
  }

  ghost function MarksIn(fates: seq<Fate>, i: nat): nat
    requires i <= |fates|
  {
    if i == 0 then 0 else MarksIn(fates, i - 1) + (if Marks(fates, i - 1) then 1 else 0)
  }

  lemma {:induction false} MarksSoFar(fates: seq<Fate>, i: nat)
    requires i <= |fates|
    ensures var quota := Tally(Published, fates);
      MarksIn(fates, i) == if Markable(fates[..i]) < quota then Markable(fates[..i]) else quota
  {
    if 0 < i {
      MarksSoFar(fates, i - 1);
      assert fates[..i][..i - 1] == fates[..i - 1];
    }
  }

  /** Exactly as many rows are marked as were published. */
  lemma MarksAsManyAsPublished(fates: seq<Fate>)
    ensures MarksIn(fates, |fates|) == Tally(Published, fates)
  {
    MarksSoFar(fates, |fates|);
    assert fates[..|fates|] == fates;
  }

  /** Out of order, the first row with an unexpected error is marked although it was not published. */
  lemma OutOfOrderMarksTransient(fates: seq<Fate>) returns (i: nat)
    requires !InOrder(fates)
    ensures i < |fates| && fates[i] == Transient && Marks(fates, i)
  {
    var a, j :| 0 <= a < j < |fates| && fates[a] == Transient && fates[j] == Published;
    i := 0;
    while fates[i] != Transient
      invariant i <= a && forall k :: 0 <= k < i ==> fates[k] != Transient
      decreases a - i
    {
      i := i + 1;
    }
    TallyAbsent(Transient, fates, 0, i);
    assert fates[..0] == [] && fates[..|fates|] == fates;
    TallyMonotone(Published, fates, i, j);
    TallyMonotone(Published, fates, j, |fates|);
  }

  // ---------------------------------------------------------------- progress

  /** How much work an unresolved row can still cause. */
  function Weight(maxAttempts: nat, row: Row): nat {
    if row.Resolved() || row.attempts > maxAttempts then 0 else maxAttempts + 1 - row.attempts
  }

  function TotalWeight(maxAttempts: nat, rows: seq<Row>): nat {
    if rows == [] then 0
    else TotalWeight(maxAttempts, rows[..|rows| - 1]) + Weight(maxAttempts, rows[|rows| - 1])
  }

  /** The rows _claim_batch can return, with retry counters the relay itself produced. */
  ghost predicate Claimable(maxAttempts: nat, rows: seq<Row>) {
    forall i :: 0 <= i < |rows| ==> !rows[i].Resolved() && rows[i].attempts <= maxAttempts
  }

  ghost predicate FatesOf(maxAttempts: nat, rows: seq<Row>, fates: seq<Fate>) {
    |fates| == |rows| && forall i :: 0 <= i < |rows| ==> (fates[i] == Exhausted <==> rows[i].attempts >= maxAttempts)
  }

  lemma {:induction false} PrefixDrop(maxAttempts: nat, rows: seq<Row>, fates: seq<Fate>, i: nat)
    requires Claimable(maxAttempts, rows) && FatesOf(maxAttempts, rows, fates) && Outage !in fates
    requires i <= |rows|
    ensures TotalWeight(maxAttempts, rows[..i]) + Tally(Published, fates[..i])
      >= TotalWeight(maxAttempts, Flushed(rows, fates)[..i]) + i + MarksIn(fates, i)
  {
    if 0 < i {
      PrefixDrop(maxAttempts, rows, fates, i - 1);
      var flushed := Flushed(rows, fates);
      assert rows[..i][..i - 1] == rows[..i - 1] && fates[..i][..i - 1] == fates[..i - 1];
      assert flushed[..i][..i - 1] == flushed[..i - 1];
    }
  }

  /** A flushed batch lowers the total weight by at least its length, even when marking by count
      leaves a published row unresolved. */
  lemma BatchLowersWeight(maxAttempts: nat, rows: seq<Row>, fates: seq<Fate>)
    requires Claimable(maxAttempts, rows) && FatesOf(maxAttempts, rows, fates) && Outage !in fates
    ensures TotalWeight(maxAttempts, Flushed(rows, fates)) + |rows| <= TotalWeight(maxAttempts, rows)
  {
    PrefixDrop(maxAttempts, rows, fates, |rows|);
    MarksAsManyAsPublished(fates);
    assert rows[..|rows|] == rows && fates[..|rows|] == fates;
    assert Flushed(rows, fates)[..|rows|] == Flushed(rows, fates);
  }
}
