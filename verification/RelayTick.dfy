/** The relay object of src/workers/outbox_relay.py: `_publish_batch`, `_mark_batch` and `_tick`, and
    the proof that ticking drains the outbox. */
module RelayTick {
  import opened Prelude
  import opened RelayBatch

  function Fates(maxAttempts: nat, rows: seq<Row>, outcomes: seq<Outcome>): (f: seq<Fate>)
    requires |outcomes| == |rows|
    ensures |f| == |rows|
  {
    seq(|rows|, i requires 0 <= i < |rows| => FateOf(maxAttempts, rows[i], outcomes[i]))
  }

  /** Index of the row at which the loop gives up, or the length when it does not. */
  function FirstOutage(fates: seq<Fate>): (k: nat)
    ensures k <= |fates|
    ensures k < |fates| ==> fates[k] == Outage
    ensures forall i :: 0 <= i < k ==> fates[i] != Outage
  {
    if fates == [] then 0
    else
      var n := |fates| - 1;
      var k := FirstOutage(fates[..n]);
      if k < n then k else if fates[n] == Outage then n else n + 1
  }

  function PublishedCount(fates: seq<Fate>): nat { Tally(Published, fates[..FirstOutage(fates)]) }

  function PoisonCount(fates: seq<Fate>): nat {
    var seen := fates[..FirstOutage(fates)];
    Tally(Exhausted, seen) + Tally(Permanent, seen)
  }

  /** Publish attempts that raised; after an outage the unvisited rest is added, unless the permanent
      errors, which are counted twice, already outnumber it. */
  function FailedCount(fates: seq<Fate>): nat {
    var k := FirstOutage(fates);
    var raised := Tally(Permanent, fates[..k]) + Tally(Transient, fates[..k]);
    if k == |fates| then raised
    else raised + 1 + Max(0, |fates| - PublishedCount(fates) - (raised + 1) - PoisonCount(fates))
  }

  /** The counters after a part of the batch without outage. */
  ghost predicate Counts(seen: seq<Fate>, published: nat, failed: nat, poison: nat) {
    && published == Tally(Published, seen)
    && failed == Tally(Permanent, seen) + Tally(Transient, seen)
    && poison == Tally(Exhausted, seen) + Tally(Permanent, seen)
  }

  lemma CountsStep(fates: seq<Fate>, i: nat, published: nat, failed: nat, poison: nat)
    requires i < |fates| && Counts(fates[..i], published, failed, poison)
    ensures var fate := fates[i];
      Counts(fates[..i + 1], published + (if fate == Published then 1 else 0),
        failed + (if fate == Permanent || fate == Transient then 1 else 0),
        poison + (if fate == Exhausted || fate == Permanent then 1 else 0))
  {
    TallyStep(fates, i);
  }

  /** Batch accounting: the three counters add up to the rows plus the permanent errors, and after an
      outage to the larger of the rows and the visited rows plus the permanent errors. */
  lemma {:induction false} BatchAccounting(fates: seq<Fate>)
    ensures var k := FirstOutage(fates);
      PublishedCount(fates) + FailedCount(fates) + PoisonCount(fates)
        == if k == |fates| then |fates| + Tally(Permanent, fates)
           else Max(|fates|, k + 1 + Tally(Permanent, fates[..k]))
  {
    var k := FirstOutage(fates);
    TalliesCover(fates[..k]);
    TallyAbsent(Outage, fates, 0, k);
    assert fates[..0] == [];
    assert k == |fates| ==> fates[..k] == fates;
  }

  /** The rows in memory after the publish pass: rows beyond an outage are not touched. */
  function VisitedRows(rows: seq<Row>, fates: seq<Fate>): (r: seq<Row>)
    requires |rows| == |fates|
    ensures |r| == |rows|
  {
    seq(|rows|, i requires 0 <= i < |rows| =>
      if i <= FirstOutage(fates) then Visited(rows[i], fates[i]) else rows[i])
  }

  lemma PassEndsAt(now: seq<Row>, before: seq<Row>, fates: seq<Fate>, i: nat)
    requires |now| == |before| == |fates| && i <= |fates|
    requires i < |fates| ==> fates[i] == Outage
    requires forall j :: 0 <= j < i ==> fates[j] != Outage
    requires forall j :: 0 <= j < |now| ==> now[j] == if j <= i then Visited(before[j], fates[j]) else before[j]
    ensures FirstOutage(fates) == i && now == VisitedRows(before, fates)
  {
  }

  function Unfailed(rows: seq<Row>): nat {
    if rows == [] then 0 else Unfailed(rows[..|rows| - 1]) + (if rows[|rows| - 1].failed then 0 else 1)
  }

  /** The first `quota` rows without the failed flag, marked processed. */
  function MarkedByCount(rows: seq<Row>, quota: nat): (r: seq<Row>)
    ensures |r| == |rows|
  {
    seq(|rows|, i requires 0 <= i < |rows| =>
      if !rows[i].failed && Unfailed(rows[..i]) < quota then rows[i].(processed := true) else rows[i])
  }

  lemma {:induction false} UnfailedIsMarkable(rows: seq<Row>, fates: seq<Fate>, i: nat)
    requires |rows| == |fates| && i <= |rows| && Outage !in fates
    requires forall k :: 0 <= k < |rows| ==> !rows[k].failed
    ensures Unfailed(VisitedRows(rows, fates)[..i]) == Markable(fates[..i])
  {
    if 0 < i {
      UnfailedIsMarkable(rows, fates, i - 1);
      var v := VisitedRows(rows, fates);
      assert v[..i][..i - 1] == v[..i - 1] && fates[..i][..i - 1] == fates[..i - 1];
    }
  }

  /** The two passes together: what a tick flushes when the broker stays up. */
  lemma MarkingFlushes(rows: seq<Row>, fates: seq<Fate>)
    requires |rows| == |fates| && Outage !in fates
    requires forall k :: 0 <= k < |rows| ==> !rows[k].failed
    ensures MarkedByCount(VisitedRows(rows, fates), Tally(Published, fates)) == Flushed(rows, fates)
  {
    forall i | 0 <= i < |rows|
      ensures MarkedByCount(VisitedRows(rows, fates), Tally(Published, fates))[i] == Flushed(rows, fates)[i]
    {
      UnfailedIsMarkable(rows, fates, i);
    }
  }

  // ---------------------------------------------------------------- the table

  /** SELECT ... WHERE NOT processed AND NOT failed ORDER BY created_at LIMIT n FOR UPDATE SKIP
      LOCKED.  A row is named by its position in the table; the order among equal timestamps is
      left to the database. */
  ghost predicate IsClaim(rows: seq<Row>, locked: set<nat>, limit: nat, ids: seq<nat>) {
    && |ids| <= limit
    && (forall i :: 0 <= i < |ids| ==> ids[i] < |rows| && ids[i] !in locked && !rows[ids[i]].Resolved())
    && (forall i, j :: 0 <= i < j < |ids| ==> ids[i] != ids[j] && rows[ids[i]].createdAt <= rows[ids[j]].createdAt)
    && (forall id :: 0 <= id < |rows| && id !in locked && !rows[id].Resolved() && id !in ids ==>
          |ids| == limit && forall i :: 0 <= i < |ids| ==> rows[ids[i]].createdAt <= rows[id].createdAt)
  }

  /** Oldest first: a claimable row older than all others is the first of the claim, so that no row waits
      behind younger ones. */
  lemma OldestIsClaimedFirst(rows: seq<Row>, locked: set<nat>, limit: nat, ids: seq<nat>, id: nat)
    requires IsClaim(rows, locked, limit, ids) && 1 <= limit
    requires id < |rows| && id !in locked && !rows[id].Resolved()
    requires forall other :: 0 <= other < |rows| && other != id && other !in locked && !rows[other].Resolved() ==>
      rows[id].createdAt < rows[other].createdAt
    ensures ids != [] && ids[0] == id
  {
    if id in ids {
      var i :| 0 <= i < |ids| && ids[i] == id;
      assert rows[ids[0]].createdAt <= rows[ids[i]].createdAt;
    } else {
      LeftOutIsNoOlder(rows, locked, limit, ids, id);
    }
  }

  lemma LeftOutIsNoOlder(rows: seq<Row>, locked: set<nat>, limit: nat, ids: seq<nat>, id: nat)
    requires IsClaim(rows, locked, limit, ids) && 1 <= limit
    requires id < |rows| && id !in locked && !rows[id].Resolved() && id !in ids
    ensures ids != [] && rows[ids[0]].createdAt <= rows[id].createdAt
  {
  }

  function Selected(rows: seq<Row>, ids: seq<nat>): (r: seq<Row>)
    requires forall i :: 0 <= i < |ids| ==> ids[i] < |rows|
    ensures |r| == |ids|
  {
    seq(|ids|, i requires 0 <= i < |ids| => rows[ids[i]])
  }

  /** UPDATE of the claimed rows at commit. */
  function WriteBack(rows: seq<Row>, ids: seq<nat>, vals: seq<Row>): (r: seq<Row>)
    requires |ids| == |vals| && forall i :: 0 <= i < |ids| ==> ids[i] < |rows|
    ensures |r| == |rows|
  {
    if ids == [] then rows
    else
      var n := |ids| - 1;
      WriteBack(rows, ids[..n], vals[..n])[ids[n] := vals[n]]
  }

  ghost predicate Distinct(ids: seq<nat>) { forall i, j :: 0 <= i < j < |ids| ==> ids[i] != ids[j] }

  lemma {:induction false} WriteBackAt(rows: seq<Row>, ids: seq<nat>, vals: seq<Row>)
    requires |ids| == |vals| && Distinct(ids) && forall i :: 0 <= i < |ids| ==> ids[i] < |rows|
    ensures var r := WriteBack(rows, ids, vals);
      && (forall i :: 0 <= i < |ids| ==> r[ids[i]] == vals[i])
      && (forall id :: 0 <= id < |rows| && id !in ids ==> r[id] == rows[id])
  {
    if ids != [] {
      var n := |ids| - 1;
      var front, part := ids[..n], WriteBack(rows, ids[..n], vals[..n]);
      WriteBackAt(rows, front, vals[..n]);
      forall i | 0 <= i < |ids|
        ensures WriteBack(rows, ids, vals)[ids[i]] == vals[i]
      {
        if i < n {
          assert part[front[i]] == vals[..n][i];
        }
      }
      forall id | 0 <= id < |rows| && id !in ids
        ensures WriteBack(rows, ids, vals)[id] == rows[id]
      {
        assert id !in front && id != ids[n];
      }
    }
  }

  lemma {:induction false} WeightUpdate(maxAttempts: nat, rows: seq<Row>, id: nat, v: Row)
    requires id < |rows|
    ensures TotalWeight(maxAttempts, rows[id := v]) + Weight(maxAttempts, rows[id])
      == TotalWeight(maxAttempts, rows) + Weight(maxAttempts, v)
  {
    var n := |rows| - 1;
    if id == n {
      assert rows[id := v][..n] == rows[..n];
    } else {
      assert rows[id := v][..n] == rows[..n][id := v];
      WeightUpdate(maxAttempts, rows[..n], id, v);
    }
  }

  lemma {:induction false} WeightWriteBack(maxAttempts: nat, rows: seq<Row>, ids: seq<nat>, vals: seq<Row>)
    requires |ids| == |vals| && Distinct(ids) && forall i :: 0 <= i < |ids| ==> ids[i] < |rows|
    ensures TotalWeight(maxAttempts, WriteBack(rows, ids, vals)) + TotalWeight(maxAttempts, Selected(rows, ids))
      == TotalWeight(maxAttempts, rows) + TotalWeight(maxAttempts, vals)
  {
    if ids != [] {
      var n := |ids| - 1;
      var part := WriteBack(rows, ids[..n], vals[..n]);
      WeightWriteBack(maxAttempts, rows, ids[..n], vals[..n]);
      WriteBackAt(rows, ids[..n], vals[..n]);
      assert part[ids[n]] == rows[ids[n]];
      WeightUpdate(maxAttempts, part, ids[n], vals[n]);
      assert Selected(rows, ids)[..n] == Selected(rows, ids[..n]);
    }
  }

  // ---------------------------------------------------------------- one tick, as a value

  /** What the database and the broker do to one tick. */
  datatype Weather =
    | ClaimFails
    | Runs(ids: seq<nat>, outcomes: seq<Outcome>, commits: bool)

  ghost predicate Possible(rows: seq<Row>, limit: nat, w: Weather) {
    w.Runs? ==> IsClaim(rows, {}, limit, w.ids) && |w.outcomes| == |w.ids|
  }

  function RowsAfterTick(maxAttempts: nat, rows: seq<Row>, w: Weather): (r: seq<Row>)
    requires w.Runs? ==> |w.outcomes| == |w.ids| && forall i :: 0 <= i < |w.ids| ==> w.ids[i] < |rows|
    ensures |r| == |rows|
  {
    if w.ClaimFails? then rows
    else
      var batch := Selected(rows, w.ids);
      var fates := Fates(maxAttempts, batch, w.outcomes);
      if Outage in fates || !w.commits then rows
      else WriteBack(rows, w.ids, Flushed(batch, fates))
  }

  /** The tick reaches a row that has attempts left while the broker is down. */
  ghost predicate MeetsOutage(maxAttempts: nat, rows: seq<Row>, w: Weather) {
    && w.Runs? && |w.outcomes| == |w.ids|
    && exists i :: 0 <= i < |w.ids| && w.ids[i] < |rows| && rows[w.ids[i]].attempts < maxAttempts
         && w.outcomes[i] == Raised(BrokerUnavailable)
  }

  lemma OutageMeansBrokerDown(maxAttempts: nat, rows: seq<Row>, limit: nat, w: Weather)
    requires Possible(rows, limit, w) && w.Runs?
    ensures Outage in Fates(maxAttempts, Selected(rows, w.ids), w.outcomes) <==> MeetsOutage(maxAttempts, rows, w)
  {
    var fates := Fates(maxAttempts, Selected(rows, w.ids), w.outcomes);
    forall i | 0 <= i < |w.ids|
      ensures fates[i] == Outage <==> rows[w.ids[i]].attempts < maxAttempts && w.outcomes[i] == Raised(BrokerUnavailable)
    {
      FateCases(maxAttempts, rows[w.ids[i]], w.outcomes[i]);
    }
  }

  /** What a tick does to each row.  Nothing, if the claim fails, the commit is lost or the broker is down.
      Otherwise the claimed rows are as their visits left them, except for the processed flags, and as many
      of these are set as publishes were acknowledged. */
  lemma TickRow(maxAttempts: nat, rows: seq<Row>, limit: nat, w: Weather, id: nat)
    requires Possible(rows, limit, w) && id < |rows|
    ensures var after := RowsAfterTick(maxAttempts, rows, w);
      && (w.ClaimFails? || !w.commits || MeetsOutage(maxAttempts, rows, w) || id !in w.ids ==> after[id] == rows[id])
      && (w.Runs? && w.commits && !MeetsOutage(maxAttempts, rows, w) ==>
            forall i :: 0 <= i < |w.ids| && w.ids[i] == id ==>
              IsVisited(maxAttempts, rows[id], w.outcomes[i], after[id].(processed := rows[id].processed)))
  {
    if w.Runs? {
      OutageMeansBrokerDown(maxAttempts, rows, limit, w);
      var batch := Selected(rows, w.ids);
      var fates := Fates(maxAttempts, batch, w.outcomes);
      WriteBackAt(rows, w.ids, Flushed(batch, fates));
      forall i | 0 <= i < |w.ids| && w.ids[i] == id
        ensures IsVisited(maxAttempts, rows[id], w.outcomes[i], Flushed(batch, fates)[i].(processed := rows[id].processed))
      {
        VisitedCases(maxAttempts, rows[id], w.outcomes[i]);
      }
    }
  }

  /** A tick that neither meets an outage nor loses its claim or its commit. */
  ghost predicate Calm(maxAttempts: nat, rows: seq<Row>, limit: nat, w: Weather) {
    && Possible(rows, limit, w) && w.Runs? && w.commits
    && Outage !in Fates(maxAttempts, Selected(rows, w.ids), w.outcomes)
  }

  ghost predicate AttemptsBounded(maxAttempts: nat, rows: seq<Row>) {
    forall i :: 0 <= i < |rows| ==> rows[i].attempts <= maxAttempts
  }

  ghost predicate Drained(rows: seq<Row>) { forall i :: 0 <= i < |rows| ==> rows[i].Resolved() }

  lemma WriteBackBounded(maxAttempts: nat, rows: seq<Row>, ids: seq<nat>, vals: seq<Row>)
    requires |ids| == |vals| && Distinct(ids) && forall i :: 0 <= i < |ids| ==> ids[i] < |rows|
    requires AttemptsBounded(maxAttempts, rows) && AttemptsBounded(maxAttempts, vals)
    ensures AttemptsBounded(maxAttempts, WriteBack(rows, ids, vals))
  {
    WriteBackAt(rows, ids, vals);
    var after := WriteBack(rows, ids, vals);
    forall id | 0 <= id < |rows|
      ensures after[id].attempts <= maxAttempts
    {
      if id in ids {
        var i :| 0 <= i < |ids| && ids[i] == id;
        assert after[id] == vals[i];
      }
    }
  }

  /** No tick, whatever happens to it, lets a retry counter exceed the maximum. */
  lemma TickBoundsAttempts(maxAttempts: nat, rows: seq<Row>, limit: nat, w: Weather)
    requires AttemptsBounded(maxAttempts, rows) && Possible(rows, limit, w)
    ensures AttemptsBounded(maxAttempts, RowsAfterTick(maxAttempts, rows, w))
  {
    if w.Runs? {
      var batch := Selected(rows, w.ids);
      var fates := Fates(maxAttempts, batch, w.outcomes);
      WriteBackBounded(maxAttempts, rows, w.ids, Flushed(batch, fates));
    }
  }

  /** Each calm tick lowers the remaining weight by at least the number of rows it claimed. */
  lemma CalmTickMakesProgress(maxAttempts: nat, rows: seq<Row>, limit: nat, w: Weather)
    requires AttemptsBounded(maxAttempts, rows) && Calm(maxAttempts, rows, limit, w)
    ensures TotalWeight(maxAttempts, RowsAfterTick(maxAttempts, rows, w)) + |w.ids| <= TotalWeight(maxAttempts, rows)
  {
    var batch := Selected(rows, w.ids);
    var fates := Fates(maxAttempts, batch, w.outcomes);
    BatchLowersWeight(maxAttempts, batch, fates);
    WeightWriteBack(maxAttempts, rows, w.ids, Flushed(batch, fates));
  }

  /** Rows after a sequence of ticks. */
  ghost predicate CalmTicks(maxAttempts: nat, rows: seq<Row>, limit: nat, ws: seq<Weather>)
    decreases |ws|
  {
    ws != [] ==>
      && Calm(maxAttempts, rows, limit, ws[0])
      && CalmTicks(maxAttempts, RowsAfterTick(maxAttempts, rows, ws[0]), limit, ws[1..])
  }

  ghost function RowsAfterTicks(maxAttempts: nat, rows: seq<Row>, limit: nat, ws: seq<Weather>): seq<Row>
    requires CalmTicks(maxAttempts, rows, limit, ws)
    decreases |ws|
  {
    if ws == [] then rows
    else RowsAfterTicks(maxAttempts, RowsAfterTick(maxAttempts, rows, ws[0]), limit, ws[1..])
  }

  lemma {:induction false} WeightlessIsDrained(maxAttempts: nat, rows: seq<Row>)
    requires AttemptsBounded(maxAttempts, rows) && TotalWeight(maxAttempts, rows) == 0
    ensures Drained(rows)
  {
    if rows != [] {
      WeightlessIsDrained(maxAttempts, rows[..|rows| - 1]);
    }
  }

  lemma ClaimNeedsUnresolved(maxAttempts: nat, rows: seq<Row>, limit: nat, w: Weather)
    requires Calm(maxAttempts, rows, limit, w) && w.ids != []
    ensures !Drained(rows)
  {
    assert !rows[w.ids[0]].Resolved();
  }

  lemma DrainedStays(maxAttempts: nat, rows: seq<Row>, limit: nat, w: Weather)
    requires Drained(rows) && Calm(maxAttempts, rows, limit, w)
    ensures RowsAfterTick(maxAttempts, rows, w) == rows
  {
    if w.ids != [] {
      ClaimNeedsUnresolved(maxAttempts, rows, limit, w);
    }
  }

  /** The relay drains: with a batch size of at least one, any finite outbox is fully processed or
      failed after as many calm ticks as its total weight, whichever rows the database picks and
      however their publish attempts end. */
  lemma {:induction false} Drains(maxAttempts: nat, rows: seq<Row>, limit: nat, ws: seq<Weather>)
    requires 1 <= limit && AttemptsBounded(maxAttempts, rows) && CalmTicks(maxAttempts, rows, limit, ws)
    requires TotalWeight(maxAttempts, rows) <= |ws|
    ensures Drained(RowsAfterTicks(maxAttempts, rows, limit, ws))
    decreases |ws|
  {
    if ws == [] {
      WeightlessIsDrained(maxAttempts, rows);
    } else {
      var next := RowsAfterTick(maxAttempts, rows, ws[0]);
      TickBoundsAttempts(maxAttempts, rows, limit, ws[0]);
      CalmTickMakesProgress(maxAttempts, rows, limit, ws[0]);
      if ws[0].ids == [] {
        assert Drained(rows);
        StaysDrained(maxAttempts, rows, limit, ws);
      } else {
        Drains(maxAttempts, next, limit, ws[1..]);
      }
    }
  }

  lemma {:induction false} StaysDrained(maxAttempts: nat, rows: seq<Row>, limit: nat, ws: seq<Weather>)
    requires Drained(rows) && CalmTicks(maxAttempts, rows, limit, ws)
    ensures Drained(RowsAfterTicks(maxAttempts, rows, limit, ws))
    decreases |ws|
  {
    if ws != [] {
      DrainedStays(maxAttempts, rows, limit, ws[0]);
      StaysDrained(maxAttempts, rows, limit, ws[1..]);
    }
  }

  // ---------------------------------------------------------------- the statistics

  datatype Stats = Stats(polls: nat, rowsSeen: nat, rowsPublished: nat, rowsFailed: nat, rowsPoison: nat, emptyTicks: nat)

  /** The counters after a tick: what was published is only credited when it was committed. */
  function StatsAfterTick(maxAttempts: nat, rows: seq<Row>, stats: Stats, w: Weather): Stats
    requires w.Runs? ==> |w.outcomes| == |w.ids| && forall i :: 0 <= i < |w.ids| ==> w.ids[i] < |rows|
  {
    var polled := stats.(polls := stats.polls + 1);
    if w.ClaimFails? then polled
    else if w.ids == [] then polled.(emptyTicks := stats.emptyTicks + 1)
    else
      var fates := Fates(maxAttempts, Selected(rows, w.ids), w.outcomes);
      if Outage in fates then polled.(rowsFailed := stats.rowsFailed + FailedCount(fates))
      else if !w.commits then polled
      else polled.(rowsSeen := stats.rowsSeen + |w.ids|, rowsPublished := stats.rowsPublished + PublishedCount(fates),
        rowsFailed := stats.rowsFailed + FailedCount(fates), rowsPoison := stats.rowsPoison + PoisonCount(fates))
  }

  // ---------------------------------------------------------------- what the counters count

  datatype Flag = IsProcessed | IsFailed

  predicate Has(flag: Flag, row: Row) { if flag == IsProcessed then row.processed else row.failed }

  /** How many rows of the table carry a flag. */
  function Number(flag: Flag, rows: seq<Row>): nat {
    if rows == [] then 0 else Number(flag, rows[..|rows| - 1]) + (if Has(flag, rows[|rows| - 1]) then 1 else 0)
  }

  lemma {:induction false} NumberUpdate(flag: Flag, rows: seq<Row>, id: nat, v: Row)
    requires id < |rows|
    ensures Number(flag, rows[id := v]) + (if Has(flag, rows[id]) then 1 else 0)
      == Number(flag, rows) + (if Has(flag, v) then 1 else 0)
  {
    var n := |rows| - 1;
    if id == n {
      assert rows[id := v][..n] == rows[..n];
    } else {
      assert rows[id := v][..n] == rows[..n][id := v];
      NumberUpdate(flag, rows[..n], id, v);
    }
  }

  /** Writing back a batch of rows that had no flag adds the flags of the batch. */
  lemma {:induction false} NumberWriteBack(flag: Flag, rows: seq<Row>, ids: seq<nat>, vals: seq<Row>)
    requires |ids| == |vals| && Distinct(ids) && forall i :: 0 <= i < |ids| ==> ids[i] < |rows| && !Has(flag, rows[ids[i]])
    ensures Number(flag, WriteBack(rows, ids, vals)) == Number(flag, rows) + Number(flag, vals)
  {
    if ids != [] {
      var n := |ids| - 1;
      var part := WriteBack(rows, ids[..n], vals[..n]);
      NumberWriteBack(flag, rows, ids[..n], vals[..n]);
      WriteBackAt(rows, ids[..n], vals[..n]);
      assert part[ids[n]] == rows[ids[n]];
      NumberUpdate(flag, part, ids[n], vals[n]);
    }
  }

  lemma {:induction false} FlushedFlags(rows: seq<Row>, fates: seq<Fate>, i: nat)
    requires |rows| == |fates| && i <= |rows| && forall k :: 0 <= k < |rows| ==> !rows[k].Resolved()
    ensures Number(IsProcessed, Flushed(rows, fates)[..i]) == MarksIn(fates, i)
    ensures Number(IsFailed, Flushed(rows, fates)[..i]) == Tally(Exhausted, fates[..i]) + Tally(Permanent, fates[..i])
  {
    if 0 < i {
      FlushedFlags(rows, fates, i - 1);
      var f := Flushed(rows, fates);
      assert f[..i][..i - 1] == f[..i - 1] && fates[..i][..i - 1] == fates[..i - 1];
    }
  }

  lemma CommittedCounts(rows: seq<Row>, ids: seq<nat>, fates: seq<Fate>)
    requires |ids| == |fates| && Distinct(ids) && Outage !in fates
    requires forall i :: 0 <= i < |ids| ==> ids[i] < |rows| && !rows[ids[i]].Resolved()
    ensures var after := WriteBack(rows, ids, Flushed(Selected(rows, ids), fates));
      && Number(IsProcessed, after) == Number(IsProcessed, rows) + PublishedCount(fates)
      && Number(IsFailed, after) == Number(IsFailed, rows) + PoisonCount(fates)
  {
    var batch := Selected(rows, ids);
    var flushed := Flushed(batch, fates);
    FlushedFlags(batch, fates, |fates|);
    MarksAsManyAsPublished(fates);
    assert flushed[..|fates|] == flushed && fates[..|fates|] == fates && FirstOutage(fates) == |fates|;
    NumberWriteBack(IsProcessed, rows, ids, flushed);
    NumberWriteBack(IsFailed, rows, ids, flushed);
  }

  /** The statistics of a tick tell the truth about the table: rows_published grows by the rows that became
      processed, and rows_skipped_poison by the rows that became failed. */
  lemma TickCounts(maxAttempts: nat, rows: seq<Row>, limit: nat, stats: Stats, w: Weather)
    requires Possible(rows, limit, w)
    ensures var after, next := RowsAfterTick(maxAttempts, rows, w), StatsAfterTick(maxAttempts, rows, stats, w);
      && Number(IsProcessed, after) - Number(IsProcessed, rows) == next.rowsPublished - stats.rowsPublished
      && Number(IsFailed, after) - Number(IsFailed, rows) == next.rowsPoison - stats.rowsPoison
      && next.polls == stats.polls + 1
      && next.emptyTicks == stats.emptyTicks + (if w.Runs? && w.ids == [] then 1 else 0)
      && next.rowsSeen == stats.rowsSeen
           + (if w.Runs? && w.commits && !MeetsOutage(maxAttempts, rows, w) then |w.ids| else 0)
  {
    if w.Runs? {
      OutageMeansBrokerDown(maxAttempts, rows, limit, w);
      var fates := Fates(maxAttempts, Selected(rows, w.ids), w.outcomes);
      if Outage !in fates {
        CommittedCounts(rows, w.ids, fates);
      }
    }
  }

  /** The rows of a batch whose publish raised. */
  ghost function Raising(maxAttempts: nat, batch: seq<Row>, outcomes: seq<Outcome>): set<nat>
    requires |outcomes| == |batch|
  {
    set i: nat | i < |batch| && batch[i].attempts < maxAttempts && outcomes[i].Raised?
  }

  lemma RaisingCounts(maxAttempts: nat, batch: seq<Row>, outcomes: seq<Outcome>)
    requires |outcomes| == |batch| && Outage !in Fates(maxAttempts, batch, outcomes)
    ensures FailedCount(Fates(maxAttempts, batch, outcomes)) == |Raising(maxAttempts, batch, outcomes)|
  {
    var fates := Fates(maxAttempts, batch, outcomes);
    TallyCounts(Permanent, fates);
    TallyCounts(Transient, fates);
    forall i | 0 <= i < |batch|
      ensures i in Raising(maxAttempts, batch, outcomes) <==> fates[i] in {Permanent, Transient}
    {
      FateCases(maxAttempts, batch[i], outcomes[i]);
    }
    assert Raising(maxAttempts, batch, outcomes) == With(Permanent, fates) + With(Transient, fates);
    assert fates[..|fates|] == fates && FirstOutage(fates) == |fates|;
  }

  /** rows_failed grows by the publishes that raised in a committed batch.  An outage at row k adds what
      makes the three counters add up to the batch, or to the visited rows and the permanent errors if those
      are more. */
  lemma TickFailures(maxAttempts: nat, rows: seq<Row>, limit: nat, stats: Stats, w: Weather)
    requires Possible(rows, limit, w)
    ensures var added := StatsAfterTick(maxAttempts, rows, stats, w).rowsFailed - stats.rowsFailed;
      if MeetsOutage(maxAttempts, rows, w) then AddsUp(Fates(maxAttempts, Selected(rows, w.ids), w.outcomes), added)
      else added == if w.Runs? && w.commits then |Raising(maxAttempts, Selected(rows, w.ids), w.outcomes)| else 0
  {
    if w.Runs? {
      OutageMeansBrokerDown(maxAttempts, rows, limit, w);
      if !MeetsOutage(maxAttempts, rows, w) {
        RaisingCounts(maxAttempts, Selected(rows, w.ids), w.outcomes);
      } else {
        OutageAddsUp(Fates(maxAttempts, Selected(rows, w.ids), w.outcomes));
      }
    }
  }

  ghost predicate AddsUp(fates: seq<Fate>, failed: int) {
    var k := FirstOutage(fates);
    PublishedCount(fates) + failed + PoisonCount(fates) == Max(|fates|, k + 1 + Tally(Permanent, fates[..k]))
  }

  lemma OutageAddsUp(fates: seq<Fate>)
    requires Outage in fates
    ensures AddsUp(fates, FailedCount(fates))
  {
    BatchAccounting(fates);
  }

  // ---------------------------------------------------------------- the object

  class OutboxTable {
    var rows: seq<Row>
    constructor () ensures rows == [] { rows := []; }
  }

  class OutboxRelay {
    const batchSize: nat
    const maxAttempts: nat
    var stats: Stats

    constructor (batchSize: nat, maxAttempts: nat)
      ensures this.batchSize == batchSize && this.maxAttempts == maxAttempts && stats == Stats(0, 0, 0, 0, 0, 0)
    {
      this.batchSize, this.maxAttempts := batchSize, maxAttempts;
      stats := Stats(0, 0, 0, 0, 0, 0);
    }

    /** The body of the publish loop for one row: the attempts guard and the except clauses, in order. */
    method VisitRow(row: Row, outcome: Outcome) returns (visited: Row, fate: Fate)
      ensures fate == FateOf(maxAttempts, row, outcome) && visited == Visited(row, fate)
      ensures IsVisited(maxAttempts, row, outcome, visited)
      ensures fate == Exhausted <==> row.attempts >= maxAttempts
      ensures fate == Published <==> row.attempts < maxAttempts && outcome == Acked
      ensures fate == Outage <==> row.attempts < maxAttempts && outcome == Raised(BrokerUnavailable)
      ensures fate == Permanent <==> row.attempts < maxAttempts && outcome == Raised(OtherInfrastructure)
    {
      visited := row;
      if row.attempts >= maxAttempts {
        visited := visited.(failed := true);
        fate := Exhausted;
      } else if outcome.Acked? {
        fate := Published;
      } else if outcome.error.BrokerUnavailable? {
        visited := visited.(attempts := row.attempts + 1);
        fate := Outage;
      } else if IsInfrastructureError(outcome.error) {
        visited := visited.(attempts := row.attempts + 1);
        visited := visited.(failed := true);
        fate := Permanent;
      } else {
        visited := visited.(attempts := row.attempts + 1);
        fate := Transient;
      }
    }

    /** _publish_batch. */
    method PublishBatch(rows: array<Row>, outcomes: seq<Outcome>)
      returns (published: nat, failed: nat, poison: nat, failFast: bool)
      requires |outcomes| == rows.Length
      modifies rows
      ensures var fates := Fates(maxAttempts, old(rows[..]), outcomes);
        && rows[..] == VisitedRows(old(rows[..]), fates)
        && failFast == (Outage in fates)
        && published == PublishedCount(fates) && failed == FailedCount(fates) && poison == PoisonCount(fates)
    {
      published, failed, poison, failFast := 0, 0, 0, false;
      ghost var before := rows[..];
      ghost var fates := Fates(maxAttempts, before, outcomes);
      var i := 0;
      while i < rows.Length
        invariant 0 <= i <= rows.Length
        invariant forall j :: 0 <= j < i ==> fates[j] != Outage
        invariant forall j :: 0 <= j < i ==> rows[j] == Visited(before[j], fates[j])
        invariant forall j :: i <= j < rows.Length ==> rows[j] == before[j]
        invariant Counts(fates[..i], published, failed, poison)
      {
        CountsStep(fates, i, published, failed, poison);
        var row, fate := VisitRow(rows[i], outcomes[i]);
        rows[i] := row;
        match fate {
          case Exhausted =>
            poison := poison + 1;
          case Published =>
            published := published + 1;
          case Outage =>
            failed := failed + 1;
            var remaining := rows.Length - published - failed - poison;
            failed := failed + Max(0, remaining);
            failFast := true;
            PassEndsAt(rows[..], before, fates, i);
            return;
          case Permanent =>
            failed := failed + 1;
            poison := poison + 1;
          case Transient =>
            failed := failed + 1;
        }
        i := i + 1;
      }
      PassEndsAt(rows[..], before, fates, i);
    }

    /** _mark_batch. */
    method MarkBatch(rows: array<Row>, publishedCount: nat, poisonCount: nat)
      modifies rows
      ensures rows[..] == MarkedByCount(old(rows[..]), publishedCount)
    {
      ghost var before := rows[..];
      if publishedCount == 0 && poisonCount == 0 {
        assert rows[..] == MarkedByCount(before, publishedCount);
        return;
      }
      var publishedSeen := 0;
      var i := 0;
      while i < rows.Length
        invariant 0 <= i <= rows.Length
        invariant publishedSeen == if Unfailed(before[..i]) < publishedCount then Unfailed(before[..i]) else publishedCount
        invariant forall j :: 0 <= j < i ==> rows[j] == MarkedByCount(before, publishedCount)[j]
        invariant forall j :: i <= j < rows.Length ==> rows[j] == before[j]
      {
        assert before[..i + 1][..i] == before[..i];
        if !rows[i].failed && publishedSeen < publishedCount {
          rows[i] := rows[i].(processed := true);
          publishedSeen := publishedSeen + 1;
        }
        i := i + 1;
      }
      assert rows[..] == MarkedByCount(before, publishedCount);
    }

    /** The two passes over a claimed batch; without an outage `batch` is what the flush writes. */
    method ProcessBatch(claimed: seq<Row>, outcomes: seq<Outcome>)
      returns (batch: seq<Row>, published: nat, failed: nat, poison: nat, failFast: bool)
      requires |outcomes| == |claimed| && forall i :: 0 <= i < |claimed| ==> !claimed[i].failed
      ensures var fates := Fates(maxAttempts, claimed, outcomes);
        && failFast == (Outage in fates)
        && published == PublishedCount(fates) && failed == FailedCount(fates) && poison == PoisonCount(fates)
        && (!failFast ==> batch == Flushed(claimed, fates))
    {
      var rows := new Row[|claimed|](i requires 0 <= i < |claimed| => claimed[i]);
      assert rows[..] == claimed;
      ghost var fates := Fates(maxAttempts, claimed, outcomes);
      published, failed, poison, failFast := PublishBatch(rows, outcomes);
      if !failFast {
        MarkBatch(rows, published, poison);
        MarkingFlushes(claimed, fates);
        assert fates[..FirstOutage(fates)] == fates;
      }
      batch := rows[..];
    }

    /** _tick: claim, publish, then roll back or mark and commit.  An outage, a lost commit and a
        failed claim leave every persisted row as it was. */
    method Tick(table: OutboxTable, w: Weather) returns (processed: nat)
      requires Possible(table.rows, batchSize, w)
      modifies this, table
      ensures table.rows == RowsAfterTick(maxAttempts, old(table.rows), w)
      ensures stats == StatsAfterTick(maxAttempts, old(table.rows), old(stats), w)
      ensures MeetsOutage(maxAttempts, old(table.rows), w) ==> table.rows == old(table.rows) && processed == 0
      ensures processed == Number(IsProcessed, table.rows) - Number(IsProcessed, old(table.rows))
      ensures stats.rowsPublished == old(stats).rowsPublished + processed
    {
      TickCounts(maxAttempts, table.rows, batchSize, stats, w);
      if w.Runs? {
        OutageMeansBrokerDown(maxAttempts, table.rows, batchSize, w);
      }
      stats := stats.(polls := stats.polls + 1);
      processed := 0;
      match w {
        case ClaimFails => return;
        case Runs(ids, outcomes, commits) =>
          if ids == [] {
            stats := stats.(emptyTicks := stats.emptyTicks + 1);
            return;
          }
          var batch, published, failed, poison, failFast := ProcessBatch(Selected(table.rows, ids), outcomes);
          if failFast {
            stats := stats.(rowsFailed := stats.rowsFailed + failed);
            return;
          }
          if !commits {
            return;
          }
          table.rows := WriteBack(table.rows, ids, batch);
          stats := stats.(rowsSeen := stats.rowsSeen + |ids|, rowsPublished := stats.rowsPublished + published,
            rowsFailed := stats.rowsFailed + failed, rowsPoison := stats.rowsPoison + poison);
          processed := published;
      }
    }
  }
}
