/** Stock rows, src/modules/inventory/services.py: optimistic reserve and unconditional release. */
module Inventory {
  import opened Prelude

  type StockId = nat

  datatype Stock = Stock(available: int, version: int, price: int, currency: string)

  type Table = map<StockId, Stock>

  predicate Matches(row: Stock, expectedVersion: int, quantity: int) {
    row.version == expectedVersion && row.available >= quantity
  }

  /** The reserving UPDATE on a row its WHERE clause matches. */
  function Reserved(row: Stock, quantity: int): Stock {
    row.(available := row.available - quantity, version := row.version + 1)
  }

  /** The releasing UPDATE: neither checks nor bumps the version. */
  function Released(row: Stock, quantity: int): Stock { row.(available := row.available + quantity) }

  datatype ReserveResult =
    | Success(newVersion: int, newAvailable: int)
    | ValueError
    | StockNotFound
    | ConcurrentUpdate
    | OutOfStock

  class StockSession {
    var table: Table

    constructor (t: Table) ensures table == t { table := t; }

    /** reserve.  `between` is the table as other transactions have left it when the UPDATE runs. */
    method Reserve(id: StockId, quantity: int, expectedVersion: int, between: Table) returns (r: ReserveResult)
      modifies this
      ensures r == ValueError <==> quantity <= 0
      ensures r == StockNotFound <==> quantity > 0 && id !in old(table)
      ensures r == OutOfStock <==>
        && quantity > 0 && id in old(table)
        && old(table)[id].version == expectedVersion && old(table)[id].available < quantity
      ensures r.Success? <==>
        && quantity > 0 && id in old(table)
        && old(table)[id].version == expectedVersion && old(table)[id].available >= quantity
        && id in between && between[id].version == expectedVersion && between[id].available >= quantity
      ensures r.Success? ==>
        && r == Success(expectedVersion + 1, old(table)[id].available - quantity)
        && table == between[id := between[id].(available := between[id].available - quantity, version := expectedVersion + 1)]
      ensures !r.Success? ==> table == old(table) || (r == ConcurrentUpdate && table == between)
    {
      if quantity <= 0 {
        return ValueError;
      }
      if id !in table {
        return StockNotFound;
      }
      var stock := table[id];
      if stock.version != expectedVersion {
        return ConcurrentUpdate;
      }
      if stock.available < quantity {
        return OutOfStock;
      }
      table := between;
      var rowcount := 0;
      if id in table && table[id].version == expectedVersion && table[id].available >= quantity {
        table := table[id := table[id].(available := table[id].available - quantity, version := table[id].version + 1)];
        rowcount := 1;
      }
      if rowcount != 1 {
        return ConcurrentUpdate;
      }
      r := Success(stock.version + 1, stock.available - quantity);
    }

    /** release; None is the ValueError. */
    method Release(id: StockId, quantity: int, expectedVersion: int) returns (r: Option<int>)
      modifies this
      ensures r.None? <==> quantity <= 0
      ensures r.Some? ==> r.value == if id in old(table) then 0 else -1
      ensures r == Some(0) ==> table == old(table)[id := old(table)[id].(available := old(table)[id].available + quantity)]
      ensures r != Some(0) ==> table == old(table)
    {
      if quantity <= 0 {
        return None;
      }
      if id in table {
        table := table[id := table[id].(available := table[id].available + quantity)];
        return Some(0);
      }
      r := Some(-1);
    }
  }
}

/** Any number of sessions on one stock row.

    A session reads the row, later issues its UPDATE, and later commits or rolls back; the UPDATE takes
    the row lock, which is held to the end of the transaction, so a second UPDATE waits.  Readers see
    the committed row. */
module StockRow {
  import opened Inventory

  type SessionId = nat

  datatype Phase =
    | Checked(quantity: int, seen: Stock, readAt: nat)
    | Reserving(quantity: int, seen: Stock, readAt: nat, pending: Stock)
    | Releasing(quantity: int, pending: Stock)

  predicate HoldsLock(p: Phase) { !p.Checked? }

  /** A committed transaction; `readAt` is how many commits preceded the reservation's read, and
      newVersion and newAvailable are what reserve reported. */
  datatype Commit =
    | Reservation(quantity: int, readAt: nat, newVersion: int, newAvailable: int)
    | Release(quantity: int)

  datatype State = State(row: Stock, sessions: map<SessionId, Phase>, history: seq<Commit>)

  datatype Step =
    | Read(session: SessionId, quantity: int, expectedVersion: int)
    | UpdateReserve(session: SessionId)
    | UpdateRelease(session: SessionId, quantity: int)
    | CommitTx(session: SessionId)
    | RollbackTx(session: SessionId)

  ghost predicate Unlocked(s: State) { forall x :: x in s.sessions ==> !HoldsLock(s.sessions[x]) }

  /** Steps that cannot happen (a busy session, a lock held by another) do nothing. */
  ghost function Next(s: State, step: Step): State {
    match step
    case Read(x, q, v) =>
      if x in s.sessions || q <= 0 || s.row.version != v || s.row.available < q then s
      else s.(sessions := s.sessions[x := Checked(q, s.row, |s.history|)])
    case UpdateReserve(x) =>
      if x !in s.sessions || !s.sessions[x].Checked? || !Unlocked(s) then s
      else
        var p := s.sessions[x];
        if Matches(s.row, p.seen.version, p.quantity)
        then s.(sessions := s.sessions[x := Reserving(p.quantity, p.seen, p.readAt, Reserved(s.row, p.quantity))])
        else s.(sessions := s.sessions - {x})
    case UpdateRelease(x, q) =>
      if x in s.sessions || q <= 0 || !Unlocked(s) then s
      else s.(sessions := s.sessions[x := Releasing(q, Released(s.row, q))])
    case CommitTx(x) =>
      if x !in s.sessions || s.sessions[x].Checked? then s
      else
        var p := s.sessions[x];
        var entry := if p.Reserving? then Reservation(p.quantity, p.readAt, p.seen.version + 1, p.seen.available - p.quantity)
                     else Release(p.quantity);
        State(p.pending, s.sessions - {x}, s.history + [entry])
    case RollbackTx(x) => s.(sessions := s.sessions - {x})
  }

  ghost function Run(first: Stock, steps: seq<Step>): State {
    if steps == [] then State(first, map[], [])
    else Next(Run(first, steps[..|steps| - 1]), steps[|steps| - 1])
  }

  /** The row that a history of commits produces. */
  ghost function Replay(first: Stock, history: seq<Commit>): Stock {
    if history == [] then first
    else
      var row := Replay(first, history[..|history| - 1]);
      match history[|history| - 1]
      case Reservation(q, _, _, _) => Reserved(row, q)
      case Release(q) => Released(row, q)
  }

  ghost function Reservations(history: seq<Commit>): nat {
    if history == [] then 0
    else Reservations(history[..|history| - 1]) + (if history[|history| - 1].Reservation? then 1 else 0)
  }

  /** Quantities released by the commits from..to. */
  ghost function ReleasedIn(history: seq<Commit>, from: nat, to: nat): int
    requires from <= to <= |history|
  {
    if from == to then 0
    else ReleasedIn(history, from, to - 1) + (if history[to - 1].Release? then history[to - 1].quantity else 0)
  }

  /** A session reads without waiting and goes on only if the row has the expected version and enough stock;
      its UPDATE waits for the lock and goes through exactly if that is still so, else the session ends with
      nothing written. */
  lemma ReserveSteps(s: State, x: SessionId, q: int, v: int)
    ensures var next := Next(s, Read(x, q, v));
      && (x !in s.sessions ==> (x in next.sessions <==> 0 < q <= s.row.available && s.row.version == v))
      && (x !in s.sessions && x in next.sessions ==> next.sessions[x] == Checked(q, s.row, |s.history|))
      && next.row == s.row && next.history == s.history
    ensures x in s.sessions && s.sessions[x].Checked? && Unlocked(s) ==>
      var p, next := s.sessions[x], Next(s, UpdateReserve(x));
      && next.row == s.row && next.history == s.history
      && (x in next.sessions <==> s.row.version == p.seen.version && s.row.available >= p.quantity)
      && (x in next.sessions ==> next.sessions[x] == Reserving(p.quantity, p.seen, p.readAt,
            s.row.(available := s.row.available - p.quantity, version := s.row.version + 1)))
  {
  }

  /** Ending a transaction gives up its lock: a rollback leaves the row and the history as they were, a commit
      makes the pending row the row. */
  lemma TransactionEnds(first: Stock, s: State, x: SessionId)
    requires Inv(first, s) && x in s.sessions && HoldsLock(s.sessions[x])
    ensures var back, done := Next(s, RollbackTx(x)), Next(s, CommitTx(x));
      && back.row == s.row && back.history == s.history && Unlocked(back) && x !in back.sessions
      && done.row == s.sessions[x].pending && |done.history| == |s.history| + 1 && Unlocked(done) && x !in done.sessions
  {
  }

  // ---------------------------------------------------------------- what every step keeps

  ghost predicate EntryValid(first: Stock, history: seq<Commit>, k: nat)
    requires k < |history|
  {
    match history[k]
    case Release(q) => q > 0
    case Reservation(q, readAt, version, available) =>
      && q > 0 && readAt <= k
      && q <= Replay(first, history[..k]).available
      && version == Replay(first, history[..k]).version + 1
      && Replay(first, history[..readAt]).version == Replay(first, history[..k]).version
      && available == Replay(first, history[..readAt]).available - q
  }

  ghost predicate PhaseValid(first: Stock, s: State, p: Phase) {
    match p
    case Checked(q, seen, readAt) => q > 0 && readAt <= |s.history| && seen == Replay(first, s.history[..readAt])
    case Reserving(q, seen, readAt, pending) =>
      && q > 0 && readAt <= |s.history| && seen == Replay(first, s.history[..readAt])
      && Matches(s.row, seen.version, q) && pending == Reserved(s.row, q)
    case Releasing(q, pending) => q > 0 && pending == Released(s.row, q)
  }

  ghost predicate Inv(first: Stock, s: State) {
    && s.row == Replay(first, s.history) && 0 <= s.row.available
    && (forall k :: 0 <= k < |s.history| ==> EntryValid(first, s.history, k))
    && (forall x :: x in s.sessions ==> PhaseValid(first, s, s.sessions[x]))
    && (forall x, y :: x in s.sessions && y in s.sessions && HoldsLock(s.sessions[x]) && HoldsLock(s.sessions[y]) ==> x == y)
  }

  lemma CommitKeepsInv(first: Stock, s: State, x: SessionId)
    requires Inv(first, s) && x in s.sessions && HoldsLock(s.sessions[x])
    ensures Inv(first, Next(s, CommitTx(x)))
  {
    var p, next := s.sessions[x], Next(s, CommitTx(x));
    var n := |s.history|;
    assert PhaseValid(first, s, p);
    assert next.history[..n] == s.history;
    forall k | 0 <= k < |next.history|
      ensures EntryValid(first, next.history, k)
    {
      assert next.history[..k] == s.history[..k];
      if k == n {
        assert s.history[..n] == s.history;
        if p.Reserving? { assert next.history[..p.readAt] == s.history[..p.readAt]; }
      } else {
        assert EntryValid(first, s.history, k);
        if s.history[k].Reservation? { assert next.history[..s.history[k].readAt] == s.history[..s.history[k].readAt]; }
      }
    }
    forall y | y in next.sessions
      ensures PhaseValid(first, next, next.sessions[y])
    {
      assert PhaseValid(first, s, s.sessions[y]) && s.sessions[y].Checked?;
      assert next.history[..s.sessions[y].readAt] == s.history[..s.sessions[y].readAt];
    }
  }

  lemma StepKeepsInv(first: Stock, s: State, step: Step)
    requires Inv(first, s)
    ensures Inv(first, Next(s, step))
  {
    assert s.history[..|s.history|] == s.history;
    if step.CommitTx? && step.session in s.sessions && HoldsLock(s.sessions[step.session]) {
      CommitKeepsInv(first, s, step.session);
    }
  }

  lemma {:induction false} RunInv(first: Stock, steps: seq<Step>)
    requires 0 <= first.available
    ensures Inv(first, Run(first, steps))
  {
    if steps != [] {
      RunInv(first, steps[..|steps| - 1]);
      StepKeepsInv(first, Run(first, steps[..|steps| - 1]), steps[|steps| - 1]);
    }
  }

  lemma {:induction false} VersionCountsReservations(first: Stock, history: seq<Commit>)
    ensures Replay(first, history).version == first.version + Reservations(history)
  {
    if history != [] {
      VersionCountsReservations(first, history[..|history| - 1]);
    }
  }

  /** Between two points with the same version only releases were committed. */
  lemma {:induction false} SameVersionOnlyReleases(first: Stock, history: seq<Commit>, from: nat, to: nat)
    requires from <= to <= |history|
    requires Replay(first, history[..from]).version == Replay(first, history[..to]).version
    ensures Replay(first, history[..to]).available == Replay(first, history[..from]).available + ReleasedIn(history, from, to)
  {
    if from < to {
      var before := history[..to - 1];
      assert history[..to][..to - 1] == before;
      VersionCountsReservations(first, history[..to]);
      VersionCountsReservations(first, before);
      VersionCountsReservations(first, history[..from]);
      ReservationsMonotone(history, from, to - 1);
      SameVersionOnlyReleases(first, history, from, to - 1);
    }
  }

  lemma {:induction false} ReservationsMonotone(history: seq<Commit>, from: nat, to: nat)
    requires from <= to <= |history|
    ensures Reservations(history[..from]) <= Reservations(history[..to])
  {
    if from < to {
      ReservationsMonotone(history, from, to - 1);
      assert history[..to][..to - 1] == history[..to - 1];
    }
  }

  /** No oversell: in every interleaving of reads, UPDATEs, releases, commits and rollbacks, the
      available quantity never goes negative and is what the committed history produces. */
  lemma NoOversell(first: Stock, steps: seq<Step>)
    requires 0 <= first.available
    ensures var s := Run(first, steps);
      0 <= s.row.available && s.row == Replay(first, s.history) && s.row.version == first.version + Reservations(s.history)
  {
    RunInv(first, steps);
    VersionCountsReservations(first, Run(first, steps).history);
  }

  /** Committed reservations report the consecutive versions v0+1, v0+2, ..., and what one of them
      leaves available is what it reported plus whatever was released between its read and its
      commit. */
  lemma ReservationReports(first: Stock, steps: seq<Step>, k: nat)
    requires 0 <= first.available
    requires k < |Run(first, steps).history| && Run(first, steps).history[k].Reservation?
    ensures var h := Run(first, steps).history; var r := h[k];
      && r.readAt <= k
      && r.newVersion == first.version + Reservations(h[..k]) + 1
      && Replay(first, h[..k + 1]).available == r.newAvailable + ReleasedIn(h, r.readAt, k)
  {
    RunInv(first, steps);
    var h := Run(first, steps).history;
    assert EntryValid(first, h, k);
    VersionCountsReservations(first, h[..k]);
    SameVersionOnlyReleases(first, h, h[k].readAt, k);
    assert h[..k + 1][..k] == h[..k];
  }
}
