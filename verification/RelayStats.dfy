/** The statistics of one relay over whole runs, src/workers/outbox_relay.py `_tick`: they agree with the
    table the relay works on. */
module RelayStats {
  import opened RelayBatch
  import opened RelayTick

  /** Another transaction adds a row, or the relay ticks. */
  datatype Turn = Arrive(createdAt: int) | Tick(weather: Weather)

  datatype State = State(rows: seq<Row>, stats: Stats)

  const START := State([], Stats(0, 0, 0, 0, 0, 0))

  ghost predicate Enabled(limit: nat, s: State, turn: Turn) { turn.Tick? ==> Possible(s.rows, limit, turn.weather) }

  /** A turn that cannot happen does nothing, so every sequence of turns is a run. */
  ghost function Next(limit: nat, maxAttempts: nat, s: State, turn: Turn): State {
    if !Enabled(limit, s, turn) then s
    else
      match turn
      case Arrive(at) => s.(rows := s.rows + [Row(at, 0, false, false)])
      case Tick(w) => State(RowsAfterTick(maxAttempts, s.rows, w), StatsAfterTick(maxAttempts, s.rows, s.stats, w))
  }

  ghost function Run(limit: nat, maxAttempts: nat, turns: seq<Turn>): State {
    if turns == [] then START
    else Next(limit, maxAttempts, Run(limit, maxAttempts, turns[..|turns| - 1]), turns[|turns| - 1])
  }

  ghost predicate Truthful(s: State) {
    s.stats.rowsPublished == Number(IsProcessed, s.rows) && s.stats.rowsPoison == Number(IsFailed, s.rows)
  }

  lemma {:induction false} ArrivalCounts(flag: Flag, rows: seq<Row>, at: int)
    ensures Number(flag, rows + [Row(at, 0, false, false)]) == Number(flag, rows)
  {
    assert (rows + [Row(at, 0, false, false)])[..|rows|] == rows;
  }

  lemma {:induction false} TurnKeepsTruthful(limit: nat, maxAttempts: nat, s: State, turn: Turn)
    requires Truthful(s)
    ensures Truthful(Next(limit, maxAttempts, s, turn))
  {
    if turn.Arrive? {
      ArrivalCounts(IsProcessed, s.rows, turn.createdAt);
      ArrivalCounts(IsFailed, s.rows, turn.createdAt);
    } else if Possible(s.rows, limit, turn.weather) {
      TickCounts(maxAttempts, s.rows, limit, s.stats, turn.weather);
    }
  }

  /** In every run of a relay over an outbox that other transactions fill, through outages, lost commits and
      failed claims, rows_published is the number of processed rows and rows_skipped_poison the number of
      failed rows; although marking is by count, the totals are right. */
  lemma {:induction false} StatsCountRows(limit: nat, maxAttempts: nat, turns: seq<Turn>)
    ensures Truthful(Run(limit, maxAttempts, turns))
  {
    if turns != [] {
      StatsCountRows(limit, maxAttempts, turns[..|turns| - 1]);
      TurnKeepsTruthful(limit, maxAttempts, Run(limit, maxAttempts, turns[..|turns| - 1]), turns[|turns| - 1]);
    }
  }
}
