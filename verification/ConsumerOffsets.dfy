/** Offset bookkeeping of the base Kafka consumer, src/core/consumer.py `_poll_and_dispatch`. */
module ConsumerOffsets {
  import opened Prelude

  datatype TopicPartition = TopicPartition(topic: string, partition: nat)

  /** A fetched record and whether _handle_message returned for it or raised. */
  datatype Record = Record(offset: nat, handled: bool)

  datatype Fetched = Fetched(tp: TopicPartition, records: seq<Record>)

  /** One past the last record whose handling returned. */
  function ResumeAt(records: seq<Record>): Option<nat> {
    if records == [] then None
    else
      var last := records[|records| - 1];
      if last.handled then Some(last.offset + 1) else ResumeAt(records[..|records| - 1])
  }

  ghost predicate Ascending(records: seq<Record>) {
    forall i, j :: 0 <= i < j < |records| ==> records[i].offset < records[j].offset
  }

  /** The nested loops that fill committed_offsets; `getmany` returns each partition once. */
  method PollAndDispatch(fetched: seq<Fetched>) returns (committed: map<TopicPartition, nat>)
    requires forall i, j :: 0 <= i < j < |fetched| ==> fetched[i].tp != fetched[j].tp
    ensures forall i :: 0 <= i < |fetched| ==>
      match ResumeAt(fetched[i].records)
      case None => fetched[i].tp !in committed
      case Some(offset) => fetched[i].tp in committed && committed[fetched[i].tp] == offset
    ensures forall tp :: tp in committed ==> exists i :: 0 <= i < |fetched| && fetched[i].tp == tp
  {
    committed := map[];
    for n := 0 to |fetched|
      invariant forall i :: 0 <= i < n ==>
        match ResumeAt(fetched[i].records)
        case None => fetched[i].tp !in committed
        case Some(offset) => fetched[i].tp in committed && committed[fetched[i].tp] == offset
      invariant forall tp :: tp in committed ==> exists i :: 0 <= i < n && fetched[i].tp == tp
    {
      var tp, batch := fetched[n].tp, fetched[n].records;
      ghost var before := committed;
      assert tp !in before;
      for m := 0 to |batch|
        invariant forall other :: other != tp ==> (other in committed <==> other in before)
        invariant forall other :: other != tp && other in before ==> committed[other] == before[other]
        invariant match ResumeAt(batch[..m])
                  case None => tp !in committed
                  case Some(offset) => tp in committed && committed[tp] == offset
      {
        assert batch[..m + 1][..m] == batch[..m];
        if batch[m].handled {
          committed := committed[tp := batch[m].offset + 1];
        }
      }
      assert batch[..|batch|] == batch;
    }
  }

  lemma {:induction false} ResumeBounds(records: seq<Record>)
    requires Ascending(records)
    ensures match ResumeAt(records)
      case None => forall i :: 0 <= i < |records| ==> !records[i].handled
      case Some(offset) =>
        && (forall i :: 0 <= i < |records| && records[i].handled ==> records[i].offset < offset)
        && (exists i :: 0 <= i < |records| && records[i].handled && records[i].offset + 1 == offset)
  {
    if records != [] {
      var n := |records| - 1;
      ResumeBounds(records[..n]);
      if !records[n].handled && ResumeAt(records).Some? {
        var i :| 0 <= i < n && records[..n][i].handled && records[..n][i].offset + 1 == ResumeAt(records).value;
        assert records[i].handled;
      }
    }
  }

  /** A failed record of a batch is redelivered after a restart exactly when no later record of its
      partition in the batch was handled; the code comment promises it always. */
  lemma FailedIsRedeliveredIffNoneLaterHandled(records: seq<Record>, i: nat, before: nat)
    requires Ascending(records) && i < |records| && !records[i].handled
    requires forall k :: 0 <= k < |records| ==> before <= records[k].offset
    ensures var committed := match ResumeAt(records) case None => before case Some(offset) => offset;
      records[i].offset >= committed <==> forall j :: i < j < |records| ==> !records[j].handled
  {
    ResumeBounds(records);
    var r := ResumeAt(records);
    if r.Some? {
      var j :| 0 <= j < |records| && records[j].handled && records[j].offset + 1 == r.value;
      assert j < i || i < j;
    }
  }

  // ---------------------------------------------------------------- whole runs of one partition

  /** A poll of consecutive records, whose offset commit may be lost, or a restart of the consumer. */
  datatype Event = Poll(records: seq<Record>, commitSucceeds: bool) | Restart

  /** `committed` is the broker's offset for the group, `position` the next record to be fetched. */
  datatype State = State(committed: nat, position: nat)

  function Next(s: State, e: Event): State {
    match e
    case Restart => s.(position := s.committed)
    case Poll(records, ok) =>
      if records == [] then s
      else
        var resume := ResumeAt(records);
        State(if ok && resume.Some? then resume.value else s.committed, records[|records| - 1].offset + 1)
  }

  function After(events: seq<Event>): State {
    if events == [] then State(0, 0) else Next(After(events[..|events| - 1]), events[|events| - 1])
  }

  /** The broker serves records in offset order from the position on. */
  ghost predicate Served(events: seq<Event>) {
    forall k :: 0 <= k < |events| && events[k].Poll? ==>
      && Ascending(events[k].records)
      && forall i :: 0 <= i < |events[k].records| ==> After(events[..k]).position <= events[k].records[i].offset
  }

  /** Some poll whose commit reached the broker handled a record at or above `offset`. */
  ghost predicate HandledAtOrAbove(events: seq<Event>, offset: nat) {
    exists k, i :: 0 <= k < |events| && events[k].Poll? && events[k].commitSucceeds
      && 0 <= i < |events[k].records| && events[k].records[i].handled && offset <= events[k].records[i].offset
  }

  /** Over any number of polls, lost commits and restarts: an offset is still ahead of the committed
      one exactly when no committed poll handled it or anything after it. */
  lemma {:induction false} StillAheadIffNothingHandledBeyond(events: seq<Event>, offset: nat)
    requires Served(events)
    ensures After(events).committed <= After(events).position
    ensures After(events).committed <= offset <==> !HandledAtOrAbove(events, offset)
  {
    if events != [] {
      var n := |events| - 1;
      var front, e := events[..n], events[n];
      assert Served(front) by {
        forall k | 0 <= k < n
          ensures front[..k] == events[..k]
        {}
      }
      StillAheadIffNothingHandledBeyond(front, offset);
      assert HandledAtOrAbove(front, offset) ==> HandledAtOrAbove(events, offset) by {
        if HandledAtOrAbove(front, offset) {
          var k, i :| 0 <= k < n && front[k].Poll? && front[k].commitSucceeds && 0 <= i < |front[k].records|
            && front[k].records[i].handled && offset <= front[k].records[i].offset;
          assert events[k] == front[k];
        }
      }
      if e.Poll? && e.records != [] {
        LastPoll(events, offset);
      }
    }
  }

  /** A restart fetches again exactly the offsets beyond which no committed poll handled anything. */
  lemma RestartRefetchesIff(events: seq<Event>, offset: nat)
    requires Served(events)
    ensures After(events + [Restart]).position <= offset <==> !HandledAtOrAbove(events, offset)
  {
    assert (events + [Restart])[..|events|] == events;
    StillAheadIffNothingHandledBeyond(events, offset);
  }

  lemma LastPoll(events: seq<Event>, offset: nat)
    requires events != [] && Served(events)
    requires var e := events[|events| - 1]; e.Poll? && e.records != []
    requires var front := events[..|events| - 1];
      After(front).committed <= After(front).position && (After(front).committed <= offset <==> !HandledAtOrAbove(front, offset))
    ensures After(events).committed <= After(events).position
    ensures After(events).committed <= offset <==> !HandledAtOrAbove(events, offset)
  {
    var n := |events| - 1;
    var front, e := events[..n], events[n];
    ResumeBounds(e.records);
    var r := ResumeAt(e.records);
    if r.Some? {
      var j :| 0 <= j < |e.records| && e.records[j].handled && e.records[j].offset + 1 == r.value;
      assert e.commitSucceeds && offset < r.value ==> HandledAtOrAbove(events, offset);
    }
    if HandledAtOrAbove(front, offset) {
      var k, i :| 0 <= k < n && front[k].Poll? && front[k].commitSucceeds && 0 <= i < |front[k].records|
        && front[k].records[i].handled && offset <= front[k].records[i].offset;
      assert events[k] == front[k];
      assert HandledAtOrAbove(events, offset);
    }
    if HandledAtOrAbove(events, offset) {
      var k, i :| 0 <= k < |events| && events[k].Poll? && events[k].commitSucceeds && 0 <= i < |events[k].records|
        && events[k].records[i].handled && offset <= events[k].records[i].offset;
      if k < n {
        assert front[k] == events[k];
        assert HandledAtOrAbove(front, offset);
      }
    }
  }
}
