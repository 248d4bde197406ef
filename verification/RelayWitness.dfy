/** When the relays lose a row: a row is lost if it is processed although the broker never stored it, and
    then nothing publishes it any more.  With the settings of the relay this is decided exactly. */
module RelayWitness {
  import opened RelayBatch
  import opened RelayTick
  import opened RelayFleet

  /** After the steps from the empty outbox, row `id` is marked processed and was never stored. */
  ghost predicate Lost(c: Config, steps: seq<Step>, id: nat) {
    id in Processed(Run(c, EMPTY, steps)) && id !in Run(c, EMPTY, steps).log
  }

  const ROW := Row(0, 0, false, false)

  const CLAIM: seq<Step> := [Insert(0), Insert(0), ClaimBatch(0, [0, 1])]
  const PUBLISH: seq<Step> := [PublishNext(0, Raised(OtherException), false), PublishNext(0, Acked, true)]

  /** Two rows in one batch: the first publish raises an unexpected error, the second is acknowledged. */
  const LOSS: seq<Step> := CLAIM + PUBLISH + [Commit(0)]

  lemma {:induction false} Claimed(c: Config)
    requires c.batchSize >= 2
    ensures Run(c, EMPTY, CLAIM) == State([ROW, ROW], map[0 := Claim([0, 1], [])], [])
  {
    var one, two := CLAIM[..1], CLAIM[..2];
    assert one[..0] == [] && two[..1] == one && CLAIM[..2] == two;
    assert Run(c, EMPTY, one) == State([ROW], map[], []);
    assert Run(c, EMPTY, two) == State([ROW, ROW], map[], []);
    var s := State([ROW, ROW], map[], []);
    assert Locked(s) == {};
    assert IsClaim(s.rows, {}, c.batchSize, [0, 1]);
  }

  lemma {:induction false} PublishedOutOfOrder(c: Config, s: State)
    requires s == State([ROW, ROW], map[0 := Claim([0, 1], [])], []) && c.maxAttempts >= 1
    ensures Run(c, s, PUBLISH) == State([ROW, ROW], map[0 := Claim([0, 1], [Transient, Published])], [1])
  {
    var t := Next(c, s, PUBLISH[0]);
    assert [] + [Transient] == [Transient];
    assert t == State([ROW, ROW], map[0 := Claim([0, 1], [Transient])], []);
    var u := Next(c, t, PUBLISH[1]);
    assert [Transient] + [Published] == [Transient, Published];
    assert u == State([ROW, ROW], map[0 := Claim([0, 1], [Transient, Published])], [1]);
    RunSnoc(c, s, [], PUBLISH[0]);
    RunSnoc(c, s, [PUBLISH[0]], PUBLISH[1]);
    assert [] + [PUBLISH[0]] == [PUBLISH[0]] && [PUBLISH[0]] + [PUBLISH[1]] == PUBLISH;
  }

  lemma {:induction false} BatchVisited(c: Config)
    requires c.batchSize >= 2 && c.maxAttempts >= 1
    ensures var s := Run(c, EMPTY, CLAIM + PUBLISH);
      Valid(c, s) && s == State([ROW, ROW], map[0 := Claim([0, 1], [Transient, Published])], [1])
  {
    Claimed(c);
    RunConcat(c, EMPTY, CLAIM, PUBLISH);
    PublishedOutOfOrder(c, Run(c, EMPTY, CLAIM));
    RunsStayValid(c, EMPTY, CLAIM + PUBLISH);
  }

  lemma {:induction false} LostOnCommit(c: Config, s: State, more: seq<Step>)
    requires Valid(c, s) && s == State([ROW, ROW], map[0 := Claim([0, 1], [Transient, Published])], [1])
    ensures var last := Run(c, Next(c, s, Commit(0)), more);
      0 in Processed(last) && 0 !in last.log
  {
    var fates := s.claims[0].fates;
    assert fates[0] == Transient && fates[1] == Published;
    assert !InOrder(fates);
    var i := OutOfOrderCommitLosesRow(c, s, 0, more);
    assert i == 0;
  }

  /** The first row is processed and, whatever any relay does afterwards, never reaches the broker. */
  lemma {:induction false} FirstRowIsLost(c: Config, more: seq<Step>)
    requires c.batchSize >= 2 && c.maxAttempts >= 1
    ensures Lost(c, LOSS + more, 0)
  {
    BatchVisited(c);
    LostOnCommit(c, Run(c, EMPTY, CLAIM + PUBLISH), more);
    RunSnoc(c, EMPTY, CLAIM + PUBLISH, Commit(0));
    RunConcat(c, EMPTY, LOSS, more);
  }

  lemma CommitInOrder(c: Config, s: State, r: RelayId)
    requires Valid(c, s) && Enabled(c, s, Commit(r)) && (c.batchSize <= 1 || c.maxAttempts == 0)
    ensures InOrder(s.claims[r].fates)
  {
    assert ClaimValid(c, s, s.claims[r]);
  }

  /** Batches of one row are always in order, and with no attempts allowed nothing is ever published. */
  lemma {:induction false} NothingLost(c: Config, steps: seq<Step>, id: nat)
    requires c.batchSize <= 1 || c.maxAttempts == 0
    ensures !Lost(c, steps, id)
  {
    forall k | 0 <= k < |steps| && steps[k].Commit? && Enabled(c, Run(c, EMPTY, steps[..k]), steps[k])
      ensures InOrder(Run(c, EMPTY, steps[..k]).claims[steps[k].relay].fates)
    {
      RunsStayValid(c, EMPTY, steps[..k]);
      CommitInOrder(c, Run(c, EMPTY, steps[..k]), steps[k].relay);
    }
    ProcessedWasPublished(c, EMPTY, steps);
  }

  /** Some run of some relays loses a row exactly when a batch can hold two rows and a row may be tried
      at all. */
  lemma RowsCanBeLostIff(c: Config)
    ensures (exists steps, id: nat :: Lost(c, steps, id)) <==> c.batchSize >= 2 && c.maxAttempts >= 1
  {
    if c.batchSize >= 2 && c.maxAttempts >= 1 {
      FirstRowIsLost(c, []);
    } else {
      forall steps, id: nat
        ensures !Lost(c, steps, id)
      {
        NothingLost(c, steps, id);
      }
    }
  }
}
