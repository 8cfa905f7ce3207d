/**
 Concrete runs of the Ethereum sender that show what the exact conditions exclude: an operation lost by a
 restart, a burnt first id, confirmations that skip an id, and a mined replacement that was never stored.
 */
module EthSenderExamples {
  import opened Wrappers
  import opened TxQueue
  import opened EthDatabase
  import opened EthSenderRun
  import opened EthSenderSafety
  import opened EthSenderProperties
  import opened EthSenderTables

  const FIRST_COMMIT := AggOp(1, CommitBlocks, 1, 1)

  /** The sender after starting on tables without rows, with operations stored and listed as unprocessed. */
  ghost function Started(cfg: Config, ops: seq<AggOp>, unprocessed: set<nat>): World {
    World(EMPTY_DB.(aggOps := ops, unprocessed := unprocessed),
          Running([], BuildQueue(cfg.maxInFlight, 0, 0, 0, 0), {}), map[], [])
  }

  lemma StartWithoutRows(cfg: Config, ops: seq<AggOp>)
    ensures var w := Started(cfg, ops, {}); StartUp(cfg, EMPTY_DB.(aggOps := ops)) == (w.db, w.mem)
  {
    var db := EMPTY_DB.(aggOps := ops);
    assert LoadUnconfirmed(db.rows) == [];
    assert RestoreUnprocessed(db).unprocessed == {};
    assert RemoveUnprocessed(RestoreUnprocessed(db), OpIds([])).unprocessed == {};
  }

  lemma FirstHandedOver(cfg: Config)
    ensures NextHandOver(Started(cfg, [], {}), FIRST_COMMIT) == Some(Started(cfg, [FIRST_COMMIT], {1}))
  {
    assert OfKind([], CommitBlocks) == [];
    assert StoreAggregated(Started(cfg, [], {}).db, FIRST_COMMIT) == Started(cfg, [FIRST_COMMIT], {1}).db;
  }

  /** A queue that holds commits only. */
  function CommitQueue(cfg: Config, inFlight: nat, ops: seq<AggOp>, last: nat): Queue {
    Queue(cfg.maxInFlight, inFlight, OperationQueue(ops, last), OperationQueue([], 0), OperationQueue([], 0))
  }

  lemma LoadsOne(w: World, op: AggOp, queue': Queue)
    requires w.mem.Running? && LoadUnprocessed(w.db) == [op] && w.db.unprocessed == {op.id}
    requires w.mem.queue.Add(op) == Some(queue')
    ensures NextLoadNew(w) == Some(w.(db := w.db.(unprocessed := {}), mem := w.mem.(queue := queue')))
  {
    assert AddAll(w.mem.queue, [op][..0]) == Some(w.mem.queue);
    assert {op.id} - IdsOf([op]) == {};
  }

  /** The first commit is queued and nothing is sent. */
  ghost function FirstWaits(cfg: Config): World {
    Started(cfg, [FIRST_COMMIT], {}).(mem := Running([], CommitQueue(cfg, 0, [FIRST_COMMIT], 0), {}))
  }

  lemma FirstQueued(cfg: Config)
    ensures NextLoadNew(Started(cfg, [FIRST_COMMIT], {1})) == Some(FirstWaits(cfg))
  {
    WithIdsAll([FIRST_COMMIT], {1});
    assert [] + [FIRST_COMMIT] == [FIRST_COMMIT];
    LoadsOne(Started(cfg, [FIRST_COMMIT], {1}), FIRST_COMMIT, CommitQueue(cfg, 0, [FIRST_COMMIT], 0));
  }

  lemma FirstStoredRun(cfg: Config)
    ensures Run(cfg, INITIAL, [Restart, HandOver(FIRST_COMMIT)]) == Some(Started(cfg, [FIRST_COMMIT], {1}))
  {
    RunLast(cfg, INITIAL, [], Restart);
    assert [] + [Restart] == [Restart];
    StartWithoutRows(cfg, []);
    RunLast(cfg, INITIAL, [Restart], HandOver(FIRST_COMMIT));
    assert [Restart] + [HandOver(FIRST_COMMIT)] == [Restart, HandOver(FIRST_COMMIT)];
    FirstHandedOver(cfg);
  }

  lemma FirstQueuedRun(cfg: Config)
    ensures Run(cfg, INITIAL, [Restart, HandOver(FIRST_COMMIT), LoadNew]) == Some(FirstWaits(cfg))
  {
    var before := [Restart, HandOver(FIRST_COMMIT)];
    FirstStoredRun(cfg);
    RunLast(cfg, INITIAL, before, LoadNew);
    assert before + [LoadNew] == [Restart, HandOver(FIRST_COMMIT), LoadNew];
    FirstQueued(cfg);
  }

  /** An operation that is queued before anything was ever sent is lost by a restart: it is nowhere afterwards. */
  lemma QueuedOperationLost(cfg: Config)
    ensures Run(cfg, INITIAL, [Restart, HandOver(FIRST_COMMIT), LoadNew, Restart]) == Some(Started(cfg, [FIRST_COMMIT], {}))
  {
    var s3 := [Restart, HandOver(FIRST_COMMIT), LoadNew];
    FirstQueuedRun(cfg);
    assert s3 + [Restart] == [Restart, HandOver(FIRST_COMMIT), LoadNew, Restart];
    RunLast(cfg, INITIAL, s3, Restart);
    StartWithoutRows(cfg, [FIRST_COMMIT]);
  }

  lemma BurnsFirstId(cfg: Config)
    requires cfg.maxInFlight > 0
    ensures NextStartFails(FirstWaits(cfg), 1, 0) == Some(FirstWaits(cfg).(db := FirstWaits(cfg).db.(lastEthId := 1)))
  {
    var queue := CommitQueue(cfg, 0, [FIRST_COMMIT], 0);
    assert queue.PopFront() == Some((FIRST_COMMIT, CommitQueue(cfg, 1, [], 1))) by {
      assert [FIRST_COMMIT][1..] == [];
    }
    assert [FIRST_COMMIT] + [] == [FIRST_COMMIT];
  }

  /** A failed first start burns id 1, after which nothing is ever confirmed. */
  lemma FirstIdCanBurn(cfg: Config, after: seq<Step>)
    requires cfg.maxInFlight > 0
    ensures var before := [Restart, HandOver(FIRST_COMMIT), LoadNew, StartFails(1, 0)];
      && Run(cfg, INITIAL, before).Some?
      && (Run(cfg, INITIAL, before + after).Some? ==> Run(cfg, INITIAL, before + after).value.confirmations == [])
  {
    var s3, before := [Restart, HandOver(FIRST_COMMIT), LoadNew], [Restart, HandOver(FIRST_COMMIT), LoadNew, StartFails(1, 0)];
    FirstQueuedRun(cfg);
    BurnsFirstId(cfg);
    assert s3 + [StartFails(1, 0)] == before;
    RunLast(cfg, INITIAL, s3, StartFails(1, 0));
    if Run(cfg, INITIAL, before + after).Some? {
      BurntIdBlocksConfirmation(cfg, before, after);
    }
  }

  // ----- confirmations that skip an id

  const SECOND_COMMIT := AggOp(2, CommitBlocks, 2, 2)
  const FIRST_HASH := Hash(0, 0)
  const SECOND_HASH := Hash(1, 0)

  function FirstOp(cfg: Config): EthOp {
    EthOp(1, FIRST_COMMIT, 0, cfg.waitBlocks, [FIRST_HASH], 0)
  }

  function SecondOp(cfg: Config): EthOp {
    EthOp(3, SECOND_COMMIT, 1, cfg.waitBlocks, [SECOND_HASH], 0)
  }

  /** The first commit is sent with id 1; `ops` are stored and `unprocessed` is listed. */
  ghost function FirstSent(cfg: Config, ops: seq<AggOp>, unprocessed: set<nat>, queued: seq<AggOp>, lastEthId: nat): World {
    World(Db(ops, {}, unprocessed, [Row(FirstOp(cfg), false, None)], [Binding(1, 1)], 1, Stats(1, 0, 0), lastEthId, 1),
          Running([FirstOp(cfg)], CommitQueue(cfg, 1, queued, 1), {(1, FIRST_HASH)}), map[], [])
  }

  /** Both commits are sent, the second one with id 3. */
  ghost function BothSent(cfg: Config): World {
    World(Db([FIRST_COMMIT, SECOND_COMMIT], {}, {}, [Row(FirstOp(cfg), false, None), Row(SecondOp(cfg), false, None)],
             [Binding(1, 1), Binding(2, 2)], 2, Stats(2, 0, 0), 3, 2),
          Running([FirstOp(cfg), SecondOp(cfg)], CommitQueue(cfg, 2, [], 2), {(1, FIRST_HASH), (3, SECOND_HASH)}), map[], [])
  }

  lemma SendsFirst(cfg: Config)
    requires cfg.maxInFlight > 0
    ensures NextStart(cfg, FirstWaits(cfg), 0, FIRST_HASH, 1, 1) == Some(FirstSent(cfg, [FIRST_COMMIT], {}, [], 1))
  {
    var queue := CommitQueue(cfg, 0, [FIRST_COMMIT], 0);
    assert queue.PopFront() == Some((FIRST_COMMIT, CommitQueue(cfg, 1, [], 1))) by {
      assert [FIRST_COMMIT][1..] == [];
    }
    assert [] + [Row(FirstOp(cfg), false, None)] == [Row(FirstOp(cfg), false, None)];
    assert [] + [Binding(1, 1)] == [Binding(1, 1)] && [] + [FirstOp(cfg)] == [FirstOp(cfg)];
    assert {} + {(1, FIRST_HASH)} == {(1, FIRST_HASH)};
  }

  lemma HandsOverSecond(cfg: Config)
    ensures NextHandOver(FirstSent(cfg, [FIRST_COMMIT], {}, [], 1), SECOND_COMMIT)
      == Some(FirstSent(cfg, [FIRST_COMMIT, SECOND_COMMIT], {2}, [], 1))
  {
    assert [FIRST_COMMIT][1..] == [] && OfKind([FIRST_COMMIT], CommitBlocks) == [FIRST_COMMIT];
    assert [FIRST_COMMIT] + [SECOND_COMMIT] == [FIRST_COMMIT, SECOND_COMMIT];
    assert {} + {SECOND_COMMIT.id} == {2};
  }

  lemma SecondListed()
    ensures WithIds([FIRST_COMMIT, SECOND_COMMIT], {2}) == [SECOND_COMMIT]
  {
    assert [FIRST_COMMIT, SECOND_COMMIT][1..] == [SECOND_COMMIT];
    WithIdsAll([SECOND_COMMIT], {2});
  }

  lemma LoadsSecond(cfg: Config)
    ensures NextLoadNew(FirstSent(cfg, [FIRST_COMMIT, SECOND_COMMIT], {2}, [], 1))
      == Some(FirstSent(cfg, [FIRST_COMMIT, SECOND_COMMIT], {}, [SECOND_COMMIT], 1))
  {
    SecondListed();
    assert [] + [SECOND_COMMIT] == [SECOND_COMMIT];
    LoadsOne(FirstSent(cfg, [FIRST_COMMIT, SECOND_COMMIT], {2}, [], 1), SECOND_COMMIT,
             CommitQueue(cfg, 1, [SECOND_COMMIT], 1));
  }

  lemma PopsSecond(cfg: Config)
    requires cfg.maxInFlight >= 2
    ensures CommitQueue(cfg, 1, [SECOND_COMMIT], 1).PopFront() == Some((SECOND_COMMIT, CommitQueue(cfg, 2, [], 2)))
  {
    assert [SECOND_COMMIT][1..] == [];
  }

  lemma BurnsSecondId(cfg: Config)
    requires cfg.maxInFlight >= 2
    ensures NextStartFails(FirstSent(cfg, [FIRST_COMMIT, SECOND_COMMIT], {}, [SECOND_COMMIT], 1), 2, 1)
      == Some(FirstSent(cfg, [FIRST_COMMIT, SECOND_COMMIT], {}, [SECOND_COMMIT], 2))
  {
    PopsSecond(cfg);
    assert [SECOND_COMMIT] + [] == [SECOND_COMMIT];
  }

  lemma SendsSecond(cfg: Config)
    requires cfg.maxInFlight >= 2
    ensures NextStart(cfg, FirstSent(cfg, [FIRST_COMMIT, SECOND_COMMIT], {}, [SECOND_COMMIT], 2), 0, SECOND_HASH, 3, 2)
      == Some(BothSent(cfg))
  {
    var w := FirstSent(cfg, [FIRST_COMMIT, SECOND_COMMIT], {}, [SECOND_COMMIT], 2);
    PopsSecond(cfg);
    assert w.db.rows + [Row(SecondOp(cfg), false, None)] == BothSent(cfg).db.rows;
    assert w.db.bindings + [Binding(2, 2)] == BothSent(cfg).db.bindings;
    assert w.mem.ongoing + [SecondOp(cfg)] == BothSent(cfg).mem.ongoing;
    assert w.mem.sent + {(3, SECOND_HASH)} == BothSent(cfg).mem.sent;
  }

  /** Starts id 1, burns id 2 and starts id 3. */
  const SENDING := [Restart, HandOver(FIRST_COMMIT), LoadNew, Start(0, FIRST_HASH, 1, 1), HandOver(SECOND_COMMIT), LoadNew,
                    StartFails(2, 1), Start(0, SECOND_HASH, 3, 2)]

  lemma SendingFirst(cfg: Config)
    requires cfg.maxInFlight >= 2
    ensures Run(cfg, INITIAL, SENDING[..5]) == Some(FirstSent(cfg, [FIRST_COMMIT, SECOND_COMMIT], {2}, [], 1))
  {
    var s3 := [Restart, HandOver(FIRST_COMMIT), LoadNew];
    var s4 := s3 + [Start(0, FIRST_HASH, 1, 1)];
    FirstQueuedRun(cfg);
    SendsFirst(cfg);
    RunLast(cfg, INITIAL, s3, Start(0, FIRST_HASH, 1, 1));
    HandsOverSecond(cfg);
    RunLast(cfg, INITIAL, s4, HandOver(SECOND_COMMIT));
    assert SENDING[..5] == s4 + [HandOver(SECOND_COMMIT)];
  }

  lemma SendingLoaded(cfg: Config)
    requires cfg.maxInFlight >= 2
    ensures Run(cfg, INITIAL, SENDING[..6])
      == Some(FirstSent(cfg, [FIRST_COMMIT, SECOND_COMMIT], {}, [SECOND_COMMIT], 1))
  {
    SendingFirst(cfg);
    LoadsSecond(cfg);
    RunLast(cfg, INITIAL, SENDING[..5], LoadNew);
    assert SENDING[..6] == SENDING[..5] + [LoadNew];
  }

  lemma SendingBurnt(cfg: Config)
    requires cfg.maxInFlight >= 2
    ensures Run(cfg, INITIAL, SENDING[..7])
      == Some(FirstSent(cfg, [FIRST_COMMIT, SECOND_COMMIT], {}, [SECOND_COMMIT], 2))
  {
    SendingLoaded(cfg);
    BurnsSecondId(cfg);
    RunLast(cfg, INITIAL, SENDING[..6], StartFails(2, 1));
    assert SENDING[..7] == SENDING[..6] + [StartFails(2, 1)];
  }

  lemma SendingRun(cfg: Config)
    requires cfg.maxInFlight >= 2
    ensures Run(cfg, INITIAL, SENDING) == Some(BothSent(cfg))
  {
    SendingBurnt(cfg);
    SendsSecond(cfg);
    RunLast(cfg, INITIAL, SENDING[..7], Start(0, SECOND_HASH, 3, 2));
    assert SENDING == SENDING[..7] + [Start(0, SECOND_HASH, 3, 2)];
  }

  /** Both transactions are mined and then found, one after the other. */
  function Confirming(cfg: Config): seq<Step> {
    var check := FindsOldest(0, 0, cfg.waitConfirmations);
    [Mine(FIRST_HASH), Mine(SECOND_HASH), check, check]
  }

  lemma ConfirmsNext(cfg: Config, steps: seq<Step>, w: World) returns (w': World)
    requires Run(cfg, INITIAL, steps) == Some(w) && w.mem.Running? && w.mem.ongoing != []
    requires |w.confirmations| < |w.db.rows| && w.db.rows[0].eth.id == 1
    requires var o := w.mem.ongoing[0];
      && o.hashes != [] && o.hashes[0] in w.db.rows[|w.confirmations|].eth.hashes
      && o.nonce in w.mined && w.mined[o.nonce] == o.hashes[0]
    ensures Next(cfg, w, FindsOldest(0, 0, cfg.waitConfirmations)) == Some(w')
    ensures ConfirmsOldest(w, w', w.mem.ongoing[0].hashes[0], cfg.waitConfirmations)
  {
    RunKeeps(cfg, steps);
    OldestConfirms(cfg, w, 0, 0, cfg.waitConfirmations);
    w' := Next(cfg, w, FindsOldest(0, 0, cfg.waitConfirmations)).value;
  }

  lemma BothMined(cfg: Config)
    requires cfg.maxInFlight >= 2
    ensures Run(cfg, INITIAL, SENDING + [Mine(FIRST_HASH)] + [Mine(SECOND_HASH)])
      == Some(BothSent(cfg).(mined := map[0 := FIRST_HASH, 1 := SECOND_HASH]))
  {
    SendingRun(cfg);
    RunLast(cfg, INITIAL, SENDING, Mine(FIRST_HASH));
    RunLast(cfg, INITIAL, SENDING + [Mine(FIRST_HASH)], Mine(SECOND_HASH));
    assert map[][0 := FIRST_HASH][1 := SECOND_HASH] == map[0 := FIRST_HASH, 1 := SECOND_HASH];
  }

  lemma ConfirmsBoth(cfg: Config, steps: seq<Step>, w: World) returns (w': World)
    requires Run(cfg, INITIAL, steps) == Some(w) && w == BothSent(cfg).(mined := map[0 := FIRST_HASH, 1 := SECOND_HASH])
    ensures var check := FindsOldest(0, 0, cfg.waitConfirmations); Run(cfg, INITIAL, steps + [check] + [check]) == Some(w')
    ensures w'.confirmations
      == [Confirmation(1, FIRST_HASH, cfg.waitConfirmations), Confirmation(3, SECOND_HASH, cfg.waitConfirmations)]
  {
    var check := FindsOldest(0, 0, cfg.waitConfirmations);
    var middle := ConfirmsNext(cfg, steps, w);
    RunLast(cfg, INITIAL, steps, check);
    w' := ConfirmsNext(cfg, steps + [check], middle);
    RunLast(cfg, INITIAL, steps + [check], check);
  }

  /** This run confirms the operations 1 and 3, so the confirmed ids are not 1..2. */
  lemma ConfirmationsSkipId(cfg: Config)
    requires cfg.maxInFlight >= 2
    ensures var w := Run(cfg, INITIAL, SENDING + Confirming(cfg));
      && w.Some? && |w.value.confirmations| == 2 && Ids(w.value.confirmations) == {1, 3}
      && Ids(w.value.confirmations) != UpTo(|w.value.confirmations|)
  {
    var check, mined := FindsOldest(0, 0, cfg.waitConfirmations), SENDING + [Mine(FIRST_HASH)] + [Mine(SECOND_HASH)];
    BothMined(cfg);
    var w := ConfirmsBoth(cfg, mined, Run(cfg, INITIAL, mined).value);
    assert mined + [check] + [check] == SENDING + Confirming(cfg);
    assert w.confirmations[0].id == 1 && w.confirmations[1].id == 3;
    assert 3 in Ids(w.confirmations);
  }

  // ----- a replacement that was sent but not stored

  const REPLACEMENT := Hash(0, 1)

  /** Finds the first transaction stuck, sends a replacement and fails to store it. */
  function Replacing(cfg: Config): Step {
    Check(0, cfg.waitBlocks, (k: nat) => Unknown, true, Signed(REPLACEMENT, true, false))
  }

  /** The first commit is sent, and replaced by a transaction that only memory knows. */
  ghost function Replaced(cfg: Config): World {
    FirstSent(cfg, [FIRST_COMMIT], {}, [], 1).(mem := Running(
      [FirstOp(cfg).(deadline := cfg.waitBlocks + cfg.waitBlocks, hashes := [FIRST_HASH, REPLACEMENT])],
      CommitQueue(cfg, 1, [], 1), {(1, FIRST_HASH), (1, REPLACEMENT)}))
  }

  lemma ReplacesFirst(cfg: Config)
    ensures Next(cfg, FirstSent(cfg, [FIRST_COMMIT], {}, [], 1), Replacing(cfg)) == Some(Replaced(cfg))
  {
    var w, step := FirstSent(cfg, [FIRST_COMMIT], {}, [], 1), Replacing(cfg);
    var o := w.mem.ongoing[0];
    assert CheckAllowed(w, 0, step.replies, step.supplement);
    ScanMeaning(cfg, o, step.replies, cfg.waitBlocks, 0);
    assert UnknownUpTo(step.replies, 0, 1);
    assert o.hashes + [REPLACEMENT] == [FIRST_HASH, REPLACEMENT];
    assert w.mem.ongoing[0 := Replaced(cfg).mem.ongoing[0]] == Replaced(cfg).mem.ongoing;
    assert w.mem.sent + {(1, REPLACEMENT)} == Replaced(cfg).mem.sent;
  }

  lemma ReplacingRun(cfg: Config)
    requires cfg.maxInFlight > 0
    ensures var steps := [Restart, HandOver(FIRST_COMMIT), LoadNew] + [Start(0, FIRST_HASH, 1, 1)] + [Replacing(cfg)]
                         + [Mine(REPLACEMENT)];
      Run(cfg, INITIAL, steps) == Some(Replaced(cfg).(mined := map[0 := REPLACEMENT]))
  {
    var s3 := [Restart, HandOver(FIRST_COMMIT), LoadNew];
    FirstQueuedRun(cfg);
    SendsFirst(cfg);
    RunLast(cfg, INITIAL, s3, Start(0, FIRST_HASH, 1, 1));
    ReplacesFirst(cfg);
    RunLast(cfg, INITIAL, s3 + [Start(0, FIRST_HASH, 1, 1)], Replacing(cfg));
    RunLast(cfg, INITIAL, s3 + [Start(0, FIRST_HASH, 1, 1)] + [Replacing(cfg)], Mine(REPLACEMENT));
    assert map[][0 := REPLACEMENT] == map[0 := REPLACEMENT];
  }

  /**
   In this run the replacement is mined and a check finds it deep enough, yet confirms nothing: the transaction was
   never stored.
   */
  lemma UnstoredReplacementStaysUnconfirmed(cfg: Config)
    requires cfg.maxInFlight > 0
    ensures var steps := [Restart, HandOver(FIRST_COMMIT), LoadNew] + [Start(0, FIRST_HASH, 1, 1)] + [Replacing(cfg)]
                         + [Mine(REPLACEMENT)];
      var w := Run(cfg, INITIAL, steps);
      && w.Some? && w.value.mined == map[0 := REPLACEMENT] && w.value.confirmations == []
      && Run(cfg, INITIAL, steps + [FindsOldest(1, 0, cfg.waitConfirmations)]) == w
  {
    var steps := [Restart, HandOver(FIRST_COMMIT), LoadNew] + [Start(0, FIRST_HASH, 1, 1)] + [Replacing(cfg)]
                 + [Mine(REPLACEMENT)];
    var check := FindsOldest(1, 0, cfg.waitConfirmations);
    ReplacingRun(cfg);
    RunLast(cfg, INITIAL, steps, check);
    var w := Replaced(cfg).(mined := map[0 := REPLACEMENT]);
    assert CheckAllowed(w, 0, check.replies, check.supplement);
    FindsOldestScan(cfg, w.mem.ongoing[0], 1, 0, cfg.waitConfirmations);
  }
}
