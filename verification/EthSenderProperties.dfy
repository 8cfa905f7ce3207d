/**
 What the Ethereum sender promises, stated over all its runs: confirmation in order and at most once,
 no forgotten transaction, replacement only of stuck transactions, and dependencies sent first.
 */
module EthSenderProperties {
  import opened Wrappers
  import opened Powers
  import opened TxQueue
  import opened EthDatabase
  import opened EthSenderRun
  import opened EthSenderSafety

  // ----- confirmation

  /**
   Exactly the first rows are confirmed, in the order of the history; ids increase, so none is confirmed
   twice; each by one of its own hashes, which is the one mined for its nonce and deep enough.
   */
  lemma ConfirmedInOrder(cfg: Config, steps: seq<Step>)
    requires Run(cfg, INITIAL, steps).Some?
    ensures var w := Run(cfg, INITIAL, steps).value; var done := w.confirmations;
      && |done| <= |w.db.rows|
      && (forall i :: 0 <= i < |w.db.rows| ==> (w.db.rows[i].confirmed <==> i < |done|))
      && (forall i, j :: 0 <= i < j < |done| ==> done[i].id < done[j].id)
      && forall i :: 0 <= i < |done| ==>
           var row := w.db.rows[i];
           && done[i].id == row.eth.id && row.finalHash == Some(done[i].hash)
           && done[i].hash in row.eth.hashes && done[i].depth >= cfg.waitConfirmations
           && row.eth.nonce in w.mined && w.mined[row.eth.nonce] == done[i].hash
  {
    RunKeeps(cfg, steps);
    var w := Run(cfg, INITIAL, steps).value;
    forall i | 0 <= i < |w.confirmations|
      ensures ConfirmedBy(cfg, w.db.rows[i], w.mined, w.confirmations[i])
    {
    }
  }

  /** Continuing a run never takes back or changes a confirmation. */
  lemma {:induction false} HistoryOnlyGrows(cfg: Config, before: seq<Step>, after: seq<Step>)
    requires Run(cfg, INITIAL, before + after).Some?
    ensures Run(cfg, INITIAL, before).Some?
    ensures Run(cfg, INITIAL, before).value.confirmations <= Run(cfg, INITIAL, before + after).value.confirmations
    decreases |after|
  {
    if after == [] {
      assert before + after == before;
    } else {
      var n := |after| - 1;
      assert before + after == before + after[..n] + [after[n]];
      RunLast(cfg, INITIAL, before + after[..n], after[n]);
      HistoryOnlyGrows(cfg, before, after[..n]);
      RunKeeps(cfg, before + after[..n]);
      StepEffect(cfg, Run(cfg, INITIAL, before + after[..n]).value, after[n]);
    }
  }

  lemma PredecessorOf(cfg: Config, db: Db, mined: map<nat, Hash>, done: seq<Confirmation>, ongoing: seq<EthOp>, i: nat)
    requires RowsInv(cfg, db) && ConfirmedInv(cfg, db.rows, mined, done)
    requires MirrorInv(cfg, db.rows, |done|, ongoing) && i < |ongoing|
    ensures IsPreviousOperationConfirmed(db, ongoing[i]) <==> i == 0 && db.rows[0].eth.id == 1
  {
    var j := |done| + i;
    assert Mirrors(ongoing[i], db.rows[j].eth);
    LatestBelowIsPrevious(db.rows, j);
    if j > 0 {
      assert db.rows[0].eth.id < db.rows[j].eth.id;
    }
  }

  /** The check of the predecessor passes for the oldest operation only, and only if the first id was 1. */
  lemma PredecessorCheck(cfg: Config, steps: seq<Step>, i: nat)
    requires Run(cfg, INITIAL, steps).Some?
    requires var w := Run(cfg, INITIAL, steps).value; w.mem.Running? && i < |w.mem.ongoing|
    ensures var w := Run(cfg, INITIAL, steps).value;
      w.db.rows != []
      && (IsPreviousOperationConfirmed(w.db, w.mem.ongoing[i]) <==> i == 0 && w.db.rows[0].eth.id == 1)
  {
    RunKeeps(cfg, steps);
    var w := Run(cfg, INITIAL, steps).value;
    PredecessorOf(cfg, w.db, w.mined, w.confirmations, w.mem.ongoing, i);
  }

  /**
   A check confirms an operation if and only if a deep enough successful receipt is found, the database works,
   the operation is the oldest one, the first id was 1, and the found hash was stored.
   */
  lemma ConfirmsExactly(cfg: Config, steps: seq<Step>, step: Step)
    requires step.Check? && Run(cfg, INITIAL, steps).Some? && Run(cfg, INITIAL, steps + [step]).Some?
    ensures var w, w' := Run(cfg, INITIAL, steps).value, Run(cfg, INITIAL, steps + [step]).value;
      w.mem.Running? && step.i < |w.mem.ongoing| && |w.confirmations| < |w.db.rows| &&
      var o := w.mem.ongoing[step.i];
      var scan := Scan(cfg, o, step.replies, step.block, 0);
      (w'.confirmations != w.confirmations <==>
        && scan.CommittedBy? && scan.index < |o.hashes| && step.dbWorks && step.i == 0
        && w.db.rows[0].eth.id == 1 && o.hashes[scan.index] in w.db.rows[|w.confirmations|].eth.hashes)
  {
    var w, w' := Run(cfg, INITIAL, steps).value, Run(cfg, INITIAL, steps + [step]).value;
    RunLast(cfg, INITIAL, steps, step);
    RunKeeps(cfg, steps);
    var o := w.mem.ongoing[step.i];
    PredecessorCheck(cfg, steps, step.i);
    if Scan(cfg, o, step.replies, step.block, 0).CommittedBy? {
      ScanCommitted(cfg, o, step.replies, step.block, 0);
      var hash := o.hashes[Scan(cfg, o, step.replies, step.block, 0).index];
      if step.i == 0 {
        HashFindsRow(cfg, w, hash);
      }
    }
  }

  /** The check that finds transaction k of the oldest operation successful and `depth` deep, and no other. */
  function FindsOldest(k: nat, block: nat, depth: nat): Step {
    Check(0, block, (j: nat) => if j == k then Receipt(true, depth) else Unknown, true, NotSigned)
  }

  lemma FindsOldestScan(cfg: Config, o: EthOp, k: nat, block: nat, depth: nat)
    requires k < |o.hashes| && depth >= cfg.waitConfirmations
    ensures Scan(cfg, o, FindsOldest(k, block, depth).replies, block, 0) == CommittedBy(k)
  {
    var replies := FindsOldest(k, block, depth).replies;
    ScanMeaning(cfg, o, replies, block, 0);
    assert FirstKnown(o, replies, 0, k);
  }

  /**
   Progress: once any stored transaction of it, the first one or a replacement, is mined and deep enough, such a check
   confirms the oldest operation.
   */
  lemma OldestConfirms(cfg: Config, w: World, k: nat, block: nat, depth: nat)
    requires Inv(cfg, w) && w.mem.Running? && w.mem.ongoing != [] && depth >= cfg.waitConfirmations
    requires |w.confirmations| < |w.db.rows| && w.db.rows[0].eth.id == 1
    requires var o := w.mem.ongoing[0];
      && k < |o.hashes| && o.hashes[k] in w.db.rows[|w.confirmations|].eth.hashes
      && o.nonce in w.mined && w.mined[o.nonce] == o.hashes[k]
    ensures var w' := Next(cfg, w, FindsOldest(k, block, depth));
      w'.Some? && ConfirmsOldest(w, w'.value, w.mem.ongoing[0].hashes[k], depth)
  {
    var o, step := w.mem.ongoing[0], FindsOldest(k, block, depth);
    assert OpInv(cfg, o);
    assert Truthful(w.mined, o, step.replies);
    FindsOldestScan(cfg, o, k, block, depth);
    PredecessorOf(cfg, w.db, w.mined, w.confirmations, w.mem.ongoing, 0);
    ConfirmStep(cfg, w, NextConfirm(w, 0, o.hashes[k], depth), 0, o.hashes[k], depth);
  }

  /** As long as the transaction mined for it is not stored, an operation and all later ones stay unconfirmed. */
  lemma UnstoredHashBlocks(cfg: Config, steps: seq<Step>, j: nat)
    requires Run(cfg, INITIAL, steps).Some? && j < |Run(cfg, INITIAL, steps).value.db.rows|
    requires var w := Run(cfg, INITIAL, steps).value; var row := w.db.rows[j].eth;
      row.nonce in w.mined && w.mined[row.nonce] !in row.hashes
    ensures |Run(cfg, INITIAL, steps).value.confirmations| <= j
  {
    ConfirmedInOrder(cfg, steps);
  }

  /** The first row has not id 1, or will not get it. */
  ghost predicate FirstIdBurnt(db: Db) {
    if db.rows == [] then db.lastEthId >= 1 else db.rows[0].eth.id != 1
  }

  lemma CheckKeepsIds(cfg: Config, w: World, w': World, step: Step)
    requires Core(cfg, w) && step.Check? && Next(cfg, w, step) == Some(w')
    ensures |w'.db.rows| == |w.db.rows| && w'.db.lastEthId == w.db.lastEthId
    ensures forall j :: 0 <= j < |w.db.rows| ==> w'.db.rows[j].eth.id == w.db.rows[j].eth.id
  {
    var op := w.mem.ongoing[step.i];
    match Scan(cfg, op, step.replies, step.block, 0)
    case Interrupted =>
    case StillPending =>
    case TxFailed =>
    case CommittedBy(k) =>
      ScanCommitted(cfg, op, step.replies, step.block, 0);
      if step.dbWorks {
        ConfirmStep(cfg, w, w', step.i, op.hashes[k], step.replies(k).confirmations);
      }
    case AllStuck =>
      if step.supplement.Signed? {
        UpdatePreserves(w.db.rows, op.id, step.block + cfg.waitBlocks, step.supplement.hash);
      }
  }

  lemma BurntStaysBurnt(cfg: Config, w: World, w': World, step: Step)
    requires Core(cfg, w) && FirstIdBurnt(w.db) && Next(cfg, w, step) == Some(w')
    ensures FirstIdBurnt(w'.db)
  {
    if step.Check? {
      CheckKeepsIds(cfg, w, w', step);
    }
  }

  lemma {:induction false} BurntForever(cfg: Config, w: World, steps: seq<Step>)
    requires Inv(cfg, w) && FirstIdBurnt(w.db) && Run(cfg, w, steps).Some?
    ensures var w' := Run(cfg, w, steps).value; Inv(cfg, w') && FirstIdBurnt(w'.db)
    decreases |steps|
  {
    if steps == [] {
    } else {
      var n := |steps| - 1;
      BurntForever(cfg, w, steps[..n]);
      var middle := Run(cfg, w, steps[..n]).value;
      StepKeeps(cfg, middle, steps[n]);
      BurntStaysBurnt(cfg, middle, Run(cfg, w, steps).value, steps[n]);
    }
  }

  /** If a failed start took id 1 before any operation was saved, nothing is ever confirmed, whatever follows. */
  lemma BurntIdBlocksConfirmation(cfg: Config, before: seq<Step>, after: seq<Step>)
    requires Run(cfg, INITIAL, before + after).Some?
    requires Run(cfg, INITIAL, before).Some? && FirstIdBurnt(Run(cfg, INITIAL, before).value.db)
    ensures Run(cfg, INITIAL, before + after).value.confirmations == []
  {
    RunSplit(cfg, INITIAL, before, after);
    RunKeeps(cfg, before);
    BurntForever(cfg, Run(cfg, INITIAL, before).value, after);
  }

  function Ids(done: seq<Confirmation>): set<nat> {
    set c | c in done :: c.id
  }

  /** The numbers 1..=k. */
  function UpTo(k: nat): (r: set<nat>)
    ensures forall n :: n in r <==> 1 <= n <= k
  {
    if k == 0 then {} else UpTo(k - 1) + {k}
  }

  ghost predicate Increasing(done: seq<Confirmation>) {
    forall a, b :: 0 <= a < b < |done| ==> done[a].id < done[b].id
  }

  lemma {:induction false} IncreasingGap(done: seq<Confirmation>, i: nat, j: nat)
    requires i <= j < |done| && Increasing(done)
    ensures done[i].id + (j - i) <= done[j].id
    decreases j
  {
    if i < j {
      IncreasingGap(done, i, j - 1);
    }
  }

  lemma IdsArePrefix(done: seq<Confirmation>)
    requires Increasing(done) && forall i :: 0 <= i < |done| ==> done[i].id >= 1
    ensures Ids(done) == UpTo(|done|) <==> forall i :: 0 <= i < |done| ==> done[i].id == i + 1
  {
    var k := |done|;
    if Ids(done) == UpTo(k) {
      forall i | 0 <= i < k
        ensures done[i].id == i + 1
      {
        assert done[k - 1].id in Ids(done);
        IncreasingGap(done, 0, i);
        IncreasingGap(done, i, k - 1);
      }
    } else if forall i :: 0 <= i < k ==> done[i].id == i + 1 {
      forall n
        ensures n in Ids(done) <==> n in UpTo(k)
      {
        if 1 <= n <= k {
          assert done[n - 1].id == n;
        }
      }
    }
  }

  /** The first k rows, as far as they exist, have the ids 1, 2, 3, ... */
  ghost predicate RowsInSequence(rows: seq<Row>, k: nat) {
    forall i :: 0 <= i < |rows| && i < k ==> rows[i].eth.id == i + 1
  }

  /** A start that fills one of the first k rows takes the id right after the rows. */
  ghost predicate TakesNextId(w: World, step: Step, k: nat) {
    step.Start? && |w.db.rows| < k ==> step.ethId == |w.db.rows| + 1
  }

  /** Until k rows exist, no id was skipped: none was used up by a start that failed before the next one. */
  ghost predicate Gapless(cfg: Config, steps: seq<Step>, k: nat)
    requires Run(cfg, INITIAL, steps).Some?
    decreases |steps|
  {
    steps == [] ||
    var n := |steps| - 1;
    Gapless(cfg, steps[..n], k) && TakesNextId(Run(cfg, INITIAL, steps[..n]).value, steps[n], k)
  }

  lemma SequenceStep(cfg: Config, w: World, w': World, step: Step, k: nat)
    requires Core(cfg, w) && Next(cfg, w, step) == Some(w')
    ensures RowsInSequence(w'.db.rows, k) <==> RowsInSequence(w.db.rows, k) && TakesNextId(w, step, k)
  {
    if step.Check? {
      CheckKeepsIds(cfg, w, w', step);
    } else if step.Start? {
      StartAddsRow(cfg, w, w', step);
    }
  }

  lemma StartAddsRow(cfg: Config, w: World, w': World, step: Step)
    requires step.Start? && Next(cfg, w, step) == Some(w')
    ensures |w'.db.rows| == |w.db.rows| + 1 && w'.db.rows[|w.db.rows|].eth.id == step.ethId
    ensures forall i :: 0 <= i < |w.db.rows| ==> w'.db.rows[i] == w.db.rows[i]
  {
  }

  lemma {:induction false} GaplessRows(cfg: Config, steps: seq<Step>, k: nat)
    requires Run(cfg, INITIAL, steps).Some?
    ensures Gapless(cfg, steps, k) <==> RowsInSequence(Run(cfg, INITIAL, steps).value.db.rows, k)
    decreases |steps|
  {
    if steps == [] {
    } else {
      var n := |steps| - 1;
      GaplessRows(cfg, steps[..n], k);
      RunKeeps(cfg, steps[..n]);
      SequenceStep(cfg, Run(cfg, INITIAL, steps[..n]).value, Run(cfg, INITIAL, steps).value, steps[n], k);
    }
  }

  lemma ConfirmedRowIds(cfg: Config, steps: seq<Step>)
    requires Run(cfg, INITIAL, steps).Some?
    ensures var w := Run(cfg, INITIAL, steps).value;
      && |w.confirmations| <= |w.db.rows| && Increasing(w.confirmations)
      && forall i :: 0 <= i < |w.confirmations| ==> w.confirmations[i].id == w.db.rows[i].eth.id >= 1
  {
    ConfirmedInOrder(cfg, steps);
    RunKeeps(cfg, steps);
  }

  /** The ids of k confirmed operations are exactly 1..k if and only if no start skipped an id before row k. */
  lemma ConfirmedIdsArePrefix(cfg: Config, steps: seq<Step>)
    requires Run(cfg, INITIAL, steps).Some?
    ensures var done := Run(cfg, INITIAL, steps).value.confirmations;
      Ids(done) == UpTo(|done|) <==> Gapless(cfg, steps, |done|)
  {
    var w := Run(cfg, INITIAL, steps).value;
    ConfirmedRowIds(cfg, steps);
    IdsArePrefix(w.confirmations);
    GaplessRows(cfg, steps, |w.confirmations|);
  }

  // ----- ongoing operations

  ghost predicate OngoingOrdered(ongoing: seq<EthOp>, nonce: nat) {
    && (forall i, j :: 0 <= i < j < |ongoing| ==> ongoing[i].id < ongoing[j].id)
    && (forall i :: 0 <= i < |ongoing| ==> ongoing[i].nonce + |ongoing| == nonce + i)
  }

  lemma MirrorOrdered(cfg: Config, db: Db, done: nat, ongoing: seq<EthOp>)
    requires RowsInv(cfg, db) && MirrorInv(cfg, db.rows, done, ongoing)
    ensures OngoingOrdered(ongoing, db.nonce)
  {
    forall i | 0 <= i < |ongoing|
      ensures ongoing[i].id == db.rows[done + i].eth.id && ongoing[i].nonce == db.rows[done + i].eth.nonce
    {
      assert Mirrors(ongoing[i], db.rows[done + i].eth);
    }
  }

  /** In memory: ids increase, nonces are consecutive, and the queue counts exactly these operations. */
  lemma OngoingInOrder(cfg: Config, steps: seq<Step>)
    requires Run(cfg, INITIAL, steps).Some? && Run(cfg, INITIAL, steps).value.mem.Running?
    ensures var w := Run(cfg, INITIAL, steps).value;
      OngoingOrdered(w.mem.ongoing, w.db.nonce) && w.mem.queue.sentPending == |w.mem.ongoing| <= cfg.maxInFlight
  {
    RunKeeps(cfg, steps);
    var w := Run(cfg, INITIAL, steps).value;
    MirrorOrdered(cfg, w.db, |w.confirmations|, w.mem.ongoing);
  }

  /** The statistics always fit the operation that is sent next, so saving it never fails for that reason. */
  lemma StatisticsFit(cfg: Config, steps: seq<Step>, ethId: nat, bindingId: nat, deadline: nat, hash: Hash, block: nat)
    requires Run(cfg, INITIAL, steps).Some?
    requires var mem := Run(cfg, INITIAL, steps).value.mem; mem.Running? && mem.queue.PopFront().Some?
    ensures var w := Run(cfg, INITIAL, steps).value;
      SaveNewEthTx(w.db, w.mem.queue.PopFront().value.0, ethId, bindingId, deadline, hash, block).Some?
  {
    RunKeeps(cfg, steps);
    var w := Run(cfg, INITIAL, steps).value;
    StartKeepsQueue(cfg, w.mem.queue, |w.mem.ongoing|, w.db.stats);
  }

  // ----- sent transactions

  predicate NoRestart(steps: seq<Step>) {
    forall k :: 0 <= k < |steps| ==> !steps[k].Restart?
  }

  lemma SentStays(cfg: Config, w: World, step: Step)
    requires Next(cfg, w, step).Some? && !step.Restart? && Next(cfg, w, step).value.mem.Running?
    ensures w.mem.Running? && w.mem.sent <= Next(cfg, w, step).value.mem.sent
  {
  }

  lemma {:induction false} SentSurvives(cfg: Config, w: World, steps: seq<Step>)
    requires NoRestart(steps) && Run(cfg, w, steps).Some? && Run(cfg, w, steps).value.mem.Running?
    ensures w.mem.Running? && w.mem.sent <= Run(cfg, w, steps).value.mem.sent
    decreases |steps|
  {
    if steps == [] {
    } else {
      var n := |steps| - 1;
      SentStays(cfg, Run(cfg, w, steps[..n]).value, steps[n]);
      SentSurvives(cfg, w, steps[..n]);
    }
  }

  /** The operation `id` is confirmed, or `hash` is in its list in memory. */
  ghost predicate Remembered(w: World, id: nat, hash: Hash) {
    || (exists c :: c in w.confirmations && c.id == id)
    || (w.mem.Running? && exists o :: o in w.mem.ongoing && o.id == id && hash in o.hashes)
  }

  lemma TrackedIsRemembered(cfg: Config, w: World, id: nat, hash: Hash)
    requires ConfirmedInv(cfg, w.db.rows, w.mined, w.confirmations) && w.mem.Running?
    requires MirrorInv(cfg, w.db.rows, |w.confirmations|, w.mem.ongoing)
    requires Tracked(w.db.rows, |w.confirmations|, w.mem.ongoing, id, hash)
    ensures Remembered(w, id, hash)
  {
    var rows, c, ongoing := w.db.rows, |w.confirmations|, w.mem.ongoing;
    var j :| 0 <= j < |rows| && rows[j].eth.id == id
      && (j < c || (j - c < |ongoing| && hash in ongoing[j - c].hashes));
    if j < c {
      assert ConfirmedBy(cfg, rows[j], w.mined, w.confirmations[j]);
      assert w.confirmations[j] in w.confirmations;
    } else {
      var i := j - c;
      assert Mirrors(ongoing[i], rows[c + i].eth);
      assert ongoing[i] in ongoing && ongoing[i].id == id && hash in ongoing[i].hashes;
    }
  }

  /** The transaction of a step that passes one to the node, with its operation. */
  ghost predicate Sends(cfg: Config, w: World, step: Step, id: nat, hash: Hash) {
    match step
    case Start(_, h, ethId, _) => id == ethId && hash == h
    case Check(i, block, replies, _, s) =>
      && w.mem.Running? && i < |w.mem.ongoing| && Scan(cfg, w.mem.ongoing[i], replies, block, 0).AllStuck?
      && s.Signed? && s.sent && s.hash == hash && id == w.mem.ongoing[i].id
    case _ => false
  }

  lemma SendsRecorded(cfg: Config, w: World, w': World, step: Step, id: nat, hash: Hash)
    requires Next(cfg, w, step) == Some(w') && Sends(cfg, w, step, id, hash) && w'.mem.Running?
    ensures (id, hash) in w'.mem.sent
  {
  }

  /**
   Whatever the steps after it do or fail to do, a transaction passed to the node stays in the hash list of
   its operation until that operation is confirmed, as long as the process runs without a restart.
   */
  lemma NoSentHashForgotten(cfg: Config, before: seq<Step>, step: Step, after: seq<Step>, id: nat, hash: Hash)
    requires Run(cfg, INITIAL, before + [step] + after).Some? && NoRestart(after)
    requires Run(cfg, INITIAL, before).Some? && Sends(cfg, Run(cfg, INITIAL, before).value, step, id, hash)
    requires Run(cfg, INITIAL, before + [step] + after).value.mem.Running?
    ensures Remembered(Run(cfg, INITIAL, before + [step] + after).value, id, hash)
  {
    var w1, w3 := Run(cfg, INITIAL, before).value, Run(cfg, INITIAL, before + [step] + after).value;
    RunPrefix(cfg, INITIAL, before + [step], after);
    RunSplit(cfg, INITIAL, before + [step], after);
    var w2 := Run(cfg, INITIAL, before + [step]).value;
    RunLast(cfg, INITIAL, before, step);
    SentSurvives(cfg, w2, after);
    SendsRecorded(cfg, w1, w2, step, id, hash);
    assert Core(cfg, w3) by {
      RunKeeps(cfg, before + [step] + after);
    }
    assert Tracked(w3.db.rows, |w3.confirmations|, w3.mem.ongoing, (id, hash).0, (id, hash).1);
    TrackedIsRemembered(cfg, w3, id, hash);
  }

  // ----- replacements

  /**
   A check changes the hashes of an operation, or passes a transaction to the node, only when the node knew
   none of its hashes and its deadline had passed; the deadline then moves by at least the waiting period.
   */
  lemma ReplacementDiscipline(cfg: Config, steps: seq<Step>, step: Step)
    requires step.Check? && Run(cfg, INITIAL, steps + [step]).Some?
    ensures Run(cfg, INITIAL, steps).Some?
    ensures var w, w' := Run(cfg, INITIAL, steps).value, Run(cfg, INITIAL, steps + [step]).value;
      w.mem.Running? && step.i < |w.mem.ongoing|
      && (w'.mem.Running? && (w'.mem.sent != w.mem.sent
                              || (|w'.mem.ongoing| == |w.mem.ongoing| && w'.mem.ongoing != w.mem.ongoing)) ==>
            var o := w.mem.ongoing[step.i];
            && (forall k :: 0 <= k < |o.hashes| ==> step.replies(k).Unknown?)
            && o.deadline <= step.block
            && |w'.mem.ongoing| == |w.mem.ongoing|
            && w'.mem.ongoing == w.mem.ongoing[step.i := w'.mem.ongoing[step.i]]
            && w'.mem.ongoing[step.i].deadline == step.block + cfg.waitBlocks >= o.deadline + cfg.waitBlocks
            && |w'.mem.ongoing[step.i].hashes| == |o.hashes| + 1
            && o.hashes <= w'.mem.ongoing[step.i].hashes)
  {
    assert (steps + [step])[..|steps|] == steps;
    RunKeeps(cfg, steps);
    var w := Run(cfg, INITIAL, steps).value;
    var o := w.mem.ongoing[step.i];
    assert OpInv(cfg, o);
    if Scan(cfg, o, step.replies, step.block, 0).AllStuck? {
      ScanAllStuck(cfg, o, step.replies, step.block, 0);
    }
  }

  /** The check finds none of the operation's transactions known to the node, and its deadline passed. */
  ghost predicate FindsStuck(o: EthOp, step: Step)
    requires step.Check?
  {
    (forall k :: 0 <= k < |o.hashes| ==> step.replies(k).Unknown?) && o.deadline <= step.block
  }

  /** Operation i gets the hash and the new deadline in memory; only sending and storing decide about the rest. */
  ghost predicate Replaced(cfg: Config, w: World, w': World, i: nat, block: nat, s: Supplement)
    requires w.mem.Running? && i < |w.mem.ongoing| && |w.confirmations| + i < |w.db.rows| && s.Signed?
  {
    var o, j, deadline := w.mem.ongoing[i], |w.confirmations| + i, block + cfg.waitBlocks;
    var row := w.db.rows[j];
    && w'.mem == Running(w.mem.ongoing[i := o.(hashes := o.hashes + [s.hash], deadline := deadline)], w.mem.queue,
                         if s.sent then w.mem.sent + {(o.id, s.hash)} else w.mem.sent)
    && w'.db == (if s.sent && s.stored
                 then w.db.(rows := w.db.rows[j := row.(eth := row.eth.(hashes := row.eth.hashes + [s.hash],
                                                                        deadline := deadline))])
                 else w.db)
    && w'.mined == w.mined && w'.confirmations == w.confirmations
  }

  lemma UpdateIsAt(cfg: Config, rows: seq<Row>, j: nat, deadline: nat, hash: Hash)
    requires SortedRows(rows) && j < |rows|
    ensures UpdateEthTx(rows, rows[j].eth.id, deadline, hash)
      == rows[j := rows[j].(eth := rows[j].eth.(hashes := rows[j].eth.hashes + [hash], deadline := deadline))]
  {
  }

  lemma StuckScan(cfg: Config, o: EthOp, step: Step)
    requires OpInv(cfg, o) && step.Check?
    ensures Scan(cfg, o, step.replies, step.block, 0).AllStuck? <==> FindsStuck(o, step)
  {
    if FindsStuck(o, step) {
      ScanMeaning(cfg, o, step.replies, step.block, 0);
      assert UnknownUpTo(step.replies, 0, |o.hashes|);
    } else if Scan(cfg, o, step.replies, step.block, 0).AllStuck? {
      ScanAllStuck(cfg, o, step.replies, step.block, 0);
    }
  }

  lemma StuckIsReplaced(cfg: Config, w: World, w': World, i: nat, block: nat, s: Supplement)
    requires Core(cfg, w) && w.mem.Running? && i < |w.mem.ongoing| && s.Signed?
    requires w' == NextSupplement(cfg, w, i, block, s)
    ensures |w.confirmations| + i < |w.db.rows| && Replaced(cfg, w, w', i, block, s)
  {
    assert Mirrors(w.mem.ongoing[i], w.db.rows[|w.confirmations| + i].eth);
    UpdateIsAt(cfg, w.db.rows, |w.confirmations| + i, block + cfg.waitBlocks, s.hash);
  }

  lemma OtherwiseKept(cfg: Config, w: World, w': World, step: Step)
    requires Core(cfg, w) && step.Check? && Next(cfg, w, step) == Some(w') && w'.mem.Running?
    requires Scan(cfg, w.mem.ongoing[step.i], step.replies, step.block, 0).AllStuck? ==> step.supplement.NotSigned?
    ensures w'.mem.sent == w.mem.sent && (w'.mem.ongoing == w.mem.ongoing || w'.mem.ongoing == w.mem.ongoing[1..])
  {
    var o := w.mem.ongoing[step.i];
    var scan := Scan(cfg, o, step.replies, step.block, 0);
    if scan.CommittedBy? && step.dbWorks {
      ScanCommitted(cfg, o, step.replies, step.block, 0);
      ConfirmStep(cfg, w, w', step.i, o.hashes[scan.index], step.replies(scan.index).confirmations);
    }
  }

  /**
   A check replaces the last transaction if and only if it finds the operation stuck and a replacement is signed. The
   operation in memory then has the new hash, whether or not it could be sent; the table has it if it was sent and stored.
   */
  lemma ReplacesExactly(cfg: Config, steps: seq<Step>, step: Step)
    requires step.Check? && Run(cfg, INITIAL, steps).Some? && Run(cfg, INITIAL, steps + [step]).Some?
    ensures var w, w' := Run(cfg, INITIAL, steps).value, Run(cfg, INITIAL, steps + [step]).value;
      w.mem.Running? && step.i < |w.mem.ongoing| && |w.confirmations| + step.i < |w.db.rows| &&
      if FindsStuck(w.mem.ongoing[step.i], step) && step.supplement.Signed?
      then Replaced(cfg, w, w', step.i, step.block, step.supplement)
      else (w'.mem.Running? ==> w'.mem.sent == w.mem.sent
                                && (w'.mem.ongoing == w.mem.ongoing || w'.mem.ongoing == w.mem.ongoing[1..]))
  {
    var w, w' := Run(cfg, INITIAL, steps).value, Run(cfg, INITIAL, steps + [step]).value;
    RunLast(cfg, INITIAL, steps, step);
    assert Core(cfg, w) by {
      RunKeeps(cfg, steps);
    }
    StuckScan(cfg, w.mem.ongoing[step.i], step);
    if FindsStuck(w.mem.ongoing[step.i], step) && step.supplement.Signed? {
      StuckIsReplaced(cfg, w, w', step.i, step.block, step.supplement);
    } else if w'.mem.Running? {
      OtherwiseKept(cfg, w, w', step);
    }
  }

  /** The highest block at which the operation `id` was started or checked during a run. */
  ghost function HighestBlock(cfg: Config, steps: seq<Step>, id: nat): nat
    requires Run(cfg, INITIAL, steps).Some?
    decreases |steps|
  {
    if steps == [] then 0
    else
      var n := |steps| - 1;
      var before := HighestBlock(cfg, steps[..n], id);
      var block := Touches(Run(cfg, INITIAL, steps[..n]).value, steps[n], id);
      if block > before then block else before
  }

  /** The block at which a step starts or checks the operation `id`, if it does. */
  ghost function Touches(w: World, step: Step, id: nat): nat {
    match step
    case Start(block, _, ethId, _) => if ethId == id then block else 0
    case Check(i, block, _, _, _) =>
      if w.mem.Running? && i < |w.mem.ongoing| && w.mem.ongoing[i].id == id then block else 0
    case _ => 0
  }

  ghost predicate DeadlinesWithin(rows: seq<Row>, ongoing: seq<EthOp>, id: nat, bound: nat) {
    && (forall r :: 0 <= r < |rows| && rows[r].eth.id == id ==> rows[r].eth.deadline <= bound)
    && (forall i :: 0 <= i < |ongoing| && ongoing[i].id == id ==> ongoing[i].deadline <= bound)
  }

  function Ongoing(mem: Memory): seq<EthOp> {
    if mem.Running? then mem.ongoing else []
  }

  lemma {:induction false} UnconfirmedAreRows(rows: seq<Row>, i: nat)
    requires i < |LoadUnconfirmed(rows)|
    ensures exists r :: 0 <= r < |rows| && rows[r].eth == LoadUnconfirmed(rows)[i]
    decreases |rows|
  {
    if rows[0].confirmed {
      UnconfirmedAreRows(rows[1..], i);
      var r :| 0 <= r < |rows| - 1 && rows[1..][r].eth == LoadUnconfirmed(rows[1..])[i];
      assert rows[r + 1].eth == LoadUnconfirmed(rows)[i];
    } else if i > 0 {
      UnconfirmedAreRows(rows[1..], i - 1);
      var r :| 0 <= r < |rows| - 1 && rows[1..][r].eth == LoadUnconfirmed(rows[1..])[i - 1];
      assert rows[r + 1].eth == LoadUnconfirmed(rows)[i];
    } else {
      assert rows[0].eth == LoadUnconfirmed(rows)[0];
    }
  }

  lemma RestartDeadlines(rows: seq<Row>, id: nat, bound: nat)
    requires DeadlinesWithin(rows, [], id, bound)
    ensures DeadlinesWithin(rows, LoadUnconfirmed(rows), id, bound)
  {
    forall i | 0 <= i < |LoadUnconfirmed(rows)| && LoadUnconfirmed(rows)[i].id == id
      ensures LoadUnconfirmed(rows)[i].deadline <= bound
    {
      UnconfirmedAreRows(rows, i);
    }
  }

  lemma ConfirmDeadlines(w: World, w': World, hash: Hash, depth: nat, id: nat, bound: nat)
    requires ConfirmsOldest(w, w', hash, depth) && DeadlinesWithin(w.db.rows, w.mem.ongoing, id, bound)
    ensures DeadlinesWithin(w'.db.rows, Ongoing(w'.mem), id, bound)
  {
  }

  lemma SupplementDeadlines(cfg: Config, w: World, w': World, i: nat, block: nat, s: Supplement, id: nat, b: nat)
    requires w.mem.Running? && i < |w.mem.ongoing| && w' == NextSupplement(cfg, w, i, block, s)
    requires DeadlinesWithin(w.db.rows, w.mem.ongoing, id, b + cfg.waitBlocks)
    requires w.mem.ongoing[i].id == id ==> block <= b
    ensures DeadlinesWithin(w'.db.rows, Ongoing(w'.mem), id, b + cfg.waitBlocks)
  {
  }

  lemma CheckDeadlines(cfg: Config, w: World, w': World, step: Step, id: nat, b: nat)
    requires Core(cfg, w) && step.Check? && Next(cfg, w, step) == Some(w')
    requires DeadlinesWithin(w.db.rows, Ongoing(w.mem), id, b + cfg.waitBlocks)
    requires Touches(w, step, id) <= b
    ensures DeadlinesWithin(w'.db.rows, Ongoing(w'.mem), id, b + cfg.waitBlocks)
  {
    var op := w.mem.ongoing[step.i];
    match Scan(cfg, op, step.replies, step.block, 0)
    case Interrupted =>
    case StillPending =>
    case TxFailed =>
    case CommittedBy(k) =>
      ScanCommitted(cfg, op, step.replies, step.block, 0);
      if step.dbWorks {
        ConfirmStep(cfg, w, w', step.i, op.hashes[k], step.replies(k).confirmations);
        if w' != w {
          ConfirmDeadlines(w, w', op.hashes[k], step.replies(k).confirmations, id, b + cfg.waitBlocks);
        }
      }
    case AllStuck =>
      SupplementDeadlines(cfg, w, w', step.i, step.block, step.supplement, id, b);
  }

  lemma StartDeadlines(cfg: Config, w: World, w': World, step: Step, id: nat, b: nat)
    requires step.Start? && Next(cfg, w, step) == Some(w')
    requires DeadlinesWithin(w.db.rows, Ongoing(w.mem), id, b + cfg.waitBlocks)
    requires Touches(w, step, id) <= b
    ensures DeadlinesWithin(w'.db.rows, Ongoing(w'.mem), id, b + cfg.waitBlocks)
  {
  }

  lemma DeadlineStep(cfg: Config, w: World, w': World, step: Step, id: nat, b: nat)
    requires Core(cfg, w) && Next(cfg, w, step) == Some(w')
    requires DeadlinesWithin(w.db.rows, Ongoing(w.mem), id, b + cfg.waitBlocks)
    requires Touches(w, step, id) <= b
    ensures DeadlinesWithin(w'.db.rows, Ongoing(w'.mem), id, b + cfg.waitBlocks)
  {
    if step.Check? {
      CheckDeadlines(cfg, w, w', step, id, b);
    } else if step.Restart? {
      RestartDeadlines(w.db.rows, id, b + cfg.waitBlocks);
    } else if step.Start? {
      StartDeadlines(cfg, w, w', step, id, b);
    }
  }

  lemma {:induction false} DeadlinesFollowBlocks(cfg: Config, steps: seq<Step>, id: nat)
    requires Run(cfg, INITIAL, steps).Some?
    ensures var w := Run(cfg, INITIAL, steps).value;
      DeadlinesWithin(w.db.rows, Ongoing(w.mem), id, HighestBlock(cfg, steps, id) + cfg.waitBlocks)
    decreases |steps|
  {
    if steps == [] {
    } else {
      var n := |steps| - 1;
      var w := Run(cfg, INITIAL, steps[..n]).value;
      DeadlinesFollowBlocks(cfg, steps[..n], id);
      RunKeeps(cfg, steps[..n]);
      DeadlineStep(cfg, w, Run(cfg, INITIAL, steps).value, steps[n], id, HighestBlock(cfg, steps, id));
    }
  }

  lemma HashesWithinBlocks(hashes: nat, start: nat, deadline: nat, top: nat, wait: nat)
    requires wait > 0 && hashes > 0 && start + hashes * wait <= deadline <= top + wait
    ensures start <= top && hashes <= 1 + (top - start) / wait
  {
    assert (hashes - 1) * wait == hashes * wait - wait;
    MulMonotone(0, hashes - 1, wait);
    MultiplesBelow(top - start, wait, hashes - 1);
  }

  ghost predicate WithinBound(cfg: Config, o: EthOp, top: nat)
    requires cfg.waitBlocks > 0
  {
    o.startedAt <= top && |o.hashes| <= 1 + (top - o.startedAt) / cfg.waitBlocks
  }

  lemma BoundFollows(cfg: Config, o: EthOp, top: nat)
    requires cfg.waitBlocks > 0 && OpInv(cfg, o) && o.deadline <= top + cfg.waitBlocks
    ensures WithinBound(cfg, o, top)
  {
    HashesWithinBlocks(|o.hashes|, o.startedAt, o.deadline, top, cfg.waitBlocks);
  }

  /**
   An operation started at block b0 and last looked at by block B has at most 1 + (B - b0) / w hashes, in
   memory and in its row, under every interleaving of failures and restarts.
   */
  lemma ReplacementBound(cfg: Config, steps: seq<Step>, id: nat)
    requires Run(cfg, INITIAL, steps).Some? && cfg.waitBlocks > 0
    ensures var w, top := Run(cfg, INITIAL, steps).value, HighestBlock(cfg, steps, id);
      && (forall i :: 0 <= i < |Ongoing(w.mem)| && Ongoing(w.mem)[i].id == id ==>
            WithinBound(cfg, Ongoing(w.mem)[i], top))
      && (forall r :: 0 <= r < |w.db.rows| && w.db.rows[r].eth.id == id ==> WithinBound(cfg, w.db.rows[r].eth, top))
  {
    var w, top := Run(cfg, INITIAL, steps).value, HighestBlock(cfg, steps, id);
    RunKeeps(cfg, steps);
    DeadlinesFollowBlocks(cfg, steps, id);
    forall i | 0 <= i < |Ongoing(w.mem)| && Ongoing(w.mem)[i].id == id
      ensures WithinBound(cfg, Ongoing(w.mem)[i], top)
    {
      BoundFollows(cfg, Ongoing(w.mem)[i], top);
    }
    forall r | 0 <= r < |w.db.rows| && w.db.rows[r].eth.id == id
      ensures WithinBound(cfg, w.db.rows[r].eth, top)
    {
      BoundFollows(cfg, w.db.rows[r].eth, top);
    }
  }

  // ----- dependencies

  predicate Covers(op: AggOp, kind: Kind, block: nat) {
    op.kind == kind && op.first <= block <= op.last
  }

  lemma {:induction false} BlocksWereSent(ops: seq<AggOp>, kind: Kind, block: nat)
    requires InOrder(ops) && 1 <= block <= StatsAfter(ops).Of(kind)
    ensures exists i :: 0 <= i < |ops| && Covers(ops[i], kind, block)
    decreases |ops|
  {
    var n := |ops| - 1;
    if Covers(ops[n], kind, block) {
    } else {
      BlocksWereSent(ops[..n], kind, block);
      var i :| 0 <= i < n && Covers(ops[..n][i], kind, block);
      assert Covers(ops[i], kind, block);
    }
  }

  lemma {:induction false} InOrderPrefix(ops: seq<AggOp>, n: nat)
    requires InOrder(ops) && n <= |ops|
    ensures InOrder(ops[..n])
    decreases |ops|
  {
    if n == |ops| {
      assert ops[..n] == ops;
    } else {
      assert ops[..|ops| - 1][..n] == ops[..n];
      InOrderPrefix(ops[..|ops| - 1], n);
    }
  }

  function DependsOn(kind: Kind): Option<Kind> {
    match kind
    case CommitBlocks => None
    case PublishProofBlocks => Some(CommitBlocks)
    case ExecuteBlocks => Some(PublishProofBlocks)
  }

  /**
   Every block of a proof was in a commit sent before it, and every block of an execution in a proof sent
   before it. Sent earlier means a smaller nonce, so Ethereum cannot include them in another order.
   */
  lemma DependenciesSentFirst(cfg: Config, steps: seq<Step>, j: nat, block: nat)
    requires Run(cfg, INITIAL, steps).Some? && j < |Run(cfg, INITIAL, steps).value.db.rows|
    requires var op := Run(cfg, INITIAL, steps).value.db.rows[j].eth.op;
      DependsOn(op.kind).Some? && op.first <= block <= op.last
    ensures var rows := Run(cfg, INITIAL, steps).value.db.rows;
      exists i :: 0 <= i < j && rows[i].eth.nonce < rows[j].eth.nonce
        && Covers(rows[i].eth.op, DependsOn(rows[j].eth.op.kind).value, block)
  {
    RunKeeps(cfg, steps);
    var rows := Run(cfg, INITIAL, steps).value.db.rows;
    var ops := RowOps(rows);
    var op := ops[j];
    InOrderPrefix(ops, j + 1);
    assert ops[..j + 1][..j] == ops[..j];
    BlocksWereSent(ops[..j], DependsOn(op.kind).value, block);
    var i :| 0 <= i < j && Covers(ops[..j][i], DependsOn(op.kind).value, block);
    assert Covers(rows[i].eth.op, DependsOn(rows[j].eth.op.kind).value, block);
  }
}
