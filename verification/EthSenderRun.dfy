/**
 The Ethereum sender as a state machine over its memory, its database and the chain: operations are
 handed over, queued, sent, replaced when stuck, confirmed and reloaded after a restart. Every
 environment choice (failures, replies, mined transactions) is part of the step.
 */
module EthSenderRun {
  import opened Wrappers
  import opened TxQueue
  import opened EthDatabase

  datatype Config = Config(maxInFlight: nat, waitConfirmations: nat, waitBlocks: nat)

  /** What the node says about one hash: the query fails, the hash is unknown, or it is in a block. */
  datatype Reply = Unavailable | Unknown | Receipt(success: bool, confirmations: nat)

  datatype Outcome = Committed | Pending | Stuck | Failed

  datatype ScanResult = Interrupted | StillPending | CommittedBy(index: nat) | TxFailed | AllStuck

  datatype Confirmation = Confirmation(id: nat, hash: Hash, depth: nat)

  /** Replacing a stuck transaction: not signed, or signed and perhaps sent, and perhaps stored after that. */
  datatype Supplement = NotSigned | Signed(hash: Hash, sent: bool, stored: bool)

  /** Process memory; `sent` lists the hashes passed to the node since the start, with their operations. */
  datatype Memory = Stopped | Running(ongoing: seq<EthOp>, queue: Queue, sent: set<(nat, Hash)>)

  /** `mined` is the chain's transaction per nonce; `confirmations` is the history of confirmed operations. */
  datatype World = World(db: Db, mem: Memory, mined: map<nat, Hash>, confirmations: seq<Confirmation>)

  datatype Step =
    | HandOver(op: AggOp)
    | LoadNew
    | Start(block: nat, hash: Hash, ethId: nat, bindingId: nat)
    | StartFails(lastEthId: nat, lastBindingId: nat)
    | Check(i: nat, block: nat, replies: nat -> Reply, dbWorks: bool, supplement: Supplement)
    | Mine(hash: Hash)
    | Restart

  // ----- checking transactions

  predicate IsStuck(op: EthOp, block: nat) {
    block >= op.deadline
  }

  /** Reduces a reply to an outcome; only the latest transaction may be pending without a status. */
  function CheckTransactionState(cfg: Config, latest: bool, op: EthOp, reply: Reply, block: nat): Outcome
    requires !reply.Unavailable?
  {
    match reply
    case Receipt(success, confirmations) =>
      if confirmations < cfg.waitConfirmations then Pending else if success then Committed else Failed
    case Unknown => if IsStuck(op, block) then Stuck else if latest then Pending else Stuck
  }

  /** Goes through the hashes of an operation from position k on. */
  function Scan(cfg: Config, op: EthOp, replies: nat -> Reply, block: nat, k: nat): ScanResult
    requires k <= |op.hashes|
    decreases |op.hashes| - k
  {
    if k == |op.hashes| then AllStuck
    else if replies(k).Unavailable? then Interrupted
    else
      match CheckTransactionState(cfg, k == |op.hashes| - 1, op, replies(k), block)
      case Pending => StillPending
      case Committed => CommittedBy(k)
      case Stuck => Scan(cfg, op, replies, block, k + 1)
      case Failed => TxFailed
  }

  /** The chain holds one transaction per nonce, and the node reports only what it holds. */
  ghost predicate Truthful(mined: map<nat, Hash>, op: EthOp, replies: nat -> Reply) {
    forall k :: 0 <= k < |op.hashes| && replies(k).Receipt? ==>
      op.hashes[k].nonce in mined && mined[op.hashes[k].nonce] == op.hashes[k]
  }

  /** A committed scan saw a successful receipt that is deep enough. */
  lemma {:induction false} ScanCommitted(cfg: Config, op: EthOp, replies: nat -> Reply, block: nat, k: nat)
    requires k <= |op.hashes| && Scan(cfg, op, replies, block, k).CommittedBy?
    ensures var i := Scan(cfg, op, replies, block, k).index;
      k <= i < |op.hashes| && replies(i).Receipt? && replies(i).success
      && replies(i).confirmations >= cfg.waitConfirmations
    decreases |op.hashes| - k
  {
    if replies(k).Unknown? {
      ScanCommitted(cfg, op, replies, block, k + 1);
    }
  }

  /** A replacement is due only when no hash has a status and the deadline has passed. */
  lemma {:induction false} ScanAllStuck(cfg: Config, op: EthOp, replies: nat -> Reply, block: nat, k: nat)
    requires k < |op.hashes| && Scan(cfg, op, replies, block, k).AllStuck?
    ensures (forall j :: k <= j < |op.hashes| ==> replies(j).Unknown?) && IsStuck(op, block)
    decreases |op.hashes| - k
  {
    if k + 1 < |op.hashes| {
      ScanAllStuck(cfg, op, replies, block, k + 1);
    }
  }

  /** The node has no status for the hashes from `from` up to k. */
  ghost predicate UnknownUpTo(replies: nat -> Reply, from: nat, k: nat) {
    forall j :: from <= j < k ==> replies(j).Unknown?
  }

  /** The first hash that the node does not call unknown. */
  ghost predicate FirstKnown(op: EthOp, replies: nat -> Reply, from: nat, k: nat) {
    from <= k < |op.hashes| && UnknownUpTo(replies, from, k) && !replies(k).Unknown?
  }

  /** What the first known hash decides. */
  function Verdict(cfg: Config, reply: Reply, k: nat): ScanResult
    requires !reply.Unknown?
  {
    if reply.Unavailable? then Interrupted
    else if reply.confirmations < cfg.waitConfirmations then StillPending
    else if reply.success then CommittedBy(k)
    else TxFailed
  }

  /**
   The scan is decided by the first hash the node knows, whichever transaction that is. If it knows none, the
   operation is pending before its deadline and due for a replacement from then on.
   */
  lemma {:induction false} ScanMeaning(cfg: Config, op: EthOp, replies: nat -> Reply, block: nat, from: nat)
    requires from < |op.hashes|
    ensures forall k :: FirstKnown(op, replies, from, k) ==>
      Scan(cfg, op, replies, block, from) == Verdict(cfg, replies(k), k)
    ensures UnknownUpTo(replies, from, |op.hashes|) ==>
      Scan(cfg, op, replies, block, from) == if op.deadline <= block then AllStuck else StillPending
    decreases |op.hashes| - from
  {
    if replies(from).Unknown? {
      if from + 1 < |op.hashes| {
        ScanMeaning(cfg, op, replies, block, from + 1);
      }
      forall k | FirstKnown(op, replies, from, k)
        ensures FirstKnown(op, replies, from + 1, k)
      {
      }
    } else {
      forall k | FirstKnown(op, replies, from, k)
        ensures k == from
      {
      }
    }
  }

  // ----- steps

  function AddAll(q: Queue, ops: seq<AggOp>): Option<Queue>
    decreases |ops|
  {
    if ops == [] then Some(q)
    else
      var before := AddAll(q, ops[..|ops| - 1]);
      if before.None? then None else before.value.Add(ops[|ops| - 1])
  }

  function OpIds(ops: seq<EthOp>): set<nat> {
    set o | o in ops :: o.op.id
  }

  /** Starting up: restore unprocessed operations, reload unconfirmed ones, and rebuild the queue. */
  function StartUp(cfg: Config, db: Db): (Db, Memory) {
    var ongoing := LoadUnconfirmed(db.rows);
    var db' := RemoveUnprocessed(RestoreUnprocessed(db), OpIds(ongoing));
    (db', Running(ongoing,
                  BuildQueue(cfg.maxInFlight, |ongoing|, db.stats.committed, db.stats.verified, db.stats.executed), {}))
  }

  function NextHandOver(w: World, op: AggOp): Option<World> {
    if (forall x :: x in w.db.aggOps ==> x.id < op.id)
       && op.first == LastBlock(OfKind(w.db.aggOps, op.kind), 0) + 1 <= op.last
    then Some(w.(db := StoreAggregated(w.db, op)))
    else None
  }

  /** Loading stops the process when the queue refuses an operation; the table is updated before that. */
  function NextLoadNew(w: World): Option<World> {
    if w.mem.Stopped? then None
    else
      var loaded := LoadUnprocessed(w.db);
      var queue := AddAll(w.mem.queue, loaded);
      Some(w.(db := RemoveUnprocessed(w.db, IdsOf(loaded)), mem := if queue.None? then Stopped else w.mem.(queue := queue.value)))
  }

  function NextStart(cfg: Config, w: World, block: nat, hash: Hash, ethId: nat, bindingId: nat): Option<World> {
    if w.mem.Stopped? || w.mem.queue.PopFront().None? || hash.nonce != w.db.nonce
       || ethId <= w.db.lastEthId || bindingId <= w.db.lastBindingId
    then None
    else
      var (op, queue) := w.mem.queue.PopFront().value;
      var deadline := block + cfg.waitBlocks;
      var db := SaveNewEthTx(w.db, op, ethId, bindingId, deadline, hash, block);
      if db.None? then None
      else Some(w.(db := db.value, mem := Running(
        w.mem.ongoing + [EthOp(ethId, op, w.db.nonce, deadline, [hash], block)], queue,
        w.mem.sent + {(ethId, hash)})))
  }

  /** A failed start returns the operation to the queue; only the sequences keep what they handed out. */
  function NextStartFails(w: World, lastEthId: nat, lastBindingId: nat): Option<World> {
    if w.mem.Stopped? || w.mem.queue.PopFront().None? || lastEthId < w.db.lastEthId || lastBindingId < w.db.lastBindingId
    then None
    else
      var (op, queue) := w.mem.queue.PopFront().value;
      var returned := queue.ReturnPopped(op);
      Some(w.(db := w.db.(lastEthId := lastEthId, lastBindingId := lastBindingId),
              mem := if returned.None? then Stopped else w.mem.(queue := returned.value)))
  }

  function NextConfirm(w: World, i: nat, hash: Hash, depth: nat): World
    requires w.mem.Running? && i < |w.mem.ongoing|
  {
    var op := w.mem.ongoing[i];
    var db := ConfirmOperation(w.db, op, hash);
    var queue := w.mem.queue.ReportCommitment();
    if !IsPreviousOperationConfirmed(w.db, op) || db.None? then w
    else w.(db := db.value,
            mem := if queue.None? then Stopped
                   else w.mem.(ongoing := w.mem.ongoing[..i] + w.mem.ongoing[i + 1..], queue := queue.value),
            confirmations := w.confirmations + [Confirmation(op.id, hash, depth)])
  }

  /** The operation in memory changes as soon as a replacement is signed, whatever happens afterwards. */
  function NextSupplement(cfg: Config, w: World, i: nat, block: nat, s: Supplement): World
    requires w.mem.Running? && i < |w.mem.ongoing|
  {
    if s.NotSigned? then w
    else
      var op := w.mem.ongoing[i];
      var deadline := block + cfg.waitBlocks;
      var op' := op.(deadline := deadline, hashes := op.hashes + [s.hash]);
      w.(mem := w.mem.(ongoing := w.mem.ongoing[i := op'],
                       sent := if s.sent then w.mem.sent + {(op.id, s.hash)} else w.mem.sent),
         db := if s.sent && s.stored then w.db.(rows := UpdateEthTx(w.db.rows, op.id, deadline, s.hash)) else w.db)
  }

  ghost predicate CheckAllowed(w: World, i: nat, replies: nat -> Reply, s: Supplement) {
    && w.mem.Running? && i < |w.mem.ongoing|
    && Truthful(w.mined, w.mem.ongoing[i], replies)
    && (s.Signed? ==> s.hash.nonce == w.mem.ongoing[i].nonce)
  }

  function NextCheck(cfg: Config, w: World, i: nat, block: nat, replies: nat -> Reply, dbWorks: bool,
                     s: Supplement): World
    requires w.mem.Running? && i < |w.mem.ongoing|
  {
    var op := w.mem.ongoing[i];
    var result := Scan(cfg, op, replies, block, 0);
    match result
    case Interrupted => w
    case StillPending => w
    case TxFailed => w.(mem := Stopped)
    case CommittedBy(k) =>
      ScanCommitted(cfg, op, replies, block, 0);
      if dbWorks then NextConfirm(w, i, op.hashes[k], replies(k).confirmations) else w
    case AllStuck => NextSupplement(cfg, w, i, block, s)
  }

  /** One step; none when the environment cannot take it there. */
  ghost function Next(cfg: Config, w: World, step: Step): Option<World> {
    match step
    case HandOver(op) => NextHandOver(w, op)
    case LoadNew => NextLoadNew(w)
    case Start(block, hash, ethId, bindingId) => NextStart(cfg, w, block, hash, ethId, bindingId)
    case StartFails(lastEthId, lastBindingId) => NextStartFails(w, lastEthId, lastBindingId)
    case Check(i, block, replies, dbWorks, s) =>
      if CheckAllowed(w, i, replies, s) then Some(NextCheck(cfg, w, i, block, replies, dbWorks, s)) else None
    case Mine(hash) => if hash.nonce in w.mined then None else Some(w.(mined := w.mined[hash.nonce := hash]))
    case Restart => Some(w.(db := StartUp(cfg, w.db).0, mem := StartUp(cfg, w.db).1))
  }

  ghost function Run(cfg: Config, w: World, steps: seq<Step>): Option<World>
    decreases |steps|
  {
    if steps == [] then Some(w)
    else
      var before := Run(cfg, w, steps[..|steps| - 1]);
      if before.None? then None else Next(cfg, before.value, steps[|steps| - 1])
  }

  lemma RunLast(cfg: Config, w: World, before: seq<Step>, step: Step)
    ensures Run(cfg, w, before + [step]) ==
      var middle := Run(cfg, w, before); if middle.None? then None else Next(cfg, middle.value, step)
  {
    assert (before + [step])[..|before|] == before;
  }

  lemma {:induction false} RunPrefix(cfg: Config, w: World, before: seq<Step>, after: seq<Step>)
    requires Run(cfg, w, before + after).Some?
    ensures Run(cfg, w, before).Some?
    decreases |after|
  {
    if after == [] {
      assert before + after == before;
    } else {
      var n := |after| - 1;
      assert before + after == before + after[..n] + [after[n]];
      RunLast(cfg, w, before + after[..n], after[n]);
      RunPrefix(cfg, w, before, after[..n]);
    }
  }

  lemma {:induction false} RunSplit(cfg: Config, w: World, before: seq<Step>, after: seq<Step>)
    requires Run(cfg, w, before).Some?
    ensures Run(cfg, w, before + after) == Run(cfg, Run(cfg, w, before).value, after)
    decreases |after|
  {
    if after == [] {
      assert before + after == before;
    } else {
      var n := |after| - 1;
      assert before + after == before + after[..n] + [after[n]];
      RunLast(cfg, w, before + after[..n], after[n]);
      RunSplit(cfg, w, before, after[..n]);
    }
  }

  /** Before the first start. */
  const INITIAL := World(EMPTY_DB, Stopped, map[], [])
}
