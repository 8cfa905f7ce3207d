/**
 What stops the Ethereum sender: a transaction that failed on chain, or loading an operation that comes after one
 that an unsafe restart lost.
 */
module EthSenderStops {
  import opened Wrappers
  import opened TxQueue
  import opened EthDatabase
  import opened EthSenderRun
  import opened EthSenderSafety
  import opened EthSenderTables
  import opened EthSenderConservation

  // ----- operations of one kind

  /** Every operation before one with a listed id has a listed id. */
  ghost predicate GapFree(ops: seq<AggOp>, ids: set<nat>) {
    forall i, j :: 0 <= i < j < |ops| && ops[j].id in ids ==> ops[i].id in ids
  }

  lemma {:induction false} GapFreePrefix(ops: seq<AggOp>, ids: set<nat>)
    requires GapFree(ops, ids)
    ensures WithIds(ops, ids) <= ops
  {
    if ops == [] {
    } else if ops[0].id in ids {
      GapFreePrefix(ops[1..], ids);
      assert ops == [ops[0]] + ops[1..];
    } else {
      forall op | op in ops
        ensures op.id !in ids
      {
        var j :| 0 <= j < |ops| && ops[j] == op;
      }
      WithIdsNone(ops, ids);
    }
  }

  lemma PrefixGapFree(ops: seq<AggOp>, ids: set<nat>)
    requires SortedIds(ops) && WithIds(ops, ids) <= ops
    ensures GapFree(ops, ids)
  {
    var listed := WithIds(ops, ids);
    forall i, j | 0 <= i < j < |ops| && ops[j].id in ids
      ensures ops[i].id in ids
    {
      WithIdsMember(ops, ids, ops[j]);
      var k :| 0 <= k < |listed| && listed[k] == ops[j];
      assert listed[k] == ops[k];
      assert k == j;
      assert listed[i] == ops[i];
      WithIdsMember(ops, ids, ops[i]);
    }
  }

  /** Stored operations that continue the first n are the next ones. */
  lemma {:induction false} ContinuingAreNext(all: seq<AggOp>, kind: Kind, n: nat, xs: seq<AggOp>)
    requires Contiguous(all, kind, 0) && n <= |all|
    requires Contiguous(xs, kind, LastBlock(all[..n], 0)) && forall x :: x in xs ==> x in all
    ensures n + |xs| <= |all| && all[n..n + |xs|] == xs
    decreases |xs|
  {
    if xs == [] {
    } else {
      NextByRange(all, n, kind, xs[0]);
      assert all[..n + 1][n] == xs[0];
      ContinuingAreNext(all, kind, n + 1, xs[1..]);
      assert xs == [xs[0]] + xs[1..] == [all[n]] + all[n + 1..n + |xs|];
    }
  }

  /** A stretch of contiguous operations is contiguous. */
  lemma StretchContiguous(all: seq<AggOp>, kind: Kind, n: nat, xs: seq<AggOp>)
    requires Contiguous(all, kind, 0) && n <= |all| && xs <= all[n..]
    ensures Contiguous(xs, kind, LastBlock(all[..n], 0))
  {
    var rest := all[n..];
    assert all == all[..n] + rest;
    ContiguousAppend(all[..n], rest, kind, 0);
    assert rest == xs + rest[|xs|..];
    ContiguousAppend(xs, rest[|xs|..], kind, LastBlock(all[..n], 0));
  }

  /** After the first n, the listed ones continue them if and only if none is missing before a listed one. */
  lemma ListedContinue(all: seq<AggOp>, kind: Kind, n: nat, ids: set<nat>)
    requires Contiguous(all, kind, 0) && SortedIds(all) && n <= |all|
    ensures Contiguous(WithIds(all[n..], ids), kind, LastBlock(all[..n], 0)) <==> GapFree(all[n..], ids)
  {
    var rest := all[n..];
    var listed := WithIds(rest, ids);
    if GapFree(rest, ids) {
      GapFreePrefix(rest, ids);
      StretchContiguous(all, kind, n, listed);
    }
    if Contiguous(listed, kind, LastBlock(all[..n], 0)) {
      forall x | x in listed
        ensures x in all
      {
        WithIdsMember(rest, ids, x);
      }
      ContinuingAreNext(all, kind, n, listed);
      assert rest[..|listed|] == all[n..n + |listed|];
      PrefixGapFree(rest, ids);
    }
  }

  // ----- the queue of one kind

  /** What every run with the process up keeps of tables and queue. */
  ghost predicate Placed(db: Db, queue: Queue) {
    && AggInv(db.aggOps) && SentFirst(db.aggOps, RowOps(db.rows)) && OrderInv(db)
    && db.unprocessed !! IdsOf(RowOps(db.rows)) && QueueStored(db, queue)
    && ValidQueue(queue) && forall kind :: queue.Of(kind).lastBlock == db.stats.Of(kind)
  }

  /** How many operations of the kind are sent or queued. */
  function Ahead(db: Db, queue: Queue, kind: Kind): nat {
    |OfKind(RowOps(db.rows), kind)| + |queue.Of(kind).elements|
  }

  lemma QueuedAreStored(db: Db, queue: Queue, kind: Kind, x: AggOp)
    requires ValidQueue(queue) && QueueStored(db, queue) && x in queue.Of(kind).elements
    ensures x in OfKind(db.aggOps, kind)
  {
    var queued := queue.Of(kind).elements;
    assert TakenOff(db, queued);
    var j :| 0 <= j < |queued| && queued[j] == x;
    ContiguousLater(queued, kind, queue.Of(kind).lastBlock, j);
    OfKindMember(db.aggOps, kind, x);
  }

  lemma ContinuingExtend(all: seq<AggOp>, kind: Kind, first: seq<AggOp>, xs: seq<AggOp>)
    requires Contiguous(all, kind, 0) && first <= all
    requires Contiguous(xs, kind, LastBlock(first, 0)) && forall x :: x in xs ==> x in all
    ensures |first| + |xs| <= |all| && all[..|first| + |xs|] == first + xs
  {
    var n := |first|;
    assert all[..n] == first;
    ContinuingAreNext(all, kind, n, xs);
    assert all[..n + |xs|] == all[..n] + all[n..n + |xs|];
  }

  /** Sent and queued operations of one kind are the first stored ones. */
  lemma QueuedAreNext(db: Db, queue: Queue, kind: Kind)
    requires Placed(db, queue)
    ensures var all, n := OfKind(db.aggOps, kind), Ahead(db, queue, kind);
      n <= |all| && all[..n] == OfKind(RowOps(db.rows), kind) + queue.Of(kind).elements
  {
    forall x | x in queue.Of(kind).elements
      ensures x in OfKind(db.aggOps, kind)
    {
      QueuedAreStored(db, queue, kind, x);
    }
    StatsAreLast(RowOps(db.rows), kind);
    ContinuingExtend(OfKind(db.aggOps, kind), kind, OfKind(RowOps(db.rows), kind), queue.Of(kind).elements);
  }

  /** Those to be loaded are the listed ones among the rest. */
  lemma LoadedAreRest(db: Db, queue: Queue, kind: Kind, n: nat)
    requires db.unprocessed !! IdsOf(RowOps(db.rows)) && TakenOff(db, queue.Of(kind).elements)
    requires n <= |OfKind(db.aggOps, kind)|
    requires OfKind(db.aggOps, kind)[..n] == OfKind(RowOps(db.rows), kind) + queue.Of(kind).elements
    ensures OfKind(LoadUnprocessed(db), kind) == WithIds(OfKind(db.aggOps, kind)[n..], db.unprocessed)
  {
    var all := OfKind(db.aggOps, kind);
    OfKindWithIds(db.aggOps, db.unprocessed, kind);
    assert all == all[..n] + all[n..];
    WithIdsAppend(all[..n], all[n..], db.unprocessed);
    forall op | op in all[..n]
      ensures op.id !in db.unprocessed
    {
      OfKindMember(RowOps(db.rows), kind, op);
    }
    WithIdsNone(all[..n], db.unprocessed);
  }

  lemma ContinuesIffGapFree(db: Db, queue: Queue, kind: Kind)
    requires Placed(db, queue) && Ahead(db, queue, kind) <= |OfKind(db.aggOps, kind)|
    ensures Contiguous(queue.Of(kind).elements + OfKind(LoadUnprocessed(db), kind), kind, queue.Of(kind).lastBlock)
      <==> GapFree(OfKind(db.aggOps, kind)[Ahead(db, queue, kind)..], db.unprocessed)
  {
    var all, queued, n := OfKind(db.aggOps, kind), queue.Of(kind).elements, Ahead(db, queue, kind);
    QueuedAreNext(db, queue, kind);
    assert TakenOff(db, queued);
    LoadedAreRest(db, queue, kind, n);
    ContiguousAppend(queued, OfKind(LoadUnprocessed(db), kind), kind, queue.Of(kind).lastBlock);
    StatsAreLast(RowOps(db.rows), kind);
    assert LastBlock(all[..n], 0) == LastBlock(queued, queue.Of(kind).lastBlock);
    OfKindSorted(db.aggOps, kind);
    ListedContinue(all, kind, n, db.unprocessed);
  }

  lemma RestIsLeft(db: Db, queue: Queue, op: AggOp)
    requires Placed(db, queue) && Ahead(db, queue, op.kind) <= |OfKind(db.aggOps, op.kind)|
    ensures op in OfKind(db.aggOps, op.kind)[Ahead(db, queue, op.kind)..]
      <==> op in db.aggOps && op !in RowOps(db.rows) && op !in queue.Of(op.kind).elements
  {
    var all, n := OfKind(db.aggOps, op.kind), Ahead(db, queue, op.kind);
    QueuedAreNext(db, queue, op.kind);
    OfKindMember(db.aggOps, op.kind, op);
    OfKindMember(RowOps(db.rows), op.kind, op);
    OfKindSorted(db.aggOps, op.kind);
    assert all == all[..n] + all[n..];
    if op in all[..n] && op in all[n..] {
      SortedParts(all[..n], all[n..], op, op);
    }
  }

  /** A lost operation and a listed one of its kind after it. */
  predicate ListedAfterLost(db: Db, queue: Queue, x: AggOp, y: AggOp) {
    Lost(db, queue, x) && y in db.aggOps && y.kind == x.kind && x.id < y.id && y.id in db.unprocessed
  }

  lemma LostMakesGap(db: Db, queue: Queue, x: AggOp, y: AggOp)
    requires Placed(db, queue) && ListedAfterLost(db, queue, x, y)
    ensures Ahead(db, queue, x.kind) <= |OfKind(db.aggOps, x.kind)|
    ensures !GapFree(OfKind(db.aggOps, x.kind)[Ahead(db, queue, x.kind)..], db.unprocessed)
  {
    QueuedAreNext(db, queue, x.kind);
    var rest := OfKind(db.aggOps, x.kind)[Ahead(db, queue, x.kind)..];
    RestIsLeft(db, queue, x);
    RestIsLeft(db, queue, y);
    assert TakenOff(db, queue.Of(y.kind).elements);
    assert y !in RowOps(db.rows);
    OfKindSorted(db.aggOps, x.kind);
    GapBetween(rest, db.unprocessed, x, y);
  }

  lemma GapBetween(ops: seq<AggOp>, ids: set<nat>, x: AggOp, y: AggOp)
    requires SortedIds(ops) && x in ops && y in ops && x.id < y.id && x.id !in ids && y.id in ids
    ensures !GapFree(ops, ids)
  {
    var i :| 0 <= i < |ops| && ops[i] == x;
    var j :| 0 <= j < |ops| && ops[j] == y;
    assert i < j;
  }

  lemma GapMeansLost(db: Db, queue: Queue, kind: Kind, x: AggOp, y: AggOp)
    requires Placed(db, queue) && Ahead(db, queue, kind) <= |OfKind(db.aggOps, kind)|
    requires x in OfKind(db.aggOps, kind)[Ahead(db, queue, kind)..] && x.id !in db.unprocessed
    requires y in OfKind(db.aggOps, kind) && x.id < y.id && y.id in db.unprocessed
    ensures ListedAfterLost(db, queue, x, y)
  {
    OfKindMember(db.aggOps, kind, x);
    OfKindMember(db.aggOps, kind, y);
    RestIsLeft(db, queue, x);
  }

  lemma FindGap(all: seq<AggOp>, n: nat, ids: set<nat>) returns (x: AggOp, y: AggOp)
    requires SortedIds(all) && n <= |all| && !GapFree(all[n..], ids)
    ensures x in all[n..] && x.id !in ids && y in all && x.id < y.id && y.id in ids
  {
    var rest := all[n..];
    var i, j :| 0 <= i < j < |rest| && rest[j].id in ids && rest[i].id !in ids;
    x, y := rest[i], rest[j];
    assert all[n + i] == x && all[n + j] == y;
  }

  /** The queue refuses to load if and only if some listed operation comes after a lost one of its kind. */
  lemma RefusesIffAfterLost(db: Db, queue: Queue)
    requires Placed(db, queue)
    ensures AddAll(queue, LoadUnprocessed(db)).None? <==> exists x, y :: ListedAfterLost(db, queue, x, y)
  {
    var ops := LoadUnprocessed(db);
    if AddAll(queue, ops).None? {
      var kind :| !Contiguous(queue.Of(kind).elements + OfKind(ops, kind), kind, queue.Of(kind).lastBlock) by {
        if forall kind :: Contiguous(queue.Of(kind).elements + OfKind(ops, kind), kind, queue.Of(kind).lastBlock) {
          AddAllSucceeds(queue, ops);
        }
      }
      QueuedAreNext(db, queue, kind);
      ContinuesIffGapFree(db, queue, kind);
      OfKindSorted(db.aggOps, kind);
      var x, y := FindGap(OfKind(db.aggOps, kind), Ahead(db, queue, kind), db.unprocessed);
      GapMeansLost(db, queue, kind, x, y);
    } else {
      forall x, y
        ensures !ListedAfterLost(db, queue, x, y)
      {
        if ListedAfterLost(db, queue, x, y) {
          LostMakesGap(db, queue, x, y);
          ContinuesIffGapFree(db, queue, x.kind);
          AcceptedContinue(db, queue, x.kind);
        }
      }
    }
  }

  lemma AcceptedContinue(db: Db, queue: Queue, kind: Kind)
    requires Placed(db, queue) && AddAll(queue, LoadUnprocessed(db)).Some?
    ensures Contiguous(queue.Of(kind).elements + OfKind(LoadUnprocessed(db), kind), kind, queue.Of(kind).lastBlock)
  {
    var ops := LoadUnprocessed(db);
    forall op | op in ops
      ensures op.first <= op.last
    {
      WithIdsMember(db.aggOps, db.unprocessed, op);
      OfKindMember(db.aggOps, op.kind, op);
      var all := OfKind(db.aggOps, op.kind);
      var j :| 0 <= j < |all| && all[j] == op;
      ContiguousLater(all, op.kind, 0, j);
    }
    AddAllKeeps(queue, ops);
    AddAllAppends(queue, ops);
    var queue' := AddAll(queue, ops).value;
    assert queue'.Of(kind) == queue.Of(kind).(elements := queue.Of(kind).elements + OfKind(ops, kind));
  }

  // ----- what stops the process

  /** The step is a check that meets a transaction which failed on chain. */
  ghost predicate MeetsFailure(cfg: Config, w: World, step: Step) {
    step.Check? && w.mem.Running? && step.i < |w.mem.ongoing|
    && Scan(cfg, w.mem.ongoing[step.i], step.replies, step.block, 0).TxFailed?
  }

  /** The step loads operations, and one of them comes after a lost one of its kind. */
  ghost predicate MeetsGap(w: World, step: Step) {
    step.LoadNew? && w.mem.Running? && exists x, y :: ListedAfterLost(w.db, w.mem.queue, x, y)
  }

  lemma CheckStaysRunning(cfg: Config, w: World, w': World, step: Step)
    requires Core(cfg, w) && step.Check? && Next(cfg, w, step) == Some(w') && !MeetsFailure(cfg, w, step)
    ensures w'.mem.Running?
  {
    var o := w.mem.ongoing[step.i];
    var scan := Scan(cfg, o, step.replies, step.block, 0);
    if scan.CommittedBy? && step.dbWorks {
      ScanCommitted(cfg, o, step.replies, step.block, 0);
      ConfirmStep(cfg, w, w', step.i, o.hashes[scan.index], step.replies(scan.index).confirmations);
    }
  }

  lemma StopsExactly(cfg: Config, w: World, w': World, step: Step)
    requires Inv(cfg, w) && w.mem.Running? && Placed(w.db, w.mem.queue) && Next(cfg, w, step) == Some(w')
    ensures w'.mem.Stopped? <==> MeetsFailure(cfg, w, step) || MeetsGap(w, step)
  {
    if step.StartFails? {
      StartFailsKeeps(cfg, w, w', step.lastEthId, step.lastBindingId);
    } else if step.Check? && !MeetsFailure(cfg, w, step) {
      CheckStaysRunning(cfg, w, w', step);
    } else if step.LoadNew? {
      RefusesIffAfterLost(w.db, w.mem.queue);
    }
  }

  /**
   A step stops the process if and only if it meets a transaction that failed on chain or loads an operation that
   comes after a lost one of its kind; the latter never happens after a safe restart.
   */
  lemma OnlyFailureStops(cfg: Config, steps: seq<Step>, step: Step)
    requires Run(cfg, INITIAL, steps).Some? && Run(cfg, INITIAL, steps + [step]).Some?
    requires Run(cfg, INITIAL, steps).value.mem.Running?
    ensures var w, w' := Run(cfg, INITIAL, steps).value, Run(cfg, INITIAL, steps + [step]).value;
      && (w'.mem.Stopped? <==> MeetsFailure(cfg, w, step) || MeetsGap(w, step))
      && (LastRestartSafe(cfg, steps) ==> !MeetsGap(w, step))
  {
    var w, w' := Run(cfg, INITIAL, steps).value, Run(cfg, INITIAL, steps + [step]).value;
    RunLast(cfg, INITIAL, steps, step);
    assert Inv(cfg, w) by {
      RunKeeps(cfg, steps);
    }
    assert Placed(w.db, w.mem.queue) by {
      RunStored(cfg, steps);
    }
    StopsExactly(cfg, w, w', step);
    RunConserves(cfg, steps);
  }
}
