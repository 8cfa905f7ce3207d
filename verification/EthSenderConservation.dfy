/**
 Conservation in the Ethereum sender: which operations handed over are still somewhere. After every run, all
 of them are if and only if the last restart was safe; a restart is safe if and only if it loses nothing.
 */
module EthSenderConservation {
  import opened Wrappers
  import opened TxQueue
  import opened EthDatabase
  import opened EthSenderRun
  import opened EthSenderSafety
  import opened EthSenderTables

  /** Of each kind, the stored operations are the sent, the queued and the unprocessed ones, in this order. */
  ghost predicate Conserved(db: Db, queue: Queue) {
    forall kind :: OfKind(db.aggOps, kind)
      == OfKind(RowOps(db.rows), kind) + queue.Of(kind).elements + OfKind(LoadUnprocessed(db), kind)
  }

  /** Every stored operation that was never sent is unprocessed, or some binding row has another id than it. */
  ghost predicate RestartSafe(db: Db) {
    forall op :: op in db.aggOps && op !in RowOps(db.rows) ==>
      op.id in db.unprocessed || exists b :: b in db.bindings && b.id != op.id
  }

  /** A stored operation that is neither sent nor queued nor listed. */
  predicate Lost(db: Db, queue: Queue, op: AggOp) {
    op in db.aggOps && op !in RowOps(db.rows) && !Waiting(db, queue, op)
  }

  // ----- handing over

  lemma HandOverLoads(db: Db, op: AggOp)
    requires forall x :: x in db.aggOps ==> x.id < op.id
    ensures LoadUnprocessed(StoreAggregated(db, op)) == LoadUnprocessed(db) + [op]
  {
    var ids := db.unprocessed + {op.id};
    WithIdsAppend(db.aggOps, [op], ids);
    WithIdsSame(db.aggOps, db.unprocessed, ids);
    WithIdsAll([op], ids);
  }

  lemma HandOverConserves(db: Db, op: AggOp, queue: Queue)
    requires Conserved(db, queue) && (forall x :: x in db.aggOps ==> x.id < op.id)
    ensures Conserved(StoreAggregated(db, op), queue)
  {
    var db' := StoreAggregated(db, op);
    HandOverLoads(db, op);
    forall kind
      ensures OfKind(db'.aggOps, kind)
        == OfKind(RowOps(db'.rows), kind) + queue.Of(kind).elements + OfKind(LoadUnprocessed(db'), kind)
    {
      OfKindAppend(db.aggOps, [op], kind);
      OfKindAppend(LoadUnprocessed(db), [op], kind);
    }
  }

  // ----- loading

  lemma AddAccepts(q: Queue, op: AggOp)
    requires op.first == LastBlock(q.Of(op.kind).elements, q.Of(op.kind).lastBlock) + 1
    ensures q.Add(op).Some? && Appended(q, [op], q.Add(op).value)
  {
    var q' := q.Add(op).value;
    forall kind
      ensures q'.Of(kind) == q.Of(kind).(elements := q.Of(kind).elements + OfKind([op], kind))
    {
      assert OfKind([op], kind) == if kind == op.kind then [op] else [];
    }
  }

  lemma LastContinues(queued: seq<AggOp>, before: seq<AggOp>, op: AggOp, kind: Kind, last: nat)
    requires Contiguous(queued + OfKind(before + [op], kind), kind, last)
    ensures Contiguous(queued + OfKind(before, kind), kind, last)
    ensures op.kind == kind ==> op.first == LastBlock(queued + OfKind(before, kind), last) + 1
  {
    OfKindAppend(before, [op], kind);
    assert queued + OfKind(before + [op], kind) == queued + OfKind(before, kind) + OfKind([op], kind);
    ContiguousAppend(queued + OfKind(before, kind), OfKind([op], kind), kind, last);
  }

  /** Operations that continue the queues are all accepted, each at the end of its own queue. */
  lemma {:induction false} AddAllSucceeds(q: Queue, ops: seq<AggOp>)
    requires forall kind :: Contiguous(q.Of(kind).elements + OfKind(ops, kind), kind, q.Of(kind).lastBlock)
    ensures AddAll(q, ops).Some? && Appended(q, ops, AddAll(q, ops).value)
    decreases |ops|
  {
    if ops == [] {
    } else {
      var n := |ops| - 1;
      var before, op := ops[..n], ops[n];
      assert ops == before + [op];
      forall kind
        ensures Contiguous(q.Of(kind).elements + OfKind(before, kind), kind, q.Of(kind).lastBlock)
      {
        LastContinues(q.Of(kind).elements, before, op, kind, q.Of(kind).lastBlock);
      }
      AddAllSucceeds(q, before);
      var q' := AddAll(q, before).value;
      LastContinues(q.Of(op.kind).elements, before, op, op.kind, q.Of(op.kind).lastBlock);
      AddAccepts(q', op);
      AppendedTwice(q, before, q', [op], q'.Add(op).value);
    }
  }

  lemma QueueContinues(db: Db, queue: Queue, kind: Kind)
    requires AggInv(db.aggOps) && Conserved(db, queue) && OrderInv(db)
    requires queue.Of(kind).lastBlock == db.stats.Of(kind)
    ensures Contiguous(queue.Of(kind).elements + OfKind(LoadUnprocessed(db), kind), kind, queue.Of(kind).lastBlock)
  {
    var sent, queued, loaded := OfKind(RowOps(db.rows), kind), queue.Of(kind).elements, OfKind(LoadUnprocessed(db), kind);
    assert OfKind(db.aggOps, kind) == sent + queued + loaded == sent + (queued + loaded);
    StatsAreLast(RowOps(db.rows), kind);
    ContiguousAppend(sent, queued + loaded, kind, 0);
  }

  /** Loading never fails. */
  lemma LoadSucceeds(db: Db, queue: Queue)
    requires AggInv(db.aggOps) && Conserved(db, queue) && OrderInv(db)
    requires forall kind :: queue.Of(kind).lastBlock == db.stats.Of(kind)
    ensures AddAll(queue, LoadUnprocessed(db)).Some?
    ensures Appended(queue, LoadUnprocessed(db), AddAll(queue, LoadUnprocessed(db)).value)
  {
    forall kind
      ensures Contiguous(queue.Of(kind).elements + OfKind(LoadUnprocessed(db), kind), kind, queue.Of(kind).lastBlock)
    {
      QueueContinues(db, queue, kind);
    }
    AddAllSucceeds(queue, LoadUnprocessed(db));
  }

  lemma AllAreLoaded(db: Db)
    ensures LoadUnprocessed(RemoveUnprocessed(db, IdsOf(LoadUnprocessed(db)))) == []
  {
    var loaded := LoadUnprocessed(db);
    forall op | op in db.aggOps
      ensures op.id !in db.unprocessed - IdsOf(loaded)
    {
      WithIdsMember(db.aggOps, db.unprocessed, op);
    }
    WithIdsNone(db.aggOps, db.unprocessed - IdsOf(loaded));
  }

  lemma LoadConserves(db: Db, queue: Queue, queue': Queue)
    requires Conserved(db, queue) && Appended(queue, LoadUnprocessed(db), queue')
    ensures Conserved(RemoveUnprocessed(db, IdsOf(LoadUnprocessed(db))), queue')
  {
    var loaded := LoadUnprocessed(db);
    var db' := RemoveUnprocessed(db, IdsOf(loaded));
    AllAreLoaded(db);
    forall kind
      ensures OfKind(db'.aggOps, kind)
        == OfKind(RowOps(db'.rows), kind) + queue'.Of(kind).elements + OfKind(LoadUnprocessed(db'), kind)
    {
      assert queue'.Of(kind).elements == queue.Of(kind).elements + OfKind(loaded, kind);
      assert OfKind(RowOps(db.rows), kind) + queue.Of(kind).elements + OfKind(loaded, kind)
        == OfKind(RowOps(db.rows), kind) + queue'.Of(kind).elements + [];
    }
  }

  // ----- starting and checking

  lemma MoveToSent(sent: seq<AggOp>, op: AggOp, kind: Kind, queued: seq<AggOp>, queued': seq<AggOp>, loaded: seq<AggOp>)
    requires queued == OfKind([op], kind) + queued'
    ensures OfKind(sent, kind) + queued + loaded == OfKind(sent + [op], kind) + queued' + loaded
  {
    OfKindAppend(sent, [op], kind);
    assert OfKind(sent, kind) + queued == OfKind(sent, kind) + OfKind([op], kind) + queued';
  }

  lemma StartConserves(db: Db, db': Db, queue: Queue, queue': Queue, op: AggOp)
    requires Conserved(db, queue)
    requires forall kind :: queue.Of(kind).elements == OfKind([op], kind) + queue'.Of(kind).elements
    requires db'.aggOps == db.aggOps && db'.unprocessed == db.unprocessed
    requires RowOps(db'.rows) == RowOps(db.rows) + [op]
    ensures Conserved(db', queue')
  {
    forall kind
      ensures OfKind(db'.aggOps, kind)
        == OfKind(RowOps(db'.rows), kind) + queue'.Of(kind).elements + OfKind(LoadUnprocessed(db'), kind)
    {
      MoveToSent(RowOps(db.rows), op, kind, queue.Of(kind).elements, queue'.Of(kind).elements,
                 OfKind(LoadUnprocessed(db), kind));
    }
  }

  lemma SameRowsConserve(db: Db, db': Db, queue: Queue, queue': Queue)
    requires Conserved(db, queue) && db'.aggOps == db.aggOps && db'.unprocessed == db.unprocessed
    requires RowOps(db'.rows) == RowOps(db.rows)
    requires forall kind :: queue'.Of(kind).elements == queue.Of(kind).elements
    ensures Conserved(db', queue')
  {
    forall kind
      ensures OfKind(db'.aggOps, kind)
        == OfKind(RowOps(db'.rows), kind) + queue'.Of(kind).elements + OfKind(LoadUnprocessed(db'), kind)
    {
      assert queue'.Of(kind).elements == queue.Of(kind).elements;
    }
  }

  // ----- restarting

  lemma SuffixIsRest(ops: seq<AggOp>, sent: seq<AggOp>, kind: Kind, op: AggOp)
    requires SortedIds(ops) && SentFirst(ops, sent)
    ensures op in OfKind(ops, kind)[|OfKind(sent, kind)|..] <==> op in ops && op.kind == kind && op !in sent
  {
    var all, first := OfKind(ops, kind), OfKind(sent, kind);
    assert first <= all;
    var rest := all[|first|..];
    assert all == first + rest;
    OfKindMember(ops, kind, op);
    OfKindMember(sent, kind, op);
    OfKindSorted(ops, kind);
    if op in first && op in rest {
      SortedParts(first, rest, op, op);
    }
  }

  lemma WithIdsOnly(ops: seq<AggOp>, ids: set<nat>)
    ensures WithIds(ops, ids) == ops <==> forall op :: op in ops ==> op.id in ids
  {
    if forall op :: op in ops ==> op.id in ids {
      WithIdsAll(ops, ids);
    } else {
      var op :| op in ops && op.id !in ids;
      WithIdsMember(ops, ids, op);
    }
  }

  lemma SameTail(first: seq<AggOp>, xs: seq<AggOp>, ys: seq<AggOp>)
    ensures first + xs == first + ys <==> xs == ys
  {
    assert (first + xs)[|first|..] == xs && (first + ys)[|first|..] == ys;
  }

  lemma RestIsLoaded(first: seq<AggOp>, rest: seq<AggOp>, ids: set<nat>)
    requires forall op :: op in first ==> op.id !in ids
    ensures first + rest == first + WithIds(first + rest, ids) <==> forall op :: op in rest ==> op.id in ids
  {
    WithIdsAppend(first, rest, ids);
    WithIdsNone(first, ids);
    assert WithIds(first + rest, ids) == WithIds(rest, ids);
    SameTail(first, rest, WithIds(rest, ids));
    WithIdsOnly(rest, ids);
  }

  /** The operations of one kind after the sent ones. */
  ghost function RestOfKind(ops: seq<AggOp>, sent: seq<AggOp>, kind: Kind): seq<AggOp>
    requires OfKind(sent, kind) <= OfKind(ops, kind)
  {
    OfKind(ops, kind)[|OfKind(sent, kind)|..]
  }

  lemma RestListed(ops: seq<AggOp>, sent: seq<AggOp>, ids: set<nat>, kind: Kind)
    requires SortedIds(ops) && SentFirst(ops, sent)
    ensures OfKind(sent, kind) <= OfKind(ops, kind)
    ensures (forall op :: op in RestOfKind(ops, sent, kind) ==> op.id in ids)
      <==> forall op :: op in ops && op.kind == kind && op !in sent ==> op.id in ids
  {
    assert OfKind(sent, kind) <= OfKind(ops, kind);
    forall op
      ensures op in RestOfKind(ops, sent, kind) <==> op in ops && op.kind == kind && op !in sent
    {
      SuffixIsRest(ops, sent, kind, op);
    }
  }

  lemma SentNotListed(sent: seq<AggOp>, ids: set<nat>, kind: Kind)
    requires ids !! IdsOf(sent)
    ensures forall op :: op in OfKind(sent, kind) ==> op.id !in ids
  {
    forall op | op in OfKind(sent, kind)
      ensures op.id !in ids
    {
      OfKindMember(sent, kind, op);
    }
  }

  /** For one kind: the restarted sender has the rest of the operations if and only if all of them are listed. */
  lemma RestartKind(ops: seq<AggOp>, sent: seq<AggOp>, ids: set<nat>, kind: Kind)
    requires SortedIds(ops) && SentFirst(ops, sent) && ids !! IdsOf(sent)
    ensures OfKind(ops, kind) == OfKind(sent, kind) + OfKind(WithIds(ops, ids), kind) <==>
      forall op :: op in ops && op.kind == kind && op !in sent ==> op.id in ids
  {
    RestListed(ops, sent, ids, kind);
    SentNotListed(sent, ids, kind);
    OfKindWithIds(ops, ids, kind);
    var rest := RestOfKind(ops, sent, kind);
    assert OfKind(ops, kind) == OfKind(sent, kind) + rest;
    RestIsLoaded(OfKind(sent, kind), rest, ids);
  }

  lemma ConservedByKind(db: Db, queue: Queue, kind: Kind)
    requires SortedIds(db.aggOps) && SentFirst(db.aggOps, RowOps(db.rows)) && db.unprocessed !! IdsOf(RowOps(db.rows))
    requires queue.Of(kind).elements == []
    ensures OfKind(db.aggOps, kind)
        == OfKind(RowOps(db.rows), kind) + queue.Of(kind).elements + OfKind(LoadUnprocessed(db), kind)
      <==> forall op :: op in db.aggOps && op.kind == kind && op !in RowOps(db.rows) ==> op.id in db.unprocessed
  {
    RestartKind(db.aggOps, RowOps(db.rows), db.unprocessed, kind);
    assert OfKind(RowOps(db.rows), kind) + [] == OfKind(RowOps(db.rows), kind);
  }

  /** With empty queues, nothing is lost if and only if everything not sent yet is listed as unprocessed. */
  lemma ConservedWhenListed(db: Db, queue: Queue)
    requires SortedIds(db.aggOps) && SentFirst(db.aggOps, RowOps(db.rows)) && db.unprocessed !! IdsOf(RowOps(db.rows))
    requires forall kind :: queue.Of(kind).elements == []
    ensures Conserved(db, queue) <==>
      forall op :: op in db.aggOps && op !in RowOps(db.rows) ==> op.id in db.unprocessed
  {
    if Conserved(db, queue) {
      forall op | op in db.aggOps && op !in RowOps(db.rows)
        ensures op.id in db.unprocessed
      {
        ConservedByKind(db, queue, op.kind);
      }
    } else {
      var kind :| OfKind(db.aggOps, kind)
        != OfKind(RowOps(db.rows), kind) + queue.Of(kind).elements + OfKind(LoadUnprocessed(db), kind);
      ConservedByKind(db, queue, kind);
    }
  }

  /** A restart loses no operation if and only if it is safe. */
  lemma RestartConservesIff(cfg: Config, db: Db, done: nat)
    requires TablesInv(db, done)
    requires forall i :: 0 <= i < |db.rows| ==> (db.rows[i].confirmed <==> i < done)
    ensures var (db', mem) := StartUp(cfg, db); TablesInv(db', done) && (Conserved(db', mem.queue) <==> RestartSafe(db))
  {
    var (db', mem) := StartUp(cfg, db);
    RestartTables(db, db', done);
    ConservedWhenListed(db', mem.queue);
    forall op | op in db.aggOps && op !in RowOps(db.rows)
      ensures op.id in db'.unprocessed <==> op.id in db.unprocessed || exists b :: b in db.bindings && b.id != op.id
    {
      RestartLists(db, done, op);
    }
  }

  lemma UnsafeRestartLoses(cfg: Config, db: Db, done: nat)
    requires TablesInv(db, done) && !RestartSafe(db)
    requires forall i :: 0 <= i < |db.rows| ==> (db.rows[i].confirmed <==> i < done)
    ensures var (db', mem) := StartUp(cfg, db); exists op :: Lost(db', mem.queue, op)
  {
    var (db', mem) := StartUp(cfg, db);
    var op :| op in db.aggOps && op !in RowOps(db.rows)
      && !(op.id in db.unprocessed || exists b :: b in db.bindings && b.id != op.id);
    RestartLists(db, done, op);
    assert Lost(db', mem.queue, op);
  }

  // ----- steps

  lemma StartStepConserves(cfg: Config, w: World, w': World, block: nat, hash: Hash, ethId: nat, bindingId: nat)
    requires NextStart(cfg, w, block, hash, ethId, bindingId) == Some(w')
    requires ValidQueue(w.mem.queue) && Conserved(w.db, w.mem.queue)
    ensures Conserved(w'.db, w'.mem.queue)
  {
    var (op, queue') := w.mem.queue.PopFront().value;
    assert RowOps(w'.db.rows) == RowOps(w.db.rows) + [op];
    forall kind
      ensures w.mem.queue.Of(kind).elements == OfKind([op], kind) + queue'.Of(kind).elements
    {
      PopTakesFront(w.mem.queue, kind);
    }
    StartConserves(w.db, w'.db, w.mem.queue, queue', op);
  }

  /** In a conserved state loading never stops the process. */
  lemma LoadStepConserves(cfg: Config, w: World, w': World)
    requires Inv(cfg, w) && AggInv(w.db.aggOps) && NextLoadNew(w) == Some(w') && Conserved(w.db, w.mem.queue)
    ensures w'.mem.Running? && Conserved(w'.db, w'.mem.queue)
  {
    LoadSucceeds(w.db, w.mem.queue);
    LoadConserves(w.db, w.mem.queue, w'.mem.queue);
  }

  lemma StepConserves(cfg: Config, w: World, w': World, step: Step)
    requires Inv(cfg, w) && StoredInv(w) && Next(cfg, w, step) == Some(w') && !step.Restart?
    requires w.mem.Running? && w'.mem.Running? && Conserved(w.db, w.mem.queue)
    ensures Conserved(w'.db, w'.mem.queue)
  {
    match step
    case HandOver(op) => HandOverConserves(w.db, op, w.mem.queue);
    case LoadNew => LoadStepConserves(cfg, w, w');
    case Start(block, hash, ethId, bindingId) => StartStepConserves(cfg, w, w', block, hash, ethId, bindingId);
    case StartFails(lastEthId, lastBindingId) =>
      StartFailsKeeps(cfg, w, w', lastEthId, lastBindingId);
      SameRowsConserve(w.db, w'.db, w.mem.queue, w'.mem.queue);
    case Check(_, _, _, _, _) =>
      CheckStored(cfg, w, w', step);
      SameRowsConserve(w.db, w'.db, w.mem.queue, w'.mem.queue);
    case Mine(_) =>
  }

  lemma LoadKeepsLost(w: World, w': World, op: AggOp)
    requires NextLoadNew(w) == Some(w') && w'.mem.Running? && Lost(w.db, w.mem.queue, op)
    ensures Lost(w'.db, w'.mem.queue, op)
  {
    var loaded := LoadUnprocessed(w.db);
    AddAllAppends(w.mem.queue, loaded);
    LoadedMember(w.mem.queue, loaded, w'.mem.queue, op.kind, op);
    WithIdsMember(w.db.aggOps, w.db.unprocessed, op);
  }

  lemma StartKeepsLost(cfg: Config, w: World, w': World, block: nat, hash: Hash, ethId: nat, bindingId: nat, op: AggOp)
    requires NextStart(cfg, w, block, hash, ethId, bindingId) == Some(w')
    requires ValidQueue(w.mem.queue) && Lost(w.db, w.mem.queue, op)
    ensures Lost(w'.db, w'.mem.queue, op)
  {
    var (x, queue') := w.mem.queue.PopFront().value;
    assert RowOps(w'.db.rows) == RowOps(w.db.rows) + [x];
    PopTakesFront(w.mem.queue, op.kind);
    PopTakesFront(w.mem.queue, x.kind);
    assert x in w.mem.queue.Of(x.kind).elements;
  }

  /** Only a restart brings a lost operation back. */
  lemma StepKeepsLost(cfg: Config, w: World, w': World, step: Step, op: AggOp)
    requires Inv(cfg, w) && StoredInv(w) && Next(cfg, w, step) == Some(w') && !step.Restart?
    requires w.mem.Running? && w'.mem.Running? && Lost(w.db, w.mem.queue, op)
    ensures Lost(w'.db, w'.mem.queue, op)
  {
    match step
    case HandOver(_) =>
    case LoadNew => LoadKeepsLost(w, w', op);
    case Start(block, hash, ethId, bindingId) => StartKeepsLost(cfg, w, w', block, hash, ethId, bindingId, op);
    case StartFails(lastEthId, lastBindingId) => StartFailsKeeps(cfg, w, w', lastEthId, lastBindingId);
    case Check(_, _, _, _, _) => CheckStored(cfg, w, w', step);
    case Mine(_) =>
  }

  // ----- runs

  /** The last restart of the run, if there was one, found tables from which it loses nothing. */
  ghost predicate LastRestartSafe(cfg: Config, steps: seq<Step>)
    requires Run(cfg, INITIAL, steps).Some?
    decreases |steps|
  {
    steps == [] ||
    var n := |steps| - 1;
    if steps[n].Restart? then RestartSafe(Run(cfg, INITIAL, steps[..n]).value.db)
    else LastRestartSafe(cfg, steps[..n])
  }

  /** All operations are in their places if `safe` holds, and some are lost if not. */
  ghost predicate ConservedIf(safe: bool, w: World) {
    w.mem.Running? ==>
      if safe then Conserved(w.db, w.mem.queue) else exists op :: Lost(w.db, w.mem.queue, op)
  }

  lemma RestartStep(cfg: Config, w: World, w': World)
    requires Core(cfg, w) && StoredInv(w) && Next(cfg, w, Restart) == Some(w')
    ensures w'.mem.Running? && ConservedIf(RestartSafe(w.db), w')
  {
    RestartConservesIff(cfg, w.db, |w.confirmations|);
    if !RestartSafe(w.db) {
      UnsafeRestartLoses(cfg, w.db, |w.confirmations|);
    }
  }

  lemma OtherStep(cfg: Config, w: World, w': World, step: Step, safe: bool)
    requires Inv(cfg, w) && StoredInv(w) && Next(cfg, w, step) == Some(w') && !step.Restart? && ConservedIf(safe, w)
    ensures ConservedIf(safe, w')
  {
    if w'.mem.Running? {
      if safe {
        StepConserves(cfg, w, w', step);
      } else {
        var op :| Lost(w.db, w.mem.queue, op);
        StepKeepsLost(cfg, w, w', step, op);
      }
    }
  }

  lemma {:induction false} RunConservedIf(cfg: Config, steps: seq<Step>)
    requires Run(cfg, INITIAL, steps).Some?
    ensures ConservedIf(LastRestartSafe(cfg, steps), Run(cfg, INITIAL, steps).value)
    decreases |steps|
  {
    if steps == [] {
    } else {
      var n := |steps| - 1;
      var w, w' := Run(cfg, INITIAL, steps[..n]).value, Run(cfg, INITIAL, steps).value;
      RunConservedIf(cfg, steps[..n]);
      RunKeeps(cfg, steps[..n]);
      RunStored(cfg, steps[..n]);
      if steps[n].Restart? {
        RestartStep(cfg, w, w');
      } else {
        OtherStep(cfg, w, w', steps[n], LastRestartSafe(cfg, steps[..n]));
      }
    }
  }

  lemma OneOfThree(xs: seq<AggOp>, ys: seq<AggOp>, zs: seq<AggOp>, op: AggOp)
    requires SortedIds(xs + ys + zs) && op in xs + ys + zs
    ensures (op in xs || op in ys || op in zs) && AtMostOne(op in xs, op in ys, op in zs)
  {
    assert xs + ys + zs == xs + (ys + zs);
    if op in xs && op in ys + zs {
      SortedParts(xs, ys + zs, op, op);
    }
    if op in xs + ys && op in zs {
      SortedParts(xs + ys, zs, op, op);
    }
  }

  lemma WaitingIsNotSent(db: Db, queue: Queue, op: AggOp)
    requires AggInv(db.aggOps) && Conserved(db, queue) && op in db.aggOps
    ensures Waiting(db, queue, op) <==> op !in RowOps(db.rows)
  {
    var sent, queued, loaded := OfKind(RowOps(db.rows), op.kind), queue.Of(op.kind).elements,
      OfKind(LoadUnprocessed(db), op.kind);
    OfKindMember(db.aggOps, op.kind, op);
    OfKindMember(RowOps(db.rows), op.kind, op);
    OfKindMember(LoadUnprocessed(db), op.kind, op);
    WithIdsMember(db.aggOps, db.unprocessed, op);
    OfKindSorted(db.aggOps, op.kind);
    OneOfThree(sent, queued, loaded, op);
  }

  /**
   After every run with the process up, the stored operations of each kind are the sent, the queued and the
   unprocessed ones in this order if and only if the last restart was safe; otherwise some operation is lost.
   */
  lemma RunConserves(cfg: Config, steps: seq<Step>)
    requires Run(cfg, INITIAL, steps).Some? && Run(cfg, INITIAL, steps).value.mem.Running?
    ensures var w := Run(cfg, INITIAL, steps).value;
      && (Conserved(w.db, w.mem.queue) <==> LastRestartSafe(cfg, steps))
      && (!LastRestartSafe(cfg, steps) <==> exists op :: Lost(w.db, w.mem.queue, op))
  {
    var w := Run(cfg, INITIAL, steps).value;
    RunConservedIf(cfg, steps);
    RunStored(cfg, steps);
    if Conserved(w.db, w.mem.queue) {
      forall op
        ensures !Lost(w.db, w.mem.queue, op)
      {
        if op in w.db.aggOps {
          WaitingIsNotSent(w.db, w.mem.queue, op);
        }
      }
    }
  }

  /** After every run, one more restart conserves the operations if and only if it is safe. */
  lemma RestartConservesExactly(cfg: Config, steps: seq<Step>)
    requires Run(cfg, INITIAL, steps).Some?
    ensures Run(cfg, INITIAL, steps + [Restart]).Some?
    ensures var w, w' := Run(cfg, INITIAL, steps).value, Run(cfg, INITIAL, steps + [Restart]).value;
      Conserved(w'.db, w'.mem.queue) <==> RestartSafe(w.db)
  {
    var w := Run(cfg, INITIAL, steps).value;
    RunLast(cfg, INITIAL, steps, Restart);
    RunStored(cfg, steps);
    assert ConfirmedInv(cfg, w.db.rows, w.mined, w.confirmations) by {
      RunKeeps(cfg, steps);
    }
    RestartConservesIff(cfg, w.db, |w.confirmations|);
  }

  /** Once two operations have been sent, every restart is safe. */
  lemma TwoSentMakeSafe(cfg: Config, steps: seq<Step>)
    requires Run(cfg, INITIAL, steps).Some? && |Run(cfg, INITIAL, steps).value.db.rows| >= 2
    ensures RestartSafe(Run(cfg, INITIAL, steps).value.db)
  {
    RunStored(cfg, steps);
    var bindings := Run(cfg, INITIAL, steps).value.db.bindings;
    assert bindings[0] in bindings && bindings[1] in bindings && bindings[0].id < bindings[1].id;
  }

  /** From then on a restart also brings back whatever an earlier one lost. */
  lemma LostOperationsReturn(cfg: Config, steps: seq<Step>)
    requires Run(cfg, INITIAL, steps).Some? && |Run(cfg, INITIAL, steps).value.db.rows| >= 2
    ensures Run(cfg, INITIAL, steps + [Restart]).Some?
    ensures var w := Run(cfg, INITIAL, steps + [Restart]).value; Conserved(w.db, w.mem.queue)
  {
    TwoSentMakeSafe(cfg, steps);
    RestartConservesExactly(cfg, steps);
  }

  predicate ExactlyOne(a: bool, b: bool, c: bool) {
    (a || b || c) && !(a && b) && !(a && c) && !(b && c)
  }

  lemma LostIsNowhere(cfg: Config, db: Db, queue: Queue, ongoing: seq<EthOp>, done: nat, op: AggOp)
    requires TablesInv(db, done) && QueueStored(db, queue) && MirrorInv(cfg, db.rows, done, ongoing)
    requires OrderInv(db) && QueueInv(cfg, queue, |ongoing|, db.stats) && op in db.aggOps
    ensures ExactlyOne(Waiting(db, queue, op), InFlight(ongoing, op), op.id in db.aggConfirmed) <==> !Lost(db, queue, op)
  {
    PlacesApart(cfg, db, queue, ongoing, done, op);
  }

  /**
   After every run with the process up, each operation handed over is in exactly one place (waiting for its turn,
   in flight, or confirmed) if and only if the last restart was safe.
   */
  lemma EachInOnePlace(cfg: Config, steps: seq<Step>)
    requires Run(cfg, INITIAL, steps).Some? && Run(cfg, INITIAL, steps).value.mem.Running?
    ensures var w := Run(cfg, INITIAL, steps).value;
      LastRestartSafe(cfg, steps) <==> forall op :: op in w.db.aggOps ==>
        ExactlyOne(Waiting(w.db, w.mem.queue, op), InFlight(w.mem.ongoing, op), op.id in w.db.aggConfirmed)
  {
    var w := Run(cfg, INITIAL, steps).value;
    RunConserves(cfg, steps);
    forall op | op in w.db.aggOps
      ensures ExactlyOne(Waiting(w.db, w.mem.queue, op), InFlight(w.mem.ongoing, op), op.id in w.db.aggConfirmed)
        <==> !Lost(w.db, w.mem.queue, op)
    {
      RunKeeps(cfg, steps);
      RunStored(cfg, steps);
      LostIsNowhere(cfg, w.db, w.mem.queue, w.mem.ongoing, |w.confirmations|, op);
    }
  }
}
