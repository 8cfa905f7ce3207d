/**
 The tables and the queue of the Ethereum sender over every run, safe restarts or not: sent operations are
 the first stored ones of their kind, no operation is sent twice, and none is ever in two places.
 */
module EthSenderTables {
  import opened Wrappers
  import opened TxQueue
  import opened EthDatabase
  import opened EthSenderRun
  import opened EthSenderSafety

  // ----- lists of operations

  ghost predicate SortedIds(ops: seq<AggOp>) {
    forall i, j :: 0 <= i < j < |ops| ==> ops[i].id < ops[j].id
  }

  lemma {:induction false} OfKindMember(ops: seq<AggOp>, kind: Kind, op: AggOp)
    ensures op in OfKind(ops, kind) <==> op in ops && op.kind == kind
  {
    if ops == [] {
    } else {
      OfKindMember(ops[1..], kind, op);
    }
  }

  lemma {:induction false} OfKindSorted(ops: seq<AggOp>, kind: Kind)
    requires SortedIds(ops)
    ensures SortedIds(OfKind(ops, kind))
    decreases |ops|
  {
    if ops == [] {
    } else {
      var rest := OfKind(ops[1..], kind);
      OfKindSorted(ops[1..], kind);
      forall i | 0 <= i < |rest|
        ensures ops[0].id < rest[i].id
      {
        OfKindMember(ops[1..], kind, rest[i]);
        var j :| 0 <= j < |ops| - 1 && ops[1..][j] == rest[i];
        assert ops[1..][j] == ops[j + 1];
      }
    }
  }

  lemma {:induction false} WithIdsAppend(xs: seq<AggOp>, ys: seq<AggOp>, ids: set<nat>)
    ensures WithIds(xs + ys, ids) == WithIds(xs, ids) + WithIds(ys, ids)
    decreases |xs|
  {
    if xs == [] {
      assert xs + ys == ys;
    } else {
      assert (xs + ys)[0] == xs[0] && (xs + ys)[1..] == xs[1..] + ys;
      WithIdsAppend(xs[1..], ys, ids);
      var first := if xs[0].id in ids then [xs[0]] else [];
      assert first + (WithIds(xs[1..], ids) + WithIds(ys, ids)) == (first + WithIds(xs[1..], ids)) + WithIds(ys, ids);
    }
  }

  lemma {:induction false} WithIdsSame(ops: seq<AggOp>, ids: set<nat>, ids': set<nat>)
    requires forall op :: op in ops ==> (op.id in ids <==> op.id in ids')
    ensures WithIds(ops, ids) == WithIds(ops, ids')
  {
    if ops == [] {
    } else {
      WithIdsSame(ops[1..], ids, ids');
    }
  }

  lemma {:induction false} WithIdsAll(ops: seq<AggOp>, ids: set<nat>)
    requires forall op :: op in ops ==> op.id in ids
    ensures WithIds(ops, ids) == ops
  {
    if ops == [] {
    } else {
      WithIdsAll(ops[1..], ids);
    }
  }

  lemma {:induction false} WithIdsNone(ops: seq<AggOp>, ids: set<nat>)
    ensures WithIds(ops, ids) == [] <==> forall op :: op in ops ==> op.id !in ids
  {
    if ops == [] {
    } else {
      WithIdsNone(ops[1..], ids);
    }
  }

  lemma {:induction false} OfKindWithIds(ops: seq<AggOp>, ids: set<nat>, kind: Kind)
    ensures OfKind(WithIds(ops, ids), kind) == WithIds(OfKind(ops, kind), ids)
  {
    if ops == [] {
    } else {
      OfKindWithIds(ops[1..], ids, kind);
      OfKindAppend(if ops[0].id in ids then [ops[0]] else [], WithIds(ops[1..], ids), kind);
      WithIdsAppend(if ops[0].kind == kind then [ops[0]] else [], OfKind(ops[1..], kind), ids);
    }
  }

  lemma {:induction false} ContiguousLater(ops: seq<AggOp>, kind: Kind, last: nat, j: nat)
    requires Contiguous(ops, kind, last) && j < |ops|
    ensures ops[j].kind == kind && last < ops[j].first <= ops[j].last
    decreases j
  {
    if j > 0 {
      ContiguousLater(ops[1..], kind, ops[0].last, j - 1);
    }
  }

  lemma {:induction false} ContiguousApart(ops: seq<AggOp>, kind: Kind, last: nat, i: nat, j: nat)
    requires Contiguous(ops, kind, last) && i < j < |ops|
    ensures ops[i].last < ops[j].first
    decreases i
  {
    if i == 0 {
      ContiguousLater(ops[1..], kind, ops[0].last, j - 1);
    } else {
      ContiguousApart(ops[1..], kind, ops[0].last, i - 1, j - 1);
    }
  }

  lemma SortedParts(xs: seq<AggOp>, ys: seq<AggOp>, x: AggOp, y: AggOp)
    requires SortedIds(xs + ys) && x in xs && y in ys
    ensures x.id < y.id
  {
    var i :| 0 <= i < |xs| && xs[i] == x;
    var j :| 0 <= j < |ys| && ys[j] == y;
    assert (xs + ys)[i] == x && (xs + ys)[|xs| + j] == y;
  }

  // ----- invariants

  /** Stored operations have increasing ids, and those of one kind cover the blocks from 1 on without a gap. */
  ghost predicate AggInv(ops: seq<AggOp>) {
    SortedIds(ops) && forall kind :: Contiguous(OfKind(ops, kind), kind, 0)
  }

  /** Of each kind, the sent operations are the first stored ones. */
  ghost predicate SentFirst(ops: seq<AggOp>, sent: seq<AggOp>) {
    forall kind :: OfKind(sent, kind) <= OfKind(ops, kind)
  }

  /** One binding per row, with the row's operation and increasing ids. */
  ghost predicate BindingsInv(db: Db) {
    && |db.bindings| == |db.rows|
    && (forall i :: 0 <= i < |db.bindings| ==>
          db.bindings[i].id <= db.lastBindingId && db.bindings[i].opId == db.rows[i].eth.op.id)
    && forall i, j :: 0 <= i < j < |db.bindings| ==> db.bindings[i].id < db.bindings[j].id
  }

  ghost predicate TablesInv(db: Db, done: nat) {
    var sent := RowOps(db.rows);
    && AggInv(db.aggOps) && SentFirst(db.aggOps, sent) && BindingsInv(db)
    && done <= |sent| && db.aggConfirmed == IdsOf(sent[..done])
    && db.unprocessed !! IdsOf(sent)
  }

  /** Stored operations that are no longer listed as unprocessed. */
  ghost predicate TakenOff(db: Db, ops: seq<AggOp>) {
    forall op :: op in ops ==> op in db.aggOps && op.id !in db.unprocessed
  }

  ghost predicate QueueStored(db: Db, queue: Queue) {
    forall kind :: TakenOff(db, queue.Of(kind).elements)
  }

  ghost predicate StoredInv(w: World) {
    TablesInv(w.db, |w.confirmations|) && (w.mem.Running? ==> QueueStored(w.db, w.mem.queue))
  }

  // ----- consequences for one operation

  lemma SameIdSameOp(ops: seq<AggOp>, x: AggOp, y: AggOp)
    requires SortedIds(ops) && x in ops && y in ops && x.id == y.id
    ensures x == y
  {
    var i :| 0 <= i < |ops| && ops[i] == x;
    var j :| 0 <= j < |ops| && ops[j] == y;
  }

  lemma SentAreStored(ops: seq<AggOp>, sent: seq<AggOp>, op: AggOp)
    requires SentFirst(ops, sent) && op in sent
    ensures op in ops
  {
    OfKindMember(sent, op.kind, op);
    OfKindMember(ops, op.kind, op);
    assert OfKind(sent, op.kind) <= OfKind(ops, op.kind);
  }

  /** Ranges of one kind are disjoint, so a confirmation covers only its own operation. */
  lemma CoveredOnlySelf(ops: seq<AggOp>, op: AggOp)
    requires AggInv(ops) && op in ops
    ensures Covered(ops, op.kind, op.first, op.last) == {op.id}
  {
    var same := OfKind(ops, op.kind);
    OfKindMember(ops, op.kind, op);
    var j :| 0 <= j < |same| && same[j] == op;
    ContiguousLater(same, op.kind, 0, j);
    forall x | x in ops && x.kind == op.kind && op.first <= x.first && x.last <= op.last
      ensures x == op
    {
      OfKindMember(ops, op.kind, x);
      var i :| 0 <= i < |same| && same[i] == x;
      ContiguousLater(same, op.kind, 0, i);
      if i < j {
        ContiguousApart(same, op.kind, 0, i, j);
      } else if j < i {
        ContiguousApart(same, op.kind, 0, j, i);
      }
    }
  }

  lemma SentOnce(ops: seq<AggOp>, sent: seq<AggOp>, done: nat, op: AggOp)
    requires SortedIds(ops) && SentFirst(ops, sent) && done <= |sent| && op in sent
    ensures op in sent[..done] <==> op !in sent[done..]
  {
    var kind := op.kind;
    assert sent == sent[..done] + sent[done..];
    OfKindAppend(sent[..done], sent[done..], kind);
    OfKindMember(sent[..done], kind, op);
    OfKindMember(sent[done..], kind, op);
    OfKindSorted(ops, kind);
    assert OfKind(sent, kind) <= OfKind(ops, kind);
    if op in sent[..done] && op in sent[done..] {
      SortedParts(OfKind(sent[..done], kind), OfKind(sent[done..], kind), op, op);
    }
  }

  lemma {:induction false} StatsAreLast(ops: seq<AggOp>, kind: Kind)
    ensures StatsAfter(ops).Of(kind) == LastBlock(OfKind(ops, kind), 0)
    decreases |ops|
  {
    if ops == [] {
    } else {
      var n := |ops| - 1;
      assert ops == ops[..n] + [ops[n]];
      OfKindAppend(ops[..n], [ops[n]], kind);
      StatsAreLast(ops[..n], kind);
    }
  }

  // ----- handing over

  lemma HandOverAgg(ops: seq<AggOp>, op: AggOp)
    requires AggInv(ops) && (forall x :: x in ops ==> x.id < op.id)
    requires op.first == LastBlock(OfKind(ops, op.kind), 0) + 1 <= op.last
    ensures AggInv(ops + [op])
  {
    forall kind
      ensures Contiguous(OfKind(ops + [op], kind), kind, 0)
    {
      OfKindAppend(ops, [op], kind);
      ContiguousAppend(OfKind(ops, kind), OfKind([op], kind), kind, 0);
    }
  }

  lemma HandOverTables(db: Db, op: AggOp, done: nat)
    requires TablesInv(db, done) && (forall x :: x in db.aggOps ==> x.id < op.id)
    requires op.first == LastBlock(OfKind(db.aggOps, op.kind), 0) + 1 <= op.last
    ensures TablesInv(StoreAggregated(db, op), done)
  {
    var sent := RowOps(db.rows);
    HandOverAgg(db.aggOps, op);
    forall kind
      ensures OfKind(sent, kind) <= OfKind(db.aggOps + [op], kind)
    {
      OfKindAppend(db.aggOps, [op], kind);
    }
    forall x | x in sent
      ensures x.id != op.id
    {
      SentAreStored(db.aggOps, sent, x);
    }
  }

  lemma HandOverStored(w: World, w': World, op: AggOp)
    requires StoredInv(w) && NextHandOver(w, op) == Some(w')
    ensures StoredInv(w')
  {
    HandOverTables(w.db, op, |w.confirmations|);
    if w.mem.Running? {
      forall kind
        ensures TakenOff(w'.db, w.mem.queue.Of(kind).elements)
      {
        assert TakenOff(w.db, w.mem.queue.Of(kind).elements);
      }
    }
  }

  // ----- loading

  /** `q` with the operations appended to the queues of their kinds. */
  ghost predicate Appended(q: Queue, ops: seq<AggOp>, q': Queue) {
    forall kind :: q'.Of(kind) == q.Of(kind).(elements := q.Of(kind).elements + OfKind(ops, kind))
  }

  lemma AddAppends(q: Queue, op: AggOp)
    requires q.Add(op).Some?
    ensures Appended(q, [op], q.Add(op).value)
  {
    var q' := q.Add(op).value;
    forall kind
      ensures q'.Of(kind) == q.Of(kind).(elements := q.Of(kind).elements + OfKind([op], kind))
    {
      assert OfKind([op], kind) == if kind == op.kind then [op] else [];
    }
  }

  lemma AppendedTwice(q: Queue, xs: seq<AggOp>, q': Queue, ys: seq<AggOp>, q'': Queue)
    requires Appended(q, xs, q') && Appended(q', ys, q'')
    ensures Appended(q, xs + ys, q'')
  {
    forall kind
      ensures q''.Of(kind) == q.Of(kind).(elements := q.Of(kind).elements + OfKind(xs + ys, kind))
    {
      OfKindAppend(xs, ys, kind);
      assert q'.Of(kind) == q.Of(kind).(elements := q.Of(kind).elements + OfKind(xs, kind));
    }
  }

  /** Operations that are accepted go to the ends of the queues of their kinds, in order. */
  lemma {:induction false} AddAllAppends(q: Queue, ops: seq<AggOp>)
    requires AddAll(q, ops).Some?
    ensures Appended(q, ops, AddAll(q, ops).value)
    decreases |ops|
  {
    if ops == [] {
    } else {
      var n := |ops| - 1;
      var before := AddAll(q, ops[..n]).value;
      assert ops == ops[..n] + [ops[n]];
      AddAllAppends(q, ops[..n]);
      AddAppends(before, ops[n]);
      AppendedTwice(q, ops[..n], before, [ops[n]], AddAll(q, ops).value);
    }
  }

  lemma LoadedMember(q: Queue, ops: seq<AggOp>, q': Queue, kind: Kind, op: AggOp)
    requires Appended(q, ops, q')
    ensures op in q'.Of(kind).elements <==> op in q.Of(kind).elements || (op in ops && op.kind == kind)
  {
    assert q'.Of(kind).elements == q.Of(kind).elements + OfKind(ops, kind);
    OfKindMember(ops, kind, op);
  }

  lemma LoadKeepsQueue(db: Db, queue: Queue, queue': Queue)
    requires QueueStored(db, queue) && Appended(queue, LoadUnprocessed(db), queue')
    ensures QueueStored(RemoveUnprocessed(db, IdsOf(LoadUnprocessed(db))), queue')
  {
    var loaded := LoadUnprocessed(db);
    forall kind
      ensures TakenOff(RemoveUnprocessed(db, IdsOf(loaded)), queue'.Of(kind).elements)
    {
      assert TakenOff(db, queue.Of(kind).elements);
      forall op | op in queue'.Of(kind).elements
        ensures op in db.aggOps && op.id !in db.unprocessed - IdsOf(loaded)
      {
        LoadedMember(queue, loaded, queue', kind, op);
        if op in loaded {
          WithIdsMember(db.aggOps, db.unprocessed, op);
        }
      }
    }
  }

  lemma LoadStored(w: World, w': World)
    requires StoredInv(w) && NextLoadNew(w) == Some(w')
    ensures StoredInv(w')
  {
    if w'.mem.Running? {
      AddAllAppends(w.mem.queue, LoadUnprocessed(w.db));
      LoadKeepsQueue(w.db, w.mem.queue, w'.mem.queue);
    }
  }

  // ----- starting

  lemma PrefixEndsBefore(all: seq<AggOp>, n: nat, kind: Kind, j: nat)
    requires Contiguous(all, kind, 0) && n <= |all| && j < n
    ensures all[j].last <= LastBlock(all[..n], 0)
  {
    if j < n - 1 {
      ContiguousApart(all, kind, 0, j, n - 1);
      ContiguousLater(all, kind, 0, n - 1);
    }
  }

  /** The stored operation that starts right after the first ones is the next one. */
  lemma NextByRange(all: seq<AggOp>, n: nat, kind: Kind, op: AggOp)
    requires Contiguous(all, kind, 0) && n <= |all| && op in all && op.first == LastBlock(all[..n], 0) + 1
    ensures n < |all| && all[n] == op
  {
    var j :| 0 <= j < |all| && all[j] == op;
    ContiguousLater(all, kind, 0, j);
    if j < n {
      PrefixEndsBefore(all, n, kind, j);
    } else if n < j {
      ContiguousApart(all, kind, 0, n, j);
      assert all == all[..n] + all[n..];
      ContiguousAppend(all[..n], all[n..], kind, 0);
    }
  }

  lemma NextExtends(all: seq<AggOp>, first: seq<AggOp>, kind: Kind, op: AggOp)
    requires Contiguous(all, kind, 0) && first <= all && op in all && op.first == LastBlock(first, 0) + 1
    ensures first + [op] <= all
  {
    assert all[..|first|] == first;
    NextByRange(all, |first|, kind, op);
    assert all[..|first| + 1] == first + [op];
  }

  lemma NextOfKind(ops: seq<AggOp>, sent: seq<AggOp>, op: AggOp)
    requires AggInv(ops) && OfKind(sent, op.kind) <= OfKind(ops, op.kind) && op in ops
    requires op.first == StatsAfter(sent).Of(op.kind) + 1
    ensures OfKind(sent, op.kind) + [op] <= OfKind(ops, op.kind)
  {
    assert op in OfKind(ops, op.kind) by {
      OfKindMember(ops, op.kind, op);
    }
    StatsAreLast(sent, op.kind);
    NextExtends(OfKind(ops, op.kind), OfKind(sent, op.kind), op.kind, op);
  }

  lemma SentFirstExtends(ops: seq<AggOp>, sent: seq<AggOp>, op: AggOp)
    requires AggInv(ops) && SentFirst(ops, sent) && op in ops && op.first == StatsAfter(sent).Of(op.kind) + 1
    ensures SentFirst(ops, sent + [op])
  {
    NextOfKind(ops, sent, op);
    forall kind
      ensures OfKind(sent + [op], kind) <= OfKind(ops, kind)
    {
      OfKindAppend(sent, [op], kind);
      assert OfKind([op], kind) == if kind == op.kind then [op] else [];
      assert OfKind(sent, kind) <= OfKind(ops, kind);
    }
  }

  lemma StartTables(db: Db, db': Db, op: AggOp, done: nat)
    requires TablesInv(db, done) && op in db.aggOps && op.id !in db.unprocessed
    requires op.first == StatsAfter(RowOps(db.rows)).Of(op.kind) + 1
    requires db' == db.(rows := db'.rows, bindings := db'.bindings, nonce := db'.nonce, stats := db'.stats,
                        lastEthId := db'.lastEthId, lastBindingId := db'.lastBindingId)
    requires RowOps(db'.rows) == RowOps(db.rows) + [op]
    requires db'.lastBindingId > db.lastBindingId && db'.bindings == db.bindings + [Binding(db'.lastBindingId, op.id)]
    ensures TablesInv(db', done)
  {
    SentFirstExtends(db.aggOps, RowOps(db.rows), op);
    assert RowOps(db'.rows)[..done] == RowOps(db.rows)[..done];
    assert |db'.rows| == |RowOps(db'.rows)|;
  }

  lemma PopTakesFront(queue: Queue, kind: Kind)
    requires ValidQueue(queue) && queue.PopFront().Some?
    ensures var (op, queue') := queue.PopFront().value;
      queue.Of(kind).elements == OfKind([op], kind) + queue'.Of(kind).elements
  {
    var (op, queue') := queue.PopFront().value;
    PopKeepsValid(queue);
    assert OfKind([op], kind) == if kind == op.kind then [op] else [];
  }

  lemma PopKeepsStored(db: Db, db': Db, queue: Queue)
    requires QueueStored(db, queue) && ValidQueue(queue) && queue.PopFront().Some?
    requires db'.aggOps == db.aggOps && db'.unprocessed == db.unprocessed
    ensures var (op, queue') := queue.PopFront().value; QueueStored(db', queue') && TakenOff(db, [op])
  {
    var (op, queue') := queue.PopFront().value;
    forall kind
      ensures TakenOff(db', queue'.Of(kind).elements)
    {
      assert TakenOff(db, queue.Of(kind).elements);
      PopTakesFront(queue, kind);
    }
    assert TakenOff(db, queue.Of(op.kind).elements);
    PopTakesFront(queue, op.kind);
    assert OfKind([op], op.kind) == [op];
  }

  lemma StartStored(cfg: Config, w: World, w': World, block: nat, hash: Hash, ethId: nat, bindingId: nat)
    requires StoredInv(w) && OrderInv(w.db) && NextStart(cfg, w, block, hash, ethId, bindingId) == Some(w')
    requires ValidQueue(w.mem.queue)
    ensures StoredInv(w')
  {
    var op := w.mem.queue.PopFront().value.0;
    PopKeepsStored(w.db, w'.db, w.mem.queue);
    assert op in [op];
    assert RowOps(w'.db.rows) == RowOps(w.db.rows) + [op];
    StartTables(w.db, w'.db, op, |w.confirmations|);
  }

  // ----- checking

  lemma IdsOfNext(sent: seq<AggOp>, done: nat)
    requires done < |sent|
    ensures IdsOf(sent[..done + 1]) == IdsOf(sent[..done]) + {sent[done].id}
  {
    assert sent[..done + 1] == sent[..done] + [sent[done]];
  }

  lemma ConfirmTables(db: Db, db': Db, done: nat)
    requires TablesInv(db, done) && done < |db.rows| && RowOps(db'.rows) == RowOps(db.rows)
    requires var op := db.rows[done].eth.op;
      db' == db.(rows := db'.rows, aggConfirmed := db.aggConfirmed + Covered(db.aggOps, op.kind, op.first, op.last))
    ensures TablesInv(db', done + 1)
  {
    var sent := RowOps(db.rows);
    SentAreStored(db.aggOps, sent, sent[done]);
    CoveredOnlySelf(db.aggOps, sent[done]);
    IdsOfNext(sent, done);
    assert |db'.rows| == |RowOps(db'.rows)|;
  }

  /** A confirmation marks the stored operations covered by the confirmed row. */
  lemma ConfirmMarks(cfg: Config, w: World, i: nat, hash: Hash, depth: nat)
    requires Core(cfg, w) && w.mem.Running? && i < |w.mem.ongoing| && hash in w.mem.ongoing[i].hashes
    requires NextConfirm(w, i, hash, depth) != w
    ensures var op := w.db.rows[|w.confirmations|].eth.op;
      NextConfirm(w, i, hash, depth).db.aggConfirmed
      == w.db.aggConfirmed + Covered(w.db.aggOps, op.kind, op.first, op.last)
  {
    OnlyOldestConfirms(cfg, w, i);
    HashFindsRow(cfg, w, hash);
    assert Mirrors(w.mem.ongoing[0], w.db.rows[|w.confirmations| + 0].eth);
  }

  /** Nothing is queued, listed or handed over. */
  ghost predicate SameWaiting(w: World, w': World) {
    && w'.db.aggOps == w.db.aggOps && w'.db.unprocessed == w.db.unprocessed
    && RowOps(w'.db.rows) == RowOps(w.db.rows)
    && (w'.mem.Running? ==>
          w.mem.Running? && forall kind :: w'.mem.queue.Of(kind).elements == w.mem.queue.Of(kind).elements)
  }

  lemma ConfirmStored(cfg: Config, w: World, w': World, i: nat, hash: Hash, depth: nat)
    requires Core(cfg, w) && StoredInv(w)
    requires w.mem.Running? && i < |w.mem.ongoing| && hash in w.mem.ongoing[i].hashes
    requires w' == NextConfirm(w, i, hash, depth)
    ensures StoredInv(w') && SameWaiting(w, w')
  {
    ConfirmStep(cfg, w, w', i, hash, depth);
    if w' != w {
      assert RowOps(w'.db.rows) == RowOps(w.db.rows);
      assert TablesInv(w'.db, |w'.confirmations|) by {
        ConfirmMarks(cfg, w, i, hash, depth);
        ConfirmTables(w.db, w'.db, |w.confirmations|);
      }
      SameQueueStored(w, w');
    }
  }

  lemma SameQueueStored(w: World, w': World)
    requires SameWaiting(w, w') && w'.mem.Running? && QueueStored(w.db, w.mem.queue)
    ensures QueueStored(w'.db, w'.mem.queue)
  {
    forall kind
      ensures TakenOff(w'.db, w'.mem.queue.Of(kind).elements)
    {
      assert TakenOff(w.db, w.mem.queue.Of(kind).elements);
    }
  }

  lemma SupplementStored(cfg: Config, w: World, w': World, i: nat, block: nat, s: Supplement)
    requires StoredInv(w) && w.mem.Running? && i < |w.mem.ongoing| && s.Signed?
    requires w' == NextSupplement(cfg, w, i, block, s)
    ensures StoredInv(w') && SameWaiting(w, w')
  {
    UpdatePreserves(w.db.rows, w.mem.ongoing[i].id, block + cfg.waitBlocks, s.hash);
    assert RowOps(w'.db.rows) == RowOps(w.db.rows);
    SameQueueStored(w, w');
  }

  lemma CheckStored(cfg: Config, w: World, w': World, step: Step)
    requires Core(cfg, w) && StoredInv(w) && step.Check? && Next(cfg, w, step) == Some(w')
    ensures StoredInv(w') && SameWaiting(w, w')
  {
    var op := w.mem.ongoing[step.i];
    match Scan(cfg, op, step.replies, step.block, 0)
    case Interrupted =>
    case StillPending =>
    case TxFailed =>
    case CommittedBy(k) =>
      ScanCommitted(cfg, op, step.replies, step.block, 0);
      if step.dbWorks {
        ConfirmStored(cfg, w, w', step.i, op.hashes[k], step.replies(k).confirmations);
      }
    case AllStuck =>
      if step.supplement.Signed? {
        SupplementStored(cfg, w, w', step.i, step.block, step.supplement);
      }
  }

  // ----- restarting

  /** After a restart: unprocessed are the listed and restored operations, less those in flight. */
  function UnprocessedAfterRestart(db: Db): set<nat> {
    RemoveUnprocessed(RestoreUnprocessed(db), OpIds(LoadUnconfirmed(db.rows))).unprocessed
  }

  lemma {:induction false} InFlightIds(rows: seq<Row>, done: nat)
    requires done <= |rows| && forall i :: 0 <= i < |rows| ==> (rows[i].confirmed <==> i < done)
    ensures OpIds(LoadUnconfirmed(rows)) == IdsOf(RowOps(rows)[done..])
  {
    UnconfirmedSuffix(rows, done);
    SameIds(LoadUnconfirmed(rows), RowOps(rows)[done..]);
  }

  lemma SameIds(ongoing: seq<EthOp>, ops: seq<AggOp>)
    requires |ongoing| == |ops| && forall i :: 0 <= i < |ops| ==> ongoing[i].op == ops[i]
    ensures OpIds(ongoing) == IdsOf(ops)
  {
    forall i | 0 <= i < |ops|
      ensures ongoing[i].op.id in IdsOf(ops) && ops[i].id in OpIds(ongoing)
    {
      assert ongoing[i] in ongoing && ops[i] in ops;
    }
  }

  /** Nothing that was sent comes back, and of the rest exactly the listed or restorable operations do. */
  lemma RestartLists(db: Db, done: nat, op: AggOp)
    requires TablesInv(db, done) && op in db.aggOps
    requires forall i :: 0 <= i < |db.rows| ==> (db.rows[i].confirmed <==> i < done)
    ensures op.id in UnprocessedAfterRestart(db) <==>
      op !in RowOps(db.rows) && (op.id in db.unprocessed || exists b :: b in db.bindings && b.id != op.id)
  {
    var sent := RowOps(db.rows);
    assert sent == sent[..done] + sent[done..];
    InFlightIds(db.rows, done);
    forall x | x in sent && x.id == op.id
      ensures x == op
    {
      SentAreStored(db.aggOps, sent, x);
      SameIdSameOp(db.aggOps, x, op);
    }
    assert op in sent <==> op.id in IdsOf(sent[..done]) || op.id in IdsOf(sent[done..]);
    forall x | x in db.aggOps && x.id == op.id
      ensures x == op
    {
      SameIdSameOp(db.aggOps, x, op);
    }
  }

  lemma RestartTables(db: Db, db': Db, done: nat)
    requires TablesInv(db, done) && db' == db.(unprocessed := UnprocessedAfterRestart(db))
    requires forall i :: 0 <= i < |db.rows| ==> (db.rows[i].confirmed <==> i < done)
    ensures TablesInv(db', done)
  {
    forall op | op in RowOps(db.rows)
      ensures op.id !in db'.unprocessed
    {
      SentAreStored(db.aggOps, RowOps(db.rows), op);
      RestartLists(db, done, op);
    }
  }

  // ----- runs

  lemma StartFailsStored(cfg: Config, w: World, w': World, lastEthId: nat, lastBindingId: nat)
    requires Core(cfg, w) && StoredInv(w) && NextStartFails(w, lastEthId, lastBindingId) == Some(w')
    ensures StoredInv(w')
  {
    StartFailsKeeps(cfg, w, w', lastEthId, lastBindingId);
    SameQueueStored(w, w');
  }

  lemma RestartStored(cfg: Config, w: World, w': World)
    requires Core(cfg, w) && StoredInv(w) && Next(cfg, w, Restart) == Some(w')
    ensures StoredInv(w')
  {
    RestartTables(w.db, w'.db, |w.confirmations|);
  }

  lemma StepStored(cfg: Config, w: World, w': World, step: Step)
    requires Inv(cfg, w) && StoredInv(w) && Next(cfg, w, step) == Some(w')
    ensures StoredInv(w')
  {
    match step
    case HandOver(op) => HandOverStored(w, w', op);
    case LoadNew => LoadStored(w, w');
    case Start(block, hash, ethId, bindingId) => StartStored(cfg, w, w', block, hash, ethId, bindingId);
    case StartFails(lastEthId, lastBindingId) => StartFailsStored(cfg, w, w', lastEthId, lastBindingId);
    case Check(_, _, _, _, _) => CheckStored(cfg, w, w', step);
    case Mine(_) =>
    case Restart => RestartStored(cfg, w, w');
  }

  /** After every run, whatever restarts it had, the tables and the queue are consistent. */
  lemma {:induction false} RunStored(cfg: Config, steps: seq<Step>)
    requires Run(cfg, INITIAL, steps).Some?
    ensures StoredInv(Run(cfg, INITIAL, steps).value)
    decreases |steps|
  {
    if steps == [] {
    } else {
      var n := |steps| - 1;
      RunStored(cfg, steps[..n]);
      RunKeeps(cfg, steps[..n]);
      StepStored(cfg, Run(cfg, INITIAL, steps[..n]).value, Run(cfg, INITIAL, steps).value, steps[n]);
    }
  }

  /** No run ever sends an operation twice. */
  lemma NeverSentTwice(cfg: Config, steps: seq<Step>, i: nat, j: nat)
    requires Run(cfg, INITIAL, steps).Some? && i < j < |Run(cfg, INITIAL, steps).value.db.rows|
    ensures var rows := Run(cfg, INITIAL, steps).value.db.rows; rows[i].eth.op.id != rows[j].eth.op.id
  {
    RunStored(cfg, steps);
    var db := Run(cfg, INITIAL, steps).value.db;
    SentDistinct(db.aggOps, RowOps(db.rows), i, j);
  }

  lemma SentDistinct(ops: seq<AggOp>, sent: seq<AggOp>, i: nat, j: nat)
    requires SortedIds(ops) && SentFirst(ops, sent) && i < j < |sent|
    ensures sent[i].id != sent[j].id
  {
    SentAreStored(ops, sent, sent[i]);
    SentAreStored(ops, sent, sent[j]);
    if sent[i].id == sent[j].id {
      SameIdSameOp(ops, sent[i], sent[j]);
      assert sent[i] == sent[..j][i] && sent[j] == sent[j..][0];
      SentOnce(ops, sent, j, sent[i]);
    }
  }

  // ----- places of an operation

  predicate Waiting(db: Db, queue: Queue, op: AggOp) {
    op.id in db.unprocessed || op in queue.Of(op.kind).elements
  }

  predicate InFlight(ongoing: seq<EthOp>, op: AggOp) {
    exists o :: o in ongoing && o.op == op
  }

  predicate AtMostOne(a: bool, b: bool, c: bool) {
    !(a && b) && !(a && c) && !(b && c)
  }

  lemma ConfirmedIsSent(db: Db, done: nat, op: AggOp)
    requires TablesInv(db, done) && op in db.aggOps
    ensures op.id in db.aggConfirmed <==> op in RowOps(db.rows)[..done]
  {
    var sent := RowOps(db.rows);
    forall x | x in sent[..done] && x.id == op.id
      ensures x == op
    {
      SentAreStored(db.aggOps, sent, x);
      SameIdSameOp(db.aggOps, x, op);
    }
  }

  lemma InFlightIsSent(cfg: Config, rows: seq<Row>, done: nat, ongoing: seq<EthOp>, op: AggOp)
    requires MirrorInv(cfg, rows, done, ongoing)
    ensures InFlight(ongoing, op) <==> op in RowOps(rows)[done..]
  {
    var ops := RowOps(rows)[done..];
    forall i | 0 <= i < |ongoing|
      ensures ongoing[i].op == ops[i]
    {
      assert Mirrors(ongoing[i], rows[done + i].eth);
    }
    if op in ops {
      var i :| 0 <= i < |ops| && ops[i] == op;
      assert ongoing[i] in ongoing;
    }
  }

  lemma QueuedIsNotSent(cfg: Config, db: Db, queue: Queue, inFlight: nat, op: AggOp)
    requires AggInv(db.aggOps) && SentFirst(db.aggOps, RowOps(db.rows)) && OrderInv(db)
    requires QueueInv(cfg, queue, inFlight, db.stats) && op in queue.Of(op.kind).elements
    ensures op !in RowOps(db.rows)
  {
    var all, first := OfKind(db.aggOps, op.kind), OfKind(RowOps(db.rows), op.kind);
    assert first <= all && all[..|first|] == first;
    var queued := queue.Of(op.kind);
    var i :| 0 <= i < |queued.elements| && queued.elements[i] == op;
    ContiguousLater(queued.elements, op.kind, queued.lastBlock, i);
    StatsAreLast(RowOps(db.rows), op.kind);
    if op in RowOps(db.rows) {
      OfKindMember(RowOps(db.rows), op.kind, op);
      var j :| 0 <= j < |first| && first[j] == op;
      PrefixEndsBefore(all, |first|, op.kind, j);
    }
  }

  lemma PlacesApart(cfg: Config, db: Db, queue: Queue, ongoing: seq<EthOp>, done: nat, op: AggOp)
    requires TablesInv(db, done) && QueueStored(db, queue) && MirrorInv(cfg, db.rows, done, ongoing)
    requires OrderInv(db) && QueueInv(cfg, queue, |ongoing|, db.stats) && op in db.aggOps
    ensures AtMostOne(Waiting(db, queue, op), InFlight(ongoing, op), op.id in db.aggConfirmed)
    ensures Waiting(db, queue, op) ==> op !in RowOps(db.rows)
    ensures InFlight(ongoing, op) || op.id in db.aggConfirmed <==> op in RowOps(db.rows)
  {
    var sent := RowOps(db.rows);
    assert sent == sent[..done] + sent[done..];
    assert op.id in db.unprocessed ==> op !in sent;
    if op in queue.Of(op.kind).elements {
      QueuedIsNotSent(cfg, db, queue, |ongoing|, op);
    }
    InFlightIsSent(cfg, db.rows, done, ongoing, op);
    ConfirmedIsSent(db, done, op);
    if op in sent {
      SentOnce(db.aggOps, sent, done, op);
    }
  }

  /** After every run, no operation is in two places: listed, queued, in flight and confirmed exclude each other. */
  lemma NeverInTwoPlaces(cfg: Config, steps: seq<Step>, op: AggOp)
    requires Run(cfg, INITIAL, steps).Some?
    requires var w := Run(cfg, INITIAL, steps).value; w.mem.Running? && op in w.db.aggOps
    ensures var w := Run(cfg, INITIAL, steps).value;
      && AtMostOne(Waiting(w.db, w.mem.queue, op), InFlight(w.mem.ongoing, op), op.id in w.db.aggConfirmed)
      && !(op.id in w.db.unprocessed && op in w.mem.queue.Of(op.kind).elements)
  {
    var w := Run(cfg, INITIAL, steps).value;
    RunKeeps(cfg, steps);
    RunStored(cfg, steps);
    PlacesApart(cfg, w.db, w.mem.queue, w.mem.ongoing, |w.confirmations|, op);
  }
}
