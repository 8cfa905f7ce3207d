/**
 What every run of the Ethereum sender keeps, through all failures and restarts: confirmations happen
 in order, once per operation and with the mined hash; memory mirrors the unconfirmed rows; no sent
 hash is forgotten; replacements respect deadlines; and proofs and executions never overtake commits.
 */
module EthSenderSafety {
  import opened Wrappers
  import opened Powers
  import opened TxQueue
  import opened EthDatabase
  import opened EthSenderRun

  /** At least one hash, all of the operation's nonce, and one waiting period per hash before the deadline. */
  ghost predicate OpInv(cfg: Config, o: EthOp) {
    && o.hashes != []
    && (forall k :: 0 <= k < |o.hashes| ==> o.hashes[k].nonce == o.nonce)
    && o.startedAt + |o.hashes| * cfg.waitBlocks <= o.deadline
  }

  /** Row ids increase, nonces are consecutive, and every row is a well-formed operation. */
  ghost predicate RowsInv(cfg: Config, db: Db) {
    && SortedRows(db.rows)
    && (forall i :: 0 <= i < |db.rows| ==>
          && 1 <= db.rows[i].eth.id <= db.lastEthId
          && db.rows[i].eth.nonce + |db.rows| == db.nonce + i
          && OpInv(cfg, db.rows[i].eth))
    && (forall op :: op in db.aggOps ==> op.first <= op.last)
  }

  /** Exactly the first rows are confirmed, in the order of the history, each by its mined hash. */
  ghost predicate ConfirmedInv(cfg: Config, rows: seq<Row>, mined: map<nat, Hash>, done: seq<Confirmation>) {
    && |done| <= |rows|
    && (forall i :: 0 <= i < |rows| ==> (rows[i].confirmed <==> i < |done|))
    && (forall i :: 0 <= i < |done| ==> ConfirmedBy(cfg, rows[i], mined, done[i]))
    && (done != [] ==> rows[0].eth.id == 1)
  }

  ghost predicate ConfirmedBy(cfg: Config, row: Row, mined: map<nat, Hash>, c: Confirmation) {
    && c.id == row.eth.id && row.finalHash == Some(c.hash) && c.depth >= cfg.waitConfirmations
    && c.hash in row.eth.hashes
    && row.eth.nonce in mined && mined[row.eth.nonce] == c.hash
  }

  /** The operation in memory is the row's, possibly with hashes that were never stored. */
  ghost predicate Mirrors(o: EthOp, row: EthOp) {
    && o.id == row.id && o.op == row.op && o.nonce == row.nonce && o.startedAt == row.startedAt
    && |row.hashes| <= |o.hashes| && forall h :: h in row.hashes ==> h in o.hashes
  }

  /** Memory holds exactly the unconfirmed rows, in order. */
  ghost predicate MirrorInv(cfg: Config, rows: seq<Row>, done: nat, ongoing: seq<EthOp>) {
    && done + |ongoing| == |rows|
    && forall i :: 0 <= i < |ongoing| ==> Mirrors(ongoing[i], rows[done + i].eth) && OpInv(cfg, ongoing[i])
  }

  /** The queue counts what is in flight and continues where the stored statistics end. */
  ghost predicate QueueInv(cfg: Config, queue: Queue, inFlight: nat, stats: Stats) {
    && queue.sentPending == inFlight && queue.maxPending == cfg.maxInFlight
    && ValidQueue(queue) && forall k :: queue.Of(k).lastBlock == stats.Of(k)
  }

  /** A sent hash is in its operation's list, or the operation is confirmed. */
  ghost predicate Tracked(rows: seq<Row>, done: nat, ongoing: seq<EthOp>, id: nat, hash: Hash) {
    exists j :: 0 <= j < |rows| && rows[j].eth.id == id
      && (j < done || (j - done < |ongoing| && hash in ongoing[j - done].hashes))
  }

  ghost predicate SentInv(rows: seq<Row>, done: nat, ongoing: seq<EthOp>, sent: set<(nat, Hash)>) {
    forall p :: p in sent ==> Tracked(rows, done, ongoing, p.0, p.1)
  }

  ghost predicate MemInv(cfg: Config, w: World) {
    w.mem.Running? ==>
      && MirrorInv(cfg, w.db.rows, |w.confirmations|, w.mem.ongoing)
      && QueueInv(cfg, w.mem.queue, |w.mem.ongoing|, w.db.stats)
      && SentInv(w.db.rows, |w.confirmations|, w.mem.ongoing, w.mem.sent)
  }

  // ----- statistics

  function StatsAfter(ops: seq<AggOp>): Stats
    decreases |ops|
  {
    if ops == [] then Stats(0, 0, 0)
    else StatsAfter(ops[..|ops| - 1]).With(ops[|ops| - 1].kind, ops[|ops| - 1].last)
  }

  predicate Ordered(s: Stats) {
    s.executed <= s.verified <= s.committed
  }

  /** The statistics are ordered after every prefix, and each operation continues those of its kind. */
  ghost predicate InOrder(ops: seq<AggOp>)
    decreases |ops|
  {
    ops != [] ==>
      var before, op := ops[..|ops| - 1], ops[|ops| - 1];
      InOrder(before) && op.first == StatsAfter(before).Of(op.kind) + 1 && Ordered(StatsAfter(ops))
  }

  ghost predicate OrderInv(db: Db) {
    db.stats == StatsAfter(RowOps(db.rows)) && InOrder(RowOps(db.rows))
  }

  ghost predicate Core(cfg: Config, w: World) {
    RowsInv(cfg, w.db) && ConfirmedInv(cfg, w.db.rows, w.mined, w.confirmations) && MemInv(cfg, w)
  }

  ghost predicate Inv(cfg: Config, w: World) {
    Core(cfg, w) && OrderInv(w.db) && |w.db.rows| - |w.confirmations| <= cfg.maxInFlight
  }

  // ----- starting an operation

  lemma StatsFollowQueue(queue: Queue, s: Stats)
    requires ValidQueue(queue) && forall k :: queue.Of(k).lastBlock == s.Of(k)
    ensures Ordered(s)
  {
    assert queue.Of(CommitBlocks).lastBlock == s.Of(CommitBlocks);
    assert queue.Of(PublishProofBlocks).lastBlock == s.Of(PublishProofBlocks);
    assert queue.Of(ExecuteBlocks).lastBlock == s.Of(ExecuteBlocks);
  }

  lemma StartKeepsOrder(db: Db, db': Db, op: AggOp)
    requires OrderInv(db) && Ordered(db'.stats) && op.first == db.stats.Of(op.kind) + 1
    requires RowOps(db'.rows) == RowOps(db.rows) + [op] && db'.stats == db.stats.With(op.kind, op.last)
    ensures OrderInv(db')
  {
    assert RowOps(db'.rows)[..|db.rows|] == RowOps(db.rows);
  }

  lemma StartKeepsSent(rows: seq<Row>, row: Row, done: nat, ongoing: seq<EthOp>, o: EthOp, hash: Hash,
                       sent: set<(nat, Hash)>)
    requires SentInv(rows, done, ongoing, sent) && done + |ongoing| == |rows|
    requires row.eth == o && hash in o.hashes
    ensures SentInv(rows + [row], done, ongoing + [o], sent + {(o.id, hash)})
  {
    var rows', ongoing' := rows + [row], ongoing + [o];
    forall p | p in sent + {(o.id, hash)}
      ensures Tracked(rows', done, ongoing', p.0, p.1)
    {
      if p in sent {
        assert Tracked(rows, done, ongoing, p.0, p.1);
        var j :| 0 <= j < |rows| && rows[j].eth.id == p.0
          && (j < done || (j - done < |ongoing| && p.1 in ongoing[j - done].hashes));
        assert rows'[j].eth.id == p.0;
      } else {
        assert rows'[|rows|].eth.id == p.0;
      }
    }
  }

  lemma StartKeepsQueue(cfg: Config, q: Queue, n: nat, s: Stats)
    requires QueueInv(cfg, q, n, s) && q.PopFront().Some?
    ensures var (op, q') := q.PopFront().value;
      QueueInv(cfg, q', n + 1, s.With(op.kind, op.last)) && Ordered(s.With(op.kind, op.last))
      && op.first == s.Of(op.kind) + 1
  {
    var (op, q') := q.PopFront().value;
    var s' := s.With(op.kind, op.last);
    PopKeepsValid(q);
    forall k
      ensures q'.Of(k).lastBlock == s'.Of(k)
    {
      assert q.Of(k).lastBlock == s.Of(k);
    }
    StatsFollowQueue(q', s');
  }

  lemma OpInvAtStart(cfg: Config, o: EthOp)
    requires |o.hashes| == 1 && o.hashes[0].nonce == o.nonce && o.deadline == o.startedAt + cfg.waitBlocks
    ensures OpInv(cfg, o)
  {
  }

  lemma StartKeepsRows(cfg: Config, db: Db, db': Db, op: AggOp, ethId: nat, bindingId: nat, hash: Hash, block: nat)
    requires RowsInv(cfg, db) && ethId > db.lastEthId && hash.nonce == db.nonce
    requires SaveNewEthTx(db, op, ethId, bindingId, block + cfg.waitBlocks, hash, block) == Some(db')
    ensures RowsInv(cfg, db')
  {
    OpInvAtStart(cfg, EthOp(ethId, op, db.nonce, block + cfg.waitBlocks, [hash], block));
  }

  lemma StartKeepsMirror(cfg: Config, rows: seq<Row>, row: Row, done: nat, ongoing: seq<EthOp>)
    requires MirrorInv(cfg, rows, done, ongoing) && OpInv(cfg, row.eth)
    ensures MirrorInv(cfg, rows + [row], done, ongoing + [row.eth])
  {
    var rows', ongoing' := rows + [row], ongoing + [row.eth];
    forall i | 0 <= i < |ongoing'|
      ensures Mirrors(ongoing'[i], rows'[done + i].eth) && OpInv(cfg, ongoing'[i])
    {
      if i < |ongoing| {
        assert Mirrors(ongoing[i], rows[done + i].eth);
      }
    }
  }

  lemma StartKeepsConfirmed(cfg: Config, rows: seq<Row>, rows': seq<Row>, mined: map<nat, Hash>,
                            done: seq<Confirmation>)
    requires ConfirmedInv(cfg, rows, mined, done)
    requires |rows'| == |rows| + 1 && rows'[..|rows|] == rows && !rows'[|rows|].confirmed
    ensures ConfirmedInv(cfg, rows', mined, done)
  {
    forall i | 0 <= i < |rows|
      ensures rows'[i] == rows[i]
    {
      assert rows'[..|rows|][i] == rows[i];
    }
    forall i | 0 <= i < |done|
      ensures ConfirmedBy(cfg, rows'[i], mined, done[i])
    {
      assert ConfirmedBy(cfg, rows[i], mined, done[i]);
    }
  }

  lemma StartKeepsMem(cfg: Config, w: World, w': World, block: nat, hash: Hash, ethId: nat, bindingId: nat)
    requires MemInv(cfg, w) && NextStart(cfg, w, block, hash, ethId, bindingId) == Some(w')
    ensures MemInv(cfg, w')
  {
    var (op, queue) := w.mem.queue.PopFront().value;
    var o := EthOp(ethId, op, w.db.nonce, block + cfg.waitBlocks, [hash], block);
    assert QueueInv(cfg, w'.mem.queue, |w'.mem.ongoing|, w'.db.stats) by {
      StartKeepsQueue(cfg, w.mem.queue, |w.mem.ongoing|, w.db.stats);
    }
    assert MirrorInv(cfg, w'.db.rows, |w'.confirmations|, w'.mem.ongoing) by {
      OpInvAtStart(cfg, o);
      StartKeepsMirror(cfg, w.db.rows, Row(o, false, None), |w.confirmations|, w.mem.ongoing);
    }
    assert SentInv(w'.db.rows, |w'.confirmations|, w'.mem.ongoing, w'.mem.sent) by {
      StartKeepsSent(w.db.rows, Row(o, false, None), |w.confirmations|, w.mem.ongoing, o, hash, w.mem.sent);
    }
  }

  lemma StartKeeps(cfg: Config, w: World, w': World, block: nat, hash: Hash, ethId: nat, bindingId: nat)
    requires Core(cfg, w) && NextStart(cfg, w, block, hash, ethId, bindingId) == Some(w')
    ensures Core(cfg, w')
  {
    StartKeepsRows(cfg, w.db, w'.db, w.mem.queue.PopFront().value.0, ethId, bindingId, hash, block);
    StartKeepsConfirmed(cfg, w.db.rows, w'.db.rows, w'.mined, w'.confirmations);
    StartKeepsMem(cfg, w, w', block, hash, ethId, bindingId);
  }

  // ----- confirming an operation

  /** Only the oldest unconfirmed operation passes the check of its predecessor. */
  lemma OnlyOldestConfirms(cfg: Config, w: World, i: nat)
    requires Core(cfg, w) && w.mem.Running? && i < |w.mem.ongoing|
    requires IsPreviousOperationConfirmed(w.db, w.mem.ongoing[i])
    ensures i == 0 && (w.confirmations == [] ==> w.mem.ongoing[0].id == 1)
  {
    var j := |w.confirmations| + i;
    assert Mirrors(w.mem.ongoing[i], w.db.rows[j].eth);
    LatestBelowIsPrevious(w.db.rows, j);
    if j > 0 {
      assert w.db.rows[0].eth.id < w.db.rows[j].eth.id;
    }
  }

  /** Nonces tell rows apart, so a stored hash leads to the row of its own operation. */
  lemma HashFindsRow(cfg: Config, w: World, hash: Hash)
    requires Core(cfg, w) && w.mem.Running? && w.mem.ongoing != [] && hash in w.mem.ongoing[0].hashes
    ensures RowOfHash(w.db.rows, hash) == -1 || RowOfHash(w.db.rows, hash) == |w.confirmations|
    ensures hash.nonce == w.db.rows[|w.confirmations|].eth.nonce
  {
    var r, c := RowOfHash(w.db.rows, hash), |w.confirmations|;
    assert Mirrors(w.mem.ongoing[0], w.db.rows[c + 0].eth);
    var k :| 0 <= k < |w.mem.ongoing[0].hashes| && w.mem.ongoing[0].hashes[k] == hash;
    if r != -1 {
      var k' :| 0 <= k' < |w.db.rows[r].eth.hashes| && w.db.rows[r].eth.hashes[k'] == hash;
    }
  }

  lemma ConfirmKeepsConfirmed(cfg: Config, rows: seq<Row>, mined: map<nat, Hash>, done: seq<Confirmation>,
                              hash: Hash, depth: nat)
    requires ConfirmedInv(cfg, rows, mined, done) && |done| < |rows| && depth >= cfg.waitConfirmations
    requires hash in rows[|done|].eth.hashes
    requires rows[|done|].eth.nonce in mined && mined[rows[|done|].eth.nonce] == hash
    requires done == [] ==> rows[0].eth.id == 1
    ensures ConfirmedInv(cfg, rows[|done| := rows[|done|].(confirmed := true, finalHash := Some(hash))], mined,
                         done + [Confirmation(rows[|done|].eth.id, hash, depth)])
  {
  }

  lemma ConfirmKeepsMirror(cfg: Config, rows: seq<Row>, rows': seq<Row>, done: nat, ongoing: seq<EthOp>)
    requires MirrorInv(cfg, rows, done, ongoing) && ongoing != []
    requires |rows'| == |rows| && forall j :: 0 <= j < |rows| ==> rows'[j].eth == rows[j].eth
    ensures MirrorInv(cfg, rows', done + 1, ongoing[1..])
  {
    forall k | 0 <= k < |ongoing| - 1
      ensures Mirrors(ongoing[1..][k], rows'[done + 1 + k].eth) && OpInv(cfg, ongoing[1..][k])
    {
      assert Mirrors(ongoing[k + 1], rows[done + (k + 1)].eth);
    }
  }

  lemma ConfirmKeepsSent(rows: seq<Row>, rows': seq<Row>, done: nat, ongoing: seq<EthOp>, sent: set<(nat, Hash)>)
    requires SentInv(rows, done, ongoing, sent) && ongoing != []
    requires |rows'| == |rows| && forall j :: 0 <= j < |rows| ==> rows'[j].eth == rows[j].eth
    ensures SentInv(rows', done + 1, ongoing[1..], sent)
  {
    forall p | p in sent
      ensures Tracked(rows', done + 1, ongoing[1..], p.0, p.1)
    {
      assert Tracked(rows, done, ongoing, p.0, p.1);
      var j :| 0 <= j < |rows| && rows[j].eth.id == p.0
        && (j < done || (j - done < |ongoing| && p.1 in ongoing[j - done].hashes));
      assert rows'[j].eth.id == p.0;
      if j > done {
        assert ongoing[1..][j - (done + 1)] == ongoing[j - done];
      }
    }
  }

  lemma CommitmentKeepsQueue(cfg: Config, q: Queue, n: nat, s: Stats)
    requires QueueInv(cfg, q, n, s) && n > 0
    ensures q.ReportCommitment().Some? && QueueInv(cfg, q.ReportCommitment().value, n - 1, s)
  {
    var q' := q.ReportCommitment().value;
    assert forall k :: q'.Of(k) == q.Of(k);
  }

  /** What a confirmation changes: one row, the oldest operation in memory, and the history. */
  ghost predicate ConfirmsOldest(w: World, w': World, hash: Hash, depth: nat) {
    var c := |w.confirmations|;
    && w.mem.Running? && w.mem.ongoing != [] && c < |w.db.rows| && w'.mined == w.mined
    && w'.db.rows == w.db.rows[c := w.db.rows[c].(confirmed := true, finalHash := Some(hash))]
    && w'.confirmations == w.confirmations + [Confirmation(w.db.rows[c].eth.id, hash, depth)]
    && w'.db == w.db.(rows := w'.db.rows, aggConfirmed := w'.db.aggConfirmed)
    && w.mem.queue.ReportCommitment().Some?
    && w'.mem == w.mem.(ongoing := w.mem.ongoing[1..], queue := w.mem.queue.ReportCommitment().value)
  }

  lemma ConfirmStep(cfg: Config, w: World, w': World, i: nat, hash: Hash, depth: nat)
    requires Core(cfg, w) && w.mem.Running? && i < |w.mem.ongoing| && hash in w.mem.ongoing[i].hashes
    requires w' == NextConfirm(w, i, hash, depth)
    ensures w' == w
      || (&& ConfirmsOldest(w, w', hash, depth) && hash.nonce == w.db.rows[|w.confirmations|].eth.nonce
          && hash in w.db.rows[|w.confirmations|].eth.hashes
          && (w.confirmations == [] ==> w.db.rows[0].eth.id == 1))
  {
    var op := w.mem.ongoing[i];
    if IsPreviousOperationConfirmed(w.db, op) && ConfirmOperation(w.db, op, hash).Some? {
      OnlyOldestConfirms(cfg, w, i);
      HashFindsRow(cfg, w, hash);
      assert Mirrors(w.mem.ongoing[0], w.db.rows[|w.confirmations| + 0].eth);
      assert w.mem.ongoing[..0] + w.mem.ongoing[1..] == w.mem.ongoing[1..];
    }
  }

  lemma ConfirmKeepsMem(cfg: Config, w: World, w': World, hash: Hash, depth: nat)
    requires MemInv(cfg, w) && ConfirmsOldest(w, w', hash, depth)
    ensures MemInv(cfg, w')
  {
    assert QueueInv(cfg, w'.mem.queue, |w'.mem.ongoing|, w'.db.stats) by {
      CommitmentKeepsQueue(cfg, w.mem.queue, |w.mem.ongoing|, w.db.stats);
    }
    assert MirrorInv(cfg, w'.db.rows, |w'.confirmations|, w'.mem.ongoing) by {
      ConfirmKeepsMirror(cfg, w.db.rows, w'.db.rows, |w.confirmations|, w.mem.ongoing);
    }
    assert SentInv(w'.db.rows, |w'.confirmations|, w'.mem.ongoing, w'.mem.sent) by {
      ConfirmKeepsSent(w.db.rows, w'.db.rows, |w.confirmations|, w.mem.ongoing, w.mem.sent);
    }
  }

  lemma ConfirmKeeps(cfg: Config, w: World, w': World, i: nat, hash: Hash, depth: nat)
    requires Core(cfg, w) && w.mem.Running? && i < |w.mem.ongoing| && hash in w.mem.ongoing[i].hashes
    requires hash.nonce in w.mined && w.mined[hash.nonce] == hash && depth >= cfg.waitConfirmations
    requires w' == NextConfirm(w, i, hash, depth)
    ensures Core(cfg, w')
  {
    ConfirmStep(cfg, w, w', i, hash, depth);
    if w' != w {
      assert ConfirmedInv(cfg, w'.db.rows, w'.mined, w'.confirmations) by {
        ConfirmKeepsConfirmed(cfg, w.db.rows, w.mined, w.confirmations, hash, depth);
      }
      ConfirmKeepsMem(cfg, w, w', hash, depth);
    }
  }

  // ----- replacing a transaction

  lemma SupplementOpInv(cfg: Config, op: EthOp, block: nat, hash: Hash)
    requires OpInv(cfg, op) && IsStuck(op, block) && hash.nonce == op.nonce
    ensures OpInv(cfg, op.(deadline := block + cfg.waitBlocks, hashes := op.hashes + [hash]))
  {
    assert (|op.hashes| + 1) * cfg.waitBlocks == |op.hashes| * cfg.waitBlocks + cfg.waitBlocks;
  }

  /** The stored row takes the new hash and deadline as well as the operation in memory does. */
  lemma SupplementRowInv(cfg: Config, o: EthOp, row: EthOp, block: nat, hash: Hash)
    requires Mirrors(o, row) && OpInv(cfg, o) && OpInv(cfg, row) && IsStuck(o, block) && hash.nonce == o.nonce
    ensures OpInv(cfg, row.(deadline := block + cfg.waitBlocks, hashes := row.hashes + [hash]))
  {
    MulMonotone(|row.hashes|, |o.hashes|, cfg.waitBlocks);
    assert (|row.hashes| + 1) * cfg.waitBlocks == |row.hashes| * cfg.waitBlocks + cfg.waitBlocks;
  }

  lemma SupplementKeepsMirror(cfg: Config, rows: seq<Row>, done: nat, ongoing: seq<EthOp>, i: nat, block: nat,
                              hash: Hash, stored: bool)
    requires MirrorInv(cfg, rows, done, ongoing) && SortedRows(rows) && i < |ongoing|
    requires IsStuck(ongoing[i], block) && hash.nonce == ongoing[i].nonce
    ensures var o, deadline := ongoing[i], block + cfg.waitBlocks;
      MirrorInv(cfg, if stored then UpdateEthTx(rows, o.id, deadline, hash) else rows, done,
                ongoing[i := o.(deadline := deadline, hashes := o.hashes + [hash])])
  {
    var o, deadline := ongoing[i], block + cfg.waitBlocks;
    var o' := o.(deadline := deadline, hashes := o.hashes + [hash]);
    var rows' := if stored then UpdateEthTx(rows, o.id, deadline, hash) else rows;
    var ongoing' := ongoing[i := o'];
    SupplementOpInv(cfg, o, block, hash);
    assert Mirrors(o, rows[done + i].eth);
    forall k | 0 <= k < |ongoing'|
      ensures Mirrors(ongoing'[k], rows'[done + k].eth) && OpInv(cfg, ongoing'[k])
    {
      assert Mirrors(ongoing[k], rows[done + k].eth);
      assert k < i ==> rows[done + k].eth.id < rows[done + i].eth.id;
      assert i < k ==> rows[done + i].eth.id < rows[done + k].eth.id;
    }
  }

  lemma SupplementKeepsSent(rows: seq<Row>, rows': seq<Row>, done: nat, ongoing: seq<EthOp>, i: nat, o': EthOp,
                            hash: Hash, sent: set<(nat, Hash)>)
    requires SentInv(rows, done, ongoing, sent) && i < |ongoing| && done + |ongoing| == |rows|
    requires |rows'| == |rows| && forall j :: 0 <= j < |rows| ==> rows'[j].eth.id == rows[j].eth.id
    requires rows[done + i].eth.id == o'.id && o'.hashes == ongoing[i].hashes + [hash]
    ensures SentInv(rows', done, ongoing[i := o'], sent + {(o'.id, hash)})
  {
    var ongoing' := ongoing[i := o'];
    forall p | p in sent + {(o'.id, hash)}
      ensures Tracked(rows', done, ongoing', p.0, p.1)
    {
      if p in sent {
        assert Tracked(rows, done, ongoing, p.0, p.1);
        var j :| 0 <= j < |rows| && rows[j].eth.id == p.0
          && (j < done || (j - done < |ongoing| && p.1 in ongoing[j - done].hashes));
        assert rows'[j].eth.id == p.0;
      } else {
        assert rows'[done + i].eth.id == p.0;
      }
    }
  }

  lemma SupplementKeepsRows(cfg: Config, db: Db, db': Db, done: nat, o: EthOp, i: nat, block: nat, hash: Hash)
    requires RowsInv(cfg, db) && OpInv(cfg, o) && done + i < |db.rows| && Mirrors(o, db.rows[done + i].eth)
    requires IsStuck(o, block) && hash.nonce == o.nonce
    requires db' == db.(rows := UpdateEthTx(db.rows, o.id, block + cfg.waitBlocks, hash))
    ensures RowsInv(cfg, db')
  {
    var rows' := db'.rows;
    SupplementRowInv(cfg, o, db.rows[done + i].eth, block, hash);
    forall j | 0 <= j < |rows'|
      ensures rows'[j].eth.id == db.rows[j].eth.id && rows'[j].eth.nonce == db.rows[j].eth.nonce
      ensures OpInv(cfg, rows'[j].eth)
    {
      assert j < done + i ==> db.rows[j].eth.id < db.rows[done + i].eth.id;
      assert done + i < j ==> db.rows[done + i].eth.id < db.rows[j].eth.id;
    }
  }

  lemma SupplementKeepsConfirmed(cfg: Config, rows: seq<Row>, rows': seq<Row>, mined: map<nat, Hash>,
                                 done: seq<Confirmation>)
    requires ConfirmedInv(cfg, rows, mined, done) && |rows'| == |rows|
    requires forall j :: 0 <= j < |rows| ==>
      && rows'[j].confirmed == rows[j].confirmed && rows'[j].finalHash == rows[j].finalHash
      && rows'[j].eth.id == rows[j].eth.id && rows'[j].eth.nonce == rows[j].eth.nonce
      && rows[j].eth.hashes <= rows'[j].eth.hashes
    ensures ConfirmedInv(cfg, rows', mined, done)
  {
    forall i | 0 <= i < |done|
      ensures ConfirmedBy(cfg, rows'[i], mined, done[i])
    {
      assert ConfirmedBy(cfg, rows[i], mined, done[i]);
      assert rows[i].eth.hashes <= rows'[i].eth.hashes;
    }
  }

  lemma UpdatePreserves(rows: seq<Row>, id: nat, deadline: nat, hash: Hash)
    ensures RowOps(UpdateEthTx(rows, id, deadline, hash)) == RowOps(rows)
    ensures forall j :: 0 <= j < |rows| ==>
      var row := UpdateEthTx(rows, id, deadline, hash)[j];
      && row.confirmed == rows[j].confirmed && row.finalHash == rows[j].finalHash
      && row.eth.id == rows[j].eth.id && row.eth.nonce == rows[j].eth.nonce
      && rows[j].eth.hashes <= row.eth.hashes
  {
  }

  lemma SupplementKeepsDb(cfg: Config, w: World, w': World, i: nat, block: nat, s: Supplement)
    requires Core(cfg, w) && w.mem.Running? && i < |w.mem.ongoing| && IsStuck(w.mem.ongoing[i], block)
    requires s.Signed? && s.hash.nonce == w.mem.ongoing[i].nonce
    requires w' == NextSupplement(cfg, w, i, block, s)
    ensures RowsInv(cfg, w'.db) && ConfirmedInv(cfg, w'.db.rows, w'.mined, w'.confirmations)
  {
    var o, c := w.mem.ongoing[i], |w.confirmations|;
    if s.sent && s.stored {
      assert RowsInv(cfg, w'.db) by {
        assert Mirrors(o, w.db.rows[c + i].eth);
        SupplementKeepsRows(cfg, w.db, w'.db, c, o, i, block, s.hash);
      }
      assert ConfirmedInv(cfg, w'.db.rows, w'.mined, w'.confirmations) by {
        UpdatePreserves(w.db.rows, o.id, block + cfg.waitBlocks, s.hash);
        SupplementKeepsConfirmed(cfg, w.db.rows, w'.db.rows, w'.mined, w'.confirmations);
      }
    }
  }

  lemma SupplementKeepsMem(cfg: Config, w: World, w': World, i: nat, block: nat, s: Supplement)
    requires MemInv(cfg, w) && SortedRows(w.db.rows)
    requires w.mem.Running? && i < |w.mem.ongoing| && IsStuck(w.mem.ongoing[i], block)
    requires s.Signed? && s.hash.nonce == w.mem.ongoing[i].nonce
    requires w' == NextSupplement(cfg, w, i, block, s)
    ensures MemInv(cfg, w')
  {
    var o, c := w.mem.ongoing[i], |w.confirmations|;
    assert QueueInv(cfg, w'.mem.queue, |w'.mem.ongoing|, w'.db.stats);
    assert MirrorInv(cfg, w'.db.rows, |w'.confirmations|, w'.mem.ongoing) by {
      SupplementKeepsMirror(cfg, w.db.rows, c, w.mem.ongoing, i, block, s.hash, s.sent && s.stored);
    }
    assert SentInv(w'.db.rows, |w'.confirmations|, w'.mem.ongoing, w'.mem.sent) by {
      assert Mirrors(o, w.db.rows[c + i].eth);
      UpdatePreserves(w.db.rows, o.id, block + cfg.waitBlocks, s.hash);
      SupplementKeepsSent(w.db.rows, w'.db.rows, c, w.mem.ongoing, i, w'.mem.ongoing[i], s.hash, w.mem.sent);
    }
  }

  lemma SupplementKeeps(cfg: Config, w: World, w': World, i: nat, block: nat, s: Supplement)
    requires Core(cfg, w) && w.mem.Running? && i < |w.mem.ongoing| && IsStuck(w.mem.ongoing[i], block)
    requires s.Signed? ==> s.hash.nonce == w.mem.ongoing[i].nonce
    requires w' == NextSupplement(cfg, w, i, block, s)
    ensures Core(cfg, w')
  {
    if s.Signed? {
      SupplementKeepsMem(cfg, w, w', i, block, s);
      SupplementKeepsDb(cfg, w, w', i, block, s);
    }
  }

  // ----- the other steps

  lemma {:induction false} AddAllKeeps(q: Queue, ops: seq<AggOp>)
    requires ValidQueue(q) && AddAll(q, ops).Some? && forall op :: op in ops ==> op.first <= op.last
    ensures var q' := AddAll(q, ops).value;
      ValidQueue(q') && q'.sentPending == q.sentPending && q'.maxPending == q.maxPending
      && forall k :: q'.Of(k).lastBlock == q.Of(k).lastBlock
    decreases |ops|
  {
    if ops == [] {
    } else {
      var n := |ops| - 1;
      AddAllKeeps(q, ops[..n]);
      AddKeepsValid(AddAll(q, ops[..n]).value, ops[n]);
    }
  }

  lemma {:induction false} WithIdsMember(ops: seq<AggOp>, ids: set<nat>, op: AggOp)
    ensures op in WithIds(ops, ids) <==> op in ops && op.id in ids
  {
    if ops == [] {
    } else {
      WithIdsMember(ops[1..], ids, op);
    }
  }

  lemma LoadNewKeeps(cfg: Config, w: World, w': World)
    requires Core(cfg, w) && NextLoadNew(w) == Some(w')
    ensures Core(cfg, w')
  {
    if w'.mem.Running? {
      var ops := LoadUnprocessed(w.db);
      forall op | op in ops
        ensures op.first <= op.last
      {
        WithIdsMember(w.db.aggOps, w.db.unprocessed, op);
      }
      assert QueueInv(cfg, w'.mem.queue, |w'.mem.ongoing|, w'.db.stats) by {
        AddAllKeeps(w.mem.queue, ops);
      }
    }
  }

  lemma StartFailsKeeps(cfg: Config, w: World, w': World, lastEthId: nat, lastBindingId: nat)
    requires Core(cfg, w) && NextStartFails(w, lastEthId, lastBindingId) == Some(w')
    ensures Core(cfg, w') && w'.mem == w.mem
  {
    ReturnUndoesPop(w.mem.queue);
  }

  lemma MineKeeps(cfg: Config, w: World, w': World, hash: Hash)
    requires Core(cfg, w) && hash.nonce !in w.mined && w' == w.(mined := w.mined[hash.nonce := hash])
    ensures Core(cfg, w')
  {
    forall i | 0 <= i < |w.confirmations|
      ensures ConfirmedBy(cfg, w'.db.rows[i], w'.mined, w'.confirmations[i])
    {
      assert ConfirmedBy(cfg, w.db.rows[i], w.mined, w.confirmations[i]);
    }
  }

  lemma BuildQueueValid(cfg: Config, inFlight: nat, s: Stats)
    requires Ordered(s)
    ensures QueueInv(cfg, BuildQueue(cfg.maxInFlight, inFlight, s.committed, s.verified, s.executed), inFlight, s)
  {
  }

  lemma RestartMirror(cfg: Config, db: Db, mined: map<nat, Hash>, done: seq<Confirmation>)
    requires RowsInv(cfg, db) && ConfirmedInv(cfg, db.rows, mined, done)
    ensures MirrorInv(cfg, db.rows, |done|, LoadUnconfirmed(db.rows))
  {
    UnconfirmedSuffix(db.rows, |done|);
    var ongoing := LoadUnconfirmed(db.rows);
    forall i | 0 <= i < |ongoing|
      ensures Mirrors(ongoing[i], db.rows[|done| + i].eth) && OpInv(cfg, ongoing[i])
    {
      assert ongoing[i] == db.rows[|done| + i].eth;
    }
  }

  /** A restart rebuilds from the tables exactly the operations that were in flight. */
  lemma RestartKeeps(cfg: Config, w: World, w': World)
    requires Inv(cfg, w) && w' == w.(db := StartUp(cfg, w.db).0, mem := StartUp(cfg, w.db).1)
    ensures Core(cfg, w')
  {
    BuildQueueValid(cfg, |w'.mem.ongoing|, w.db.stats);
    RestartMirror(cfg, w.db, w.mined, w.confirmations);
  }

  lemma CheckKeeps(cfg: Config, w: World, w': World, i: nat, block: nat, replies: nat -> Reply, dbWorks: bool,
                   s: Supplement)
    requires Core(cfg, w) && CheckAllowed(w, i, replies, s)
    requires w' == NextCheck(cfg, w, i, block, replies, dbWorks, s)
    ensures Core(cfg, w')
  {
    var op := w.mem.ongoing[i];
    match Scan(cfg, op, replies, block, 0)
    case Interrupted =>
    case StillPending =>
    case TxFailed =>
    case CommittedBy(k) =>
      ScanCommitted(cfg, op, replies, block, 0);
      if dbWorks {
        ConfirmKeeps(cfg, w, w', i, op.hashes[k], replies(k).confirmations);
      }
    case AllStuck =>
      assert OpInv(cfg, op);
      ScanAllStuck(cfg, op, replies, block, 0);
      SupplementKeeps(cfg, w, w', i, block, s);
  }

  lemma CoreStep(cfg: Config, w: World, step: Step)
    requires Inv(cfg, w) && Next(cfg, w, step).Some?
    ensures Core(cfg, Next(cfg, w, step).value)
  {
    var w' := Next(cfg, w, step).value;
    match step
    case HandOver(op) =>
    case LoadNew => LoadNewKeeps(cfg, w, w');
    case Start(block, hash, ethId, bindingId) => StartKeeps(cfg, w, w', block, hash, ethId, bindingId);
    case StartFails(lastEthId, lastBindingId) => StartFailsKeeps(cfg, w, w', lastEthId, lastBindingId);
    case Check(i, block, replies, dbWorks, s) => CheckKeeps(cfg, w, w', i, block, replies, dbWorks, s);
    case Mine(hash) => MineKeeps(cfg, w, w', hash);
    case Restart => RestartKeeps(cfg, w, w');
  }

  // ----- what a step does to the tables and the history

  /** No operation is sent for the first time. */
  ghost predicate SendsNothing(w: World, w': World) {
    RowOps(w'.db.rows) == RowOps(w.db.rows) && w'.db.stats == w.db.stats
  }

  /** The history stays or grows by one confirmation. */
  ghost predicate HistoryStep(w: World, w': World) {
    w'.confirmations == w.confirmations
    || (|w'.confirmations| == |w.confirmations| + 1 && w'.confirmations[..|w.confirmations|] == w.confirmations)
  }

  lemma CheckEffect(cfg: Config, w: World, w': World, i: nat, block: nat, replies: nat -> Reply, dbWorks: bool,
                    s: Supplement)
    requires Core(cfg, w) && CheckAllowed(w, i, replies, s)
    requires w' == NextCheck(cfg, w, i, block, replies, dbWorks, s)
    ensures SendsNothing(w, w') && HistoryStep(w, w')
  {
    var op := w.mem.ongoing[i];
    match Scan(cfg, op, replies, block, 0)
    case Interrupted =>
    case StillPending =>
    case TxFailed =>
    case CommittedBy(k) =>
      ScanCommitted(cfg, op, replies, block, 0);
      if dbWorks {
        ConfirmStep(cfg, w, w', i, op.hashes[k], replies(k).confirmations);
      }
    case AllStuck =>
      if s.Signed? {
        UpdatePreserves(w.db.rows, op.id, block + cfg.waitBlocks, s.hash);
      }
  }

  lemma StepEffect(cfg: Config, w: World, step: Step)
    requires Core(cfg, w) && Next(cfg, w, step).Some?
    ensures var w' := Next(cfg, w, step).value; HistoryStep(w, w') && (step.Start? || SendsNothing(w, w'))
  {
    if step.Check? {
      var w' := Next(cfg, w, step).value;
      CheckEffect(cfg, w, w', step.i, step.block, step.replies, step.dbWorks, step.supplement);
    }
  }

  lemma OrderStep(cfg: Config, w: World, step: Step)
    requires Inv(cfg, w) && Next(cfg, w, step).Some?
    ensures var w' := Next(cfg, w, step).value;
      OrderInv(w'.db) && |w'.db.rows| - |w'.confirmations| <= cfg.maxInFlight
  {
    var w' := Next(cfg, w, step).value;
    StepEffect(cfg, w, step);
    if step.Start? {
      var op := w.mem.queue.PopFront().value.0;
      StartKeepsQueue(cfg, w.mem.queue, |w.mem.ongoing|, w.db.stats);
      StartKeepsOrder(w.db, w'.db, op);
    } else {
      assert |w'.db.rows| == |RowOps(w'.db.rows)|;
    }
  }

  lemma StepKeeps(cfg: Config, w: World, step: Step)
    requires Inv(cfg, w) && Next(cfg, w, step).Some?
    ensures Inv(cfg, Next(cfg, w, step).value)
  {
    CoreStep(cfg, w, step);
    OrderStep(cfg, w, step);
  }

  lemma {:induction false} RunFromKeeps(cfg: Config, w: World, steps: seq<Step>)
    requires Inv(cfg, w) && Run(cfg, w, steps).Some?
    ensures Inv(cfg, Run(cfg, w, steps).value)
    decreases |steps|
  {
    if steps == [] {
    } else {
      var n := |steps| - 1;
      RunFromKeeps(cfg, w, steps[..n]);
      StepKeeps(cfg, Run(cfg, w, steps[..n]).value, steps[n]);
    }
  }

  /** The invariant holds after every run, whatever fails and however often the process restarts. */
  lemma RunKeeps(cfg: Config, steps: seq<Step>)
    requires Run(cfg, INITIAL, steps).Some?
    ensures Inv(cfg, Run(cfg, INITIAL, steps).value)
  {
    RunFromKeeps(cfg, INITIAL, steps);
  }
}
