/**
 The tables behind the Ethereum sender: aggregated operations, the ones not handed to the sender yet,
 Ethereum operations with their transaction hashes, and the stored nonce and statistics. Identifiers
 come from sequences that a rolled back transaction does not wind back.
 */
module EthDatabase {
  import opened Wrappers
  import opened TxQueue

  /** A signed transaction's hash fixes the transaction, and with it the nonce. */
  datatype Hash = Hash(nonce: nat, tag: nat)

  /** `startedAt` is the block at which the operation was first sent; it only serves the statements. */
  datatype EthOp = EthOp(id: nat, op: AggOp, nonce: nat, deadline: nat, hashes: seq<Hash>, startedAt: nat)

  datatype Row = Row(eth: EthOp, confirmed: bool, finalHash: Option<Hash>)

  datatype Binding = Binding(id: nat, opId: nat)

  datatype Stats = Stats(committed: nat, verified: nat, executed: nat) {
    function Of(kind: Kind): nat {
      match kind
      case CommitBlocks => committed
      case PublishProofBlocks => verified
      case ExecuteBlocks => executed
    }

    function With(kind: Kind, last: nat): Stats {
      match kind
      case CommitBlocks => this.(committed := last)
      case PublishProofBlocks => this.(verified := last)
      case ExecuteBlocks => this.(executed := last)
    }
  }

  datatype Db = Db(
    aggOps: seq<AggOp>, aggConfirmed: set<nat>, unprocessed: set<nat>,
    rows: seq<Row>, bindings: seq<Binding>, nonce: nat, stats: Stats,
    lastEthId: nat, lastBindingId: nat)

  const EMPTY_DB := Db([], {}, {}, [], [], 0, Stats(0, 0, 0), 0, 0)

  // ----- aggregated operations

  function OfKind(ops: seq<AggOp>, kind: Kind): seq<AggOp> {
    if ops == [] then [] else (if ops[0].kind == kind then [ops[0]] else []) + OfKind(ops[1..], kind)
  }

  function WithIds(ops: seq<AggOp>, ids: set<nat>): seq<AggOp> {
    if ops == [] then [] else (if ops[0].id in ids then [ops[0]] else []) + WithIds(ops[1..], ids)
  }

  function IdsOf(ops: seq<AggOp>): set<nat> {
    set op | op in ops :: op.id
  }

  function RowOps(rows: seq<Row>): (r: seq<AggOp>)
    ensures |r| == |rows| && forall i :: 0 <= i < |rows| ==> r[i] == rows[i].eth.op
  {
    seq(|rows|, i requires 0 <= i < |rows| => rows[i].eth.op)
  }

  function LoadUnprocessed(db: Db): seq<AggOp> {
    WithIds(db.aggOps, db.unprocessed)
  }

  /** Storing an aggregated operation also lists it as unprocessed. */
  function StoreAggregated(db: Db, op: AggOp): Db {
    db.(aggOps := db.aggOps + [op], unprocessed := db.unprocessed + {op.id})
  }

  /**
   Restoring after a restart compares operation ids with the binding table's own row ids, by "differs
   from any": an unconfirmed operation is listed as soon as some binding row has another id.
   */
  predicate Restored(db: Db, op: AggOp) {
    op.id !in db.aggConfirmed && exists b :: b in db.bindings && b.id != op.id
  }

  function RestoreUnprocessed(db: Db): Db {
    db.(unprocessed := db.unprocessed + set op | op in db.aggOps && Restored(db, op) :: op.id)
  }

  function RemoveUnprocessed(db: Db, ids: set<nat>): Db {
    db.(unprocessed := db.unprocessed - ids)
  }

  // ----- Ethereum operations

  /** A new row with its first hash, its binding, the next nonce and the updated statistics. */
  function SaveNewEthTx(db: Db, op: AggOp, ethId: nat, bindingId: nat, deadline: nat, hash: Hash, block: nat): Option<Db> {
    if db.stats.Of(op.kind) + 1 != op.first then None
    else Some(db.(
      rows := db.rows + [Row(EthOp(ethId, op, db.nonce, deadline, [hash], block), false, None)],
      bindings := db.bindings + [Binding(bindingId, op.id)],
      nonce := db.nonce + 1,
      stats := db.stats.With(op.kind, op.last),
      lastEthId := ethId, lastBindingId := bindingId))
  }

  function LoadUnconfirmed(rows: seq<Row>): seq<EthOp> {
    if rows == [] then [] else (if rows[0].confirmed then [] else [rows[0].eth]) + LoadUnconfirmed(rows[1..])
  }

  /** The row with the greatest id below the given one; rows are kept in id order. */
  function LatestBelow(rows: seq<Row>, id: nat): Option<Row>
    decreases |rows|
  {
    if rows == [] then None
    else if rows[|rows| - 1].eth.id < id then Some(rows[|rows| - 1])
    else LatestBelow(rows[..|rows| - 1], id)
  }

  predicate IsPreviousOperationConfirmed(db: Db, op: EthOp) {
    op.id == 1 || (LatestBelow(db.rows, op.id).Some? && LatestBelow(db.rows, op.id).value.confirmed)
  }

  /** The position of the row that a stored hash belongs to. */
  function RowOfHash(rows: seq<Row>, hash: Hash): (i: int)
    ensures -1 <= i < |rows|
    ensures i >= 0 ==> hash in rows[i].eth.hashes
    ensures i == -1 ==> forall j :: 0 <= j < |rows| ==> hash !in rows[j].eth.hashes
  {
    if rows == [] then -1
    else if hash in rows[0].eth.hashes then 0
    else var i := RowOfHash(rows[1..], hash); if i == -1 then -1 else i + 1
  }

  /** Ids of the stored operations of one kind whose range lies within first..=last. */
  function Covered(ops: seq<AggOp>, kind: Kind, first: nat, last: nat): set<nat> {
    set op | op in ops && op.kind == kind && first <= op.first && op.last <= last :: op.id
  }

  /** Confirming fails when the hash was never stored. */
  function ConfirmOperation(db: Db, op: EthOp, hash: Hash): Option<Db> {
    var i := RowOfHash(db.rows, hash);
    if i == -1 then None
    else
      var row := db.rows[i];
      Some(db.(
        rows := db.rows[i := row.(confirmed := true, finalHash := Some(hash))],
        aggConfirmed := db.aggConfirmed
          + Covered(db.aggOps, op.op.kind, op.op.first, op.op.last)
          + Covered(db.aggOps, row.eth.op.kind, row.eth.op.first, row.eth.op.last)))
  }

  /** Adds a hash and the new deadline to the row with the given id. */
  function UpdateEthTx(rows: seq<Row>, id: nat, deadline: nat, hash: Hash): (r: seq<Row>)
    ensures |r| == |rows|
  {
    seq(|rows|, i requires 0 <= i < |rows| =>
      if rows[i].eth.id == id
      then rows[i].(eth := rows[i].eth.(deadline := deadline, hashes := rows[i].eth.hashes + [hash]))
      else rows[i])
  }

  // ----- facts about single tables

  lemma {:induction false} OfKindAppend(xs: seq<AggOp>, ys: seq<AggOp>, kind: Kind)
    ensures OfKind(xs + ys, kind) == OfKind(xs, kind) + OfKind(ys, kind)
    decreases |xs|
  {
    if xs == [] {
      assert xs + ys == ys;
    } else {
      assert (xs + ys)[0] == xs[0] && (xs + ys)[1..] == xs[1..] + ys;
      OfKindAppend(xs[1..], ys, kind);
      var first := if xs[0].kind == kind then [xs[0]] else [];
      assert first + (OfKind(xs[1..], kind) + OfKind(ys, kind)) == (first + OfKind(xs[1..], kind)) + OfKind(ys, kind);
    }
  }

  ghost predicate SortedRows(rows: seq<Row>) {
    forall i, j :: 0 <= i < j < |rows| ==> rows[i].eth.id < rows[j].eth.id
  }

  lemma {:induction false} LatestBelowIsPrevious(rows: seq<Row>, j: nat)
    requires SortedRows(rows) && j < |rows|
    ensures LatestBelow(rows, rows[j].eth.id) == if j == 0 then None else Some(rows[j - 1])
    decreases |rows|
  {
    if j == |rows| - 1 {
      NothingBelow(rows, j);
    } else {
      LatestBelowIsPrevious(rows[..|rows| - 1], j);
    }
  }

  lemma NothingBelow(rows: seq<Row>, j: nat)
    requires SortedRows(rows) && j == |rows| - 1
    ensures LatestBelow(rows, rows[j].eth.id) == if j == 0 then None else Some(rows[j - 1])
  {
    var before := rows[..j];
    assert LatestBelow(rows, rows[j].eth.id) == LatestBelow(before, rows[j].eth.id);
    if j > 0 {
      assert before[|before| - 1] == rows[j - 1];
    }
  }

  lemma {:induction false} NoneConfirmed(rows: seq<Row>)
    requires forall i :: 0 <= i < |rows| ==> !rows[i].confirmed
    ensures |LoadUnconfirmed(rows)| == |rows|
    ensures forall i :: 0 <= i < |rows| ==> LoadUnconfirmed(rows)[i] == rows[i].eth
    decreases |rows|
  {
    if rows == [] {
    } else {
      NoneConfirmed(rows[1..]);
    }
  }

  lemma {:induction false} SkipConfirmed(rows: seq<Row>, c: nat)
    requires c <= |rows| && forall i :: 0 <= i < c ==> rows[i].confirmed
    ensures LoadUnconfirmed(rows) == LoadUnconfirmed(rows[c..])
    decreases |rows|
  {
    if c == 0 {
      assert rows[c..] == rows;
    } else {
      SkipConfirmed(rows[1..], c - 1);
      assert rows[1..][c - 1..] == rows[c..];
      assert LoadUnconfirmed(rows) == LoadUnconfirmed(rows[1..]);
    }
  }

  /** With the first c rows confirmed and the others not, the unconfirmed ones are the rest in order. */
  lemma {:induction false} UnconfirmedSuffix(rows: seq<Row>, c: nat)
    requires c <= |rows| && forall i :: 0 <= i < |rows| ==> (rows[i].confirmed <==> i < c)
    ensures |LoadUnconfirmed(rows)| == |rows| - c
    ensures forall i :: 0 <= i < |rows| - c ==> LoadUnconfirmed(rows)[i] == rows[c + i].eth
  {
    SkipConfirmed(rows, c);
    NoneConfirmed(rows[c..]);
  }
}
