/**
 The queue that decides which aggregated operation is sent to Ethereum next: one queue per kind of
 operation, executions before proofs before commits, and never ahead of what they depend on.
 */
module TxQueue {
  import opened Wrappers

  datatype Kind = CommitBlocks | PublishProofBlocks | ExecuteBlocks

  /** An aggregated operation on the rollup blocks first..=last. */
  datatype AggOp = AggOp(id: nat, kind: Kind, first: nat, last: nat)

  datatype OperationQueue = OperationQueue(elements: seq<AggOp>, lastBlock: nat) {

    function ReturnPopped(op: AggOp): Option<OperationQueue> {
      if lastBlock != op.last || op.first == 0 then None
      else Some(OperationQueue([op] + elements, op.first - 1))
    }

    function PushBack(op: AggOp): Option<OperationQueue> {
      var next := (if elements == [] then lastBlock else elements[|elements| - 1].last) + 1;
      if next != op.first then None else Some(OperationQueue(elements + [op], lastBlock))
    }

    function PopFront(): OperationQueue
      requires elements != []
    {
      OperationQueue(elements[1..], elements[0].last)
    }
  }

  datatype Queue = Queue(maxPending: nat, sentPending: nat,
                         commits: OperationQueue, proofs: OperationQueue, executions: OperationQueue) {

    function Of(kind: Kind): OperationQueue {
      match kind
      case CommitBlocks => commits
      case PublishProofBlocks => proofs
      case ExecuteBlocks => executions
    }

    function With(kind: Kind, q: OperationQueue): Queue {
      match kind
      case CommitBlocks => this.(commits := q)
      case PublishProofBlocks => this.(proofs := q)
      case ExecuteBlocks => this.(executions := q)
    }

    function Add(op: AggOp): Option<Queue> {
      var q := Of(op.kind).PushBack(op);
      if q.None? then None else Some(With(op.kind, q.value))
    }

    /** The kind whose front is sent next, if any. */
    function NextKind(): Option<Kind> {
      if executions.elements != [] && executions.elements[0].last <= proofs.lastBlock then Some(ExecuteBlocks)
      else if proofs.elements != [] && proofs.elements[0].last <= commits.lastBlock then Some(PublishProofBlocks)
      else if commits.elements != [] then Some(CommitBlocks)
      else None
    }

    function PopFront(): Option<(AggOp, Queue)> {
      if sentPending >= maxPending || NextKind().None? then None
      else
        var kind := NextKind().value;
        Some((Of(kind).elements[0], With(kind, Of(kind).PopFront()).(sentPending := sentPending + 1)))
    }

    function ReturnPopped(op: AggOp): Option<Queue> {
      if sentPending == 0 then None
      else
        var q := Of(op.kind).ReturnPopped(op);
        if q.None? then None else Some(With(op.kind, q.value).(sentPending := sentPending - 1))
    }

    function ReportCommitment(): Option<Queue> {
      if sentPending == 0 then None else Some(this.(sentPending := sentPending - 1))
    }
  }

  /** The state after a restart, from the in-flight count and the last block of each kind. */
  function BuildQueue(maxPending: nat, sentPending: nat, committed: nat, verified: nat, executed: nat): Queue {
    Queue(maxPending, sentPending, OperationQueue([], committed), OperationQueue([], verified),
          OperationQueue([], executed))
  }

  /** The last block of a list of operations that starts after block `last`. */
  function LastBlock(ops: seq<AggOp>, last: nat): nat {
    if ops == [] then last else ops[|ops| - 1].last
  }

  /** Ranges of one kind that follow one another from block `last` on. */
  predicate Contiguous(ops: seq<AggOp>, kind: Kind, last: nat) {
    ops != [] ==>
      && ops[0].kind == kind && ops[0].first == last + 1 <= ops[0].last
      && Contiguous(ops[1..], kind, ops[0].last)
  }

  lemma {:induction false} ContiguousAppend(xs: seq<AggOp>, ys: seq<AggOp>, kind: Kind, last: nat)
    ensures Contiguous(xs + ys, kind, last) <==>
      Contiguous(xs, kind, last) && Contiguous(ys, kind, LastBlock(xs, last))
    decreases |xs|
  {
    if xs == [] {
      assert xs + ys == ys;
    } else {
      assert (xs + ys)[1..] == xs[1..] + ys;
      ContiguousAppend(xs[1..], ys, kind, xs[0].last);
    }
  }

  predicate ValidQueue(q: Queue) {
    && (forall kind :: Contiguous(q.Of(kind).elements, kind, q.Of(kind).lastBlock))
    && q.executions.lastBlock <= q.proofs.lastBlock <= q.commits.lastBlock
  }

  /** The kind has an operation whose blocks all went through what it depends on. */
  predicate Sendable(q: Queue, kind: Kind) {
    q.Of(kind).elements != [] &&
    match kind
    case CommitBlocks => true
    case PublishProofBlocks => q.proofs.elements[0].last <= q.commits.lastBlock
    case ExecuteBlocks => q.executions.elements[0].last <= q.proofs.lastBlock
  }

  function Priority(kind: Kind): nat {
    match kind
    case CommitBlocks => 0
    case PublishProofBlocks => 1
    case ExecuteBlocks => 2
  }

  /**
   Below the limit something is popped whenever anything may be sent, namely the front of the sendable kind of
   highest priority; the other queues stay as they are.
   */
  lemma PopsHighestPriority(q: Queue)
    requires ValidQueue(q)
    ensures q.PopFront().Some? <==> q.sentPending < q.maxPending && exists kind :: Sendable(q, kind)
    ensures q.PopFront().Some? ==>
      var (op, q') := q.PopFront().value;
      && Sendable(q, op.kind) && (forall kind :: Sendable(q, kind) ==> Priority(kind) <= Priority(op.kind))
      && q.Of(op.kind).elements == [op] + q'.Of(op.kind).elements && q'.sentPending == q.sentPending + 1
      && forall kind :: kind != op.kind ==> q'.Of(kind) == q.Of(kind)
  {
    if q.PopFront().Some? {
      PopKeepsValid(q);
      assert Sendable(q, q.PopFront().value.0.kind);
    }
  }

  /** Popping keeps the ranges contiguous and never lets a kind overtake the one it depends on. */
  lemma PopKeepsValid(q: Queue)
    requires ValidQueue(q) && q.PopFront().Some?
    ensures ValidQueue(q.PopFront().value.1)
    ensures var (op, q') := q.PopFront().value; op.kind == q.NextKind().value && op.first == q.Of(op.kind).lastBlock + 1
  {
    var kind := q.NextKind().value;
    var (op, q') := q.PopFront().value;
    assert Contiguous(q.Of(kind).elements, kind, q.Of(kind).lastBlock);
    forall k
      ensures Contiguous(q'.Of(k).elements, k, q'.Of(k).lastBlock)
    {
      assert Contiguous(q.Of(k).elements, k, q.Of(k).lastBlock);
    }
  }

  /** Returning a popped operation restores the queue exactly. */
  lemma ReturnUndoesPop(q: Queue)
    requires ValidQueue(q) && q.PopFront().Some?
    ensures var (op, q') := q.PopFront().value; q'.ReturnPopped(op) == Some(q)
  {
    var kind := q.NextKind().value;
    assert Contiguous(q.Of(kind).elements, kind, q.Of(kind).lastBlock);
    assert q.Of(kind).elements == [q.Of(kind).elements[0]] + q.Of(kind).elements[1..];
  }

  /** Only the operation that ends where the queue stands can be returned; it then continues the queue from its start. */
  lemma ReturnContinues(q: Queue, op: AggOp)
    requires ValidQueue(q) && op.first <= op.last && q.ReturnPopped(op).Some?
    ensures var q' := q.ReturnPopped(op).value;
      && q'.Of(op.kind).elements == [op] + q.Of(op.kind).elements && q'.sentPending + 1 == q.sentPending
      && Contiguous(q'.Of(op.kind).elements, op.kind, q'.Of(op.kind).lastBlock)
      && forall kind :: kind != op.kind ==> q'.Of(kind) == q.Of(kind)
  {
    assert Contiguous(q.Of(op.kind).elements, op.kind, q.Of(op.kind).lastBlock);
    assert ([op] + q.Of(op.kind).elements)[1..] == q.Of(op.kind).elements;
  }

  lemma AddKeepsValid(q: Queue, op: AggOp)
    requires ValidQueue(q) && q.Add(op).Some? && op.first <= op.last
    ensures ValidQueue(q.Add(op).value)
  {
    var q' := q.Add(op).value;
    forall k
      ensures Contiguous(q'.Of(k).elements, k, q'.Of(k).lastBlock)
    {
      assert Contiguous(q.Of(k).elements, k, q.Of(k).lastBlock);
      if k == op.kind {
        ContiguousAppend(q.Of(k).elements, [op], k, q.Of(k).lastBlock);
      }
    }
  }
}
