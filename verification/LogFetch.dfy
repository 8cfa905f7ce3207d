/**
 Fetching priority operation logs for a range of Ethereum blocks from a node that may refuse large
 queries: the range shrinks on refusals and the fetched pieces must still tile the whole range.
 */
module LogFetch {
  import opened Wrappers

  type PriorityOp(==)

  datatype Reply = Logs(ops: seq<PriorityOp>) | TooMany | Failed

  datatype FetchError = RangeStillTooLarge | NodeFailed

  /** The logs of blocks from..=to, in block order. */
  function Range(logsAt: nat -> seq<PriorityOp>, from: nat, to: int): (r: seq<PriorityOp>)
    ensures to < from ==> r == []
    ensures from == to ==> r == logsAt(from)
    decreases if from > to then 0 else to - from + 1
  {
    if from > to then []
    else
      var rest := Range(logsAt, from + 1, to);
      assert rest == [] ==> logsAt(from) + rest == logsAt(from);
      logsAt(from) + rest
  }

  lemma {:induction false} RangeSplit(logsAt: nat -> seq<PriorityOp>, from: nat, mid: int, to: int)
    requires from <= mid + 1 && mid <= to
    ensures Range(logsAt, from, mid) + Range(logsAt, mid + 1, to) == Range(logsAt, from, to)
    decreases mid - from
  {
    if from > mid {
      assert [] + Range(logsAt, mid + 1, to) == Range(logsAt, from, to);
    } else {
      RangeSplit(logsAt, from + 1, mid, to);
    }
  }

  /** Whatever it refuses, a node that answers gives exactly the logs of the blocks asked for. */
  ghost predicate AnswersTruly(node: (nat, nat, nat) -> Reply, logsAt: nat -> seq<PriorityOp>) {
    forall from: nat, to: nat, attempt: nat :: node(from, to, attempt).Logs? ==>
      node(from, to, attempt).ops == Range(logsAt, from, to)
  }

  datatype Query = Query(from: nat, to: nat, attempt: nat)

  function AnswerTo(node: (nat, nat, nat) -> Reply, q: Query): Reply {
    node(q.from, q.to, q.attempt)
  }

  /** The node fails, or refuses a query for at most two blocks. */
  predicate Hopeless(node: (nat, nat, nat) -> Reply, q: Query) {
    AnswerTo(node, q).Failed? || (AnswerTo(node, q).TooMany? && q.to <= q.from + 1)
  }

  /** After a refusal half the range from the same block; after an answer as wide a range behind it, within the end. */
  ghost predicate Follows(node: (nat, nat, nat) -> Reply, end: nat, q: Query, next: Query) {
    var width := q.to - q.from;
    && next.attempt == q.attempt + 1 && next.from <= next.to <= end && !Hopeless(node, q)
    && if AnswerTo(node, q).TooMany? then next.from == q.from && next.to - next.from == width / 2
       else next.from == q.to + 1 && (next.to - next.from == width || (next.to - next.from < width && next.to == end))
  }

  /** The queries of one fetch: the whole range first, then each as the one before it demands. */
  ghost predicate Asked(node: (nat, nat, nat) -> Reply, start: nat, end: nat, queries: seq<Query>) {
    && (queries != [] ==> queries[0] == Query(start, end, 0))
    && forall i :: 0 < i < |queries| ==> Follows(node, end, queries[i - 1], queries[i])
  }

  /** The last query was answered to the end, or the next one follows it. */
  ghost predicate Answered(node: (nat, nat, nat) -> Reply, end: nat, q: Query, next: Query) {
    if next.from > end then AnswerTo(node, q).Logs? && q.to == end else Follows(node, end, q, next)
  }

  lemma AskedNext(node: (nat, nat, nat) -> Reply, start: nat, end: nat, queries: seq<Query>, next: Query)
    requires Asked(node, start, end, queries)
    requires if queries == [] then next == Query(start, end, 0) else Follows(node, end, queries[|queries| - 1], next)
    ensures Asked(node, start, end, queries + [next])
  {
    var all := queries + [next];
    forall i | 0 < i < |all|
      ensures Follows(node, end, all[i - 1], all[i])
    {
      assert i < |queries| ==> Follows(node, end, queries[i - 1], queries[i]);
    }
  }

  /** Before each query: the logs below it are fetched, and it is the next one to ask unless all is done. */
  ghost predicate Fetching(node: (nat, nat, nat) -> Reply, logsAt: nat -> seq<PriorityOp>, start: nat, end: nat,
                           queries: seq<Query>, next: Query, ops: seq<PriorityOp>)
  {
    && start <= next.from && next.to <= end && (next.from <= end ==> next.from <= next.to)
    && (next.from <= end + 1 || next.from == start)
    && ops == Range(logsAt, start, next.from - 1)
    && Asked(node, start, end, queries)
    && if queries == [] then next == Query(start, end, 0)
       else start <= end && Answered(node, end, queries[|queries| - 1], next)
  }

  lemma FetchingAfterLogs(node: (nat, nat, nat) -> Reply, logsAt: nat -> seq<PriorityOp>, start: nat, end: nat,
                          queries: seq<Query>, q: Query, ops: seq<PriorityOp>, next: Query, ops': seq<PriorityOp>)
    requires AnswersTruly(node, logsAt) && Fetching(node, logsAt, start, end, queries, q, ops) && q.from <= end
    requires AnswerTo(node, q).Logs? && ops' == ops + AnswerTo(node, q).ops
    requires next.from == q.to + 1 && next.attempt == q.attempt + 1
    requires next.to == if next.from + (q.to - q.from) < end then next.from + (q.to - q.from) else end
    ensures Fetching(node, logsAt, start, end, queries + [q], next, ops')
  {
    AskedNext(node, start, end, queries, q);
    RangeSplit(logsAt, start, q.from - 1, q.to);
  }

  lemma FetchingAfterRefusal(node: (nat, nat, nat) -> Reply, logsAt: nat -> seq<PriorityOp>, start: nat, end: nat,
                             queries: seq<Query>, q: Query, ops: seq<PriorityOp>, next: Query)
    requires Fetching(node, logsAt, start, end, queries, q, ops) && q.from + 1 < q.to && AnswerTo(node, q).TooMany?
    requires next == Query(q.from, q.from + (q.to - q.from) / 2, q.attempt + 1)
    ensures Fetching(node, logsAt, start, end, queries + [q], next, ops)
  {
    AskedNext(node, start, end, queries, q);
  }

  /** `queries` are those that were asked. */
  method GetPriorityOperationsLogs(node: (nat, nat, nat) -> Reply, ghost logsAt: nat -> seq<PriorityOp>,
                                   start: nat, end: nat)
    returns (r: Result<seq<PriorityOp>, FetchError>, ghost queries: seq<Query>)
    requires AnswersTruly(node, logsAt)
    ensures Asked(node, start, end, queries) && (queries == [] <==> start > end)
    ensures r.Ok? ==> r.value == Range(logsAt, start, end)
    ensures r.Ok? && queries != [] ==>
      AnswerTo(node, queries[|queries| - 1]).Logs? && queries[|queries| - 1].to == end
    ensures r.Err? ==> queries != [] && Hopeless(node, queries[|queries| - 1])
    ensures r.Err? ==> (r.error.NodeFailed? <==> AnswerTo(node, queries[|queries| - 1]).Failed?)
  {
    var fromNumber: nat, toNumber: nat, attempt: nat := start, end, 0;
    var priorityOperations: seq<PriorityOp> := [];
    queries := [];
    ghost var q := Query(start, end, 0);
    while fromNumber <= end
      invariant q == Query(fromNumber, toNumber, attempt)
      invariant Fetching(node, logsAt, start, end, queries, q, priorityOperations)
      decreases end + 1 - fromNumber, toNumber - fromNumber
    {
      var result := node(fromNumber, toNumber, attempt);
      var rangeDiff := toNumber - fromNumber;
      ghost var last, ops := q, priorityOperations;
      match result {
        case Logs(operations) =>
          priorityOperations := priorityOperations + operations;
          fromNumber := toNumber + 1;
          toNumber := if fromNumber + rangeDiff < end then fromNumber + rangeDiff else end;
          q := Query(fromNumber, toNumber, attempt + 1);
          FetchingAfterLogs(node, logsAt, start, end, queries, last, ops, q, priorityOperations);
        case TooMany =>
          if toNumber <= fromNumber || toNumber - fromNumber == 1 {
            AskedNext(node, start, end, queries, q);
            return Err(RangeStillTooLarge), queries + [q];
          }
          toNumber := fromNumber + rangeDiff / 2;
          q := Query(fromNumber, toNumber, attempt + 1);
          FetchingAfterRefusal(node, logsAt, start, end, queries, last, ops, q);
        case Failed =>
          AskedNext(node, start, end, queries, q);
          return Err(NodeFailed), queries + [q];
      }
      queries := queries + [last];
      attempt := attempt + 1;
    }
    assert start <= end ==> fromNumber - 1 == end;
    return Ok(priorityOperations), queries;
  }
}
