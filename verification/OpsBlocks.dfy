/**
 Turning block events into the operation blocks that feed the tree. Blocks of one Ethereum
 transaction are fetched together and cached; the cached loop equals looking up every block in its
 own transaction.
 */
module OpsBlocks {
  import opened Wrappers
  import opened RestoreEvents

  /** Priority operations, ordinary transactions and padding; payloads are opaque. */
  datatype Op = Deposit(data: nat) | FullExit(data: nat) | Noop | Transaction(data: nat)

  datatype RollupBlock = RollupBlock(blockNum: nat, ops: seq<Op>, feeAccount: nat)

  /** The blocks encoded in a transaction, by its hash and contract version; none when it cannot be read. */
  type Fetch = (nat, nat) -> Option<seq<RollupBlock>>

  /** Collecting into a hash map keeps the last block of each number. */
  function ByNumber(blocks: seq<RollupBlock>): map<nat, RollupBlock> {
    if blocks == [] then map[]
    else ByNumber(blocks[..|blocks| - 1])[blocks[|blocks| - 1].blockNum := blocks[|blocks| - 1]]
  }

  lemma {:induction false} ByNumberKeys(blocks: seq<RollupBlock>)
    ensures forall n :: n in ByNumber(blocks) ==> ByNumber(blocks)[n].blockNum == n
  {
    if blocks == [] {
    } else {
      ByNumberKeys(blocks[..|blocks| - 1]);
    }
  }

  /** The block of an event, looked up in the event's own transaction. */
  function Lookup(fetch: Fetch, e: BlockEvent): (r: Option<RollupBlock>)
    ensures r.Some? ==> r.value.blockNum == e.blockNum
  {
    var blocks := fetch(e.txHash, e.version);
    if blocks.None? then None
    else
      ByNumberKeys(blocks.value);
      if e.blockNum in ByNumber(blocks.value) then Some(ByNumber(blocks.value)[e.blockNum]) else None
  }

  /** The last of the blocks that has this number. */
  ghost predicate LastNumbered(blocks: seq<RollupBlock>, n: nat, b: RollupBlock) {
    exists i :: 0 <= i < |blocks| && blocks[i] == b && b.blockNum == n
      && forall j :: i < j < |blocks| ==> blocks[j].blockNum != n
  }

  lemma StaysLast(blocks: seq<RollupBlock>, n: nat, b: RollupBlock, next: RollupBlock)
    requires LastNumbered(blocks, n, b) && next.blockNum != n
    ensures LastNumbered(blocks + [next], n, b)
  {
    var all := blocks + [next];
    var i :| 0 <= i < |blocks| && blocks[i] == b && b.blockNum == n
      && forall j :: i < j < |blocks| ==> blocks[j].blockNum != n;
    assert all[i] == b && forall j :: i < j < |blocks| ==> all[j] == blocks[j];
  }

  lemma BecomesLast(blocks: seq<RollupBlock>, b: RollupBlock)
    ensures LastNumbered(blocks + [b], b.blockNum, b)
  {
    assert (blocks + [b])[|blocks|] == b;
  }

  lemma {:induction false} ByNumberMeaning(blocks: seq<RollupBlock>, n: nat)
    ensures if n in ByNumber(blocks) then LastNumbered(blocks, n, ByNumber(blocks)[n])
            else forall i :: 0 <= i < |blocks| ==> blocks[i].blockNum != n
    decreases |blocks|
  {
    if blocks == [] {
    } else {
      var before, last := blocks[..|blocks| - 1], blocks[|blocks| - 1];
      ByNumberMeaning(before, n);
      assert blocks == before + [last];
      if last.blockNum == n {
        BecomesLast(before, last);
      } else if n in ByNumber(before) {
        StaysLast(before, n, ByNumber(before)[n], last);
      }
    }
  }

  /**
   An event leads to the last block of its number that its own transaction encodes, read in the event's version; to
   none when the transaction cannot be read or has no such block.
   */
  lemma LookupMeaning(fetch: Fetch, e: BlockEvent)
    ensures var blocks, r := fetch(e.txHash, e.version), Lookup(fetch, e);
      && (r.Some? ==> blocks.Some? && LastNumbered(blocks.value, e.blockNum, r.value))
      && (r.None? ==> blocks.None? || forall i :: 0 <= i < |blocks.value| ==> blocks.value[i].blockNum != e.blockNum)
  {
    var blocks := fetch(e.txHash, e.version);
    if blocks.Some? {
      ByNumberMeaning(blocks.value, e.blockNum);
    }
  }

  /** Every event above the last processed block, looked up directly; none where the source panics. */
  function DirectBlocks(fetch: Fetch, events: seq<BlockEvent>, last: nat): Option<seq<RollupBlock>> {
    if events == [] then Some([])
    else if events[0].blockNum <= last then DirectBlocks(fetch, events[1..], last)
    else
      var block := Lookup(fetch, events[0]);
      var rest := DirectBlocks(fetch, events[1..], events[0].blockNum);
      if block.None? || rest.None? then None else Some([block.value] + rest.value)
  }

  predicate StrictlyIncreasing(blocks: seq<RollupBlock>) {
    forall i, j :: 0 <= i < j < |blocks| ==> blocks[i].blockNum < blocks[j].blockNum
  }

  predicate FoundIn(fetch: Fetch, events: seq<BlockEvent>, b: RollupBlock) {
    exists e :: e in events && Lookup(fetch, e) == Some(b)
  }

  ghost predicate OrderedBlocks(fetch: Fetch, events: seq<BlockEvent>, last: nat, blocks: seq<RollupBlock>) {
    && StrictlyIncreasing(blocks)
    && (forall i :: 0 <= i < |blocks| ==> blocks[i].blockNum > last)
    && (forall i :: 0 <= i < |blocks| ==> FoundIn(fetch, events, blocks[i]))
  }

  lemma FoundLater(fetch: Fetch, events: seq<BlockEvent>, b: RollupBlock)
    requires events != [] && FoundIn(fetch, events[1..], b)
    ensures FoundIn(fetch, events, b)
  {
    var e :| e in events[1..] && Lookup(fetch, e) == Some(b);
    assert e in events;
  }

  lemma OrderedTail(fetch: Fetch, events: seq<BlockEvent>, last: nat, blocks: seq<RollupBlock>)
    requires events != [] && OrderedBlocks(fetch, events[1..], last, blocks)
    ensures OrderedBlocks(fetch, events, last, blocks)
  {
    forall i | 0 <= i < |blocks|
      ensures FoundIn(fetch, events, blocks[i])
    {
      FoundLater(fetch, events, blocks[i]);
    }
  }

  lemma OrderedPrepend(fetch: Fetch, events: seq<BlockEvent>, last: nat, b: RollupBlock, rest: seq<RollupBlock>)
    requires OrderedBlocks(fetch, events, b.blockNum, rest) && b.blockNum > last && FoundIn(fetch, events, b)
    ensures OrderedBlocks(fetch, events, last, [b] + rest)
  {
    var blocks := [b] + rest;
    forall i | 0 <= i < |blocks|
      ensures blocks[i].blockNum > last && FoundIn(fetch, events, blocks[i])
    {
      assert i > 0 ==> blocks[i] == rest[i - 1];
    }
  }

  /**
   For any list of events, duplicates included: block numbers increase strictly, lie above the last
   processed block, and every block is the lookup of some event.
   */
  lemma {:induction false} DirectBlocksOrdered(fetch: Fetch, events: seq<BlockEvent>, last: nat)
    requires DirectBlocks(fetch, events, last).Some?
    ensures OrderedBlocks(fetch, events, last, DirectBlocks(fetch, events, last).value)
    decreases |events|
  {
    if events == [] {
    } else {
      var next := if events[0].blockNum <= last then last else events[0].blockNum;
      var rest := DirectBlocks(fetch, events[1..], next).value;
      DirectBlocksOrdered(fetch, events[1..], next);
      OrderedTail(fetch, events, next, rest);
      if events[0].blockNum > last {
        assert events[0] in events;
        OrderedPrepend(fetch, events, last, Lookup(fetch, events[0]).value, rest);
      }
    }
  }

  /** Above the last processed block and above all events before it. */
  ghost predicate Due(events: seq<BlockEvent>, last: nat, i: nat) {
    i < |events| && events[i].blockNum > last && forall j :: 0 <= j < i ==> events[j].blockNum < events[i].blockNum
  }

  /** Behind the first event, which is done or moves the last processed block on, the same events are due. */
  lemma DueTail(events: seq<BlockEvent>, last: nat, next: nat, i: nat)
    requires i + 1 < |events| && next == if events[0].blockNum > last then events[0].blockNum else last
    ensures Due(events, last, i + 1) <==> Due(events[1..], next, i)
  {
    var rest := events[1..];
    assert rest[i] == events[i + 1];
    if Due(rest, next, i) {
      forall j | 0 <= j < i + 1
        ensures events[j].blockNum < events[i + 1].blockNum
      {
        assert j > 0 ==> events[j] == rest[j - 1];
      }
    }
    if Due(events, last, i + 1) {
      forall j | 0 <= j < i
        ensures rest[j].blockNum < rest[i].blockNum
      {
        assert rest[j] == events[j + 1];
      }
    }
  }

  /** Every due event has its block among the blocks. */
  ghost predicate DueFed(fetch: Fetch, events: seq<BlockEvent>, last: nat, blocks: seq<RollupBlock>) {
    forall i: nat :: Due(events, last, i) ==> Lookup(fetch, events[i]).Some? && Lookup(fetch, events[i]).value in blocks
  }

  ghost predicate DueAbsent(fetch: Fetch, events: seq<BlockEvent>, last: nat) {
    exists i: nat :: Due(events, last, i) && Lookup(fetch, events[i]).None?
  }

  lemma AbsentLater(fetch: Fetch, events: seq<BlockEvent>, last: nat, next: nat)
    requires events != [] && next == if events[0].blockNum > last then events[0].blockNum else last
    requires DueAbsent(fetch, events[1..], next)
    ensures DueAbsent(fetch, events, last)
  {
    var i: nat :| Due(events[1..], next, i) && Lookup(fetch, events[1..][i]).None?;
    DueTail(events, last, next, i);
    assert events[1..][i] == events[i + 1];
  }

  lemma FedLater(fetch: Fetch, events: seq<BlockEvent>, last: nat, next: nat, rest: seq<RollupBlock>,
                 blocks: seq<RollupBlock>)
    requires events != [] && next == if events[0].blockNum > last then events[0].blockNum else last
    requires DueFed(fetch, events[1..], next, rest) && forall b :: b in rest ==> b in blocks
    requires events[0].blockNum > last ==> Lookup(fetch, events[0]).Some? && Lookup(fetch, events[0]).value in blocks
    ensures DueFed(fetch, events, last, blocks)
  {
    forall i: nat | Due(events, last, i)
      ensures Lookup(fetch, events[i]).Some? && Lookup(fetch, events[i]).value in blocks
    {
      if i > 0 {
        DueTail(events, last, next, i - 1);
        assert events[1..][i - 1] == events[i];
      }
    }
  }

  /** The blocks of all due events are found, or the loop panics because one of these has none. */
  lemma {:induction false} DueAreFed(fetch: Fetch, events: seq<BlockEvent>, last: nat)
    ensures var r := DirectBlocks(fetch, events, last);
      if r.Some? then DueFed(fetch, events, last, r.value) else DueAbsent(fetch, events, last)
    decreases |events|
  {
    if events == [] {
    } else {
      var next := if events[0].blockNum > last then events[0].blockNum else last;
      var rest, r := DirectBlocks(fetch, events[1..], next), DirectBlocks(fetch, events, last);
      DueAreFed(fetch, events[1..], next);
      if r.Some? {
        FedLater(fetch, events, last, next, rest.value, r.value);
      } else if rest.None? {
        AbsentLater(fetch, events, last, next);
      } else {
        assert Due(events, last, 0);
      }
    }
  }

  /** The panic happens only when an event above the last processed block has no block in its transaction. */
  lemma {:induction false} PanicsOnlyWhenAbsent(fetch: Fetch, events: seq<BlockEvent>, last: nat)
    requires DirectBlocks(fetch, events, last).None?
    ensures exists e :: e in events && e.blockNum > last && Lookup(fetch, e).None?
    decreases |events|
  {
    var next := if events[0].blockNum <= last then last else events[0].blockNum;
    if next > last && Lookup(fetch, events[0]).None? {
      assert events[0] in events;
    } else {
      PanicsOnlyWhenAbsent(fetch, events[1..], next);
      var e :| e in events[1..] && e.blockNum > next && Lookup(fetch, e).None?;
      assert e in events;
    }
  }

  lemma {:induction false} UpToMember(events: seq<BlockEvent>, n: nat, e: BlockEvent)
    ensures e in UpTo(events, n) <==> e in events && e.blockNum <= n
  {
    if events == [] {
    } else {
      UpToMember(events[1..], n, e);
    }
  }

  /** Blocks fed to the tree come from committed events and do not exceed the greatest verified block. */
  lemma BlocksAreVerified(fetch: Fetch, e: Events, last: nat, i: nat)
    requires DirectBlocks(fetch, VerifiedCommitted(e), last).Some?
    requires i < |DirectBlocks(fetch, VerifiedCommitted(e), last).value|
    ensures var b := DirectBlocks(fetch, VerifiedCommitted(e), last).value[i];
      && MaxBlockNum(e.verified).Some? && last < b.blockNum <= MaxBlockNum(e.verified).value
      && exists c :: c in e.committed && Lookup(fetch, c) == Some(b)
  {
    DirectBlocksOrdered(fetch, VerifiedCommitted(e), last);
    var b := DirectBlocks(fetch, VerifiedCommitted(e), last).value[i];
    assert FoundIn(fetch, VerifiedCommitted(e), b);
    var c :| c in VerifiedCommitted(e) && Lookup(fetch, c) == Some(b);
    UpToMember(e.committed, MaxBlockNum(e.verified).value, c);
  }

  predicate OneVersionPerTx(events: seq<BlockEvent>) {
    forall i, j :: 0 <= i < |events| && 0 <= j < |events| && events[i].txHash == events[j].txHash
      ==> events[i].version == events[j].version
  }

  /**
   The events with the versions that the cached loop uses: a due event whose transaction is the one fetched
   last is read with the version that it was fetched with.
   */
  function AsFetched(events: seq<BlockEvent>, last: nat, fetched: Option<BlockEvent>): seq<BlockEvent> {
    if events == [] then []
    else if events[0].blockNum <= last then [events[0]] + AsFetched(events[1..], last, fetched)
    else
      var leader := if fetched.Some? && fetched.value.txHash == events[0].txHash then fetched.value else events[0];
      [events[0].(version := leader.version)] + AsFetched(events[1..], events[0].blockNum, Some(leader))
  }

  ghost predicate VersionAgrees(events: seq<BlockEvent>, fetched: Option<BlockEvent>) {
    fetched.Some? ==>
      forall i :: 0 <= i < |events| && events[i].txHash == fetched.value.txHash ==> events[i].version == fetched.value.version
  }

  lemma {:induction false} SameAsFetched(events: seq<BlockEvent>, last: nat, fetched: Option<BlockEvent>)
    requires OneVersionPerTx(events) && VersionAgrees(events, fetched)
    ensures AsFetched(events, last, fetched) == events
    decreases |events|
  {
    if events == [] {
    } else {
      var rest := events[1..];
      assert forall i :: 0 <= i < |rest| ==> rest[i] == events[i + 1];
      if events[0].blockNum <= last {
        SameAsFetched(rest, last, fetched);
      } else {
        var leader := if fetched.Some? && fetched.value.txHash == events[0].txHash then fetched.value else events[0];
        assert leader.version == events[0].version;
        SameAsFetched(rest, events[0].blockNum, Some(leader));
      }
      assert [events[0]] + rest == events;
    }
  }

  /** The cache holds what the fetched transaction says about every block still to come. */
  ghost predicate CacheAgrees(cache: map<nat, RollupBlock>, blocks: seq<RollupBlock>, last: nat) {
    forall n :: n > last ==>
      (n in cache <==> n in ByNumber(blocks)) && (n in cache ==> cache[n] == ByNumber(blocks)[n])
  }

  /** The blocks so far, followed by those of the remaining events, are the result. */
  ghost predicate StillDue(fetch: Fetch, whole: Option<seq<RollupBlock>>, events: seq<BlockEvent>, last: nat,
                           fetched: Option<BlockEvent>, blocks: seq<RollupBlock>) {
    var rest := DirectBlocks(fetch, AsFetched(events, last, fetched), last);
    if rest.Some? then whole == Some(blocks + rest.value) else whole.None?
  }

  lemma {:induction false} SkipDone(fetch: Fetch, whole: Option<seq<RollupBlock>>, events: seq<BlockEvent>, last: nat,
                                    fetched: Option<BlockEvent>, blocks: seq<RollupBlock>)
    requires events != [] && events[0].blockNum <= last && StillDue(fetch, whole, events, last, fetched, blocks)
    ensures StillDue(fetch, whole, events[1..], last, fetched, blocks)
  {
    var led := AsFetched(events, last, fetched);
    assert led[1..] == AsFetched(events[1..], last, fetched);
  }

  lemma {:induction false} TakeNext(fetch: Fetch, whole: Option<seq<RollupBlock>>, events: seq<BlockEvent>, last: nat,
                                    fetched: Option<BlockEvent>, leader: BlockEvent, blocks: seq<RollupBlock>)
    requires events != [] && events[0].blockNum > last && StillDue(fetch, whole, events, last, fetched, blocks)
    requires leader == if fetched.Some? && fetched.value.txHash == events[0].txHash then fetched.value else events[0]
    ensures var block := Lookup(fetch, events[0].(version := leader.version));
      if block.None? then whole.None?
      else StillDue(fetch, whole, events[1..], events[0].blockNum, Some(leader), blocks + [block.value])
  {
    var led := AsFetched(events, last, fetched);
    var next := AsFetched(events[1..], events[0].blockNum, Some(leader));
    assert led[0] == events[0].(version := leader.version) && led[1..] == next;
    var block, rest := Lookup(fetch, led[0]), DirectBlocks(fetch, next, events[0].blockNum);
    if block.Some? && rest.Some? {
      assert blocks + ([block.value] + rest.value) == blocks + [block.value] + rest.value;
    }
  }

  /**
   The loop with its per-transaction cache; none stands for the panic. It looks up every block in its own
   transaction, each transaction in the version it was fetched with.
   */
  method GetNewOperationBlocks(fetch: Fetch, events: seq<BlockEvent>, treeBlock: nat)
    returns (r: Option<seq<RollupBlock>>)
    ensures r == DirectBlocks(fetch, AsFetched(events, treeBlock, None), treeBlock)
    ensures OneVersionPerTx(events) ==> r == DirectBlocks(fetch, events, treeBlock)
  {
    var blocks: seq<RollupBlock> := [];
    var lastTxHash: Option<nat> := None;
    ghost var fetched: Option<BlockEvent> := None;
    ghost var lastTxBlocks: seq<RollupBlock> := [];
    var cache: map<nat, RollupBlock> := map[];
    var lastProcessed: nat := treeBlock;
    ghost var whole := DirectBlocks(fetch, AsFetched(events, treeBlock, None), treeBlock);
    if OneVersionPerTx(events) {
      SameAsFetched(events, treeBlock, None);
    }
    assert events[0..] == events && (whole.Some? ==> [] + whole.value == whole.value);
    for i := 0 to |events|
      invariant StillDue(fetch, whole, events[i..], lastProcessed, fetched, blocks)
      invariant lastTxHash == if fetched.None? then None else Some(fetched.value.txHash)
      invariant fetched.Some? ==> fetch(fetched.value.txHash, fetched.value.version) == Some(lastTxBlocks)
      invariant fetched.Some? ==> CacheAgrees(cache, lastTxBlocks, lastProcessed)
    {
      var event := events[i];
      assert events[i..][0] == event && events[i..][1..] == events[i + 1..];
      if lastProcessed >= event.blockNum {
        SkipDone(fetch, whole, events[i..], lastProcessed, fetched, blocks);
        continue;
      }
      ghost var leader := if fetched.Some? && fetched.value.txHash == event.txHash then fetched.value else event;
      TakeNext(fetch, whole, events[i..], lastProcessed, fetched, leader, blocks);
      if lastTxHash != Some(event.txHash) {
        var content := fetch(event.txHash, event.version);
        if content.None? {
          return None;
        }
        cache := ByNumber(content.value);
        lastTxHash := Some(event.txHash);
        lastTxBlocks := content.value;
      }
      fetched := Some(leader);
      if event.blockNum in cache {
        blocks := blocks + [cache[event.blockNum]];
        cache := cache - {event.blockNum};
        lastProcessed := event.blockNum;
      } else {
        return None;
      }
    }
    assert events[|events|..] == [] && blocks + [] == blocks;
    return Some(blocks);
  }

  // ----- one version for each transaction

  /** A transaction lies in one Ethereum block: `blockOf` says in which. */
  ghost predicate OneBlockPerTx(logsAt: nat -> seq<Log>, blockOf: nat -> nat) {
    forall n: nat, i: nat :: i < |logsAt(n)| ==> LogDated(logsAt(n)[i], blockOf)
  }

  ghost predicate LogDated(log: Log, blockOf: nat -> nat) {
    !log.BlocksRevert? ==> log.ethBlock == blockOf(log.txHash)
  }

  /** The version of every event is that of its transaction's block. */
  ghost predicate Dated(events: seq<BlockEvent>, u: Upgrades, blockOf: nat -> nat) {
    forall e :: e in events ==> e.version == VersionAt(u, blockOf(e.txHash))
  }

  ghost predicate EventsDated(e: Events, u: Upgrades, blockOf: nat -> nat) {
    Dated(e.committed, u, blockOf) && Dated(e.verified, u, blockOf)
  }

  lemma {:induction false} AboveMember(events: seq<BlockEvent>, n: nat, e: BlockEvent)
    ensures e in Above(events, n) <==> e in events && e.blockNum > n
  {
    if events == [] {
    } else {
      AboveMember(events[1..], n, e);
    }
  }

  lemma UpToDated(events: seq<BlockEvent>, n: nat, u: Upgrades, blockOf: nat -> nat)
    requires Dated(events, u, blockOf)
    ensures Dated(UpTo(events, n), u, blockOf) && Dated(Above(events, n), u, blockOf)
  {
    forall e | e in UpTo(events, n) || e in Above(events, n)
      ensures e in events
    {
      UpToMember(events, n, e);
      AboveMember(events, n, e);
    }
  }

  lemma {:induction false} LogsInDated(logsAt: nat -> seq<Log>, blockOf: nat -> nat, from: nat, end: nat, i: nat)
    requires OneBlockPerTx(logsAt, blockOf) && i < |LogsIn(logsAt, from, end)|
    ensures LogDated(LogsIn(logsAt, from, end)[i], blockOf)
    decreases end
  {
    var before := LogsIn(logsAt, from, end - 1);
    if i < |before| {
      LogsInDated(logsAt, blockOf, from, end - 1, i);
    } else {
      assert LogDated(logsAt(end - 1)[i - |before|], blockOf);
    }
  }

  lemma {:induction false} ApplyLogsDated(e: Events, logs: seq<Log>, u: Upgrades, blockOf: nat -> nat)
    requires EventsDated(e, u, blockOf) && forall i :: 0 <= i < |logs| ==> LogDated(logs[i], blockOf)
    ensures EventsDated(ApplyLogs(e, logs, u), u, blockOf)
    decreases |logs|
  {
    if logs == [] {
    } else {
      var n := |logs| - 1;
      ApplyLogsDated(e, logs[..n], u, blockOf);
      var before, log := ApplyLogs(e, logs[..n], u), logs[n];
      assert LogDated(log, blockOf);
      if log.BlocksRevert? {
        UpToDated(before.committed, log.totalCommitted, u, blockOf);
        UpToDated(before.verified, log.totalExecuted, u, blockOf);
      }
    }
  }

  /** Polling keeps the versions true to the transactions. */
  lemma PollDated(e: Events, logsAt: nat -> seq<Log>, u: Upgrades, latest: nat, step: nat, blockOf: nat -> nat)
    requires EventsDated(e, u, blockOf) && OneBlockPerTx(logsAt, blockOf)
    ensures EventsDated(Poll(e, logsAt, u, latest, step), u, blockOf)
  {
    var max, w := MaxBlockNum(e.verified), NextWindow(e.lastWatched, latest, step);
    if max.Some? {
      UpToDated(e.committed, max.value, u, blockOf);
    }
    if w.Some? {
      var logs := LogsIn(logsAt, w.value.from, w.value.to + 1);
      forall i | 0 <= i < |logs|
        ensures LogDated(logs[i], blockOf)
      {
        LogsInDated(logsAt, blockOf, w.value.from, w.value.to + 1, i);
      }
      ApplyLogsDated(WithoutVerified(e).(lastWatched := w.value.to), logs, u, blockOf);
    }
  }

  /** Dated events of one transaction have one version, whichever of them are verified. */
  lemma DatedMeansOneVersion(e: Events, u: Upgrades, blockOf: nat -> nat)
    requires EventsDated(e, u, blockOf)
    ensures OneVersionPerTx(VerifiedCommitted(e))
  {
    var max := MaxBlockNum(e.verified);
    if max.Some? {
      UpToDated(e.committed, max.value, u, blockOf);
      assert Dated(VerifiedCommitted(e), u, blockOf);
    }
  }
}
