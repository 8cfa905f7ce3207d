/**
 The events state of the data restore: committed and verified block events collected from contract
 logs, window by window.
 */
module RestoreEvents {
  import opened Wrappers

  datatype EventType = Committed | Verified

  datatype BlockEvent = BlockEvent(blockNum: nat, txHash: nat, blockType: EventType, version: nat)

  datatype Log =
    | BlockCommit(ethBlock: nat, txHash: nat, blockNum: nat)
    | BlockVerification(ethBlock: nat, txHash: nat, blockNum: nat)
    | BlocksRevert(totalExecuted: nat, totalCommitted: nat)

  /** Ethereum blocks of contract upgrades, and the version deployed first. */
  datatype Upgrades = Upgrades(ethBlocks: seq<nat>, initVersion: nat)

  datatype Window = Window(from: nat, to: nat)

  datatype Events = Events(committed: seq<BlockEvent>, verified: seq<BlockEvent>, lastWatched: nat)

  function UpgradesUpTo(blocks: seq<nat>, ethBlock: nat): nat
    decreases |blocks|
  {
    if blocks == [] then 0
    else UpgradesUpTo(blocks[..|blocks| - 1], ethBlock) + (if ethBlock >= blocks[|blocks| - 1] then 1 else 0)
  }

  function VersionAt(u: Upgrades, ethBlock: nat): nat {
    u.initVersion + UpgradesUpTo(u.ethBlocks, ethBlock)
  }

  // ----- filters

  function UpTo(s: seq<BlockEvent>, n: nat): seq<BlockEvent> {
    if s == [] then [] else (if s[0].blockNum <= n then [s[0]] else []) + UpTo(s[1..], n)
  }

  function Above(s: seq<BlockEvent>, n: nat): seq<BlockEvent> {
    if s == [] then [] else (if s[0].blockNum > n then [s[0]] else []) + Above(s[1..], n)
  }

  function OfType(s: seq<BlockEvent>, t: EventType): seq<BlockEvent> {
    if s == [] then [] else (if s[0].blockType == t then [s[0]] else []) + OfType(s[1..], t)
  }

  function MaxBlockNum(s: seq<BlockEvent>): (r: Option<nat>)
    ensures r.None? <==> s == []
    ensures r.Some? ==> (exists i :: 0 <= i < |s| && s[i].blockNum == r.value)
                        && forall i :: 0 <= i < |s| ==> s[i].blockNum <= r.value
  {
    if s == [] then None
    else
      var rest := MaxBlockNum(s[1..]);
      if rest.None? || rest.value < s[0].blockNum then
        assert s[0].blockNum == s[0].blockNum; Some(s[0].blockNum)
      else
        assert exists i :: 0 <= i < |s[1..]| && s[1..][i].blockNum == rest.value;
        var i :| 0 <= i < |s[1..]| && s[1..][i].blockNum == rest.value;
        assert s[i + 1].blockNum == rest.value;
        rest
  }

  // ----- versions

  /** The upgrades that have happened by an Ethereum block, that block included. */
  ghost function UpgradesBy(blocks: seq<nat>, ethBlock: nat): set<nat> {
    set i: nat | i < |blocks| && blocks[i] <= ethBlock
  }

  lemma {:induction false} UpgradesCounted(blocks: seq<nat>, ethBlock: nat)
    ensures UpgradesUpTo(blocks, ethBlock) == |UpgradesBy(blocks, ethBlock)|
    decreases |blocks|
  {
    if blocks == [] {
    } else {
      var n := |blocks| - 1;
      UpgradesCounted(blocks[..n], ethBlock);
      assert UpgradesBy(blocks, ethBlock)
        == UpgradesBy(blocks[..n], ethBlock) + if blocks[n] <= ethBlock then {n} else {};
    }
  }

  /** An event carries the initial version plus the number of upgrades up to the Ethereum block of its log. */
  lemma EventVersion(e: Events, log: Log, u: Upgrades)
    requires !log.BlocksRevert?
    ensures var version := u.initVersion + |UpgradesBy(u.ethBlocks, log.ethBlock)|;
      ApplyLog(e, log, u) ==
        if log.BlockCommit? then
          e.(committed := e.committed + [BlockEvent(log.blockNum, log.txHash, Committed, version)])
        else e.(verified := e.verified + [BlockEvent(log.blockNum, log.txHash, Verified, version)])
  {
    UpgradesCounted(u.ethBlocks, log.ethBlock);
  }

  // ----- what the operations compute

  function ApplyLog(e: Events, log: Log, u: Upgrades): Events {
    match log
    case BlockCommit(eth, tx, n) =>
      e.(committed := e.committed + [BlockEvent(n, tx, Committed, VersionAt(u, eth))])
    case BlockVerification(eth, tx, n) =>
      e.(verified := e.verified + [BlockEvent(n, tx, Verified, VersionAt(u, eth))])
    case BlocksRevert(executed, committed) =>
      e.(committed := UpTo(e.committed, committed), verified := UpTo(e.verified, executed))
  }

  function ApplyLogs(e: Events, logs: seq<Log>, u: Upgrades): Events
    decreases |logs|
  {
    if logs == [] then e else ApplyLog(ApplyLogs(e, logs[..|logs| - 1], u), logs[|logs| - 1], u)
  }

  function WithoutVerified(e: Events): Events {
    var m := MaxBlockNum(e.verified);
    Events(if m.Some? then Above(e.committed, m.value) else e.committed, [], e.lastWatched)
  }

  function VerifiedCommitted(e: Events): seq<BlockEvent> {
    var m := MaxBlockNum(e.verified);
    if m.Some? then UpTo(e.committed, m.value) else []
  }

  /** The next window of Ethereum blocks to read, both ends included; none when nothing is new. */
  function NextWindow(lastWatched: nat, latest: nat, step: nat): Option<Window> {
    if latest == lastWatched then None
    else
      var from := lastWatched + 1;
      Some(Window(from, if from + step > latest then latest else from + step))
  }

  /** Logs of Ethereum blocks from..end, `end` excluded. */
  function LogsIn(logsAt: nat -> seq<Log>, from: nat, end: nat): seq<Log>
    decreases end
  {
    if from >= end then [] else LogsIn(logsAt, from, end - 1) + logsAt(end - 1)
  }

  /** One polling round, given the chain head minus the configured offset. */
  function Poll(e: Events, logsAt: nat -> seq<Log>, u: Upgrades, latest: nat, step: nat): Events {
    var kept := WithoutVerified(e);
    var w := NextWindow(e.lastWatched, latest, step);
    if w.None? then kept
    else ApplyLogs(kept.(lastWatched := w.value.to), LogsIn(logsAt, w.value.from, w.value.to + 1), u)
  }

  lemma LogsInOne(logsAt: nat -> seq<Log>, n: nat)
    ensures LogsIn(logsAt, n, n + 1) == logsAt(n) && LogsIn(logsAt, n, n) == []
  {
    assert [] + logsAt(n) == logsAt(n);
  }

  lemma {:induction false} LogsInSplit(logsAt: nat -> seq<Log>, from: nat, mid: nat, end: nat)
    requires from <= mid <= end
    ensures LogsIn(logsAt, from, mid) + LogsIn(logsAt, mid, end) == LogsIn(logsAt, from, end)
    decreases end
  {
    if mid == end {
      assert LogsIn(logsAt, mid, end) == [];
    } else {
      LogsInSplit(logsAt, from, mid, end - 1);
    }
  }

  /**
   As long as the head does not fall behind, the window starts right after the last one, is not empty
   and ends at the head or a step further, whichever is less. When the head falls behind, it ends before it starts.
   */
  lemma WindowsTile(lastWatched: nat, latest: nat, step: nat)
    ensures NextWindow(lastWatched, latest, step).None? <==> latest == lastWatched
    ensures latest > lastWatched ==>
      var Window(from, to) := NextWindow(lastWatched, latest, step).value;
      from == lastWatched + 1 && from <= to <= latest && to <= from + step && (to == latest || to == from + step)
    ensures latest < lastWatched ==>
      var Window(from, to) := NextWindow(lastWatched, latest, step).value;
      to == latest < lastWatched
  {
  }

  // ----- the object that keeps them

  class EventsState {
    var committedEvents: seq<BlockEvent>
    var verifiedEvents: seq<BlockEvent>
    var lastWatchedEthBlockNumber: nat

    ghost function State(): Events
      reads this
    {
      Events(committedEvents, verifiedEvents, lastWatchedEthBlockNumber)
    }

    constructor ()
      ensures State() == Events([], [], 0)
    {
      committedEvents, verifiedEvents, lastWatchedEthBlockNumber := [], [], 0;
    }

    method UpdateBlocksState(logs: seq<Log>, u: Upgrades) returns (any: bool)
      modifies this
      ensures State() == ApplyLogs(old(State()), logs, u)
      ensures any <==> logs != []
    {
      if logs == [] {
        return false;
      }
      for i := 0 to |logs|
        invariant State() == ApplyLogs(old(State()), logs[..i], u)
      {
        assert logs[..i + 1][..i] == logs[..i];
        match logs[i] {
          case BlocksRevert(totalExecuted, totalCommitted) =>
            committedEvents := UpTo(committedEvents, totalCommitted);
            verifiedEvents := UpTo(verifiedEvents, totalExecuted);
          case BlockCommit(eth, tx, n) =>
            committedEvents := committedEvents + [BlockEvent(n, tx, Committed, VersionAt(u, eth))];
          case BlockVerification(eth, tx, n) =>
            verifiedEvents := verifiedEvents + [BlockEvent(n, tx, Verified, VersionAt(u, eth))];
        }
      }
      assert logs[..|logs|] == logs;
      return true;
    }

    method RemoveVerifiedEvents()
      modifies this
      ensures State() == WithoutVerified(old(State()))
    {
      var maxVerified := MaxBlockNum(verifiedEvents);
      verifiedEvents := [];
      if maxVerified.Some? {
        committedEvents := Above(committedEvents, maxVerified.value);
      }
    }

    method UpdateEventsState(logsAt: nat -> seq<Log>, u: Upgrades, latest: nat, step: nat)
      returns (blockEvents: seq<BlockEvent>, lastWatched: nat)
      modifies this
      ensures State() == Poll(old(State()), logsAt, u, latest, step)
      ensures blockEvents == committedEvents + verifiedEvents && lastWatched == lastWatchedEthBlockNumber
    {
      RemoveVerifiedEvents();
      var window := NextWindow(lastWatchedEthBlockNumber, latest, step);
      if window.Some? {
        var Window(from, to) := window.value;
        var logs := LogsIn(logsAt, from, to + 1);
        lastWatchedEthBlockNumber := to;
        var _ := UpdateBlocksState(logs, u);
      }
      blockEvents := committedEvents + verifiedEvents;
      lastWatched := lastWatchedEthBlockNumber;
    }
  }
}
