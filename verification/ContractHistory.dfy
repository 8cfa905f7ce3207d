/**
 The discipline that the rollup contract imposes on its logs, and how the events state follows it:
 at any window boundary the collected events are exactly a suffix of the contract's block list.
 */
module ContractHistory {
  import opened Wrappers
  import opened RestoreEvents
  import opened OpsBlocks

  datatype Commit = Commit(txHash: nat, version: nat)

  /** Blocks 1, 2, ... currently committed, and how many of them are executed. */
  datatype ChainState = ChainState(commits: seq<Commit>, executed: nat)

  const GENESIS := ChainState([], 0)

  /** Commits and executions are consecutive; reverts touch only blocks that are not executed. */
  function Advance(s: ChainState, log: Log, u: Upgrades): Option<ChainState> {
    match log
    case BlockCommit(eth, tx, n) =>
      if n == |s.commits| + 1 then Some(s.(commits := s.commits + [Commit(tx, VersionAt(u, eth))])) else None
    case BlockVerification(_, _, n) =>
      if n == s.executed + 1 <= |s.commits| then Some(s.(executed := n)) else None
    case BlocksRevert(executed, committed) =>
      if executed == s.executed <= committed <= |s.commits| then Some(s.(commits := s.commits[..committed])) else None
  }

  function AdvanceAll(s: ChainState, logs: seq<Log>, u: Upgrades): Option<ChainState>
    decreases |logs|
  {
    if logs == [] then Some(s)
    else
      var before := AdvanceAll(s, logs[..|logs| - 1], u);
      if before.None? then None else Advance(before.value, logs[|logs| - 1], u)
  }

  lemma {:induction false} AdvanceAllAppend(s: ChainState, xs: seq<Log>, ys: seq<Log>, u: Upgrades)
    ensures AdvanceAll(s, xs + ys, u)
      == (if AdvanceAll(s, xs, u).None? then None else AdvanceAll(AdvanceAll(s, xs, u).value, ys, u))
    decreases |ys|
  {
    if ys == [] {
      assert xs + ys == xs;
    } else {
      AdvanceAllAppend(s, xs, ys[..|ys| - 1], u);
      assert (xs + ys)[..|xs + ys| - 1] == xs + ys[..|ys| - 1];
    }
  }

  /** The commit events of blocks k+1, k+2, ... */
  function CommitEvents(s: ChainState, k: nat): (r: seq<BlockEvent>)
    requires k <= |s.commits|
    ensures |r| == |s.commits| - k
    ensures forall i :: 0 <= i < |r| ==> r[i] == CommitEvent(s, k + i)
  {
    seq(|s.commits| - k, i requires 0 <= i < |s.commits| - k => CommitEvent(s, k + i))
  }

  function CommitEvent(s: ChainState, i: nat): BlockEvent
    requires i < |s.commits|
  {
    BlockEvent(i + 1, s.commits[i].txHash, Committed, s.commits[i].version)
  }

  /** Events of blocks after k: all commits, and the verifications up to the executed block. */
  ghost predicate Tracks(e: Events, s: ChainState, k: nat) {
    && k <= s.executed <= |s.commits|
    && e.committed == CommitEvents(s, k)
    && |e.verified| == s.executed - k
    && forall i :: 0 <= i < |e.verified| ==> e.verified[i].blockNum == k + 1 + i && e.verified[i].blockType == Verified
  }

  // ----- filters on consecutively numbered events

  ghost predicate NumberedFrom(s: seq<BlockEvent>, k: nat) {
    forall i :: 0 <= i < |s| ==> s[i].blockNum == k + 1 + i
  }

  lemma {:induction false} FilterNumbered(s: seq<BlockEvent>, k: nat, n: nat)
    requires NumberedFrom(s, k) && k <= n <= k + |s|
    ensures UpTo(s, n) == s[..n - k] && Above(s, n) == s[n - k..]
    decreases |s|
  {
    if s == [] {
    } else {
      if n == k {
        NothingUpTo(s, n);
      } else {
        FilterNumbered(s[1..], k + 1, n);
        assert s[..n - k] == [s[0]] + s[1..][..n - k - 1];
        assert s[n - k..] == s[1..][n - k - 1..];
      }
    }
  }

  lemma {:induction false} NothingUpTo(s: seq<BlockEvent>, n: nat)
    requires forall i :: 0 <= i < |s| ==> s[i].blockNum > n
    ensures UpTo(s, n) == [] && Above(s, n) == s
    decreases |s|
  {
    if s == [] {
    } else {
      NothingUpTo(s[1..], n);
    }
  }

  lemma {:induction false} MaxNumbered(s: seq<BlockEvent>, k: nat)
    requires NumberedFrom(s, k)
    ensures MaxBlockNum(s) == if s == [] then None else Some(k + |s|)
  {
    if s != [] {
      var max := MaxBlockNum(s).value;
      var i :| 0 <= i < |s| && s[i].blockNum == max;
      assert s[|s| - 1].blockNum <= max;
    }
  }

  // ----- the events state follows the contract

  lemma TracksCommit(e: Events, s: ChainState, k: nat, event: BlockEvent)
    requires Tracks(e, s, k) && event.blockNum == |s.commits| + 1 && event.blockType == Committed
    ensures Tracks(e.(committed := e.committed + [event]),
                   s.(commits := s.commits + [Commit(event.txHash, event.version)]), k)
  {
    var s' := s.(commits := s.commits + [Commit(event.txHash, event.version)]);
    var events := e.committed + [event];
    forall i | 0 <= i < |events|
      ensures events[i] == CommitEvents(s', k)[i]
    {
      assert CommitEvents(s', k)[i] == CommitEvent(s', k + i);
      if i < |e.committed| {
        assert e.committed[i] == CommitEvent(s, k + i);
      }
    }
    assert events == CommitEvents(s', k);
  }

  lemma TracksRevert(e: Events, s: ChainState, k: nat, committed: nat)
    requires Tracks(e, s, k) && s.executed <= committed <= |s.commits|
    ensures Tracks(e.(committed := e.committed[..committed - k]), s.(commits := s.commits[..committed]), k)
  {
    var s' := s.(commits := s.commits[..committed]);
    var events := e.committed[..committed - k];
    forall i | 0 <= i < |events|
      ensures events[i] == CommitEvents(s', k)[i]
    {
      assert CommitEvents(s', k)[i] == CommitEvent(s', k + i);
      assert e.committed[i] == CommitEvent(s, k + i);
    }
    assert events == CommitEvents(s', k);
  }

  lemma TracksLog(e: Events, s: ChainState, k: nat, log: Log, u: Upgrades)
    requires Tracks(e, s, k) && Advance(s, log, u).Some?
    ensures Tracks(ApplyLog(e, log, u), Advance(s, log, u).value, k)
  {
    match log
    case BlockCommit(eth, tx, n) =>
      TracksCommit(e, s, k, BlockEvent(n, tx, Committed, VersionAt(u, eth)));
    case BlockVerification(_, _, _) =>
    case BlocksRevert(executed, committed) =>
      assert UpTo(e.committed, committed) == e.committed[..committed - k] by {
        FilterNumbered(e.committed, k, committed);
      }
      assert UpTo(e.verified, executed) == e.verified by {
        FilterNumbered(e.verified, k, executed);
        assert e.verified[..executed - k] == e.verified;
      }
      TracksRevert(e, s, k, committed);
  }

  lemma {:induction false} TracksLogs(e: Events, s: ChainState, k: nat, logs: seq<Log>, u: Upgrades)
    requires Tracks(e, s, k) && AdvanceAll(s, logs, u).Some?
    ensures Tracks(ApplyLogs(e, logs, u), AdvanceAll(s, logs, u).value, k)
    ensures ApplyLogs(e, logs, u).lastWatched == e.lastWatched
    decreases |logs|
  {
    if logs == [] {
    } else {
      var before := logs[..|logs| - 1];
      TracksLogs(e, s, k, before, u);
      TracksLog(ApplyLogs(e, before, u), AdvanceAll(s, before, u).value, k, logs[|logs| - 1], u);
    }
  }

  lemma WithoutVerifiedDrops(e: Events, s: ChainState, k: nat)
    requires Tracks(e, s, k)
    ensures WithoutVerified(e) == Events(e.committed[s.executed - k..], [], e.lastWatched)
  {
    assert MaxBlockNum(e.verified) == if e.verified == [] then None else Some(s.executed) by {
      MaxNumbered(e.verified, k);
    }
    if e.verified == [] {
      assert e.committed[0..] == e.committed;
    } else {
      FilterNumbered(e.committed, k, s.executed);
    }
  }

  /** Dropping verified events leaves the commits that are not executed yet. */
  lemma TracksWithoutVerified(e: Events, s: ChainState, k: nat)
    requires Tracks(e, s, k)
    ensures Tracks(WithoutVerified(e), s, s.executed)
  {
    WithoutVerifiedDrops(e, s, k);
    assert CommitEvents(s, s.executed) == CommitEvents(s, k)[s.executed - k..];
  }

  lemma VerifiedCommittedTracks(e: Events, s: ChainState, k: nat)
    requires Tracks(e, s, k)
    ensures VerifiedCommitted(e) == CommitEvents(s, k)[..s.executed - k]
  {
    MaxNumbered(e.verified, k);
    if e.verified != [] {
      FilterNumbered(e.committed, k, s.executed);
    }
  }

  /** Executed blocks are never reverted: their commits stay. */
  lemma {:induction false} ExecutedStays(s: ChainState, logs: seq<Log>, u: Upgrades)
    requires AdvanceAll(s, logs, u).Some? && s.executed <= |s.commits|
    ensures var s' := AdvanceAll(s, logs, u).value;
      s.executed <= s'.executed <= |s'.commits| && s'.commits[..s.executed] == s.commits[..s.executed]
    decreases |logs|
  {
    if logs == [] {
    } else {
      ExecutedStays(s, logs[..|logs| - 1], u);
    }
  }

  // ----- blocks of the contract's list

  /** Block i+1 of the contract, as its committing transaction encodes it. */
  function ChainBlock(fetch: Fetch, s: ChainState, i: nat): Option<RollupBlock>
    requires i < |s.commits|
  {
    Lookup(fetch, CommitEvent(s, i))
  }

  /** Exactly the blocks k+1 .. k+|bs| of the contract, in order. */
  ghost predicate ChainSlice(fetch: Fetch, s: ChainState, k: nat, bs: seq<RollupBlock>) {
    && k + |bs| <= |s.commits|
    && forall i :: 0 <= i < |bs| ==> ChainBlock(fetch, s, k + i) == Some(bs[i]) && bs[i].blockNum == k + i + 1
  }

  lemma {:induction false} DirectBlocksOfChain(fetch: Fetch, s: ChainState, k: nat, m: nat)
    requires k + m <= |s.commits|
    requires DirectBlocks(fetch, CommitEvents(s, k)[..m], k).Some?
    ensures |DirectBlocks(fetch, CommitEvents(s, k)[..m], k).value| == m
    ensures ChainSlice(fetch, s, k, DirectBlocks(fetch, CommitEvents(s, k)[..m], k).value)
    decreases m
  {
    var events := CommitEvents(s, k)[..m];
    if m > 0 {
      assert events[1..] == CommitEvents(s, k + 1)[..m - 1];
      DirectBlocksOfChain(fetch, s, k + 1, m - 1);
      var bs, rest := DirectBlocks(fetch, events, k).value, DirectBlocks(fetch, events[1..], k + 1).value;
      forall i | 0 <= i < |bs|
        ensures ChainBlock(fetch, s, k + i) == Some(bs[i]) && bs[i].blockNum == k + i + 1
      {
        if i > 0 {
          assert bs[i] == rest[i - 1];
          assert ChainBlock(fetch, s, k + 1 + (i - 1)) == Some(rest[i - 1]);
        }
      }
    }
  }
}
