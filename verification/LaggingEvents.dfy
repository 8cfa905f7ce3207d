/**
 Events when the chain head may fall behind: windows are then read again, and the collected events repeat or
 are ahead of the position. What matters of them still follows the contract at the highest watched block.
 */
module LaggingEvents {
  import opened Wrappers
  import opened RestoreEvents
  import opened OpsBlocks
  import opened ContractHistory

  // ----- which blocks outlive the logs still to be read

  /** No revert among the logs goes below block v. */
  ghost predicate Survives(logs: seq<Log>, v: nat) {
    forall i :: 0 <= i < |logs| && logs[i].BlocksRevert? ==> v <= logs[i].totalCommitted
  }

  lemma SurvivesAppend(xs: seq<Log>, ys: seq<Log>, v: nat)
    ensures Survives(xs + ys, v) <==> Survives(xs, v) && Survives(ys, v)
  {
    var all := xs + ys;
    assert forall i :: 0 <= i < |xs| ==> all[i] == xs[i];
    assert forall i :: 0 <= i < |ys| ==> all[|xs| + i] == ys[i];
    if Survives(xs, v) && Survives(ys, v) {
      forall i | 0 <= i < |all| && all[i].BlocksRevert?
        ensures v <= all[i].totalCommitted
      {
        assert i >= |xs| ==> all[i] == ys[i - |xs|];
      }
    }
  }

  lemma SurvivesFirst(log: Log, logs: seq<Log>, v: nat)
    ensures Survives([log] + logs, v) <==> (log.BlocksRevert? ==> v <= log.totalCommitted) && Survives(logs, v)
  {
    SurvivesAppend([log], logs, v);
    assert [log][0] == log;
  }

  lemma SurvivesBelow(logs: seq<Log>, v: nat, u: nat)
    requires Survives(logs, v) && u <= v
    ensures Survives(logs, u)
  {
  }

  lemma SurvivesLog(s: ChainState, log: Log, u: Upgrades, v: nat)
    requires Advance(s, log, u).Some? && v <= |s.commits| && (log.BlocksRevert? ==> v <= log.totalCommitted)
    ensures var s' := Advance(s, log, u).value; v <= |s'.commits| && s'.commits[..v] == s.commits[..v]
  {
  }

  /** Commits that no revert reaches stay in the contract's list. */
  lemma {:induction false} SurvivorStays(s: ChainState, logs: seq<Log>, u: Upgrades, v: nat)
    requires AdvanceAll(s, logs, u).Some? && v <= |s.commits| && Survives(logs, v)
    ensures var s' := AdvanceAll(s, logs, u).value; v <= |s'.commits| && s'.commits[..v] == s.commits[..v]
    decreases |logs|
  {
    if logs == [] {
    } else {
      var n := |logs| - 1;
      assert logs == logs[..n] + [logs[n]];
      SurvivesAppend(logs[..n], [logs[n]], v);
      SurvivorStays(s, logs[..n], u, v);
      SurvivesFirst(logs[n], [], v);
      assert [logs[n]] + [] == [logs[n]];
      SurvivesLog(AdvanceAll(s, logs[..n], u).value, logs[n], u, v);
    }
  }

  /** The event of the contract's block with its number. */
  ghost predicate IsCommit(s: ChainState, e: BlockEvent) {
    1 <= e.blockNum <= |s.commits| && e == CommitEvent(s, e.blockNum - 1)
  }

  lemma CommitStays(s: ChainState, logs: seq<Log>, u: Upgrades, e: BlockEvent)
    requires AdvanceAll(s, logs, u).Some? && IsCommit(s, e) && Survives(logs, e.blockNum)
    ensures IsCommit(AdvanceAll(s, logs, u).value, e)
  {
    var v, s' := e.blockNum, AdvanceAll(s, logs, u).value;
    SurvivorStays(s, logs, u, v);
    assert s'.commits[v - 1] == s'.commits[..v][v - 1] == s.commits[..v][v - 1];
  }

  // ----- the collected events

  ghost predicate Occurs(events: seq<BlockEvent>, v: nat) {
    exists i :: 0 <= i < |events| && events[i].blockNum == v
  }

  lemma OccursAppend(xs: seq<BlockEvent>, ys: seq<BlockEvent>, v: nat)
    ensures Occurs(xs + ys, v) <==> Occurs(xs, v) || Occurs(ys, v)
  {
    var all := xs + ys;
    if Occurs(xs, v) {
      var i :| 0 <= i < |xs| && xs[i].blockNum == v;
      assert all[i].blockNum == v;
    }
    if Occurs(ys, v) {
      var i :| 0 <= i < |ys| && ys[i].blockNum == v;
      assert all[|xs| + i].blockNum == v;
    }
    if Occurs(all, v) {
      var i :| 0 <= i < |all| && all[i].blockNum == v;
      assert if i < |xs| then xs[i].blockNum == v else ys[i - |xs|].blockNum == v;
    }
  }

  /** Every number above the tree and below v occurs. */
  ghost predicate Filled(events: seq<BlockEvent>, tree: nat, v: nat) {
    forall w: nat :: tree < w < v ==> Occurs(events, w)
  }

  /** Every surviving committed block above the tree occurs. */
  ghost predicate AllPresent(events: seq<BlockEvent>, tree: nat, s: ChainState, rest: seq<Log>) {
    forall v: nat :: tree < v <= |s.commits| && Survives(rest, v) ==> Occurs(events, v)
  }

  /** Before every surviving event, the smaller numbers above the tree occur. */
  ghost predicate InSequence(events: seq<BlockEvent>, tree: nat, rest: seq<Log>)
    decreases |events|
  {
    events == [] ||
    var n := |events| - 1;
    && InSequence(events[..n], tree, rest)
    && (Survives(rest, events[n].blockNum) ==> Filled(events[..n], tree, events[n].blockNum))
  }

  /** Every surviving event above the tree is the one of the chain state. */
  ghost predicate OnChain(events: seq<BlockEvent>, tree: nat, rest: seq<Log>, h: ChainState) {
    forall i :: 0 <= i < |events| && events[i].blockNum > tree && Survives(rest, events[i].blockNum) ==>
      IsCommit(h, events[i])
  }

  /**
   The events collected up to a position with chain state s, where `rest` are the logs from there to the highest
   watched block, whose chain state is h.
   */
  ghost predicate Covers(events: seq<BlockEvent>, tree: nat, s: ChainState, rest: seq<Log>, h: ChainState) {
    AllPresent(events, tree, s, rest) && InSequence(events, tree, rest) && OnChain(events, tree, rest, h)
  }

  // ----- fewer survivors, a higher tree

  ghost predicate FewerSurvive(rest: seq<Log>, rest': seq<Log>) {
    forall v: nat :: Survives(rest', v) ==> Survives(rest, v)
  }

  lemma {:induction false} InSequenceWeakens(events: seq<BlockEvent>, tree: nat, tree': nat, rest: seq<Log>,
                                             rest': seq<Log>)
    requires InSequence(events, tree, rest) && tree <= tree' && FewerSurvive(rest, rest')
    ensures InSequence(events, tree', rest')
    decreases |events|
  {
    if events == [] {
    } else {
      InSequenceWeakens(events[..|events| - 1], tree, tree', rest, rest');
    }
  }

  lemma TreeGrows(events: seq<BlockEvent>, tree: nat, tree': nat, s: ChainState, rest: seq<Log>, h: ChainState)
    requires Covers(events, tree, s, rest, h) && tree <= tree'
    ensures Covers(events, tree', s, rest, h)
  {
    InSequenceWeakens(events, tree, tree', rest, rest);
  }

  /** The highest watched block moves on. */
  lemma HighestMoves(events: seq<BlockEvent>, tree: nat, s: ChainState, rest: seq<Log>, h: ChainState, more: seq<Log>,
                     h': ChainState, all: seq<Log>, u: Upgrades)
    requires Covers(events, tree, s, rest, h) && AdvanceAll(h, more, u) == Some(h') && all == rest + more
    ensures Covers(events, tree, s, all, h')
  {
    forall v: nat
      ensures Survives(all, v) <==> Survives(rest, v) && Survives(more, v)
    {
      SurvivesAppend(rest, more, v);
    }
    InSequenceWeakens(events, tree, tree, rest, all);
    forall i | 0 <= i < |events| && events[i].blockNum > tree && Survives(all, events[i].blockNum)
      ensures IsCommit(h', events[i])
    {
      CommitStays(h, more, u, events[i]);
    }
  }

  /** The position falls back over some logs. */
  lemma PositionFallsBack(events: seq<BlockEvent>, tree: nat, s: ChainState, rest: seq<Log>, h: ChainState,
                          s0: ChainState, back: seq<Log>, all: seq<Log>, u: Upgrades)
    requires Covers(events, tree, s, rest, h) && AdvanceAll(s0, back, u) == Some(s) && all == back + rest
    ensures Covers(events, tree, s0, all, h)
  {
    forall v: nat
      ensures Survives(all, v) <==> Survives(back, v) && Survives(rest, v)
    {
      SurvivesAppend(back, rest, v);
    }
    InSequenceWeakens(events, tree, tree, rest, all);
    forall v: nat | tree < v <= |s0.commits| && Survives(all, v)
      ensures Occurs(events, v)
    {
      SurvivorStays(s0, back, u, v);
    }
  }

  // ----- filters

  lemma {:induction false} UpToAppend(xs: seq<BlockEvent>, ys: seq<BlockEvent>, n: nat)
    ensures UpTo(xs + ys, n) == UpTo(xs, n) + UpTo(ys, n) && Above(xs + ys, n) == Above(xs, n) + Above(ys, n)
    decreases |xs|
  {
    if xs == [] {
      assert xs + ys == ys;
    } else {
      assert (xs + ys)[0] == xs[0] && (xs + ys)[1..] == xs[1..] + ys;
      UpToAppend(xs[1..], ys, n);
      var low, high := if xs[0].blockNum <= n then [xs[0]] else [], if xs[0].blockNum > n then [xs[0]] else [];
      assert low + (UpTo(xs[1..], n) + UpTo(ys, n)) == low + UpTo(xs[1..], n) + UpTo(ys, n);
      assert high + (Above(xs[1..], n) + Above(ys, n)) == high + Above(xs[1..], n) + Above(ys, n);
    }
  }

  lemma FilterLast(events: seq<BlockEvent>, n: nat)
    requires events != []
    ensures var k := |events| - 1;
      && UpTo(events, n) == UpTo(events[..k], n) + (if events[k].blockNum <= n then [events[k]] else [])
      && Above(events, n) == Above(events[..k], n) + (if events[k].blockNum > n then [events[k]] else [])
  {
    var k := |events| - 1;
    assert events == events[..k] + [events[k]];
    UpToAppend(events[..k], [events[k]], n);
    assert [events[k]][1..] == [];
  }

  lemma OccursFiltered(events: seq<BlockEvent>, n: nat, v: nat)
    requires Occurs(events, v)
    ensures if v <= n then Occurs(UpTo(events, n), v) else Occurs(Above(events, n), v)
  {
    var i :| 0 <= i < |events| && events[i].blockNum == v;
    UpToMember(events, n, events[i]);
    AboveMember(events, n, events[i]);
  }

  lemma FilledUpTo(events: seq<BlockEvent>, tree: nat, v: nat, n: nat)
    requires Filled(events, tree, v) && v <= n
    ensures Filled(UpTo(events, n), tree, v)
  {
    forall w: nat | tree < w < v
      ensures Occurs(UpTo(events, n), w)
    {
      OccursFiltered(events, n, w);
    }
  }

  lemma FilledAbove(events: seq<BlockEvent>, tree: nat, v: nat, n: nat)
    requires Filled(events, tree, v) && n <= tree
    ensures Filled(Above(events, n), tree, v)
  {
    forall w: nat | tree < w < v
      ensures Occurs(Above(events, n), w)
    {
      OccursFiltered(events, n, w);
    }
  }

  lemma {:induction false} InSequenceLast(events: seq<BlockEvent>, e: BlockEvent, tree: nat, rest: seq<Log>)
    requires InSequence(events, tree, rest) && (Survives(rest, e.blockNum) ==> Filled(events, tree, e.blockNum))
    ensures InSequence(events + [e], tree, rest)
  {
    assert (events + [e])[..|events|] == events;
  }

  /** Keeping the events up to n keeps the sequence for survivors up to n. */
  lemma {:induction false} InSequenceUpTo(events: seq<BlockEvent>, tree: nat, rest: seq<Log>, rest': seq<Log>, n: nat)
    requires InSequence(events, tree, rest)
    requires forall v: nat :: v <= n && Survives(rest', v) ==> Survives(rest, v)
    ensures InSequence(UpTo(events, n), tree, rest')
    decreases |events|
  {
    if events == [] {
    } else {
      var k := |events| - 1;
      InSequenceUpTo(events[..k], tree, rest, rest', n);
      FilterLast(events, n);
      if events[k].blockNum <= n {
        if Survives(rest', events[k].blockNum) {
          FilledUpTo(events[..k], tree, events[k].blockNum, n);
        }
        InSequenceLast(UpTo(events[..k], n), events[k], tree, rest');
      } else {
        assert UpTo(events[..k], n) + [] == UpTo(events[..k], n);
      }
    }
  }

  lemma {:induction false} InSequenceAbove(events: seq<BlockEvent>, tree: nat, rest: seq<Log>, n: nat)
    requires InSequence(events, tree, rest) && n <= tree
    ensures InSequence(Above(events, n), tree, rest)
    decreases |events|
  {
    if events == [] {
    } else {
      var k := |events| - 1;
      InSequenceAbove(events[..k], tree, rest, n);
      FilterLast(events, n);
      if events[k].blockNum > n {
        if Survives(rest, events[k].blockNum) {
          FilledAbove(events[..k], tree, events[k].blockNum, n);
        }
        InSequenceLast(Above(events[..k], n), events[k], tree, rest);
      } else {
        assert Above(events[..k], n) + [] == Above(events[..k], n);
      }
    }
  }

  /** Events of blocks that the tree has may be dropped. */
  lemma DropDone(events: seq<BlockEvent>, tree: nat, s: ChainState, rest: seq<Log>, h: ChainState, n: nat)
    requires Covers(events, tree, s, rest, h) && n <= tree
    ensures Covers(Above(events, n), tree, s, rest, h)
  {
    var events' := Above(events, n);
    InSequenceAbove(events, tree, rest, n);
    forall v: nat | tree < v <= |s.commits| && Survives(rest, v)
      ensures Occurs(events', v)
    {
      OccursFiltered(events, n, v);
    }
    forall i | 0 <= i < |events'| && events'[i].blockNum > tree && Survives(rest, events'[i].blockNum)
      ensures IsCommit(h, events'[i])
    {
      AboveMember(events, n, events'[i]);
      var j :| 0 <= j < |events| && events[j] == events'[i];
    }
  }

  // ----- reading logs

  lemma ReadCommit(events: seq<BlockEvent>, tree: nat, s: ChainState, rest: seq<Log>, h: ChainState, u: Upgrades,
                   e: BlockEvent)
    requires Covers(events, tree, s, rest, h)
    requires e.blockNum == |s.commits| + 1 && e.blockType == Committed
    requires AdvanceAll(s.(commits := s.commits + [Commit(e.txHash, e.version)]), rest, u) == Some(h)
    ensures Covers(events + [e], tree, s.(commits := s.commits + [Commit(e.txHash, e.version)]), rest, h)
  {
    var s', v := s.(commits := s.commits + [Commit(e.txHash, e.version)]), e.blockNum;
    var events' := events + [e];
    assert Occurs([e], v) by {
      assert [e][0].blockNum == v;
    }
    forall w: nat | tree < w <= v && Survives(rest, w)
      ensures Occurs(events', w)
    {
      OccursAppend(events, [e], w);
    }
    if Survives(rest, v) {
      assert Filled(events, tree, v) by {
        forall w: nat | tree < w < v
          ensures Occurs(events, w)
        {
          SurvivesBelow(rest, v, w);
        }
      }
      CommitStays(s', rest, u, e);
    }
    InSequenceLast(events, e, tree, rest);
  }

  lemma ReadRevert(events: seq<BlockEvent>, tree: nat, s: ChainState, log: Log, rest: seq<Log>, h: ChainState)
    requires log.BlocksRevert? && log.totalCommitted <= |s.commits| && Covers(events, tree, s, [log] + rest, h)
    ensures Covers(UpTo(events, log.totalCommitted), tree, s.(commits := s.commits[..log.totalCommitted]), rest, h)
  {
    var n := log.totalCommitted;
    var events' := UpTo(events, n);
    forall v: nat
      ensures Survives([log] + rest, v) <==> v <= n && Survives(rest, v)
    {
      SurvivesFirst(log, rest, v);
    }
    InSequenceUpTo(events, tree, [log] + rest, rest, n);
    forall v: nat | tree < v <= n && Survives(rest, v)
      ensures Occurs(events', v)
    {
      OccursFiltered(events, n, v);
    }
    forall i | 0 <= i < |events'| && events'[i].blockNum > tree && Survives(rest, events'[i].blockNum)
      ensures IsCommit(h, events'[i])
    {
      UpToMember(events, n, events'[i]);
      var j :| 0 <= j < |events| && events[j] == events'[i];
    }
  }

  lemma PassLog(events: seq<BlockEvent>, tree: nat, s: ChainState, log: Log, rest: seq<Log>, h: ChainState)
    requires !log.BlocksRevert? && Covers(events, tree, s, [log] + rest, h)
    ensures Covers(events, tree, s, rest, h)
  {
    forall v: nat
      ensures Survives([log] + rest, v) <==> Survives(rest, v)
    {
      SurvivesFirst(log, rest, v);
    }
    InSequenceWeakens(events, tree, tree, [log] + rest, rest);
  }

  lemma ReadLog(e: Events, tree: nat, s: ChainState, log: Log, rest: seq<Log>, h: ChainState, u: Upgrades)
    requires Covers(e.committed, tree, s, [log] + rest, h)
    requires Advance(s, log, u).Some? && AdvanceAll(Advance(s, log, u).value, rest, u) == Some(h)
    ensures Covers(ApplyLog(e, log, u).committed, tree, Advance(s, log, u).value, rest, h)
  {
    match log
    case BlockCommit(eth, tx, n) =>
      PassLog(e.committed, tree, s, log, rest, h);
      ReadCommit(e.committed, tree, s, rest, h, u, BlockEvent(n, tx, Committed, VersionAt(u, eth)));
    case BlockVerification(_, _, _) =>
      PassLog(e.committed, tree, s, log, rest, h);
    case BlocksRevert(_, _) =>
      ReadRevert(e.committed, tree, s, log, rest, h);
  }

  /** Reading logs moves the position through them. */
  lemma {:induction false} ReadLogs(e: Events, tree: nat, s: ChainState, logs: seq<Log>, rest: seq<Log>, h: ChainState,
                                    u: Upgrades)
    requires Covers(e.committed, tree, s, logs + rest, h)
    requires AdvanceAll(s, logs, u).Some? && AdvanceAll(AdvanceAll(s, logs, u).value, rest, u) == Some(h)
    ensures Covers(ApplyLogs(e, logs, u).committed, tree, AdvanceAll(s, logs, u).value, rest, h)
    decreases |logs|
  {
    if logs == [] {
      assert logs + rest == rest;
    } else {
      var n := |logs| - 1;
      var before, log := logs[..n], logs[n];
      var middle := AdvanceAll(s, before, u).value;
      assert logs + rest == before + ([log] + rest);
      AdvanceFirst(middle, log, rest, u);
      ReadLogs(e, tree, s, before, [log] + rest, h, u);
      ReadLog(ApplyLogs(e, before, u), tree, middle, log, rest, h, u);
    }
  }

  lemma AdvanceFirst(s: ChainState, log: Log, rest: seq<Log>, u: Upgrades)
    requires Advance(s, log, u).Some?
    ensures AdvanceAll(s, [log] + rest, u) == AdvanceAll(Advance(s, log, u).value, rest, u)
  {
    AdvanceAllAppend(s, [log], rest, u);
    assert [log][..0] == [];
    assert AdvanceAll(s, [log][..0], u) == Some(s);
  }

  // ----- the verified events of one window

  ghost predicate VerifiedFrom(verified: seq<BlockEvent>, k: nat, s: ChainState) {
    k <= s.executed && |verified| == s.executed - k && NumberedFrom(verified, k)
  }

  lemma VerifiedLog(e: Events, k: nat, s: ChainState, log: Log, u: Upgrades)
    requires VerifiedFrom(e.verified, k, s) && Advance(s, log, u).Some?
    ensures VerifiedFrom(ApplyLog(e, log, u).verified, k, Advance(s, log, u).value)
  {
    if log.BlocksRevert? {
      FilterNumbered(e.verified, k, s.executed);
      assert e.verified[..s.executed - k] == e.verified;
    }
  }

  lemma {:induction false} VerifiedLogs(e: Events, k: nat, s: ChainState, logs: seq<Log>, u: Upgrades)
    requires VerifiedFrom(e.verified, k, s) && AdvanceAll(s, logs, u).Some?
    ensures VerifiedFrom(ApplyLogs(e, logs, u).verified, k, AdvanceAll(s, logs, u).value)
    decreases |logs|
  {
    if logs == [] {
    } else {
      var n := |logs| - 1;
      VerifiedLogs(e, k, s, logs[..n], u);
      VerifiedLog(ApplyLogs(e, logs[..n], u), k, AdvanceAll(s, logs[..n], u).value, logs[n], u);
    }
  }

  // ----- feeding

  ghost predicate Preceded(events: seq<BlockEvent>, last: nat) {
    forall i :: 0 <= i < |events| ==> Filled(events[..i], last, events[i].blockNum)
  }

  lemma {:induction false} SequencePrecedes(events: seq<BlockEvent>, last: nat, i: nat)
    requires InSequence(events, last, []) && i < |events|
    ensures Filled(events[..i], last, events[i].blockNum)
    decreases |events|
  {
    var n := |events| - 1;
    if i < n {
      SequencePrecedes(events[..n], last, i);
      assert events[..n][..i] == events[..i];
    }
  }

  lemma OccursTail(events: seq<BlockEvent>, i: nat, w: nat)
    requires 0 < i <= |events| && Occurs(events[..i], w) && events[0].blockNum != w
    ensures Occurs(events[1..][..i - 1], w)
  {
    var j :| 0 <= j < i && events[..i][j].blockNum == w;
    assert events[1..][..i - 1][j - 1] == events[j];
  }

  /** Without the first event, and with the tree at least at its number. */
  lemma PrecededTail(events: seq<BlockEvent>, last: nat, next: nat)
    requires events != [] && Preceded(events, last) && last <= next && events[0].blockNum <= next
    ensures Preceded(events[1..], next)
  {
    var rest := events[1..];
    forall i | 0 <= i < |rest|
      ensures Filled(rest[..i], next, rest[i].blockNum)
    {
      assert rest[i] == events[i + 1] && Filled(events[..i + 1], last, events[i + 1].blockNum);
      forall w: nat | next < w < rest[i].blockNum
        ensures Occurs(rest[..i], w)
      {
        OccursTail(events, i + 1, w);
      }
    }
  }

  /** The blocks of `bs` are next after `last`, and reach the greatest of the events. */
  ghost predicate Feeds(fetch: Fetch, events: seq<BlockEvent>, last: nat, s: ChainState, bs: seq<RollupBlock>) {
    && ChainSlice(fetch, s, last, bs)
    && (forall i :: 0 <= i < |events| ==> events[i].blockNum <= last + |bs|)
    && (bs != [] ==> Occurs(events, last + |bs|))
  }

  lemma FeedsFirst(fetch: Fetch, events: seq<BlockEvent>, last: nat, s: ChainState, b: RollupBlock,
                   rest: seq<RollupBlock>)
    requires events != [] && events[0].blockNum == last + 1 && IsCommit(s, events[0])
    requires Lookup(fetch, events[0]) == Some(b)
    requires Feeds(fetch, events[1..], last + 1, s, rest)
    ensures Feeds(fetch, events, last, s, [b] + rest)
  {
    var bs := [b] + rest;
    forall i | 0 <= i < |bs|
      ensures ChainBlock(fetch, s, last + i) == Some(bs[i]) && bs[i].blockNum == last + i + 1
    {
      if i > 0 {
        assert ChainBlock(fetch, s, last + 1 + (i - 1)) == Some(rest[i - 1]);
      }
    }
    forall i | 0 <= i < |events|
      ensures events[i].blockNum <= last + |bs|
    {
      assert i > 0 ==> events[i] == events[1..][i - 1];
    }
    if rest == [] {
      assert events[0].blockNum == last + |bs|;
    } else {
      var i :| 0 <= i < |events| - 1 && events[1..][i].blockNum == last + 1 + |rest|;
      assert events[i + 1].blockNum == last + |bs|;
    }
  }

  lemma FeedsSkip(fetch: Fetch, events: seq<BlockEvent>, last: nat, s: ChainState, bs: seq<RollupBlock>)
    requires events != [] && events[0].blockNum <= last && Feeds(fetch, events[1..], last, s, bs)
    ensures Feeds(fetch, events, last, s, bs)
  {
    forall i | 0 <= i < |events|
      ensures events[i].blockNum <= last + |bs|
    {
      assert i > 0 ==> events[i] == events[1..][i - 1];
    }
    if bs != [] {
      var i :| 0 <= i < |events| - 1 && events[1..][i].blockNum == last + |bs|;
      assert events[i + 1].blockNum == last + |bs|;
    }
  }

  /** Events in sequence, repeated or not, feed the contract's next blocks without a gap. */
  lemma {:induction false} SequenceFeeds(fetch: Fetch, events: seq<BlockEvent>, last: nat, s: ChainState)
    requires Preceded(events, last) && OnChain(events, last, [], s) && last <= |s.commits|
    requires DirectBlocks(fetch, events, last).Some?
    ensures Feeds(fetch, events, last, s, DirectBlocks(fetch, events, last).value)
    decreases |events|
  {
    if events == [] {
    } else {
      var e, rest := events[0], events[1..];
      assert forall i :: 0 <= i < |rest| ==> rest[i] == events[i + 1];
      if e.blockNum <= last {
        PrecededTail(events, last, last);
        SequenceFeeds(fetch, rest, last, s);
        FeedsSkip(fetch, events, last, s, DirectBlocks(fetch, rest, last).value);
      } else {
        assert IsCommit(s, e);
        FirstIsNext(events, last);
        PrecededTail(events, last, last + 1);
        SequenceFeeds(fetch, rest, last + 1, s);
        FeedsFirst(fetch, events, last, s, Lookup(fetch, e).value, DirectBlocks(fetch, rest, last + 1).value);
      }
    }
  }

  lemma FirstIsNext(events: seq<BlockEvent>, last: nat)
    requires events != [] && Preceded(events, last) && events[0].blockNum > last
    ensures events[0].blockNum == last + 1
  {
    assert Filled(events[..0], last, events[0].blockNum);
    assert !Occurs(events[..0], last + 1);
  }

  lemma UpToFeeds(fetch: Fetch, committed: seq<BlockEvent>, tree: nat, s: ChainState, n: nat)
    requires Covers(committed, tree, s, [], s) && tree <= n <= |s.commits|
    requires DirectBlocks(fetch, UpTo(committed, n), tree).Some?
    ensures var bs := DirectBlocks(fetch, UpTo(committed, n), tree).value;
      ChainSlice(fetch, s, tree, bs) && tree + |bs| == n
  {
    var events := UpTo(committed, n);
    InSequenceUpTo(committed, tree, [], [], n);
    assert Preceded(events, tree) by {
      forall i | 0 <= i < |events|
        ensures Filled(events[..i], tree, events[i].blockNum)
      {
        SequencePrecedes(events, tree, i);
      }
    }
    UpToOnChain(committed, tree, s, n);
    SequenceFeeds(fetch, events, tree, s);
    ReachesExecuted(fetch, committed, tree, s, n, DirectBlocks(fetch, events, tree).value);
  }

  lemma LastVerified(verified: seq<BlockEvent>, s: ChainState, k: nat)
    requires VerifiedFrom(verified, k, s)
    ensures MaxBlockNum(verified) == if verified == [] then None else Some(s.executed)
  {
    MaxNumbered(verified, k);
  }

  /** At the highest watched block, the new blocks are those executed since the tree's block. */
  lemma NewlyExecutedFeed(fetch: Fetch, e: Events, tree: nat, s: ChainState, k: nat)
    requires Covers(e.committed, tree, s, [], s) && VerifiedFrom(e.verified, k, s)
    requires k <= tree <= s.executed <= |s.commits|
    requires DirectBlocks(fetch, VerifiedCommitted(e), tree).Some?
    ensures var bs := DirectBlocks(fetch, VerifiedCommitted(e), tree).value;
      ChainSlice(fetch, s, tree, bs) && tree + |bs| == s.executed
  {
    LastVerified(e.verified, s, k);
    if e.verified != [] {
      UpToFeeds(fetch, e.committed, tree, s, s.executed);
    }
  }

  lemma UpToOnChain(events: seq<BlockEvent>, tree: nat, s: ChainState, n: nat)
    requires OnChain(events, tree, [], s)
    ensures OnChain(UpTo(events, n), tree, [], s)
  {
    var events' := UpTo(events, n);
    forall i | 0 <= i < |events'| && events'[i].blockNum > tree && Survives([], events'[i].blockNum)
      ensures IsCommit(s, events'[i])
    {
      UpToMember(events, n, events'[i]);
      var j :| 0 <= j < |events| && events[j] == events'[i];
    }
  }

  lemma ReachesExecuted(fetch: Fetch, events: seq<BlockEvent>, tree: nat, s: ChainState, n: nat, bs: seq<RollupBlock>)
    requires AllPresent(events, tree, s, []) && tree <= n <= |s.commits| && Feeds(fetch, UpTo(events, n), tree, s, bs)
    ensures tree + |bs| == n
  {
    if tree < n {
      assert Survives([], n);
      OccursFiltered(events, n, n);
      var i :| 0 <= i < |UpTo(events, n)| && UpTo(events, n)[i].blockNum == n;
    }
    if bs != [] {
      var i :| 0 <= i < |UpTo(events, n)| && UpTo(events, n)[i].blockNum == tree + |bs|;
      UpToMember(events, n, UpTo(events, n)[i]);
    }
  }

  /** Behind it, verified events are of blocks that the tree has, and nothing new is found. */
  lemma {:induction false} NothingNew(fetch: Fetch, events: seq<BlockEvent>, tree: nat)
    requires forall i :: 0 <= i < |events| ==> events[i].blockNum <= tree
    ensures DirectBlocks(fetch, events, tree) == Some([])
    decreases |events|
  {
    if events == [] {
    } else {
      NothingNew(fetch, events[1..], tree);
    }
  }

  lemma OldVerificationsFeedNothing(fetch: Fetch, e: Events, tree: nat, s: ChainState, k: nat)
    requires VerifiedFrom(e.verified, k, s) && s.executed <= tree
    ensures DirectBlocks(fetch, VerifiedCommitted(e), tree) == Some([])
  {
    LastVerified(e.verified, s, k);
    var events := VerifiedCommitted(e);
    forall i | 0 <= i < |events|
      ensures events[i].blockNum <= tree
    {
      UpToMember(e.committed, s.executed, events[i]);
    }
    NothingNew(fetch, events, tree);
  }
}
