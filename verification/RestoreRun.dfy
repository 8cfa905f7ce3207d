/**
 The data restore driver as a state machine over its storage: poll events, save operations, update
 the tree; crash anywhere in between and restart from storage. Two results over whole runs: the tree
 is fed exactly the contract's executed blocks however logs fall into windows, and every interleaving
 of crashes recovers to what the uninterrupted driver computes.
 */
module RestoreRun {
  import opened Wrappers
  import opened RestoreEvents
  import opened OpsBlocks
  import opened TreeState
  import opened ContractHistory
  import opened LaggingEvents

  datatype Config = Config(logsAt: nat -> seq<Log>, upgrades: Upgrades, step: nat, fetch: Fetch, vm: Vm)

  /** The part of the tree state that storage preserves. */
  datatype Ledger = Ledger(accounts: AccountMap, blockNumber: nat)

  datatype Driver = Driver(events: Events, ledger: Ledger)

  datatype Phase = NothingPending | EventsSaved | OperationsSaved

  datatype Store = Store(phase: Phase, rollups: seq<RollupBlock>, events: seq<BlockEvent>, lastWatched: nat,
                         lastVerified: nat, accounts: AccountMap)

  // ----- storage

  function SaveEvents(s: Store, e: Events): Store {
    s.(events := e.committed + e.verified, lastWatched := e.lastWatched, phase := EventsSaved)
  }

  function SaveRollupOps(s: Store, bs: seq<RollupBlock>): Store {
    s.(rollups := bs, phase := OperationsSaved)
  }

  function SaveTree(s: Store, blockNumber: nat, updates: Updates): Option<Store> {
    var accounts := ApplyUpdates(s.accounts, updates);
    if accounts.None? then None
    else Some(s.(accounts := accounts.value, lastVerified := blockNumber, phase := NothingPending))
  }

  function LoadEvents(s: Store): Events {
    Events(OfType(s.events, Committed), OfType(s.events, Verified), s.lastWatched)
  }

  function LoadLedger(s: Store): Ledger {
    Ledger(s.accounts, s.lastVerified)
  }

  // ----- replaying blocks

  datatype Replayed = Replayed(ledger: Ledger, updates: Updates)

  function ReplayBlock(vm: Vm, l: Ledger, b: RollupBlock): Option<Replayed> {
    var r := ExecuteBlock(vm, Tree(l.accounts, 0, l.blockNumber), 0, b);
    if r.None? then None
    else Some(Replayed(Ledger(r.value.tree.accounts, r.value.tree.blockNumber), r.value.updates))
  }

  function Replay(vm: Vm, l: Ledger, bs: seq<RollupBlock>): Option<Ledger>
    decreases |bs|
  {
    if bs == [] then Some(l)
    else
      var before := Replay(vm, l, bs[..|bs| - 1]);
      if before.None? then None
      else
        var r := ReplayBlock(vm, before.value, bs[|bs| - 1]);
        if r.None? then None else Some(r.value.ledger)
  }

  /** Replays blocks and stores each of them. */
  function UpdateTree(vm: Vm, l: Ledger, s: Store, bs: seq<RollupBlock>): Option<(Ledger, Store)>
    decreases |bs|
  {
    if bs == [] then Some((l, s))
    else
      var before := UpdateTree(vm, l, s, bs[..|bs| - 1]);
      if before.None? then None
      else
        var b := bs[|bs| - 1];
        var r := ReplayBlock(vm, before.value.0, b);
        if r.None? then None
        else
          var s' := SaveTree(before.value.1, b.blockNum, r.value.updates);
          if s'.None? then None else Some((r.value.ledger, s'.value))
  }

  function NewBlocks(cfg: Config, e: Events, l: Ledger): Option<seq<RollupBlock>> {
    DirectBlocks(cfg.fetch, VerifiedCommitted(e), l.blockNumber)
  }

  /** Loading after a restart, which finishes whatever storage says is pending. */
  function Load(cfg: Config, s: Store): Option<(Driver, Store)> {
    var e, l := LoadEvents(s), LoadLedger(s);
    match s.phase
    case NothingPending => Some((Driver(e, l), s))
    case EventsSaved =>
      var bs := NewBlocks(cfg, e, l);
      if bs.None? then None
      else
        var r := UpdateTree(cfg.vm, l, SaveRollupOps(s, bs.value), bs.value);
        if r.None? then None else Some((Driver(e, r.value.0), r.value.1))
    case OperationsSaved =>
      var r := UpdateTree(cfg.vm, l, s, s.rollups);
      if r.None? then None else Some((Driver(e, r.value.0), r.value.1))
  }

  // ----- the driver without crashes

  datatype Progress = Progress(driver: Driver, fed: seq<RollupBlock>)

  /** One round of the main loop: `latest` is the chain head minus the offset at that time. */
  function Iterate(cfg: Config, p: Progress, latest: nat): Option<Progress> {
    var e := Poll(p.driver.events, cfg.logsAt, cfg.upgrades, latest, cfg.step);
    var bs := NewBlocks(cfg, e, p.driver.ledger);
    if bs.None? then None
    else
      var l := Replay(cfg.vm, p.driver.ledger, bs.value);
      if l.None? then None else Some(Progress(Driver(e, l.value), p.fed + bs.value))
  }

  function Uninterrupted(cfg: Config, start: Progress, latests: seq<nat>): Option<Progress>
    decreases |latests|
  {
    if latests == [] then Some(start)
    else
      var before := Uninterrupted(cfg, start, latests[..|latests| - 1]);
      if before.None? then None else Iterate(cfg, before.value, latests[|latests| - 1])
  }

  /** The driver after the genesis block of the contract at Ethereum block g. */
  function Start(g: nat, accounts: AccountMap): Progress {
    Progress(Driver(Events([], [], g), Ledger(accounts, 0)), [])
  }

  /** The contract after all logs up to Ethereum block n, if they obey its discipline. */
  function History(cfg: Config, g: nat, n: nat): Option<ChainState> {
    AdvanceAll(GENESIS, LogsIn(cfg.logsAt, g + 1, n + 1), cfg.upgrades)
  }

  /** Logs obey the contract from Ethereum block g on. */
  ghost predicate Lawful(cfg: Config, g: nat) {
    forall n: nat :: n >= g ==> History(cfg, g, n).Some?
  }

  ghost function ChainAt(cfg: Config, g: nat, n: nat): ChainState
    requires Lawful(cfg, g) && n >= g
  {
    History(cfg, g, n).value
  }

  /** After the heads `before`, the next one is not behind the last watched block. */
  ghost predicate KeepsUp(cfg: Config, start: Progress, before: seq<nat>, latest: nat) {
    var p := Uninterrupted(cfg, start, before);
    p.Some? ==> latest >= p.value.driver.events.lastWatched
  }

  /** Heads never fall behind the last watched block. */
  ghost predicate HeadsKeepUp(cfg: Config, start: Progress, latests: seq<nat>)
    decreases |latests|
  {
    latests == [] ||
    var n := |latests| - 1;
    HeadsKeepUp(cfg, start, latests[..n]) && KeepsUp(cfg, start, latests[..n], latests[n])
  }

  /**
   Between rounds, when `high` is the highest watched block: the events serve the blocks still to come, and exactly
   the blocks executed by then have been fed.
   */
  ghost predicate InStep(cfg: Config, low: nat, accounts: AccountMap, p: Progress, high: nat)
    requires Lawful(cfg, low)
  {
    var e := p.driver.events;
    && low <= e.lastWatched <= high
    && EventsInStep(cfg, low, e, p.driver.ledger.blockNumber, high)
    && FedUpTo(cfg, accounts, p, ChainAt(cfg, low, high))
  }

  ghost predicate EventsInStep(cfg: Config, low: nat, e: Events, tree: nat, high: nat)
    requires Lawful(cfg, low) && low <= e.lastWatched <= high
  {
    && Serves(cfg, low, e.committed, tree, e.lastWatched, high)
    && forall i :: 0 <= i < |e.verified| ==> e.verified[i].blockNum <= tree
  }

  ghost predicate Serves(cfg: Config, low: nat, committed: seq<BlockEvent>, tree: nat, n: nat, high: nat)
    requires Lawful(cfg, low) && low <= n <= high
  {
    Covers(committed, tree, ChainAt(cfg, low, n), LogsIn(cfg.logsAt, n + 1, high + 1), ChainAt(cfg, low, high))
  }

  /** Exactly the executed blocks have been fed, and the ledger is their replay. */
  ghost predicate FedUpTo(cfg: Config, accounts: AccountMap, p: Progress, s: ChainState) {
    && p.driver.ledger.blockNumber == s.executed == |p.fed| <= |s.commits|
    && ChainSlice(cfg.fetch, s, 0, p.fed)
    && Replay(cfg.vm, Ledger(accounts, 0), p.fed) == Some(p.driver.ledger)
  }

  lemma {:induction false} ReplayAppend(vm: Vm, l: Ledger, xs: seq<RollupBlock>, ys: seq<RollupBlock>)
    requires Replay(vm, l, xs).Some?
    ensures Replay(vm, l, xs + ys) == Replay(vm, Replay(vm, l, xs).value, ys)
    decreases |ys|
  {
    if ys == [] {
      assert xs + ys == xs;
    } else {
      ReplayAppend(vm, l, xs, ys[..|ys| - 1]);
      assert (xs + ys)[..|xs + ys| - 1] == xs + ys[..|ys| - 1];
    }
  }

  lemma {:induction false} ReplayCounts(vm: Vm, l: Ledger, bs: seq<RollupBlock>)
    requires Replay(vm, l, bs).Some?
    ensures Replay(vm, l, bs).value.blockNumber == l.blockNumber + |bs|
    decreases |bs|
  {
    if bs == [] {
    } else {
      ReplayCounts(vm, l, bs[..|bs| - 1]);
    }
  }

  /** One block leads from ledger l to l': its operations in order, then the fees they reported. */
  ghost predicate LedgerStep(vm: Vm, l: Ledger, b: RollupBlock, l': Ledger) {
    && l'.blockNumber == l.blockNumber + 1
    && exists a :: Replayable(vm, Tree(l.accounts, 0, l.blockNumber), b, a)
                   && l'.accounts == vm.collectFee(a[|b.ops|], FeesOf(vm, l.accounts, b.ops, a), b.feeAccount).0
  }

  /** The ledgers before, between and after the blocks. */
  ghost predicate Ledgers(vm: Vm, l: Ledger, bs: seq<RollupBlock>, ls: seq<Ledger>)
    decreases |bs|
  {
    |ls| == |bs| + 1 &&
    if bs == [] then ls == [l]
    else
      var n := |bs| - 1;
      Ledgers(vm, l, bs[..n], ls[..n + 1]) && LedgerStep(vm, ls[n], bs[n], ls[n + 1])
  }

  lemma ReplayBlockMeaning(vm: Vm, l: Ledger, b: RollupBlock, l': Ledger)
    ensures ReplayBlock(vm, l, b).Some? && ReplayBlock(vm, l, b).value.ledger == l' <==> LedgerStep(vm, l, b, l')
  {
    var t := Tree(l.accounts, 0, l.blockNumber);
    BlockExecution(vm, t, 0, b);
    if ReplayBlock(vm, l, b).Some? {
      BlockBookkeeping(vm, t, 0, b);
      var a :| Replayable(vm, t, b, a);
      assert Executes(vm, t, b, a, ExecuteBlock(vm, t, 0, b).value);
    }
    forall a | Replayable(vm, t, b, a)
      ensures ExecuteBlock(vm, t, 0, b).Some? && Executes(vm, t, b, a, ExecuteBlock(vm, t, 0, b).value)
    {
    }
  }

  lemma {:induction false} ReplayHasLedgers(vm: Vm, l: Ledger, bs: seq<RollupBlock>) returns (ls: seq<Ledger>)
    requires Replay(vm, l, bs).Some?
    ensures Ledgers(vm, l, bs, ls) && Replay(vm, l, bs) == Some(ls[|bs|])
    decreases |bs|
  {
    if bs == [] {
      ls := [l];
    } else {
      var n, l' := |bs| - 1, Replay(vm, l, bs).value;
      var before := ReplayHasLedgers(vm, l, bs[..n]);
      ReplayBlockMeaning(vm, before[n], bs[n], l');
      ls := before + [l'];
      assert ls[..n + 1] == before;
    }
  }

  lemma {:induction false} LedgersReplay(vm: Vm, l: Ledger, bs: seq<RollupBlock>, ls: seq<Ledger>)
    requires Ledgers(vm, l, bs, ls)
    ensures Replay(vm, l, bs) == Some(ls[|bs|])
    decreases |bs|
  {
    if bs == [] {
    } else {
      var n := |bs| - 1;
      LedgersReplay(vm, l, bs[..n], ls[..n + 1]);
      ReplayBlockMeaning(vm, ls[n], bs[n], ls[n + 1]);
    }
  }

  /** A replay reaches l' exactly when the blocks lead there one by one. */
  lemma ReplayMeaning(vm: Vm, l: Ledger, bs: seq<RollupBlock>, l': Ledger)
    ensures Replay(vm, l, bs) == Some(l') <==> exists ls :: Ledgers(vm, l, bs, ls) && ls[|bs|] == l'
  {
    if Replay(vm, l, bs).Some? {
      var ls := ReplayHasLedgers(vm, l, bs);
    }
    forall ls | Ledgers(vm, l, bs, ls)
      ensures Replay(vm, l, bs) == Some(ls[|bs|])
    {
      LedgersReplay(vm, l, bs, ls);
    }
  }

  /** The chain at the end of a window is the chain at its start, advanced by the window's logs. */
  lemma ChainAdvances(cfg: Config, g: nat, n: nat, to: nat)
    requires Lawful(cfg, g) && g <= n <= to
    ensures AdvanceAll(ChainAt(cfg, g, n), LogsIn(cfg.logsAt, n + 1, to + 1), cfg.upgrades)
         == Some(ChainAt(cfg, g, to))
  {
    LogsInSplit(cfg.logsAt, g + 1, n + 1, to + 1);
    AdvanceAllAppend(GENESIS, LogsIn(cfg.logsAt, g + 1, n + 1), LogsIn(cfg.logsAt, n + 1, to + 1), cfg.upgrades);
  }

  lemma WindowTracks(cfg: Config, g: nat, e: Events, k: nat, w: Window)
    requires Lawful(cfg, g) && g <= e.lastWatched && w.from == e.lastWatched + 1 <= w.to
    requires Tracks(e, ChainAt(cfg, g, e.lastWatched), k)
    ensures var e' := ApplyLogs(e.(lastWatched := w.to), LogsIn(cfg.logsAt, w.from, w.to + 1), cfg.upgrades);
      e'.lastWatched == w.to && Tracks(e', ChainAt(cfg, g, w.to), k)
  {
    ChainAdvances(cfg, g, e.lastWatched, w.to);
    TracksLogs(e.(lastWatched := w.to), ChainAt(cfg, g, e.lastWatched), k, LogsIn(cfg.logsAt, w.from, w.to + 1),
               cfg.upgrades);
  }

  /** After a poll the events are those of the blocks after the previously executed one. */
  lemma PollTracks(cfg: Config, g: nat, e: Events, k: nat, latest: nat)
    requires Lawful(cfg, g) && g <= e.lastWatched <= latest && Tracks(e, ChainAt(cfg, g, e.lastWatched), k)
    ensures var e' := Poll(e, cfg.logsAt, cfg.upgrades, latest, cfg.step);
      && e.lastWatched <= e'.lastWatched <= latest
      && Tracks(e', ChainAt(cfg, g, e'.lastWatched), ChainAt(cfg, g, e.lastWatched).executed)
  {
    var s := ChainAt(cfg, g, e.lastWatched);
    TracksWithoutVerified(e, s, k);
    WindowsTile(e.lastWatched, latest, cfg.step);
    if latest > e.lastWatched {
      WindowTracks(cfg, g, WithoutVerified(e), s.executed, NextWindow(e.lastWatched, latest, cfg.step).value);
    }
  }

  /** Blocks that were executed stay in the contract's list. */
  lemma ExecutedSlicePersists(cfg: Config, g: nat, n: nat, n': nat, fed: seq<RollupBlock>)
    requires Lawful(cfg, g) && g <= n <= n'
    requires ChainSlice(cfg.fetch, ChainAt(cfg, g, n), 0, fed)
    requires |fed| == ChainAt(cfg, g, n).executed
    ensures ChainSlice(cfg.fetch, ChainAt(cfg, g, n'), 0, fed)
    ensures |fed| <= ChainAt(cfg, g, n').executed <= |ChainAt(cfg, g, n').commits|
  {
    var s, s' := ChainAt(cfg, g, n), ChainAt(cfg, g, n');
    ChainAdvances(cfg, g, n, n');
    ExecutedStays(s, LogsIn(cfg.logsAt, n + 1, n' + 1), cfg.upgrades);
    forall i | 0 <= i < |fed|
      ensures ChainBlock(cfg.fetch, s', 0 + i) == Some(fed[i]) && fed[i].blockNum == 0 + i + 1
    {
      assert s'.commits[..|fed|][i] == s.commits[..|fed|][i];
      assert ChainBlock(cfg.fetch, s, 0 + i) == Some(fed[i]);
    }
  }

  lemma SliceAppend(fetch: Fetch, s: ChainState, xs: seq<RollupBlock>, ys: seq<RollupBlock>)
    requires ChainSlice(fetch, s, 0, xs) && ChainSlice(fetch, s, |xs|, ys)
    ensures ChainSlice(fetch, s, 0, xs + ys)
  {
    forall i | 0 <= i < |xs + ys|
      ensures ChainBlock(fetch, s, 0 + i) == Some((xs + ys)[i]) && (xs + ys)[i].blockNum == 0 + i + 1
    {
      if i < |xs| {
        assert ChainBlock(fetch, s, 0 + i) == Some(xs[i]);
      } else {
        assert ChainBlock(fetch, s, |xs| + (i - |xs|)) == Some(ys[i - |xs|]);
      }
    }
  }

  // ----- one round, whatever the head

  lemma WithoutVerifiedInStep(cfg: Config, low: nat, e: Events, tree: nat, high: nat)
    requires Lawful(cfg, low) && low <= e.lastWatched <= high && EventsInStep(cfg, low, e, tree, high)
    ensures EventsInStep(cfg, low, WithoutVerified(e), tree, high)
  {
    var max := MaxBlockNum(e.verified);
    if max.Some? {
      DropDone(e.committed, tree, ChainAt(cfg, low, e.lastWatched), LogsIn(cfg.logsAt, e.lastWatched + 1, high + 1),
               ChainAt(cfg, low, high), max.value);
    }
  }

  /** The head fell behind: nothing is read and the position moves back. */
  lemma Backwards(cfg: Config, low: nat, events: seq<BlockEvent>, tree: nat, n: nat, high: nat, to: nat)
    requires Lawful(cfg, low) && low <= to <= n <= high && Serves(cfg, low, events, tree, n, high)
    ensures Serves(cfg, low, events, tree, to, high)
  {
    ChainAdvances(cfg, low, to, n);
    LogsInSplit(cfg.logsAt, to + 1, n + 1, high + 1);
    PositionFallsBack(events, tree, ChainAt(cfg, low, n), LogsIn(cfg.logsAt, n + 1, high + 1), ChainAt(cfg, low, high),
                      ChainAt(cfg, low, to), LogsIn(cfg.logsAt, to + 1, n + 1), LogsIn(cfg.logsAt, to + 1, high + 1),
                      cfg.upgrades);
  }

  lemma Higher(cfg: Config, low: nat, events: seq<BlockEvent>, tree: nat, n: nat, high: nat, high': nat)
    requires Lawful(cfg, low) && low <= n <= high <= high' && Serves(cfg, low, events, tree, n, high)
    ensures Serves(cfg, low, events, tree, n, high')
  {
    ChainAdvances(cfg, low, high, high');
    LogsInSplit(cfg.logsAt, n + 1, high + 1, high' + 1);
    HighestMoves(events, tree, ChainAt(cfg, low, n), LogsIn(cfg.logsAt, n + 1, high + 1), ChainAt(cfg, low, high),
                 LogsIn(cfg.logsAt, high + 1, high' + 1), ChainAt(cfg, low, high'),
                 LogsIn(cfg.logsAt, n + 1, high' + 1), cfg.upgrades);
  }

  /** A window is read: the position moves to its end, which the highest watched block includes. */
  lemma Forwards(cfg: Config, low: nat, e: Events, tree: nat, n: nat, high: nat, to: nat, e': Events)
    requires Lawful(cfg, low) && low <= n <= to <= high && Serves(cfg, low, e.committed, tree, n, high)
    requires e' == ApplyLogs(e, LogsIn(cfg.logsAt, n + 1, to + 1), cfg.upgrades)
    ensures Serves(cfg, low, e'.committed, tree, to, high)
  {
    LogsInSplit(cfg.logsAt, n + 1, to + 1, high + 1);
    ChainAdvances(cfg, low, n, to);
    ChainAdvances(cfg, low, to, high);
    ReadLogs(e, tree, ChainAt(cfg, low, n), LogsIn(cfg.logsAt, n + 1, to + 1), LogsIn(cfg.logsAt, to + 1, high + 1),
             ChainAt(cfg, low, high), cfg.upgrades);
  }

  lemma ForwardsVerified(cfg: Config, low: nat, e: Events, n: nat, to: nat, e': Events)
    requires Lawful(cfg, low) && low <= n <= to && e.verified == []
    requires e' == ApplyLogs(e, LogsIn(cfg.logsAt, n + 1, to + 1), cfg.upgrades)
    ensures VerifiedFrom(e'.verified, ChainAt(cfg, low, n).executed, ChainAt(cfg, low, to))
  {
    ChainAdvances(cfg, low, n, to);
    VerifiedLogs(e, ChainAt(cfg, low, n).executed, ChainAt(cfg, low, n), LogsIn(cfg.logsAt, n + 1, to + 1),
                 cfg.upgrades);
  }

  function Later(x: nat, y: nat): nat {
    if x < y then y else x
  }

  /**
   After a poll from position n: the events serve the new position, and the verified ones are those of the blocks
   that the window executed, if any was read.
   */
  ghost predicate AfterPoll(cfg: Config, low: nat, e: Events, tree: nat, n: nat, high: nat)
    requires Lawful(cfg, low)
  {
    && low <= n && low <= e.lastWatched <= high
    && Serves(cfg, low, e.committed, tree, e.lastWatched, high)
    && if e.lastWatched <= n then e.verified == []
       else VerifiedFrom(e.verified, ChainAt(cfg, low, n).executed, ChainAt(cfg, low, e.lastWatched))
  }

  lemma PollForwards(cfg: Config, low: nat, kept: Events, tree: nat, high: nat, to: nat, e': Events, high': nat)
    requires Lawful(cfg, low) && low <= kept.lastWatched <= high && kept.lastWatched < to && high' == Later(high, to)
    requires Serves(cfg, low, kept.committed, tree, kept.lastWatched, high) && kept.verified == []
    requires e' == ApplyLogs(kept.(lastWatched := to), LogsIn(cfg.logsAt, kept.lastWatched + 1, to + 1), cfg.upgrades)
    ensures e'.lastWatched == to && AfterPoll(cfg, low, e', tree, kept.lastWatched, high')
  {
    var n, moved := kept.lastWatched, kept.(lastWatched := to);
    LogsKeepPosition(moved, LogsIn(cfg.logsAt, n + 1, to + 1), cfg.upgrades);
    Higher(cfg, low, kept.committed, tree, n, high, high');
    Forwards(cfg, low, moved, tree, n, high', to, e');
    ForwardsVerified(cfg, low, moved, n, to, e');
  }

  /** A head that is not ahead is watched without reading anything. */
  lemma PollBehind(cfg: Config, e: Events, latest: nat)
    requires latest <= e.lastWatched
    ensures Poll(e, cfg.logsAt, cfg.upgrades, latest, cfg.step) == WithoutVerified(e).(lastWatched := latest)
  {
    WindowsTile(e.lastWatched, latest, cfg.step);
    assert LogsIn(cfg.logsAt, e.lastWatched + 1, latest + 1) == [];
  }

  lemma PollBackwards(cfg: Config, low: nat, kept: Events, tree: nat, high: nat, to: nat, e': Events)
    requires Lawful(cfg, low) && low <= to <= kept.lastWatched <= high && kept.verified == []
    requires Serves(cfg, low, kept.committed, tree, kept.lastWatched, high) && e' == kept.(lastWatched := to)
    ensures AfterPoll(cfg, low, e', tree, kept.lastWatched, high)
  {
    Backwards(cfg, low, kept.committed, tree, kept.lastWatched, high, to);
  }

  lemma PollInStep(cfg: Config, low: nat, e: Events, tree: nat, high: nat, latest: nat, e': Events, high': nat)
    requires Lawful(cfg, low) && low <= e.lastWatched <= high && low <= latest && EventsInStep(cfg, low, e, tree, high)
    requires e' == Poll(e, cfg.logsAt, cfg.upgrades, latest, cfg.step) && high' == Later(high, e'.lastWatched)
    ensures AfterPoll(cfg, low, e', tree, e.lastWatched, high')
  {
    var kept, n := WithoutVerified(e), e.lastWatched;
    WithoutVerifiedInStep(cfg, low, e, tree, high);
    if latest > n {
      WindowsTile(n, latest, cfg.step);
      var to := NextWindow(n, latest, cfg.step).value.to;
      PollForwards(cfg, low, kept, tree, high, to, e', Later(high, to));
    } else {
      PollBehind(cfg, e, latest);
      PollBackwards(cfg, low, kept, tree, high, latest, e');
    }
  }

  /** Executed blocks only become more. */
  lemma ExecutedGrows(cfg: Config, low: nat, n: nat, n': nat)
    requires Lawful(cfg, low) && low <= n <= n'
    ensures ChainAt(cfg, low, n).executed <= ChainAt(cfg, low, n').executed <= |ChainAt(cfg, low, n').commits|
  {
    ChainAdvances(cfg, low, low, n);
    ChainAdvances(cfg, low, n, n');
    assert LogsIn(cfg.logsAt, low + 1, low + 1) == [];
    ExecutedStays(GENESIS, LogsIn(cfg.logsAt, low + 1, n + 1), cfg.upgrades);
    ExecutedStays(ChainAt(cfg, low, n), LogsIn(cfg.logsAt, n + 1, n' + 1), cfg.upgrades);
  }

  lemma PolledFeeds(cfg: Config, low: nat, e: Events, l: Ledger, n: nat, high: nat, high': nat)
    requires Lawful(cfg, low) && low <= n <= high && l.blockNumber == ChainAt(cfg, low, high).executed
    requires high' == Later(high, e.lastWatched) && AfterPoll(cfg, low, e, l.blockNumber, n, high')
    requires NewBlocks(cfg, e, l).Some?
    ensures var bs, s := NewBlocks(cfg, e, l).value, ChainAt(cfg, low, high');
      ChainSlice(cfg.fetch, s, l.blockNumber, bs) && l.blockNumber + |bs| == s.executed
  {
    var to, tree := e.lastWatched, l.blockNumber;
    ExecutedGrows(cfg, low, n, high);
    if to <= n {
      assert VerifiedCommitted(e) == [];
    } else if to <= high {
      ExecutedGrows(cfg, low, to, high);
      OldVerificationsFeedNothing(cfg.fetch, e, tree, ChainAt(cfg, low, to), ChainAt(cfg, low, n).executed);
    } else {
      ExecutedGrows(cfg, low, high, to);
      assert LogsIn(cfg.logsAt, to + 1, to + 1) == [];
      NewlyExecutedFeed(cfg.fetch, e, tree, ChainAt(cfg, low, to), ChainAt(cfg, low, n).executed);
    }
  }

  /** The blocks found after a poll are those executed up to the highest watched block and not fed before. */
  lemma NewBlocksAreNext(cfg: Config, low: nat, accounts: AccountMap, p: Progress, high: nat, latest: nat)
    requires Lawful(cfg, low) && InStep(cfg, low, accounts, p, high) && latest >= low
    requires NewBlocks(cfg, Poll(p.driver.events, cfg.logsAt, cfg.upgrades, latest, cfg.step), p.driver.ledger).Some?
    ensures var e := Poll(p.driver.events, cfg.logsAt, cfg.upgrades, latest, cfg.step);
      var high' := Later(high, e.lastWatched);
      var s, bs := ChainAt(cfg, low, high'), NewBlocks(cfg, e, p.driver.ledger).value;
      && |p.fed| + |bs| == s.executed <= |s.commits|
      && ChainSlice(cfg.fetch, s, |p.fed|, bs) && ChainSlice(cfg.fetch, s, 0, p.fed)
  {
    var e0 := p.driver.events;
    var e := Poll(e0, cfg.logsAt, cfg.upgrades, latest, cfg.step);
    PollInStep(cfg, low, e0, |p.fed|, high, latest, e, Later(high, e.lastWatched));
    PolledFeeds(cfg, low, e, p.driver.ledger, e0.lastWatched, high, Later(high, e.lastWatched));
    ExecutedSlicePersists(cfg, low, high, Later(high, e.lastWatched), p.fed);
  }

  lemma PolledEventsInStep(cfg: Config, low: nat, e: Events, tree: nat, n: nat, high: nat, tree': nat)
    requires Lawful(cfg, low) && AfterPoll(cfg, low, e, tree, n, high)
    requires tree <= tree' == ChainAt(cfg, low, high).executed
    ensures EventsInStep(cfg, low, e, tree', high)
  {
    var to := e.lastWatched;
    TreeGrows(e.committed, tree, tree', ChainAt(cfg, low, to), LogsIn(cfg.logsAt, to + 1, high + 1),
              ChainAt(cfg, low, high));
    ExecutedGrows(cfg, low, to, high);
  }

  lemma IterateInStep(cfg: Config, low: nat, accounts: AccountMap, p: Progress, high: nat, latest: nat)
    requires Lawful(cfg, low) && InStep(cfg, low, accounts, p, high) && latest >= low
    requires Iterate(cfg, p, latest).Some?
    ensures var p' := Iterate(cfg, p, latest).value;
      InStep(cfg, low, accounts, p', Later(high, p'.driver.events.lastWatched))
  {
    var p' := Iterate(cfg, p, latest).value;
    var e := p'.driver.events;
    var high' := Later(high, e.lastWatched);
    var bs := NewBlocks(cfg, e, p.driver.ledger).value;
    ReplayCounts(cfg.vm, p.driver.ledger, bs);
    PollInStep(cfg, low, p.driver.events, |p.fed|, high, latest, e, high');
    NewBlocksAreNext(cfg, low, accounts, p, high, latest);
    PolledEventsInStep(cfg, low, e, |p.fed|, p.driver.events.lastWatched, high', p'.driver.ledger.blockNumber);
    ReplayAppend(cfg.vm, Ledger(accounts, 0), p.fed, bs);
    SliceAppend(cfg.fetch, ChainAt(cfg, low, high'), p.fed, bs);
  }

  // ----- runs

  /** The highest block that a run has watched. */
  function HighestWatched(cfg: Config, start: Progress, latests: seq<nat>): nat
    requires Uninterrupted(cfg, start, latests).Some?
    decreases |latests|
  {
    var last := Uninterrupted(cfg, start, latests).value.driver.events.lastWatched;
    if latests == [] then last else Later(HighestWatched(cfg, start, latests[..|latests| - 1]), last)
  }

  /**
   The setting of a run that starts at block g: from some block `low` on the logs obey the contract and no head falls
   below it, and nothing is committed yet at g. With low == g this only says that heads are at least g.
   */
  ghost predicate Setting(cfg: Config, low: nat, g: nat, latests: seq<nat>) {
    && Lawful(cfg, low) && low <= g && ChainAt(cfg, low, g) == GENESIS
    && forall i :: 0 <= i < |latests| ==> latests[i] >= low
  }

  /** If the contract logged nothing up to its genesis block, no head is too low. */
  lemma SilentBeforeGenesis(cfg: Config, g: nat, latests: seq<nat>)
    requires Lawful(cfg, g) && LogsIn(cfg.logsAt, 1, g + 1) == []
    ensures Setting(cfg, 0, g, latests)
  {
    forall n: nat
      ensures History(cfg, 0, n).Some?
    {
      if n <= g {
        LogsInSplit(cfg.logsAt, 1, n + 1, g + 1);
        assert LogsIn(cfg.logsAt, 1, n + 1) == [];
      } else {
        LogsInSplit(cfg.logsAt, 1, g + 1, n + 1);
        assert LogsIn(cfg.logsAt, 1, n + 1) == LogsIn(cfg.logsAt, g + 1, n + 1);
        assert History(cfg, g, n).Some?;
      }
    }
  }

  lemma StartInStep(cfg: Config, low: nat, g: nat, accounts: AccountMap)
    requires Lawful(cfg, low) && low <= g && ChainAt(cfg, low, g) == GENESIS
    ensures InStep(cfg, low, accounts, Start(g, accounts), g)
  {
    assert Covers([], 0, GENESIS, LogsIn(cfg.logsAt, g + 1, g + 1), GENESIS);
  }

  /**
   However the logs fall into windows, and even when the head falls behind and logs are read again, the blocks fed to
   the tree are the executed blocks 1, 2, 3, ... of the contract at the highest watched block, each as its last
   committing transaction encodes it, the tree's counter is their number, and the tree is their replay.
   */
  lemma {:induction false} FedBlocksAreTheChain(cfg: Config, low: nat, g: nat, accounts: AccountMap, latests: seq<nat>)
    requires Setting(cfg, low, g, latests) && Uninterrupted(cfg, Start(g, accounts), latests).Some?
    ensures InStep(cfg, low, accounts, Uninterrupted(cfg, Start(g, accounts), latests).value,
                   HighestWatched(cfg, Start(g, accounts), latests))
    decreases |latests|
  {
    if latests == [] {
      StartInStep(cfg, low, g, accounts);
    } else {
      var start, before := Start(g, accounts), latests[..|latests| - 1];
      FedBlocksAreTheChain(cfg, low, g, accounts, before);
      IterateInStep(cfg, low, accounts, Uninterrupted(cfg, start, before).value, HighestWatched(cfg, start, before),
                    latests[|latests| - 1]);
    }
  }

  lemma SameSlice(fetch: Fetch, s: ChainState, xs: seq<RollupBlock>, ys: seq<RollupBlock>)
    requires ChainSlice(fetch, s, 0, xs) && ChainSlice(fetch, s, 0, ys) && |xs| == |ys|
    ensures xs == ys
  {
    forall i | 0 <= i < |xs|
      ensures xs[i] == ys[i]
    {
      assert ChainBlock(fetch, s, 0 + i) == Some(xs[i]) == Some(ys[i]);
    }
  }

  /** The tree depends on how far the chain was ever read, not on how the reading was cut into windows or repeated. */
  lemma WindowsDoNotMatter(cfg: Config, low: nat, g: nat, accounts: AccountMap, xs: seq<nat>, ys: seq<nat>)
    requires Setting(cfg, low, g, xs) && Setting(cfg, low, g, ys)
    requires Uninterrupted(cfg, Start(g, accounts), xs).Some? && Uninterrupted(cfg, Start(g, accounts), ys).Some?
    requires HighestWatched(cfg, Start(g, accounts), xs) == HighestWatched(cfg, Start(g, accounts), ys)
    ensures Uninterrupted(cfg, Start(g, accounts), xs).value.driver.ledger
         == Uninterrupted(cfg, Start(g, accounts), ys).value.driver.ledger
  {
    FedBlocksAreTheChain(cfg, low, g, accounts, xs);
    FedBlocksAreTheChain(cfg, low, g, accounts, ys);
    var p, q := Uninterrupted(cfg, Start(g, accounts), xs).value, Uninterrupted(cfg, Start(g, accounts), ys).value;
    SameSlice(cfg.fetch, ChainAt(cfg, low, HighestWatched(cfg, Start(g, accounts), xs)), p.fed, q.fed);
  }

  // ----- runs whose heads keep up

  /** If heads never fall behind, the events are exactly the commits and verifications after some block of the contract. */
  lemma {:induction false} EventsAreTheSuffix(cfg: Config, g: nat, accounts: AccountMap, latests: seq<nat>)
    requires Lawful(cfg, g) && HeadsKeepUp(cfg, Start(g, accounts), latests)
    requires Uninterrupted(cfg, Start(g, accounts), latests).Some?
    ensures var e := Uninterrupted(cfg, Start(g, accounts), latests).value.driver.events;
      e.lastWatched >= g && exists k :: Tracks(e, ChainAt(cfg, g, e.lastWatched), k)
    decreases |latests|
  {
    if latests == [] {
      assert LogsIn(cfg.logsAt, g + 1, g + 1) == [];
      assert Tracks(Start(g, accounts).driver.events, ChainAt(cfg, g, g), 0);
    } else {
      var before := latests[..|latests| - 1];
      EventsAreTheSuffix(cfg, g, accounts, before);
      var e := Uninterrupted(cfg, Start(g, accounts), before).value.driver.events;
      var k :| Tracks(e, ChainAt(cfg, g, e.lastWatched), k);
      PollTracks(cfg, g, e, k, latests[|latests| - 1]);
    }
  }

  // ----- the windows of a run

  /** The windows that a run reads, in order. */
  function WindowsRead(cfg: Config, start: Progress, latests: seq<nat>): seq<Window>
    requires Uninterrupted(cfg, start, latests).Some?
    decreases |latests|
  {
    if latests == [] then []
    else
      var n := |latests| - 1;
      var w := NextWindow(Uninterrupted(cfg, start, latests[..n]).value.driver.events.lastWatched, latests[n], cfg.step);
      WindowsRead(cfg, start, latests[..n]) + (if w.Some? then [w.value] else [])
  }

  /** Windows that cover the blocks after g up to `last`, each starting where the one before it ends. */
  ghost predicate Tile(windows: seq<Window>, g: nat, last: nat)
    decreases |windows|
  {
    if windows == [] then last == g
    else
      var w := windows[|windows| - 1];
      1 <= w.from <= w.to == last && Tile(windows[..|windows| - 1], g, w.from - 1)
  }

  lemma {:induction false} LogsKeepPosition(e: Events, logs: seq<Log>, u: Upgrades)
    ensures ApplyLogs(e, logs, u).lastWatched == e.lastWatched
    decreases |logs|
  {
    if logs == [] {
    } else {
      LogsKeepPosition(e, logs[..|logs| - 1], u);
    }
  }

  lemma {:induction false} TileExtends(windows: seq<Window>, g: nat, w: Window)
    requires w.from >= 1
    ensures Tile(windows + [w], g, w.to) <==> w.from <= w.to && Tile(windows, g, w.from - 1)
  {
    assert (windows + [w])[..|windows|] == windows;
  }

  /** A round moves the position to the end of its window, forwards or backwards. */
  lemma RoundMoves(cfg: Config, p: Progress, latest: nat)
    requires Iterate(cfg, p, latest).Some?
    ensures var last, last' := p.driver.events.lastWatched, Iterate(cfg, p, latest).value.driver.events.lastWatched;
      var w := NextWindow(last, latest, cfg.step);
      if latest == last then w.None? && last' == last
      else w.Some? && w.value.from == last + 1 && w.value.to == last' && (w.value.from <= w.value.to <==> latest > last)
  {
    var e := p.driver.events;
    var w := NextWindow(e.lastWatched, latest, cfg.step);
    WindowsTile(e.lastWatched, latest, cfg.step);
    if w.Some? {
      LogsKeepPosition(WithoutVerified(e).(lastWatched := w.value.to),
                       LogsIn(cfg.logsAt, w.value.from, w.value.to + 1), cfg.upgrades);
    }
  }

  lemma {:induction false} TileRound(cfg: Config, g: nat, p: Progress, latest: nat, windows: seq<Window>)
    requires Iterate(cfg, p, latest).Some?
    ensures var w := NextWindow(p.driver.events.lastWatched, latest, cfg.step);
      Tile(windows + (if w.Some? then [w.value] else []), g, Iterate(cfg, p, latest).value.driver.events.lastWatched)
      <==> latest >= p.driver.events.lastWatched && Tile(windows, g, p.driver.events.lastWatched)
  {
    RoundMoves(cfg, p, latest);
    var w := NextWindow(p.driver.events.lastWatched, latest, cfg.step);
    if w.Some? {
      TileExtends(windows, g, w.value);
    } else {
      assert windows + [] == windows;
    }
  }

  /**
   Over a whole run the windows tile the chain, with no Ethereum block skipped and none read twice, if and only
   if the heads never fell behind the last watched block.
   */
  lemma {:induction false} WindowsTileTheChain(cfg: Config, g: nat, accounts: AccountMap, latests: seq<nat>)
    requires Uninterrupted(cfg, Start(g, accounts), latests).Some?
    ensures Tile(WindowsRead(cfg, Start(g, accounts), latests), g,
                 Uninterrupted(cfg, Start(g, accounts), latests).value.driver.events.lastWatched)
      <==> HeadsKeepUp(cfg, Start(g, accounts), latests)
    decreases |latests|
  {
    if latests == [] {
    } else {
      var start, n := Start(g, accounts), |latests| - 1;
      WindowsTileTheChain(cfg, g, accounts, latests[..n]);
      TileRound(cfg, g, Uninterrupted(cfg, start, latests[..n]).value, latests[n], WindowsRead(cfg, start, latests[..n]));
    }
  }

  /** On a silent chain, the heads 1, 0, 1 read block 1 twice: the windows do not tile. */
  lemma LaggingHeadReadsTwice(upgrades: Upgrades, step: nat, fetch: Fetch, vm: Vm, accounts: AccountMap)
    ensures var cfg, heads := Config((n: nat) => [], upgrades, step, fetch, vm), [1, 0, 1];
      && Uninterrupted(cfg, Start(0, accounts), heads).Some?
      && WindowsRead(cfg, Start(0, accounts), heads) == [Window(1, 1), Window(2, 0), Window(1, 1)]
      && !Tile(WindowsRead(cfg, Start(0, accounts), heads), 0, 1)
  {
    var cfg, start := Config((n: nat) => [], upgrades, step, fetch, vm), Start(0, accounts);
    SilentRound(cfg, start, 1);
    assert Uninterrupted(cfg, start, [1][..0]) == Some(start) && WindowsRead(cfg, start, [1][..0]) == [];
    assert WindowsRead(cfg, start, [1]) == [Window(1, 1)];
    var one := start.(driver := start.driver.(events := Events([], [], 1)));
    assert Uninterrupted(cfg, start, [1]) == Some(one);
    SilentRound(cfg, one, 0);
    assert [1, 0][..1] == [1];
    assert Uninterrupted(cfg, start, [1, 0]) == Some(start);
    assert WindowsRead(cfg, start, [1, 0]) == [Window(1, 1)] + [Window(2, 0)];
    assert [1, 0, 1][..2] == [1, 0];
    assert WindowsRead(cfg, start, [1, 0, 1]) == [Window(1, 1)] + [Window(2, 0)] + [Window(1, 1)];
    var windows := [Window(1, 1), Window(2, 0), Window(1, 1)];
    assert windows[..2][1] == Window(2, 0);
    assert !Tile(windows[..2], 0, 0);
  }

  lemma SilentLogs(logsAt: nat -> seq<Log>, n: nat, latest: nat)
    requires (forall k: nat :: logsAt(k) == []) && latest <= n + 1
    ensures LogsIn(logsAt, n + 1, latest + 1) == []
  {
    if latest == n + 1 {
      assert LogsIn(logsAt, n + 1, n + 1) == [];
    }
  }

  lemma SilentRound(cfg: Config, p: Progress, latest: nat)
    requires (forall k: nat :: cfg.logsAt(k) == []) && p.driver.events == Events([], [], p.driver.events.lastWatched)
    requires latest <= p.driver.events.lastWatched + 1
    ensures Iterate(cfg, p, latest) == Some(p.(driver := p.driver.(events := Events([], [], latest))))
  {
    SilentLogs(cfg.logsAt, p.driver.events.lastWatched, latest);
    assert Poll(p.driver.events, cfg.logsAt, cfg.upgrades, latest, cfg.step) == Events([], [], latest);
    assert p.fed + [] == p.fed;
  }

  // ----- the counter at every block

  lemma {:induction false} ReplayPrefix(vm: Vm, l: Ledger, bs: seq<RollupBlock>, i: nat)
    requires i <= |bs| && Replay(vm, l, bs).Some?
    ensures Replay(vm, l, bs[..i]).Some?
    decreases |bs|
  {
    if i == |bs| {
      assert bs[..i] == bs;
    } else {
      assert bs[..|bs| - 1][..i] == bs[..i];
      ReplayPrefix(vm, l, bs[..|bs| - 1], i);
    }
  }

  lemma SliceNumber(fetch: Fetch, s: ChainState, fed: seq<RollupBlock>, i: nat)
    requires ChainSlice(fetch, s, 0, fed) && i < |fed|
    ensures fed[i].blockNum == i + 1
  {
    assert ChainBlock(fetch, s, 0 + i) == Some(fed[i]);
  }

  lemma {:induction false} PrefixCounts(vm: Vm, l: Ledger, bs: seq<RollupBlock>, i: nat)
    requires i <= |bs| && Replay(vm, l, bs).Some?
    ensures Replay(vm, l, bs[..i]).Some? && Replay(vm, l, bs[..i]).value.blockNumber == l.blockNumber + i
  {
    ReplayPrefix(vm, l, bs, i);
    ReplayCounts(vm, l, bs[..i]);
  }

  /** Over every run, feeding a block leaves the tree's counter at that block's number: 1, 2, 3, ... */
  lemma CounterIsBlockNumber(cfg: Config, low: nat, g: nat, accounts: AccountMap, latests: seq<nat>, i: nat)
    requires Setting(cfg, low, g, latests) && Uninterrupted(cfg, Start(g, accounts), latests).Some?
    requires i < |Uninterrupted(cfg, Start(g, accounts), latests).value.fed|
    ensures var fed := Uninterrupted(cfg, Start(g, accounts), latests).value.fed;
      && Replay(cfg.vm, Ledger(accounts, 0), fed[..i + 1]).Some?
      && Replay(cfg.vm, Ledger(accounts, 0), fed[..i + 1]).value.blockNumber == fed[i].blockNum == i + 1
  {
    var p := Uninterrupted(cfg, Start(g, accounts), latests).value;
    FedBlocksAreTheChain(cfg, low, g, accounts, latests);
    SliceNumber(cfg.fetch, ChainAt(cfg, low, HighestWatched(cfg, Start(g, accounts), latests)), p.fed, i);
    PrefixCounts(cfg.vm, Ledger(accounts, 0), p.fed, i + 1);
  }
}
