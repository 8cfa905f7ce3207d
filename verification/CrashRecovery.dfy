/**
 Crashes of the data restore at any step boundary: whatever the interleaving, loading from storage
 brings events and ledger to exactly what the driver that never crashed computes from the same heads.
 */
module CrashRecovery {
  import opened Wrappers
  import opened RestoreEvents
  import opened OpsBlocks
  import opened TreeState
  import opened ContractHistory
  import opened RestoreRun

  /** Where the process stands in its loop; all of it is lost in a crash. */
  datatype Process = Down | Idle(driver: Driver) | HasEvents(driver: Driver) | HasOps(driver: Driver, blocks: seq<RollupBlock>)

  datatype System = System(store: Store, process: Process)

  datatype Action = PollEvents(latest: nat) | SaveOps | StoreTree | Crash | Restart

  /** One atomic step; none when the action is not possible there or the process panics. */
  function Next(cfg: Config, sys: System, a: Action): Option<System> {
    match (sys.process, a)
    case (Idle(d), PollEvents(latest)) =>
      var e := Poll(d.events, cfg.logsAt, cfg.upgrades, latest, cfg.step);
      var d' := Driver(e, d.ledger);
      Some(System(SaveEvents(sys.store, e), if e.committed + e.verified != [] then HasEvents(d') else Idle(d')))
    case (HasEvents(d), SaveOps) =>
      var bs := NewBlocks(cfg, d.events, d.ledger);
      if bs.None? then None
      else Some(System(SaveRollupOps(sys.store, bs.value), if bs.value != [] then HasOps(d, bs.value) else Idle(d)))
    case (HasOps(d, blocks), StoreTree) =>
      var r := UpdateTree(cfg.vm, d.ledger, sys.store, blocks);
      if r.None? then None else Some(System(r.value.1, Idle(Driver(d.events, r.value.0))))
    case (_, Crash) => Some(System(sys.store, Down))
    case (Down, Restart) =>
      var r := Load(cfg, sys.store);
      if r.None? then None else Some(System(r.value.1, Idle(r.value.0)))
    case _ => None
  }

  function RunActions(cfg: Config, sys: System, actions: seq<Action>): Option<System>
    decreases |actions|
  {
    if actions == [] then Some(sys)
    else
      var before := RunActions(cfg, sys, actions[..|actions| - 1]);
      if before.None? then None else Next(cfg, before.value, actions[|actions| - 1])
  }

  /** The rest of a round that has found events. */
  function Finish(cfg: Config, polled: System): Option<System> {
    var saved := Next(cfg, polled, SaveOps);
    if saved.None? || saved.value.process.Idle? then saved else Next(cfg, saved.value, StoreTree)
  }

  /** A whole round of the main loop without a crash. */
  function Round(cfg: Config, sys: System, latest: nat): Option<System>
    requires sys.process.Idle?
  {
    var polled := Next(cfg, sys, PollEvents(latest)).value;
    if polled.process.Idle? then Some(polled) else Finish(cfg, polled)
  }

  /** The heads that the process polled over a run. */
  function Polled(actions: seq<Action>): seq<nat>
    decreases |actions|
  {
    if actions == [] then []
    else Polled(actions[..|actions| - 1])
         + (if actions[|actions| - 1].PollEvents? then [actions[|actions| - 1].latest] else [])
  }

  /** A round is a run of at most three actions that polls one head. */
  lemma RoundIsRun(cfg: Config, sys: System, latest: nat) returns (actions: seq<Action>)
    requires sys.process.Idle? && Round(cfg, sys, latest).Some?
    ensures RunActions(cfg, sys, actions) == Round(cfg, sys, latest) && Polled(actions) == [latest]
  {
    var poll, save, tree := [PollEvents(latest)], [PollEvents(latest), SaveOps], [PollEvents(latest), SaveOps, StoreTree];
    assert poll[..0] == [] && save[..1] == poll && tree[..2] == save;
    assert Polled(poll[..0]) == [] && Polled(poll) == [latest] && Polled(save) == [latest];
    var polled := Next(cfg, sys, PollEvents(latest)).value;
    assert RunActions(cfg, sys, poll[..0]) == Some(sys);
    assert RunActions(cfg, sys, poll) == Some(polled);
    if polled.process.Idle? {
      return poll;
    }
    var saved := Next(cfg, polled, SaveOps).value;
    assert RunActions(cfg, sys, save) == Some(saved);
    return if saved.process.Idle? then save else tree;
  }

  /** After the genesis state is saved. */
  function Initial(g: nat, accounts: AccountMap): System {
    System(Store(EventsSaved, [], [], g, 0, accounts), Idle(Start(g, accounts).driver))
  }

  // ----- what storage owes

  /** The blocks that loading from this storage would replay. */
  function Pending(cfg: Config, s: Store): Option<seq<RollupBlock>> {
    match s.phase
    case NothingPending => Some([])
    case EventsSaved => NewBlocks(cfg, LoadEvents(s), LoadLedger(s))
    case OperationsSaved => Some(s.rollups)
  }

  ghost predicate Consecutive(bs: seq<RollupBlock>, last: nat) {
    forall i :: 0 <= i < |bs| ==> bs[i].blockNum == last + i + 1
  }

  /** Storage leads to the driver state d: its events, and its ledger after the pending blocks. */
  ghost predicate LeadsTo(cfg: Config, s: Store, d: Driver) {
    && LoadEvents(s) == d.events
    && Pending(cfg, s).Some? && Consecutive(Pending(cfg, s).value, s.lastVerified)
    && Replay(cfg.vm, LoadLedger(s), Pending(cfg, s).value) == Some(d.ledger)
  }

  /** The process agrees with storage about what is done and what is left. */
  ghost predicate Agrees(cfg: Config, sys: System, d: Driver) {
    match sys.process
    case Down => true
    case Idle(own) => own == d && Pending(cfg, sys.store) == Some([])
    case HasEvents(own) => own.events == d.events && own.ledger == LoadLedger(sys.store) && sys.store.phase == EventsSaved
    case HasOps(own, blocks) =>
      own.events == d.events && own.ledger == LoadLedger(sys.store)
      && sys.store.phase == OperationsSaved && sys.store.rollups == blocks
  }

  lemma {:induction false} OfTypeSplit(xs: seq<BlockEvent>, ys: seq<BlockEvent>)
    requires forall i :: 0 <= i < |xs| ==> xs[i].blockType == Committed
    requires forall i :: 0 <= i < |ys| ==> ys[i].blockType == Verified
    ensures OfType(xs + ys, Committed) == xs && OfType(xs + ys, Verified) == ys
    decreases |xs| + |ys|
  {
    var all := xs + ys;
    if xs != [] {
      assert all[0] == xs[0] && all[1..] == xs[1..] + ys;
      OfTypeSplit(xs[1..], ys);
      assert xs == [xs[0]] + xs[1..];
    } else if ys != [] {
      assert all[0] == ys[0] && all[1..] == xs + ys[1..];
      OfTypeSplit(xs, ys[1..]);
      assert ys == [ys[0]] + ys[1..];
    }
  }

  /** Events stand in the list of their type. */
  ghost predicate Typed(e: Events) {
    && (forall i :: 0 <= i < |e.committed| ==> e.committed[i].blockType == Committed)
    && (forall i :: 0 <= i < |e.verified| ==> e.verified[i].blockType == Verified)
  }

  /** Saved events are read back as they were. */
  lemma EventsRoundTrip(s: Store, e: Events)
    requires Typed(e)
    ensures LoadEvents(SaveEvents(s, e)) == e
  {
    OfTypeSplit(e.committed, e.verified);
  }

  lemma FiltersKeepType(events: seq<BlockEvent>, n: nat, t: EventType)
    requires forall i :: 0 <= i < |events| ==> events[i].blockType == t
    ensures forall i :: 0 <= i < |UpTo(events, n)| ==> UpTo(events, n)[i].blockType == t
    ensures forall i :: 0 <= i < |Above(events, n)| ==> Above(events, n)[i].blockType == t
  {
    forall i | 0 <= i < |UpTo(events, n)|
      ensures UpTo(events, n)[i].blockType == t
    {
      UpToMember(events, n, UpTo(events, n)[i]);
    }
    forall i | 0 <= i < |Above(events, n)|
      ensures Above(events, n)[i].blockType == t
    {
      AboveMember(events, n, Above(events, n)[i]);
    }
  }

  lemma {:induction false} LogsKeepTyped(e: Events, logs: seq<Log>, u: Upgrades)
    requires Typed(e)
    ensures Typed(ApplyLogs(e, logs, u))
    decreases |logs|
  {
    if logs == [] {
    } else {
      var n := |logs| - 1;
      LogsKeepTyped(e, logs[..n], u);
      var e' := ApplyLogs(e, logs[..n], u);
      if logs[n].BlocksRevert? {
        FiltersKeepType(e'.committed, logs[n].totalCommitted, Committed);
        FiltersKeepType(e'.verified, logs[n].totalExecuted, Verified);
      }
    }
  }

  lemma PollKeepsTyped(cfg: Config, e: Events, latest: nat)
    requires Typed(e)
    ensures Typed(Poll(e, cfg.logsAt, cfg.upgrades, latest, cfg.step))
  {
    var max := MaxBlockNum(e.verified);
    if max.Some? {
      FiltersKeepType(e.committed, max.value, Committed);
    }
    var w := NextWindow(e.lastWatched, latest, cfg.step);
    if w.Some? {
      LogsKeepTyped(WithoutVerified(e).(lastWatched := w.value.to), LogsIn(cfg.logsAt, w.value.from, w.value.to + 1),
                    cfg.upgrades);
    }
  }

  lemma {:induction false} RunsKeepTyped(cfg: Config, g: nat, accounts: AccountMap, latests: seq<nat>)
    requires Uninterrupted(cfg, Start(g, accounts), latests).Some?
    ensures Typed(Uninterrupted(cfg, Start(g, accounts), latests).value.driver.events)
    decreases |latests|
  {
    if latests == [] {
    } else {
      var n := |latests| - 1;
      RunsKeepTyped(cfg, g, accounts, latests[..n]);
      PollKeepsTyped(cfg, Uninterrupted(cfg, Start(g, accounts), latests[..n]).value.driver.events, latests[n]);
    }
  }

  /** Storing replayed blocks keeps storage equal to the ledger. */
  lemma {:induction false} UpdateTreeStores(vm: Vm, l: Ledger, s: Store, bs: seq<RollupBlock>)
    requires Faithful(vm) && LoadLedger(s) == l && Consecutive(bs, l.blockNumber) && Replay(vm, l, bs).Some?
    ensures UpdateTree(vm, l, s, bs).Some?
    ensures var (l', s') := UpdateTree(vm, l, s, bs).value;
      && Replay(vm, l, bs) == Some(l') && LoadLedger(s') == l' && l'.blockNumber == l.blockNumber + |bs|
      && s' == s.(accounts := l'.accounts, lastVerified := l'.blockNumber,
                  phase := if bs == [] then s.phase else NothingPending)
    decreases |bs|
  {
    if bs == [] {
    } else {
      var before, b := bs[..|bs| - 1], bs[|bs| - 1];
      UpdateTreeStores(vm, l, s, before);
      var l1 := UpdateTree(vm, l, s, before).value.0;
      BlockBookkeeping(vm, Tree(l1.accounts, 0, l1.blockNumber), 0, b);
    }
  }

  /** Loading completes exactly what is pending, and leaves nothing pending. */
  lemma LoadReaches(cfg: Config, s: Store, d: Driver)
    requires Faithful(cfg.vm) && LeadsTo(cfg, s, d)
    ensures Load(cfg, s).Some? && Load(cfg, s).value.0 == d
    ensures LeadsTo(cfg, Load(cfg, s).value.1, d) && Pending(cfg, Load(cfg, s).value.1) == Some([])
  {
    var bs := Pending(cfg, s).value;
    if s.phase == EventsSaved {
      UpdateTreeStores(cfg.vm, LoadLedger(s), SaveRollupOps(s, bs), bs);
    } else if s.phase == OperationsSaved {
      UpdateTreeStores(cfg.vm, LoadLedger(s), s, bs);
    }
  }

  /** A round from p finds blocks that are numbered consecutively from the tree's block. */
  ghost predicate OrderlyRound(cfg: Config, p: Progress, latest: nat) {
    var bs := NewBlocks(cfg, Poll(p.driver.events, cfg.logsAt, cfg.upgrades, latest, cfg.step), p.driver.ledger);
    bs.Some? ==> Consecutive(bs.value, p.driver.ledger.blockNumber)
  }

  ghost predicate Orderly(cfg: Config, start: Progress, latests: seq<nat>)
    decreases |latests|
  {
    latests == [] ||
    var n := |latests| - 1;
    var p := Uninterrupted(cfg, start, latests[..n]);
    Orderly(cfg, start, latests[..n]) && (p.Some? ==> OrderlyRound(cfg, p.value, latests[n]))
  }

  lemma SliceConsecutive(fetch: Fetch, s: ChainState, last: nat, bs: seq<RollupBlock>)
    requires ChainSlice(fetch, s, last, bs)
    ensures Consecutive(bs, last)
  {
    forall i | 0 <= i < |bs|
      ensures bs[i].blockNum == last + i + 1
    {
      assert ChainBlock(fetch, s, last + i) == Some(bs[i]);
    }
  }

  lemma RoundIsOrderly(cfg: Config, low: nat, accounts: AccountMap, p: Progress, high: nat, latest: nat)
    requires Lawful(cfg, low) && InStep(cfg, low, accounts, p, high) && latest >= low
    ensures OrderlyRound(cfg, p, latest)
  {
    var e := Poll(p.driver.events, cfg.logsAt, cfg.upgrades, latest, cfg.step);
    var bs := NewBlocks(cfg, e, p.driver.ledger);
    if bs.Some? {
      NewBlocksAreNext(cfg, low, accounts, p, high, latest);
      SliceConsecutive(cfg.fetch, ChainAt(cfg, low, Later(high, e.lastWatched)), |p.fed|, bs.value);
    }
  }

  /** When the logs obey the contract, every run is orderly, however its heads move. */
  lemma {:induction false} LawfulRunsAreOrderly(cfg: Config, low: nat, g: nat, accounts: AccountMap, latests: seq<nat>)
    requires Setting(cfg, low, g, latests)
    ensures Orderly(cfg, Start(g, accounts), latests)
    decreases |latests|
  {
    if latests == [] {
    } else {
      var n, start := |latests| - 1, Start(g, accounts);
      LawfulRunsAreOrderly(cfg, low, g, accounts, latests[..n]);
      var p := Uninterrupted(cfg, start, latests[..n]);
      if p.Some? {
        FedBlocksAreTheChain(cfg, low, g, accounts, latests[..n]);
        RoundIsOrderly(cfg, low, accounts, p.value, HighestWatched(cfg, start, latests[..n]), latests[n]);
      }
    }
  }

  lemma PollKeeps(cfg: Config, sys: System, p: Progress, latest: nat)
    requires Typed(p.driver.events) && OrderlyRound(cfg, p, latest)
    requires sys.process.Idle? && LeadsTo(cfg, sys.store, p.driver) && Agrees(cfg, sys, p.driver)
    requires Iterate(cfg, p, latest).Some?
    ensures var sys' := Next(cfg, sys, PollEvents(latest)).value;
      var d := Iterate(cfg, p, latest).value.driver;
      LeadsTo(cfg, sys'.store, d) && Agrees(cfg, sys', d)
  {
    var e := Poll(p.driver.events, cfg.logsAt, cfg.upgrades, latest, cfg.step);
    var s' := SaveEvents(sys.store, e);
    PollKeepsTyped(cfg, p.driver.events, latest);
    EventsRoundTrip(sys.store, e);
    assert LoadLedger(s') == p.driver.ledger;
    assert Pending(cfg, s') == NewBlocks(cfg, e, p.driver.ledger);
  }

  lemma OtherStepsKeep(cfg: Config, sys: System, a: Action, d: Driver)
    requires Faithful(cfg.vm) && LeadsTo(cfg, sys.store, d) && Agrees(cfg, sys, d)
    requires !a.PollEvents? && Next(cfg, sys, a).Some?
    ensures var sys' := Next(cfg, sys, a).value; LeadsTo(cfg, sys'.store, d) && Agrees(cfg, sys', d)
  {
    if a.Restart? {
      LoadReaches(cfg, sys.store, d);
    } else if a.StoreTree? {
      UpdateTreeStores(cfg.vm, sys.process.driver.ledger, sys.store, sys.process.blocks);
    }
  }

  /** Whatever the logs: if every round of the crash-free run is orderly, storage always leads to its state. */
  lemma {:induction false} CrashInvariant(cfg: Config, g: nat, accounts: AccountMap, actions: seq<Action>)
    requires Faithful(cfg.vm) && Orderly(cfg, Start(g, accounts), Polled(actions))
    requires Uninterrupted(cfg, Start(g, accounts), Polled(actions)).Some?
    requires RunActions(cfg, Initial(g, accounts), actions).Some?
    ensures var d := Uninterrupted(cfg, Start(g, accounts), Polled(actions)).value.driver;
      var sys := RunActions(cfg, Initial(g, accounts), actions).value;
      LeadsTo(cfg, sys.store, d) && Agrees(cfg, sys, d)
    decreases |actions|
  {
    if actions == [] {
    } else {
      var before, a := actions[..|actions| - 1], actions[|actions| - 1];
      var heads, start := Polled(before), Start(g, accounts);
      if a.PollEvents? {
        assert Polled(actions)[..|heads|] == heads;
      } else {
        assert Polled(actions) == heads;
      }
      CrashInvariant(cfg, g, accounts, before);
      var sys, p := RunActions(cfg, Initial(g, accounts), before).value, Uninterrupted(cfg, start, heads).value;
      if a.PollEvents? {
        RunsKeepTyped(cfg, g, accounts, heads);
        assert Polled(actions)[|heads|] == a.latest;
        PollKeeps(cfg, sys, p, a.latest);
      } else {
        OtherStepsKeep(cfg, sys, a, p.driver);
      }
    }
  }

  /**
   Crash recovery refines the crash-free run: after any interleaving of steps, crashes and restarts,
   loading from storage yields the state that the uninterrupted driver reaches from the polled heads,
   and a process that is between rounds is already in that state.
   */
  lemma CrashesRecover(cfg: Config, low: nat, g: nat, accounts: AccountMap, actions: seq<Action>)
    requires Setting(cfg, low, g, Polled(actions)) && Faithful(cfg.vm)
    requires Uninterrupted(cfg, Start(g, accounts), Polled(actions)).Some?
    requires RunActions(cfg, Initial(g, accounts), actions).Some?
    ensures var d := Uninterrupted(cfg, Start(g, accounts), Polled(actions)).value.driver;
      var sys := RunActions(cfg, Initial(g, accounts), actions).value;
      && Load(cfg, sys.store).Some? && Load(cfg, sys.store).value.0 == d
      && (sys.process.Idle? ==> sys.process.driver == d)
  {
    LawfulRunsAreOrderly(cfg, low, g, accounts, Polled(actions));
    CrashInvariant(cfg, g, accounts, actions);
    var d := Uninterrupted(cfg, Start(g, accounts), Polled(actions)).value.driver;
    LoadReaches(cfg, RunActions(cfg, Initial(g, accounts), actions).value.store, d);
  }

  // ----- no panics

  /** The actions that the process can take where it stands. */
  predicate Enabled(process: Process, a: Action) {
    match a
    case PollEvents(_) => process.Idle?
    case SaveOps => process.HasEvents?
    case StoreTree => process.HasOps?
    case Crash => true
    case Restart => process.Down?
  }

  lemma EnabledStepSucceeds(cfg: Config, sys: System, a: Action, d: Driver)
    requires Faithful(cfg.vm) && LeadsTo(cfg, sys.store, d) && Agrees(cfg, sys, d)
    ensures Next(cfg, sys, a).Some? <==> Enabled(sys.process, a)
  {
    match (sys.process, a)
    case (HasOps(own, blocks), StoreTree) =>
      UpdateTreeStores(cfg.vm, own.ledger, sys.store, blocks);
    case (Down, Restart) =>
      LoadReaches(cfg, sys.store, d);
    case _ =>
  }

  /** As long as the crash-free run does not panic, no interleaving with crashes does: exactly the enabled steps succeed. */
  lemma NeverPanics(cfg: Config, low: nat, g: nat, accounts: AccountMap, actions: seq<Action>, a: Action)
    requires Setting(cfg, low, g, Polled(actions)) && Faithful(cfg.vm)
    requires Uninterrupted(cfg, Start(g, accounts), Polled(actions)).Some?
    requires RunActions(cfg, Initial(g, accounts), actions).Some?
    ensures var sys := RunActions(cfg, Initial(g, accounts), actions).value;
      Next(cfg, sys, a).Some? <==> Enabled(sys.process, a)
  {
    LawfulRunsAreOrderly(cfg, low, g, accounts, Polled(actions));
    CrashInvariant(cfg, g, accounts, actions);
    var d := Uninterrupted(cfg, Start(g, accounts), Polled(actions)).value.driver;
    EnabledStepSucceeds(cfg, RunActions(cfg, Initial(g, accounts), actions).value, a, d);
  }

  // ----- versions of events

  lemma {:induction false} OfTypeMember(events: seq<BlockEvent>, t: EventType, e: BlockEvent)
    ensures e in OfType(events, t) <==> e in events && e.blockType == t
  {
    if events == [] {
    } else {
      OfTypeMember(events[1..], t, e);
    }
  }

  lemma LoadDated(s: Store, u: Upgrades, blockOf: nat -> nat)
    requires Dated(s.events, u, blockOf)
    ensures EventsDated(LoadEvents(s), u, blockOf)
  {
    forall e | e in OfType(s.events, Committed) || e in OfType(s.events, Verified)
      ensures e in s.events
    {
      OfTypeMember(s.events, Committed, e);
      OfTypeMember(s.events, Verified, e);
    }
  }

  ghost predicate SystemDated(sys: System, u: Upgrades, blockOf: nat -> nat) {
    && Dated(sys.store.events, u, blockOf)
    && (!sys.process.Down? ==> EventsDated(sys.process.driver.events, u, blockOf))
  }

  lemma {:induction false} TreeKeepsEvents(vm: Vm, l: Ledger, s: Store, bs: seq<RollupBlock>)
    requires UpdateTree(vm, l, s, bs).Some?
    ensures UpdateTree(vm, l, s, bs).value.1.events == s.events
    decreases |bs|
  {
    if bs == [] {
    } else {
      TreeKeepsEvents(vm, l, s, bs[..|bs| - 1]);
    }
  }

  lemma LoadKeepsEvents(cfg: Config, s: Store)
    requires Load(cfg, s).Some?
    ensures Load(cfg, s).value.0.events == LoadEvents(s) && Load(cfg, s).value.1.events == s.events
  {
    var e, l := LoadEvents(s), LoadLedger(s);
    match s.phase
    case NothingPending =>
    case EventsSaved =>
      var bs := NewBlocks(cfg, e, l).value;
      TreeKeepsEvents(cfg.vm, l, SaveRollupOps(s, bs), bs);
    case OperationsSaved =>
      TreeKeepsEvents(cfg.vm, l, s, s.rollups);
  }

  lemma NextDated(cfg: Config, sys: System, a: Action, blockOf: nat -> nat)
    requires OneBlockPerTx(cfg.logsAt, blockOf) && SystemDated(sys, cfg.upgrades, blockOf) && Next(cfg, sys, a).Some?
    ensures SystemDated(Next(cfg, sys, a).value, cfg.upgrades, blockOf)
  {
    match (sys.process, a)
    case (Idle(d), PollEvents(latest)) =>
      PollDated(d.events, cfg.logsAt, cfg.upgrades, latest, cfg.step, blockOf);
    case (HasEvents(_), SaveOps) =>
    case (HasOps(d, blocks), StoreTree) =>
      TreeKeepsEvents(cfg.vm, d.ledger, sys.store, blocks);
    case (_, Crash) =>
    case (Down, Restart) =>
      LoadKeepsEvents(cfg, sys.store);
      LoadDated(sys.store, cfg.upgrades, blockOf);
    case _ =>
  }

  /**
   If every transaction lies in one Ethereum block, then after any interleaving of steps, crashes and restarts the
   events of one transaction carry one contract version, in storage and in memory.
   */
  lemma {:induction false} EventsCarryOneVersion(cfg: Config, g: nat, accounts: AccountMap, actions: seq<Action>,
                                                 blockOf: nat -> nat)
    requires OneBlockPerTx(cfg.logsAt, blockOf) && RunActions(cfg, Initial(g, accounts), actions).Some?
    ensures var sys := RunActions(cfg, Initial(g, accounts), actions).value;
      && SystemDated(sys, cfg.upgrades, blockOf) && OneVersionPerTx(VerifiedCommitted(LoadEvents(sys.store)))
      && (!sys.process.Down? ==> OneVersionPerTx(VerifiedCommitted(sys.process.driver.events)))
    decreases |actions|
  {
    if actions == [] {
    } else {
      var n := |actions| - 1;
      EventsCarryOneVersion(cfg, g, accounts, actions[..n], blockOf);
      NextDated(cfg, RunActions(cfg, Initial(g, accounts), actions[..n]).value, actions[n], blockOf);
    }
    var sys := RunActions(cfg, Initial(g, accounts), actions).value;
    LoadDated(sys.store, cfg.upgrades, blockOf);
    DatedMeansOneVersion(LoadEvents(sys.store), cfg.upgrades, blockOf);
    if !sys.process.Down? {
      DatedMeansOneVersion(sys.process.driver.events, cfg.upgrades, blockOf);
    }
  }
}
