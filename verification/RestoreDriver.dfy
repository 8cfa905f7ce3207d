/**
 The restore driver and its in-memory storage as objects. Every method is tied to the corresponding
 step of the state machine, whose runs are treated in RestoreRun and CrashRecovery.
 */
module RestoreDriver {
  import opened Wrappers
  import opened RestoreEvents
  import opened OpsBlocks
  import opened TreeState
  import opened RestoreRun
  import opened CrashRecovery

  class Storage {
    var phase: Phase
    var rollups: seq<RollupBlock>
    var events: seq<BlockEvent>
    var lastWatchedBlock: nat
    var lastVerifiedBlock: nat
    var accounts: AccountMap

    ghost function State(): Store
      reads this
    {
      Store(phase, rollups, events, lastWatchedBlock, lastVerifiedBlock, accounts)
    }

    constructor ()
      ensures State() == Store(NothingPending, [], [], 0, 0, map[])
    {
      phase, rollups, events, lastWatchedBlock, lastVerifiedBlock := NothingPending, [], [], 0, 0;
      accounts := map[];
    }

    method SaveEventsState(blockEvents: seq<BlockEvent>, lastWatched: nat)
      modifies `events, `lastWatchedBlock, `phase
      ensures State() == old(State()).(events := blockEvents, lastWatched := lastWatched, phase := EventsSaved)
    {
      events := blockEvents;
      lastWatchedBlock := lastWatched;
      phase := EventsSaved;
    }

    method SaveOperations(blocks: seq<RollupBlock>)
      modifies `rollups, `phase
      ensures State() == SaveRollupOps(old(State()), blocks)
    {
      rollups := blocks;
      phase := OperationsSaved;
    }

    /** Applies account updates one by one; false stands for the panic on an update it cannot apply. */
    method UpdateTreeState(blockNumber: nat, updates: Updates) returns (ok: bool)
      modifies `lastVerifiedBlock, `accounts, `phase
      ensures ok <==> SaveTree(old(State()), blockNumber, updates).Some?
      ensures ok ==> State() == SaveTree(old(State()), blockNumber, updates).value
    {
      lastVerifiedBlock := blockNumber;
      for i := 0 to |updates|
        invariant ApplyUpdates(old(accounts), updates[..i]) == Some(accounts)
        invariant State() == old(State()).(lastVerified := blockNumber, accounts := accounts)
      {
        assert updates[..i + 1][..i] == updates[..i];
        var next := ApplyUpdate(accounts, updates[i].0, updates[i].1);
        if next.None? {
          FailedUpdates(old(accounts), updates, i + 1);
          return false;
        }
        accounts := next.value;
      }
      assert updates[..|updates|] == updates;
      phase := NothingPending;
      return true;
    }
  }

  lemma {:induction false} FailedUpdates(m: AccountMap, updates: Updates, i: nat)
    requires i <= |updates| && ApplyUpdates(m, updates[..i]).None?
    ensures ApplyUpdates(m, updates).None?
    decreases |updates|
  {
    if i == |updates| {
      assert updates[..i] == updates;
    } else {
      assert updates[..|updates| - 1][..i] == updates[..i];
      FailedUpdates(m, updates[..|updates| - 1], i);
    }
  }

  // ----- the counters of the tree do not influence its accounts

  ghost predicate SameAccounts(a: Option<Run>, b: Option<Run>) {
    (a.None? <==> b.None?)
    && (a.Some? ==> a.value.accounts == b.value.accounts && a.value.updates == b.value.updates && a.value.fees == b.value.fees)
  }

  lemma {:induction false} CountersDoNotMatter(vm: Vm, r: Run, r': Run, ops: seq<Op>)
    requires SameAccounts(Some(r), Some(r'))
    ensures SameAccounts(ExecuteOps(vm, r, ops), ExecuteOps(vm, r', ops))
    decreases |ops|
  {
    if ops == [] {
    } else {
      CountersDoNotMatter(vm, r, r', ops[..|ops| - 1]);
    }
  }

  lemma ExecuteIsReplay(vm: Vm, t: Tree, serial: nat, b: RollupBlock)
    ensures var full, plain := ExecuteBlock(vm, t, serial, b), ReplayBlock(vm, Ledger(t.accounts, t.blockNumber), b);
      && (full.Some? <==> plain.Some?)
      && (full.Some? ==> plain.value.ledger == Ledger(full.value.tree.accounts, full.value.tree.blockNumber)
                         && plain.value.updates == full.value.updates)
  {
    CountersDoNotMatter(vm, Run(t.accounts, [], [], [], 0, t.unprocessedPriorityOp, serial),
                        Run(t.accounts, [], [], [], 0, 0, 0), b.ops);
  }

  /** Running blocks with all counters changes the ledger as the replay does. */
  lemma {:induction false} RunIsReplay(vm: Vm, t: Tree, serial: nat, bs: seq<RollupBlock>)
    ensures var full, plain := ExecuteBlocks(vm, t, serial, bs), Replay(vm, Ledger(t.accounts, t.blockNumber), bs);
      && (full.Some? <==> plain.Some?)
      && (full.Some? ==> plain.value == Ledger(full.value.tree.accounts, full.value.tree.blockNumber))
    decreases |bs|
  {
    if bs == [] {
    } else {
      var before := bs[..|bs| - 1];
      RunIsReplay(vm, t, serial, before);
      var mid := ExecuteBlocks(vm, t, serial, before);
      if mid.Some? {
        ExecuteIsReplay(vm, mid.value.tree, mid.value.serial, bs[|bs| - 1]);
      }
    }
  }

  lemma {:induction false} FailedBlocks(vm: Vm, l: Ledger, s: Store, bs: seq<RollupBlock>, i: nat)
    requires i <= |bs| && (Replay(vm, l, bs[..i]).None? || UpdateTree(vm, l, s, bs[..i]).None?)
    ensures UpdateTree(vm, l, s, bs).None?
    decreases |bs|
  {
    if i == |bs| {
      assert bs[..i] == bs;
      if UpdateTree(vm, l, s, bs).Some? {
        UpdateTreeReplays(vm, l, s, bs);
      }
    } else {
      assert bs[..|bs| - 1][..i] == bs[..i];
      FailedBlocks(vm, l, s, bs[..|bs| - 1], i);
    }
  }

  lemma {:induction false} UpdateTreeReplays(vm: Vm, l: Ledger, s: Store, bs: seq<RollupBlock>)
    requires UpdateTree(vm, l, s, bs).Some?
    ensures Replay(vm, l, bs) == Some(UpdateTree(vm, l, s, bs).value.0)
    decreases |bs|
  {
    if bs == [] {
    } else {
      UpdateTreeReplays(vm, l, s, bs[..|bs| - 1]);
    }
  }

  /** The updates of every block of a replay. */
  ghost function UpdatesOf(vm: Vm, l: Ledger, bs: seq<RollupBlock>): Option<seq<Updates>>
    decreases |bs|
  {
    if bs == [] then Some([])
    else
      var before, mid := UpdatesOf(vm, l, bs[..|bs| - 1]), Replay(vm, l, bs[..|bs| - 1]);
      if before.None? || mid.None? then None
      else
        var r := ReplayBlock(vm, mid.value, bs[|bs| - 1]);
        if r.None? then None else Some(before.value + [r.value.updates])
  }

  lemma {:induction false} UpdatesOfAt(vm: Vm, l: Ledger, bs: seq<RollupBlock>, i: nat)
    requires UpdatesOf(vm, l, bs).Some?
    ensures |UpdatesOf(vm, l, bs).value| == |bs|
    ensures i < |bs| ==>
      && Replay(vm, l, bs[..i]).Some?
      && ReplayBlock(vm, Replay(vm, l, bs[..i]).value, bs[i]).Some?
      && ReplayBlock(vm, Replay(vm, l, bs[..i]).value, bs[i]).value.updates == UpdatesOf(vm, l, bs).value[i]
    decreases |bs|
  {
    if bs == [] {
    } else {
      UpdatesOfAt(vm, l, bs[..|bs| - 1], i);
      if i < |bs| - 1 {
        assert bs[..|bs| - 1][..i] == bs[..i];
      }
    }
  }

  /** Storing the next replayed block with its updates is the next step of storing block by block. */
  lemma {:induction false} UpdateTreeNext(vm: Vm, l: Ledger, s: Store, bs: seq<RollupBlock>, updates: seq<Updates>, i: nat)
    requires UpdatesOf(vm, l, bs) == Some(updates) && i < |bs| == |updates| && UpdateTree(vm, l, s, bs[..i]).Some?
    ensures var next := SaveTree(UpdateTree(vm, l, s, bs[..i]).value.1, bs[i].blockNum, updates[i]);
      && (UpdateTree(vm, l, s, bs[..i + 1]).Some? <==> next.Some?)
      && (next.Some? ==> UpdateTree(vm, l, s, bs[..i + 1]).value.1 == next.value)
  {
    assert bs[..i + 1][..i] == bs[..i];
    UpdatesOfAt(vm, l, bs, i);
    UpdateTreeReplays(vm, l, s, bs[..i]);
  }

  lemma {:induction false} FailedReplay(vm: Vm, l: Ledger, bs: seq<RollupBlock>, i: nat)
    requires i <= |bs| && Replay(vm, l, bs[..i]).None?
    ensures Replay(vm, l, bs).None?
    decreases |bs|
  {
    if i == |bs| {
      assert bs[..i] == bs;
    } else {
      assert bs[..|bs| - 1][..i] == bs[..i];
      FailedReplay(vm, l, bs[..|bs| - 1], i);
    }
  }

  class DataRestoreDriver {
    const cfg: Config
    /** The Ethereum block that each transaction lies in. */
    ghost const blockOf: nat -> nat
    var eventsState: EventsState
    var treeState: TreeStateObject
    var lastPriorityOpSerialId: nat

    ghost function View(): Driver
      reads this, eventsState, treeState
    {
      Driver(eventsState.State(), Ledger(treeState.accounts, treeState.blockNumber))
    }

    /** The versions of the events in memory are those of their transactions' blocks. */
    ghost predicate Valid()
      reads this, eventsState
    {
      OneBlockPerTx(cfg.logsAt, blockOf) && EventsDated(eventsState.State(), cfg.upgrades, blockOf)
    }

    constructor (cfg: Config, ghost blockOf: nat -> nat)
      requires OneBlockPerTx(cfg.logsAt, blockOf)
      ensures this.cfg == cfg && this.blockOf == blockOf && fresh(eventsState) && fresh(treeState) && Valid()
      ensures View() == Driver(Events([], [], 0), Ledger(map[], 0))
    {
      this.cfg := cfg;
      this.blockOf := blockOf;
      eventsState := new EventsState();
      treeState := new TreeStateObject.Load(0, map[], 0);
      lastPriorityOpSerialId := 0;
    }

    method UpdateEventsState(storage: Storage, latest: nat) returns (any: bool)
      requires Valid()
      modifies eventsState, storage
      ensures Valid() && Dated(storage.events, cfg.upgrades, blockOf)
      ensures var e := Poll(old(View()).events, cfg.logsAt, cfg.upgrades, latest, cfg.step);
        && View() == Driver(e, old(View()).ledger)
        && storage.State() == SaveEvents(old(storage.State()), e)
        && (any <==> e.committed + e.verified != [])
    {
      PollDated(eventsState.State(), cfg.logsAt, cfg.upgrades, latest, cfg.step, blockOf);
      var blockEvents, lastWatched := eventsState.UpdateEventsState(cfg.logsAt, cfg.upgrades, latest, cfg.step);
      storage.SaveEventsState(blockEvents, lastWatched);
      any := blockEvents != [];
    }

    method UpdateOperationsState(storage: Storage) returns (newBlocks: Option<seq<RollupBlock>>)
      requires Valid()
      modifies storage`rollups, storage`phase
      ensures newBlocks == NewBlocks(cfg, View().events, View().ledger)
      ensures newBlocks.Some? ==> storage.State() == SaveRollupOps(old(storage.State()), newBlocks.value)
    {
      var e := Events(eventsState.committedEvents, eventsState.verifiedEvents, eventsState.lastWatchedEthBlockNumber);
      DatedMeansOneVersion(e, cfg.upgrades, blockOf);
      newBlocks := GetNewOperationBlocks(cfg.fetch, VerifiedCommitted(e), treeState.blockNumber);
      if newBlocks.Some? {
        storage.SaveOperations(newBlocks.value);
      }
    }

    /** Replays blocks on the tree, collecting what storage will need; none stands for the panic. */
    method ReplayBlocks(bs: seq<RollupBlock>) returns (r: Option<seq<Updates>>)
      modifies treeState, this`lastPriorityOpSerialId
      ensures r.None? ==> Replay(cfg.vm, old(View()).ledger, bs).None?
      ensures r.Some? ==>
        && UpdatesOf(cfg.vm, old(View()).ledger, bs) == r
        && Replay(cfg.vm, old(View()).ledger, bs) == Some(View().ledger)
      ensures eventsState.State() == old(eventsState.State())
    {
      ghost var l := old(View()).ledger;
      var updates: seq<Updates> := [];
      for i := 0 to |bs|
        invariant Replay(cfg.vm, l, bs[..i]) == Some(Ledger(treeState.accounts, treeState.blockNumber))
        invariant UpdatesOf(cfg.vm, l, bs[..i]) == Some(updates)
      {
        ExecuteIsReplay(cfg.vm, treeState.State(), lastPriorityOpSerialId, bs[i]);
        assert bs[..i + 1][..i] == bs[..i];
        var block, serial := treeState.UpdateTreeStatesFromOpsBlock(cfg.vm, bs[i], lastPriorityOpSerialId);
        lastPriorityOpSerialId := serial;
        if block.None? {
          FailedReplay(cfg.vm, l, bs, i + 1);
          return None;
        }
        updates := updates + [block.value.1];
      }
      assert bs[..|bs|] == bs;
      return Some(updates);
    }

    /** Stores replayed blocks one after the other; false stands for the panic. */
    method StoreBlocks(storage: Storage, ghost l: Ledger, bs: seq<RollupBlock>, updates: seq<Updates>) returns (ok: bool)
      requires UpdatesOf(cfg.vm, l, bs) == Some(updates)
      modifies storage`lastVerifiedBlock, storage`accounts, storage`phase
      ensures var spec := UpdateTree(cfg.vm, l, old(storage.State()), bs);
        && (ok <==> spec.Some?)
        && (ok ==> storage.State() == spec.value.1)
    {
      ghost var s := old(storage.State());
      UpdatesOfAt(cfg.vm, l, bs, 0);
      for i := 0 to |bs|
        invariant UpdateTree(cfg.vm, l, s, bs[..i]).Some?
        invariant UpdateTree(cfg.vm, l, s, bs[..i]).value.1 == storage.State()
      {
        UpdateTreeNext(cfg.vm, l, s, bs, updates, i);
        var stored := storage.UpdateTreeState(bs[i].blockNum, updates[i]);
        if !stored {
          FailedBlocks(cfg.vm, l, s, bs, i + 1);
          return false;
        }
      }
      assert bs[..|bs|] == bs;
      return true;
    }

    /** All blocks are replayed first and stored afterwards; false stands for either panic. */
    method UpdateTreeState(storage: Storage, newOpsBlocks: seq<RollupBlock>) returns (ok: bool)
      modifies treeState, this`lastPriorityOpSerialId
      modifies storage`lastVerifiedBlock, storage`accounts, storage`phase
      ensures var spec := UpdateTree(cfg.vm, old(View()).ledger, old(storage.State()), newOpsBlocks);
        && (ok <==> spec.Some?)
        && (ok ==> View() == Driver(old(View()).events, spec.value.0) && storage.State() == spec.value.1)
    {
      ghost var l, s := View().ledger, storage.State();
      var updates := ReplayBlocks(newOpsBlocks);
      if updates.None? {
        assert newOpsBlocks[..|newOpsBlocks|] == newOpsBlocks;
        FailedBlocks(cfg.vm, l, s, newOpsBlocks, |newOpsBlocks|);
        return false;
      }
      ok := StoreBlocks(storage, l, newOpsBlocks, updates.value);
      if ok {
        UpdateTreeReplays(cfg.vm, l, s, newOpsBlocks);
      }
    }

    /** After a poll with events: stores the new blocks, then replays and stores them. */
    method FinishRound(storage: Storage) returns (ok: bool)
      requires Valid()
      modifies treeState, this`lastPriorityOpSerialId
      modifies storage`rollups, storage`lastVerifiedBlock, storage`accounts, storage`phase
      ensures Finish(cfg, System(old(storage.State()), HasEvents(old(View()))))
        == if ok then Some(System(storage.State(), Idle(View()))) else None
    {
      ghost var d, polled := View(), System(storage.State(), HasEvents(View()));
      var newBlocks := UpdateOperationsState(storage);
      if newBlocks.None? {
        return false;
      }
      ghost var saved := System(storage.State(), if newBlocks.value != [] then HasOps(d, newBlocks.value) else Idle(d));
      assert Next(cfg, polled, SaveOps) == Some(saved);
      if newBlocks.value == [] {
        return true;
      }
      ok := UpdateTreeState(storage, newBlocks.value);
      assert Next(cfg, saved, StoreTree) == if ok then Some(System(storage.State(), Idle(View()))) else None;
    }

    /** One round of the main loop takes the steps of the machine; false stands for a panic. */
    method RunStateUpdateRound(storage: Storage, latest: nat) returns (ok: bool)
      requires Valid()
      modifies eventsState, treeState, storage, this`lastPriorityOpSerialId
      ensures Valid() && Dated(storage.events, cfg.upgrades, blockOf)
      ensures Round(cfg, System(old(storage.State()), Idle(old(View()))), latest)
        == if ok then Some(System(storage.State(), Idle(View()))) else None
    {
      ghost var sys := System(storage.State(), Idle(View()));
      var any := UpdateEventsState(storage, latest);
      assert Next(cfg, sys, PollEvents(latest))
        == Some(System(storage.State(), if any then HasEvents(View()) else Idle(View())));
      ok := true;
      if any {
        ok := FinishRound(storage);
      }
    }

    /** Restart: reads storage and finishes what it says is pending. */
    method LoadStateFromStorage(storage: Storage) returns (ok: bool)
      requires OneBlockPerTx(cfg.logsAt, blockOf) && Dated(storage.events, cfg.upgrades, blockOf)
      modifies this, storage
      ensures Valid() && Dated(storage.events, cfg.upgrades, blockOf)
      ensures var spec := Load(cfg, old(storage.State()));
        && (ok <==> spec.Some?)
        && (ok ==> View() == spec.value.0 && storage.State() == spec.value.1)
    {
      var state := storage.phase;
      eventsState := new EventsState();
      eventsState.committedEvents := OfType(storage.events, Committed);
      eventsState.verifiedEvents := OfType(storage.events, Verified);
      eventsState.lastWatchedEthBlockNumber := storage.lastWatchedBlock;
      treeState := new TreeStateObject.Load(storage.lastVerifiedBlock, storage.accounts, 0);
      ghost var s := storage.State();
      LoadDated(s, cfg.upgrades, blockOf);
      assert View() == Driver(LoadEvents(s), LoadLedger(s));
      match state {
        case EventsSaved =>
          var newBlocks := UpdateOperationsState(storage);
          if newBlocks.None? {
            return false;
          }
          ok := UpdateTreeState(storage, newBlocks.value);
        case OperationsSaved =>
          ok := UpdateTreeState(storage, storage.rollups);
        case NothingPending =>
          ok := true;
      }
    }
  }
}
