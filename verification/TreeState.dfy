/**
 Replaying operation blocks on the account tree: execution of single operations is a parameter;
 indices, priority counters and the updates handed to storage are followed exactly.
 */
module TreeState {
  import opened Wrappers
  import opened OpsBlocks

  datatype Account = Account(address: nat, nonce: nat, balances: map<nat, nat>, pubKeyHash: nat)

  type AccountMap = map<nat, Account>

  datatype AccountUpdate =
    | Create(address: nat, nonce: nat)
    | Delete(address: nat, nonce: nat)
    | UpdateBalance(token: nat, newBalance: nat, newNonce: nat)
    | ChangePubKeyHash(newPubKeyHash: nat, newNonce: nat)
    | MintNFT(token: nat)
    | RemoveNFT(token: nat)

  type Updates = seq<(nat, AccountUpdate)>

  datatype Fee = Fee(token: nat, amount: nat)

  /** Result of one operation: the new accounts, the updates that led there, and the fee if any. */
  datatype OpSuccess = OpSuccess(accounts: AccountMap, updates: Updates, fee: Option<Fee>)

  /** Execution of operations and fee collection, as deterministic functions of the accounts. */
  datatype Vm = Vm(
    execute: (AccountMap, Op) -> Option<OpSuccess>,
    collectFee: (AccountMap, seq<Fee>, nat) -> (AccountMap, Updates))

  datatype Executed =
    | ExecutedPriorityOp(op: Op, serialId: nat, blockIndex: nat)
    | ExecutedTx(op: Op, blockIndex: nat)

  datatype Block = Block(number: nat, feeAccount: nat, ops: seq<Executed>, firstPriorityOp: nat, endPriorityOp: nat)

  datatype Tree = Tree(accounts: AccountMap, unprocessedPriorityOp: nat, blockNumber: nat)

  predicate IsPriorityOp(op: Op) {
    op.Deposit? || op.FullExit?
  }

  // ----- what storage does with updates

  function Max(a: nat, b: nat): nat {
    if a < b then b else a
  }

  /**
   One account update. Deleting fails: the store looks the account up while it already holds its own
   state for writing. Updates of an unknown account fail as well.
   */
  function ApplyUpdate(m: AccountMap, id: nat, u: AccountUpdate): Option<AccountMap> {
    match u
    case Create(address, nonce) => Some(m[id := Account(address, nonce, map[], 0)])
    case Delete(_, _) => None
    case UpdateBalance(token, newBalance, newNonce) =>
      if id !in m then None
      else Some(m[id := m[id].(balances := m[id].balances[token := newBalance], nonce := Max(m[id].nonce, newNonce))])
    case ChangePubKeyHash(newPubKeyHash, newNonce) =>
      if id !in m then None
      else Some(m[id := m[id].(pubKeyHash := newPubKeyHash, nonce := Max(m[id].nonce, newNonce))])
    case MintNFT(_) => Some(m)
    case RemoveNFT(_) => Some(m)
  }

  /** The account with this balance of the token, and all its other balances as before. */
  ghost predicate SetsBalance(before: Account, after: Account, token: nat, balance: nat) {
    && after.balances.Keys == before.balances.Keys + {token} && after.balances[token] == balance
    && forall t :: t in before.balances && t != token ==> after.balances[t] == before.balances[t]
  }

  /**
   An update changes nothing but its own account. A balance or key update needs the account, keeps its address, and
   never lowers its nonce; a new account is empty, also when it replaces one.
   */
  lemma UpdateMeaning(m: AccountMap, id: nat, u: AccountUpdate)
    ensures ApplyUpdate(m, id, u).None? <==> u.Delete? || ((u.UpdateBalance? || u.ChangePubKeyHash?) && id !in m)
    ensures ApplyUpdate(m, id, u).Some? ==>
      var m' := ApplyUpdate(m, id, u).value;
      && (forall other :: other != id ==> (other in m' <==> other in m) && (other in m ==> m'[other] == m[other]))
      && (u.Create? ==> id in m' && m'[id].address == u.address && m'[id].nonce == u.nonce && m'[id].balances == map[]
                        && m'[id].pubKeyHash == 0)
      && (u.UpdateBalance? ==> id in m' && SetsBalance(m[id], m'[id], u.token, u.newBalance)
                               && m'[id].pubKeyHash == m[id].pubKeyHash)
      && (u.ChangePubKeyHash? ==> id in m' && m'[id].pubKeyHash == u.newPubKeyHash && m'[id].balances == m[id].balances)
      && (u.UpdateBalance? || u.ChangePubKeyHash? ==>
            && m'[id].address == m[id].address && m'[id].nonce >= m[id].nonce && m'[id].nonce >= u.newNonce
            && (m'[id].nonce == m[id].nonce || m'[id].nonce == u.newNonce))
      && (u.MintNFT? || u.RemoveNFT? ==> m' == m)
  {
  }

  function ApplyUpdates(m: AccountMap, updates: Updates): Option<AccountMap>
    decreases |updates|
  {
    if updates == [] then Some(m)
    else
      var before := ApplyUpdates(m, updates[..|updates| - 1]);
      if before.None? then None
      else ApplyUpdate(before.value, updates[|updates| - 1].0, updates[|updates| - 1].1)
  }

  lemma {:induction false} ApplyUpdatesAppend(m: AccountMap, xs: Updates, ys: Updates)
    requires ApplyUpdates(m, xs).Some?
    ensures ApplyUpdates(m, xs + ys) == ApplyUpdates(ApplyUpdates(m, xs).value, ys)
    decreases |ys|
  {
    if ys == [] {
      assert xs + ys == xs;
    } else {
      ApplyUpdatesAppend(m, xs, ys[..|ys| - 1]);
      assert (xs + ys)[..|xs + ys| - 1] == xs + ys[..|ys| - 1];
    }
  }

  /** The updates an execution reports are the changes it made. */
  ghost predicate Faithful(vm: Vm) {
    && (forall m, op :: vm.execute(m, op).Some? ==>
          ApplyUpdates(m, vm.execute(m, op).value.updates) == Some(vm.execute(m, op).value.accounts))
    && (forall m, fees, id :: ApplyUpdates(m, vm.collectFee(m, fees, id).1) == Some(vm.collectFee(m, fees, id).0))
  }

  // ----- one block

  /** Accumulators of the loop over a block's operations. */
  datatype Run = Run(accounts: AccountMap, updates: Updates, fees: seq<Fee>, ops: seq<Executed>, index: nat,
                     unprocessed: nat, serial: nat)

  function ExecuteOp(vm: Vm, r: Run, op: Op): Option<Run> {
    if op.Noop? then Some(r)
    else
      var res := vm.execute(r.accounts, op);
      if res.None? then None
      else
        var OpSuccess(accounts, updates, fee) := res.value;
        var fees := if fee.Some? then r.fees + [fee.value] else r.fees;
        if IsPriorityOp(op) then
          Some(Run(accounts, r.updates + updates, fees, r.ops + [ExecutedPriorityOp(op, r.serial, r.index)],
                   r.index + 1, r.unprocessed + 1, r.serial + 1))
        else
          Some(Run(accounts, r.updates + updates, fees, r.ops + [ExecutedTx(op, r.index)],
                   r.index + 1, r.unprocessed, r.serial))
  }

  function ExecuteOps(vm: Vm, r: Run, ops: seq<Op>): Option<Run>
    decreases |ops|
  {
    if ops == [] then Some(r)
    else
      var before := ExecuteOps(vm, r, ops[..|ops| - 1]);
      if before.None? then None else ExecuteOp(vm, before.value, ops[|ops| - 1])
  }

  datatype BlockResult = BlockResult(tree: Tree, serial: nat, block: Block, updates: Updates)

  /** Replays one block; none stands for the error that stops the driver. */
  function ExecuteBlock(vm: Vm, t: Tree, serial: nat, b: RollupBlock): Option<BlockResult> {
    var run := ExecuteOps(vm, Run(t.accounts, [], [], [], 0, t.unprocessedPriorityOp, serial), b.ops);
    if run.None? || b.feeAccount !in run.value.accounts then None
    else
      var (accounts, feeUpdates) := vm.collectFee(run.value.accounts, run.value.fees, b.feeAccount);
      Some(BlockResult(
        Tree(accounts, run.value.unprocessed, t.blockNumber + 1),
        run.value.serial,
        Block(b.blockNum, b.feeAccount, run.value.ops, t.unprocessedPriorityOp, run.value.unprocessed),
        run.value.updates + feeUpdates))
  }

  // ----- bookkeeping

  function PriorityOps(ops: seq<Op>): nat
    decreases |ops|
  {
    if ops == [] then 0
    else
      var last := ops[|ops| - 1];
      PriorityOps(ops[..|ops| - 1]) + (if last.Deposit? || last.FullExit? then 1 else 0)
  }

  function RealOps(ops: seq<Op>): seq<Op>
    decreases |ops|
  {
    if ops == [] then [] else RealOps(ops[..|ops| - 1]) + (if ops[|ops| - 1].Noop? then [] else [ops[|ops| - 1]])
  }

  /** Serial ids of the priority operations among the first k executed ones continue from `serial`. */
  ghost predicate Numbered(executed: seq<Executed>, ops: seq<Op>, serial: nat) {
    && |executed| == |ops|
    && forall i :: 0 <= i < |executed| ==>
      && executed[i].op == ops[i] && executed[i].blockIndex == i
      && (executed[i].ExecutedPriorityOp? <==> ops[i].Deposit? || ops[i].FullExit?)
      && (executed[i].ExecutedPriorityOp? ==> executed[i].serialId == serial + PriorityOps(ops[..i]))
  }

  lemma {:induction false} PriorityOpsOfReal(ops: seq<Op>)
    ensures PriorityOps(RealOps(ops)) == PriorityOps(ops)
    decreases |ops|
  {
    if ops == [] {
    } else {
      PriorityOpsOfReal(ops[..|ops| - 1]);
      var r := RealOps(ops[..|ops| - 1]);
      if ops[|ops| - 1].Noop? {
        assert r + [] == r;
      } else {
        assert (r + [ops[|ops| - 1]])[..|r|] == r;
      }
    }
  }

  lemma NumberedAppend(executed: seq<Executed>, ops: seq<Op>, serial: nat, e: Executed, op: Op)
    requires Numbered(executed, ops, serial)
    requires e == if IsPriorityOp(op) then ExecutedPriorityOp(op, serial + PriorityOps(ops), |ops|)
                  else ExecutedTx(op, |ops|)
    ensures Numbered(executed + [e], ops + [op], serial)
  {
    assert (ops + [op])[..|ops|] == ops;
    forall i | 0 <= i < |ops|
      ensures (ops + [op])[..i] == ops[..i]
    {
    }
  }

  /** The accumulators after executing `done` from `r`. */
  ghost predicate Accumulated(out: Run, r: Run, done: seq<Op>) {
    && Numbered(out.ops, done, r.serial) && out.index == |done|
    && out.unprocessed == r.unprocessed + PriorityOps(done) && out.serial == r.serial + PriorityOps(done)
  }

  lemma BookOp(vm: Vm, r: Run, mid: Run, done: seq<Op>, op: Op)
    requires Accumulated(mid, r, done) && !op.Noop? && ExecuteOp(vm, mid, op).Some?
    ensures Accumulated(ExecuteOp(vm, mid, op).value, r, done + [op])
  {
    var e := if IsPriorityOp(op) then ExecutedPriorityOp(op, mid.serial, mid.index) else ExecutedTx(op, mid.index);
    NumberedAppend(mid.ops, done, r.serial, e, op);
    assert (done + [op])[..|done|] == done;
  }

  lemma {:induction false} BookOps(vm: Vm, r: Run, ops: seq<Op>)
    requires r.ops == [] && r.index == 0 && ExecuteOps(vm, r, ops).Some?
    ensures Accumulated(ExecuteOps(vm, r, ops).value, r, RealOps(ops))
    decreases |ops|
  {
    if ops == [] {
    } else {
      var before, op := ops[..|ops| - 1], ops[|ops| - 1];
      BookOps(vm, r, before);
      if op.Noop? {
        assert RealOps(ops) == RealOps(before);
      } else {
        BookOp(vm, r, ExecuteOps(vm, r, before).value, RealOps(before), op);
      }
    }
  }

  lemma ExecuteOpsBookkeeping(vm: Vm, r: Run, ops: seq<Op>)
    requires r.ops == [] && r.index == 0 && ExecuteOps(vm, r, ops).Some?
    ensures var out := ExecuteOps(vm, r, ops).value;
      && Numbered(out.ops, RealOps(ops), r.serial)
      && out.index == |RealOps(ops)|
      && out.unprocessed == r.unprocessed + PriorityOps(ops)
      && out.serial == r.serial + PriorityOps(ops)
  {
    BookOps(vm, r, ops);
    PriorityOpsOfReal(ops);
  }

  lemma {:induction false} ExecuteOpsFaithful(vm: Vm, r: Run, ops: seq<Op>)
    requires r.updates == [] && ExecuteOps(vm, r, ops).Some? && Faithful(vm)
    ensures ApplyUpdates(r.accounts, ExecuteOps(vm, r, ops).value.updates)
         == Some(ExecuteOps(vm, r, ops).value.accounts)
    decreases |ops|
  {
    if ops == [] {
    } else {
      var before, op := ops[..|ops| - 1], ops[|ops| - 1];
      ExecuteOpsFaithful(vm, r, before);
      var mid := ExecuteOps(vm, r, before).value;
      if !op.Noop? {
        ApplyUpdatesAppend(r.accounts, mid.updates, vm.execute(mid.accounts, op).value.updates);
      }
    }
  }

  /**
   A replayed block numbers its real operations 0, 1, 2, ... without gaps, its priority range has as
   many places as it has priority operations, their serial ids are consecutive, and the tree counter
   moves by one.
   */
  lemma BlockBookkeeping(vm: Vm, t: Tree, serial: nat, b: RollupBlock)
    requires ExecuteBlock(vm, t, serial, b).Some?
    ensures var r := ExecuteBlock(vm, t, serial, b).value;
      && Numbered(r.block.ops, RealOps(b.ops), serial)
      && r.block.firstPriorityOp == t.unprocessedPriorityOp
      && r.block.endPriorityOp == r.tree.unprocessedPriorityOp == t.unprocessedPriorityOp + PriorityOps(b.ops)
      && r.serial == serial + PriorityOps(b.ops)
      && r.tree.blockNumber == t.blockNumber + 1 && r.block.number == b.blockNum
      && (Faithful(vm) ==> ApplyUpdates(t.accounts, r.updates) == Some(r.tree.accounts))
  {
    var start := Run(t.accounts, [], [], [], 0, t.unprocessedPriorityOp, serial);
    ExecuteOpsBookkeeping(vm, start, b.ops);
    var run := ExecuteOps(vm, start, b.ops).value;
    if Faithful(vm) {
      ExecuteOpsFaithful(vm, start, b.ops);
      ApplyUpdatesAppend(t.accounts, run.updates, vm.collectFee(run.accounts, run.fees, b.feeAccount).1);
    }
  }

  /** The operations of a stored block are those of the rollup block that do something, in order. */
  lemma {:induction false} RealOpsAt(ops: seq<Op>, i: nat)
    requires i < |ops|
    ensures var k := |RealOps(ops[..i])|;
      && |RealOps(ops[..i + 1])| == (if ops[i] == Noop then k else k + 1)
      && (ops[i] != Noop ==> k < |RealOps(ops)| && RealOps(ops)[k] == ops[i])
    decreases |ops|
  {
    var n := |ops| - 1;
    assert ops[..i + 1][..i] == ops[..i];
    if i < n {
      RealOpsAt(ops[..n], i);
      assert ops[..n][..i] == ops[..i];
    } else {
      assert ops[..i + 1] == ops;
    }
  }

  // ----- what a block does to the accounts

  /** The account states before, between and after the operations, if all of them succeed. */
  ghost predicate States(vm: Vm, m: AccountMap, ops: seq<Op>, a: seq<AccountMap>)
    decreases |ops|
  {
    |a| == |ops| + 1 &&
    if ops == [] then a == [m]
    else
      var n := |ops| - 1;
      States(vm, m, ops[..n], a[..n + 1]) && Leads(vm, a[n], ops[n], a[n + 1])
  }

  /** One operation leads from accounts m to m'. */
  ghost predicate Leads(vm: Vm, m: AccountMap, op: Op, m': AccountMap) {
    if op == Noop then m' == m else vm.execute(m, op).Some? && m' == vm.execute(m, op).value.accounts
  }

  /** The fees that the operations report, in order. */
  ghost function FeesOf(vm: Vm, m: AccountMap, ops: seq<Op>, a: seq<AccountMap>): seq<Fee>
    requires States(vm, m, ops, a)
    decreases |ops|
  {
    if ops == [] then []
    else
      var n := |ops| - 1;
      var fee := if ops[n] == Noop then None else vm.execute(a[n], ops[n]).value.fee;
      FeesOf(vm, m, ops[..n], a[..n + 1]) + (if fee.Some? then [fee.value] else [])
  }

  /** The updates that the operations report, in order. */
  ghost function ChangesOf(vm: Vm, m: AccountMap, ops: seq<Op>, a: seq<AccountMap>): Updates
    requires States(vm, m, ops, a)
    decreases |ops|
  {
    if ops == [] then []
    else
      var n := |ops| - 1;
      ChangesOf(vm, m, ops[..n], a[..n + 1]) + (if ops[n] == Noop then [] else vm.execute(a[n], ops[n]).value.updates)
  }

  ghost predicate Replayable(vm: Vm, t: Tree, b: RollupBlock, a: seq<AccountMap>) {
    States(vm, t.accounts, b.ops, a) && b.feeAccount in a[|b.ops|]
  }

  /** The fees are collected once, after all operations, and their updates come last. */
  ghost predicate Executes(vm: Vm, t: Tree, b: RollupBlock, a: seq<AccountMap>, r: BlockResult) {
    && States(vm, t.accounts, b.ops, a)
    && var (accounts, changes) := vm.collectFee(a[|b.ops|], FeesOf(vm, t.accounts, b.ops, a), b.feeAccount);
    && r.tree.accounts == accounts && r.updates == ChangesOf(vm, t.accounts, b.ops, a) + changes
    && r.block.feeAccount == b.feeAccount
  }

  lemma {:induction false} OpsAlongStates(vm: Vm, r: Run, ops: seq<Op>, a: seq<AccountMap>)
    requires r.updates == [] && r.fees == [] && States(vm, r.accounts, ops, a)
    ensures ExecuteOps(vm, r, ops).Some?
    ensures var out := ExecuteOps(vm, r, ops).value;
      && out.accounts == a[|ops|] && out.fees == FeesOf(vm, r.accounts, ops, a)
      && out.updates == ChangesOf(vm, r.accounts, ops, a)
    decreases |ops|
  {
    if ops == [] {
    } else {
      var n := |ops| - 1;
      OpsAlongStates(vm, r, ops[..n], a[..n + 1]);
    }
  }

  lemma {:induction false} OpsHaveStates(vm: Vm, r: Run, ops: seq<Op>) returns (a: seq<AccountMap>)
    requires ExecuteOps(vm, r, ops).Some?
    ensures States(vm, r.accounts, ops, a) && a[|ops|] == ExecuteOps(vm, r, ops).value.accounts
    decreases |ops|
  {
    if ops == [] {
      a := [r.accounts];
    } else {
      var n := |ops| - 1;
      var before := OpsHaveStates(vm, r, ops[..n]);
      a := before + [ExecuteOps(vm, r, ops).value.accounts];
      assert a[..n + 1] == before;
    }
  }

  /**
   A block is replayed if and only if every operation succeeds on the accounts that the ones before it left and the
   fee account exists in the end. Then the accounts and updates are those of the operations followed by collecting
   exactly the reported fees.
   */
  lemma BlockExecution(vm: Vm, t: Tree, serial: nat, b: RollupBlock)
    ensures ExecuteBlock(vm, t, serial, b).Some? <==> exists a :: Replayable(vm, t, b, a)
    ensures forall a :: Replayable(vm, t, b, a) ==>
      ExecuteBlock(vm, t, serial, b).Some? && Executes(vm, t, b, a, ExecuteBlock(vm, t, serial, b).value)
  {
    var start := Run(t.accounts, [], [], [], 0, t.unprocessedPriorityOp, serial);
    if ExecuteBlock(vm, t, serial, b).Some? {
      var a := OpsHaveStates(vm, start, b.ops);
      assert Replayable(vm, t, b, a);
    }
    forall a | Replayable(vm, t, b, a)
      ensures ExecuteBlock(vm, t, serial, b).Some? && Executes(vm, t, b, a, ExecuteBlock(vm, t, serial, b).value)
    {
      OpsAlongStates(vm, start, b.ops, a);
    }
  }

  // ----- many blocks

  datatype RunResult = RunResult(tree: Tree, serial: nat, blocks: seq<Block>)

  function ExecuteBlocks(vm: Vm, t: Tree, serial: nat, bs: seq<RollupBlock>): Option<RunResult>
    decreases |bs|
  {
    if bs == [] then Some(RunResult(t, serial, []))
    else
      var before := ExecuteBlocks(vm, t, serial, bs[..|bs| - 1]);
      if before.None? then None
      else
        var r := ExecuteBlock(vm, before.value.tree, before.value.serial, bs[|bs| - 1]);
        if r.None? then None
        else Some(RunResult(r.value.tree, r.value.serial, before.value.blocks + [r.value.block]))
  }

  function TotalPriorityOps(bs: seq<RollupBlock>): nat
    decreases |bs|
  {
    if bs == [] then 0 else TotalPriorityOps(bs[..|bs| - 1]) + PriorityOps(bs[|bs| - 1].ops)
  }

  /** The bookkeeping of one stored block, given the first unprocessed priority operation and serial id. */
  ghost predicate Booked(block: Block, b: RollupBlock, unprocessed: nat, serial: nat) {
    && block.number == b.blockNum
    && block.firstPriorityOp == unprocessed
    && block.endPriorityOp == unprocessed + PriorityOps(b.ops)
    && Numbered(block.ops, RealOps(b.ops), serial)
  }

  lemma {:induction false} RunCounters(vm: Vm, t: Tree, serial: nat, bs: seq<RollupBlock>)
    requires ExecuteBlocks(vm, t, serial, bs).Some?
    ensures var r := ExecuteBlocks(vm, t, serial, bs).value;
      && |r.blocks| == |bs|
      && r.tree.unprocessedPriorityOp == t.unprocessedPriorityOp + TotalPriorityOps(bs)
      && r.serial == serial + TotalPriorityOps(bs)
      && r.tree.blockNumber == t.blockNumber + |bs|
    decreases |bs|
  {
    if bs == [] {
    } else {
      var before := bs[..|bs| - 1];
      RunCounters(vm, t, serial, before);
      var mid := ExecuteBlocks(vm, t, serial, before).value;
      BlockBookkeeping(vm, mid.tree, mid.serial, bs[|bs| - 1]);
    }
  }

  /** Block i of a run is booked right after the priority operations of the blocks before it. */
  lemma {:induction false} RunBookkeeping(vm: Vm, t: Tree, serial: nat, bs: seq<RollupBlock>, i: nat)
    requires ExecuteBlocks(vm, t, serial, bs).Some? && i < |bs|
    ensures var r, n := ExecuteBlocks(vm, t, serial, bs).value, TotalPriorityOps(bs[..i]);
      |r.blocks| == |bs| && Booked(r.blocks[i], bs[i], t.unprocessedPriorityOp + n, serial + n)
    decreases |bs|
  {
    var before := bs[..|bs| - 1];
    RunCounters(vm, t, serial, bs);
    RunCounters(vm, t, serial, before);
    if i < |before| {
      RunBookkeeping(vm, t, serial, before, i);
      assert bs[..i] == before[..i];
    } else {
      var mid := ExecuteBlocks(vm, t, serial, before).value;
      BlockBookkeeping(vm, mid.tree, mid.serial, bs[i]);
      assert bs[..i] == before;
    }
  }

  /** Over a run, priority ranges of consecutive blocks abut, and both priority counters advance together. */
  lemma PriorityRangesAbut(vm: Vm, t: Tree, serial: nat, bs: seq<RollupBlock>, i: nat)
    requires ExecuteBlocks(vm, t, serial, bs).Some? && i < |bs|
    ensures var r := ExecuteBlocks(vm, t, serial, bs).value;
      && |r.blocks| == |bs|
      && r.blocks[i].firstPriorityOp == (if i == 0 then t.unprocessedPriorityOp else r.blocks[i - 1].endPriorityOp)
      && r.blocks[i].endPriorityOp - r.blocks[i].firstPriorityOp == PriorityOps(bs[i].ops)
      && r.serial - serial == r.tree.unprocessedPriorityOp - t.unprocessedPriorityOp
  {
    RunCounters(vm, t, serial, bs);
    RunBookkeeping(vm, t, serial, bs, i);
    if i > 0 {
      RunBookkeeping(vm, t, serial, bs, i - 1);
      assert bs[..i][..i - 1] == bs[..i - 1];
    }
  }

  // ----- the object and its loop

  class TreeStateObject {
    var accounts: AccountMap
    var currentUnprocessedPriorityOp: nat
    var blockNumber: nat

    ghost function State(): Tree
      reads this
    {
      Tree(accounts, currentUnprocessedPriorityOp, blockNumber)
    }

    constructor Load(currentBlock: nat, accountMap: AccountMap, unprocessed: nat)
      ensures State() == Tree(accountMap, unprocessed, currentBlock)
    {
      accounts, currentUnprocessedPriorityOp, blockNumber := accountMap, unprocessed, currentBlock;
    }

    method UpdateTreeStatesFromOpsBlock(vm: Vm, opsBlock: RollupBlock, lastSerialId: nat)
      returns (r: Option<(Block, Updates)>, serial: nat)
      modifies this
      ensures var spec := ExecuteBlock(vm, old(State()), lastSerialId, opsBlock);
        && (r.Some? <==> spec.Some?)
        && (spec.Some? ==> r == Some((spec.value.block, spec.value.updates))
                           && State() == spec.value.tree && serial == spec.value.serial)
    {
      serial := lastSerialId;
      var accountsUpdated: Updates, fees: seq<Fee>, ops: seq<Executed>, index := [], [], [], 0;
      var lastUnprocessed := currentUnprocessedPriorityOp;
      ghost var start := Run(accounts, [], [], [], 0, currentUnprocessedPriorityOp, lastSerialId);
      for i := 0 to |opsBlock.ops|
        invariant blockNumber == old(blockNumber)
        invariant ExecuteOps(vm, start, opsBlock.ops[..i])
               == Some(Run(accounts, accountsUpdated, fees, ops, index, currentUnprocessedPriorityOp, serial))
      {
        var op := opsBlock.ops[i];
        ExecuteOpsNext(vm, start, opsBlock.ops, i);
        if !op.Noop? {
          var res := vm.execute(accounts, op);
          if res.None? {
            FailedOps(vm, start, opsBlock.ops, i + 1);
            return None, serial;
          }
          accounts := res.value.accounts;
          accountsUpdated := accountsUpdated + res.value.updates;
          if res.value.fee.Some? {
            fees := fees + [res.value.fee.value];
          }
          if IsPriorityOp(op) {
            ops := ops + [ExecutedPriorityOp(op, serial, index)];
            currentUnprocessedPriorityOp := currentUnprocessedPriorityOp + 1;
          } else {
            ops := ops + [ExecutedTx(op, index)];
          }
          index := index + 1;
        }
        if IsPriorityOp(op) {
          serial := serial + 1;
        }
      }
      assert opsBlock.ops[..|opsBlock.ops|] == opsBlock.ops;
      if opsBlock.feeAccount !in accounts {
        return None, serial;
      }
      var (withFees, feeUpdates) := vm.collectFee(accounts, fees, opsBlock.feeAccount);
      accounts := withFees;
      accountsUpdated := accountsUpdated + feeUpdates;
      var block := Block(opsBlock.blockNum, opsBlock.feeAccount, ops, lastUnprocessed, currentUnprocessedPriorityOp);
      blockNumber := blockNumber + 1;
      return Some((block, accountsUpdated)), serial;
    }
  }

  lemma {:induction false} ExecuteOpsNext(vm: Vm, r: Run, ops: seq<Op>, i: nat)
    requires i < |ops|
    ensures ExecuteOps(vm, r, ops[..i + 1]) ==
      var before := ExecuteOps(vm, r, ops[..i]); if before.None? then None else ExecuteOp(vm, before.value, ops[i])
  {
    assert ops[..i + 1][..i] == ops[..i];
  }

  lemma {:induction false} FailedOps(vm: Vm, r: Run, ops: seq<Op>, i: nat)
    requires i <= |ops| && ExecuteOps(vm, r, ops[..i]).None?
    ensures ExecuteOps(vm, r, ops).None?
    decreases |ops|
  {
    if i == |ops| {
      assert ops[..i] == ops;
    } else {
      assert ops[..|ops| - 1][..i] == ops[..i];
      FailedOps(vm, r, ops[..|ops| - 1], i);
    }
  }
}
