/**
 The Ethereum sender as an object: its loops update the queue, the operations in flight and the tables.
 Each method is proved to take steps of the state machine, so what holds of all runs holds of the object.
 */
module EthSender {
  import opened Wrappers
  import opened TxQueue
  import opened EthDatabase
  import opened EthSenderRun
  import opened EthSenderSafety

  /**
   How starting an operation goes: it fails before an id is taken, it fails after the database has assigned
   ids, or the transaction is signed and stored. Sequences may skip numbers.
   */
  datatype Attempt =
    | Refused
    | Unsigned(gap: nat, bindingGap: nat)
    | SignedAs(tag: nat, gap: nat, bindingGap: nat)

  datatype SupplementReply = SigningFails | Replaces(tag: nat, sent: bool, stored: bool)

  /** What the node and the database answer during the check of one operation. */
  datatype CheckReply = CheckReply(view: Hash -> Reply, dbWorks: bool, supplement: SupplementReply)

  ghost predicate TruthfulView(mined: map<nat, Hash>, view: Hash -> Reply) {
    forall h :: view(h).Receipt? ==> h.nonce in mined && mined[h.nonce] == h
  }

  /** The node's replies for the hashes of one operation, by position. */
  function Replies(op: EthOp, view: Hash -> Reply): nat -> Reply {
    (k: nat) => if k < |op.hashes| then view(op.hashes[k]) else Unknown
  }

  function SupplementFor(op: EthOp, s: SupplementReply): Supplement {
    if s.SigningFails? then NotSigned else Signed(Hash(op.nonce, s.tag), s.sent, s.stored)
  }

  // ----- which steps an iteration takes

  /** Starting an operation in state w as the attempt goes: with these ids and this transaction, or not at all. */
  ghost predicate Sends(w: World, block: nat, attempt: Attempt, step: Step) {
    var db := w.db;
    match attempt
    case Refused => step == StartFails(db.lastEthId, db.lastBindingId)
    case Unsigned(gap, bindingGap) => step == StartFails(db.lastEthId + 1 + gap, db.lastBindingId + 1 + bindingGap)
    case SignedAs(tag, gap, bindingGap) =>
      step == Start(block, Hash(db.nonce, tag), db.lastEthId + 1 + gap, db.lastBindingId + 1 + bindingGap)
  }

  /** Step n starts an operation as attempt n goes. */
  ghost predicate SendsEach(cfg: Config, w: World, block: nat, attempts: seq<Attempt>, steps: seq<Step>)
    decreases |steps|
  {
    |steps| <= |attempts| &&
    (steps == [] ||
     var n := |steps| - 1;
     var before := Run(cfg, w, steps[..n]);
     SendsEach(cfg, w, block, attempts, steps[..n]) && before.Some? && Sends(before.value, block, attempts[n], steps[n]))
  }

  /** Checking this operation, which is in flight in state w, with these answers. */
  ghost predicate Checks(w: World, block: nat, reply: CheckReply, op: EthOp, step: Step) {
    && w.mem.Running? && step.Check? && step.i < |w.mem.ongoing| && w.mem.ongoing[step.i] == op
    && step == Check(step.i, block, Replies(op, reply.view), reply.dbWorks, SupplementFor(op, reply.supplement))
  }

  /** Step n checks operation n with answer n. */
  ghost predicate ChecksEach(cfg: Config, w: World, block: nat, answers: nat -> CheckReply, ops: seq<EthOp>,
                             steps: seq<Step>)
    decreases |steps|
  {
    |steps| <= |ops| &&
    (steps == [] ||
     var n := |steps| - 1;
     var before := Run(cfg, w, steps[..n]);
     ChecksEach(cfg, w, block, answers, ops, steps[..n]) && before.Some?
     && Checks(before.value, block, answers(n), ops[n], steps[n]))
  }

  /** The steps lead from w to w' and start operations as the attempts go. */
  ghost predicate Sending(cfg: Config, w: World, block: nat, attempts: seq<Attempt>, steps: seq<Step>, w': World) {
    Run(cfg, w, steps) == Some(w') && SendsEach(cfg, w, block, attempts, steps)
  }

  /** The steps lead from w to w' and check the operations with the answers. */
  ghost predicate Checking(cfg: Config, w: World, block: nat, answers: nat -> CheckReply, ops: seq<EthOp>,
                           steps: seq<Step>, w': World) {
    Run(cfg, w, steps) == Some(w') && ChecksEach(cfg, w, block, answers, ops, steps)
  }

  lemma {:induction false} SendsOneMore(cfg: Config, w: World, block: nat, attempts: seq<Attempt>, steps: seq<Step>,
                                        w': World, step: Step, w'': World)
    requires Sending(cfg, w, block, attempts, steps, w') && Next(cfg, w', step) == Some(w'')
    requires |steps| < |attempts| && Sends(w', block, attempts[|steps|], step)
    ensures Sending(cfg, w, block, attempts, steps + [step], w'')
  {
    var all, n := steps + [step], |steps|;
    assert all[..n] == steps && all[n] == step && |all| == n + 1;
    assert SendsEach(cfg, w, block, attempts, all[..n]) && Run(cfg, w, all[..n]) == Some(w');
  }

  lemma {:induction false} ChecksOneMore(cfg: Config, w: World, block: nat, answers: nat -> CheckReply, ops: seq<EthOp>,
                                         steps: seq<Step>, w': World, step: Step, w'': World)
    requires Checking(cfg, w, block, answers, ops, steps, w') && Next(cfg, w', step) == Some(w'')
    requires |steps| < |ops| && Checks(w', block, answers(|steps|), ops[|steps|], step)
    ensures Checking(cfg, w, block, answers, ops, steps + [step], w'')
  {
    var all, n := steps + [step], |steps|;
    assert all[..n] == steps && all[n] == step && |all| == n + 1;
    assert ChecksEach(cfg, w, block, answers, ops, all[..n]) && Run(cfg, w, all[..n]) == Some(w');
  }

  lemma {:induction false} RefusedStaysRefused(q: Queue, ops: seq<AggOp>, n: nat)
    requires n <= |ops| && AddAll(q, ops[..n]).None?
    ensures AddAll(q, ops).None?
    decreases |ops|
  {
    if n == |ops| {
      assert ops[..n] == ops;
    } else {
      assert ops[..|ops| - 1][..n] == ops[..n];
      RefusedStaysRefused(q, ops[..|ops| - 1], n);
    }
  }

  lemma InFlightCounted(cfg: Config, w: World, steps: seq<Step>, w': World)
    requires Inv(cfg, w) && Run(cfg, w, steps) == Some(w') && w'.mem.Running?
    ensures w'.mem.queue.sentPending == |w'.mem.ongoing| && ValidQueue(w'.mem.queue)
    ensures w'.mem.queue.maxPending == cfg.maxInFlight && StatisticsMatch(w'.mem.queue, w'.db.stats)
  {
    RunFromKeeps(cfg, w, steps);
  }

  /** The queue continues where the stored statistics end. */
  ghost predicate StatisticsMatch(queue: Queue, stats: Stats) {
    forall kind :: queue.Of(kind).lastBlock == stats.Of(kind)
  }

  /** How many of the attempts get as far as a stored transaction. */
  function SignedCount(attempts: seq<Attempt>): nat {
    if attempts == [] then 0
    else SignedCount(attempts[..|attempts| - 1]) + if attempts[|attempts| - 1].SignedAs? then 1 else 0
  }

  lemma SignedNext(attempts: seq<Attempt>, i: nat)
    requires i < |attempts|
    ensures SignedCount(attempts[..i + 1]) == SignedCount(attempts[..i]) + if attempts[i].SignedAs? then 1 else 0
  {
    assert attempts[..i + 1][..i] == attempts[..i];
  }

  lemma PopFits(queue: Queue, stats: Stats)
    requires ValidQueue(queue) && StatisticsMatch(queue, stats) && queue.PopFront().Some?
    ensures var op := queue.PopFront().value.0; op.first == stats.Of(op.kind) + 1
  {
    PopKeepsValid(queue);
  }

  lemma LoadStep(cfg: Config, w: World, w': World)
    requires w.mem.Running? && w' == w.(db := RemoveUnprocessed(w.db, IdsOf(LoadUnprocessed(w.db))), mem := w'.mem)
    requires w'.mem.Running? ==> w'.mem == w.mem.(queue := w'.mem.queue)
    requires AddAll(w.mem.queue, LoadUnprocessed(w.db)) == if w'.mem.Running? then Some(w'.mem.queue) else None
    ensures Next(cfg, w, LoadNew) == Some(w')
  {
  }

  class EthSender {
    const cfg: Config
    var db: Db
    var ongoing: seq<EthOp>
    var queue: Queue
    /** False once the process has panicked. */
    var running: bool
    ghost var sent: set<(nat, Hash)>
    ghost var mined: map<nat, Hash>
    ghost var confirmations: seq<Confirmation>

    ghost function State(): World
      reads this
    {
      World(db, if running then Running(ongoing, queue, sent) else Stopped, mined, confirmations)
    }

    ghost predicate Valid()
      reads this
    {
      Inv(cfg, State())
    }

    /** Starting up on the tables is the restart step. */
    constructor (cfg: Config, db: Db, ghost mined: map<nat, Hash>, ghost confirmations: seq<Confirmation>)
      requires Inv(cfg, World(db, Stopped, mined, confirmations))
      ensures Valid() && running && this.cfg == cfg
      ensures Next(cfg, World(db, Stopped, mined, confirmations), Restart) == Some(State())
    {
      this.cfg := cfg;
      var restored := RestoreUnprocessed(db);
      var ongoing := LoadUnconfirmed(restored.rows);
      this.ongoing := ongoing;
      this.db := RemoveUnprocessed(restored, OpIds(ongoing));
      this.queue := BuildQueue(cfg.maxInFlight, |ongoing|, db.stats.committed, db.stats.verified, db.stats.executed);
      this.running := true;
      this.sent, this.mined, this.confirmations := {}, mined, confirmations;
      new;
      StepKeeps(cfg, World(db, Stopped, mined, confirmations), Restart);
    }

    /** Adds operations to the queue one by one; a refusal is a panic. */
    method QueueAll(ops: seq<AggOp>)
      requires running
      modifies `queue, `running
      ensures AddAll(old(queue), ops) == if running then Some(queue) else None
    {
      var i := 0;
      while i < |ops| && running
        invariant i <= |ops| && AddAll(old(queue), ops[..i]) == if running then Some(queue) else None
      {
        assert ops[..i + 1][..i] == ops[..i];
        var added := queue.Add(ops[i]);
        if added.None? {
          running := false;
        } else {
          queue := added.value;
        }
        i := i + 1;
      }
      if running {
        assert ops[..i] == ops;
      } else {
        RefusedStaysRefused(old(queue), ops, i);
      }
    }

    /** Takes the loaded operations off the table, then queues them. */
    method LoadNewOperations()
      requires running
      modifies `db, `queue, `running
      ensures Next(cfg, old(State()), LoadNew) == Some(State())
    {
      var loaded := LoadUnprocessed(db);
      db := RemoveUnprocessed(db, IdsOf(loaded));
      QueueAll(loaded);
      LoadStep(cfg, old(State()), State());
    }

    /** The operation as it is first kept in memory. */
    ghost function NewOp(db: Db, op: AggOp, block: nat, tag: nat, id: nat): EthOp {
      EthOp(id, op, db.nonce, block + cfg.waitBlocks, [Hash(db.nonce, tag)], block)
    }

    /** `db'` is `db` with the new row, its binding, the next nonce and the statistics. */
    ghost predicate Saved(db: Db, op: AggOp, block: nat, tag: nat, db': Db) {
      SaveNewEthTx(db, op, db'.lastEthId, db'.lastBindingId, block + cfg.waitBlocks, Hash(db.nonce, tag), block) == Some(db')
    }

    /** Saves and sends one popped operation; nothing but used up ids remains of a failed attempt. */
    method InitializeOperation(op: AggOp, block: nat, attempt: Attempt) returns (ok: bool)
      requires running
      modifies `db, `ongoing, `sent
      ensures old(db).lastEthId <= db.lastEthId && old(db).lastBindingId <= db.lastBindingId
      ensures !ok ==> ongoing == old(ongoing) && sent == old(sent)
      ensures !ok ==> db == old(db).(lastEthId := db.lastEthId, lastBindingId := db.lastBindingId)
      ensures ok ==> attempt.SignedAs? && old(db).lastEthId < db.lastEthId && old(db).lastBindingId < db.lastBindingId
      ensures ok ==> Saved(old(db), op, block, attempt.tag, db)
      ensures ok ==> ongoing == old(ongoing) + [NewOp(old(db), op, block, attempt.tag, db.lastEthId)]
      ensures ok ==> sent == old(sent) + {(db.lastEthId, Hash(old(db).nonce, attempt.tag))}
      ensures ok <==> attempt.SignedAs? && old(db).stats.Of(op.kind) + 1 == op.first
      ensures attempt.Refused? ==> db == old(db)
      ensures !attempt.Refused? ==>
        && db.lastEthId == old(db).lastEthId + 1 + attempt.gap
        && db.lastBindingId == old(db).lastBindingId + 1 + attempt.bindingGap
    {
      if attempt.Refused? {
        return false;
      }
      var ethId, bindingId := db.lastEthId + 1 + attempt.gap, db.lastBindingId + 1 + attempt.bindingGap;
      if attempt.Unsigned? {
        db := db.(lastEthId := ethId, lastBindingId := bindingId);
        return false;
      }
      var deadline, nonce := block + cfg.waitBlocks, db.nonce;
      var hash := Hash(nonce, attempt.tag);
      var saved := SaveNewEthTx(db, op, ethId, bindingId, deadline, hash, block);
      if saved.None? {
        db := db.(lastEthId := ethId, lastBindingId := bindingId);
        return false;
      }
      ongoing := ongoing + [EthOp(ethId, op, nonce, deadline, [hash], block)];
      sent := sent + {(ethId, hash)};
      db := saved.value;
      return true;
    }

    /** One round of popping an operation and starting it, returning it to the queue on failure. */
    method SendNext(block: nat, attempt: Attempt) returns (ghost step: Step)
      requires running && ValidQueue(queue) && StatisticsMatch(queue, db.stats) && queue.PopFront().Some?
      modifies `db, `ongoing, `sent, `queue
      ensures Next(cfg, old(State()), step) == Some(State())
      ensures queue.maxPending == old(queue.maxPending)
      ensures queue.sentPending == old(queue.sentPending) + if attempt.SignedAs? then 1 else 0
      ensures Sends(old(State()), block, attempt, step)
    {
      ghost var w := State();
      var (op, popped) := queue.PopFront().value;
      ReturnUndoesPop(queue);
      PopFits(queue, db.stats);
      queue := popped;
      var ok := InitializeOperation(op, block, attempt);
      if ok {
        step := Start(block, Hash(w.db.nonce, attempt.tag), db.lastEthId, db.lastBindingId);
      } else {
        queue := queue.ReturnPopped(op).value;
        step := StartFails(db.lastEthId, db.lastBindingId);
      }
    }

    /**
     Sends what the queue allows. The attempts are what the environment does; the loop ends when the queue
     gives nothing more, or stands at the end of the attempts. However many of them fail in between, it has
     ended once as many succeeded as may be in flight.
     */
    method SendQueued(block: nat, attempts: seq<Attempt>) returns (ghost steps: seq<Step>)
      requires Valid() && running
      modifies `db, `ongoing, `sent, `queue
      ensures Valid() && Run(cfg, old(State()), steps) == Some(State())
      ensures SendsEach(cfg, old(State()), block, attempts, steps)
      ensures queue.PopFront().None? || |steps| == |attempts|
      ensures SignedCount(attempts) >= cfg.maxInFlight ==> queue.PopFront().None?
    {
      ghost var w := State();
      steps := [];
      var i := 0;
      while i < |attempts| && queue.PopFront().Some?
        invariant i <= |attempts| && |steps| == i
        invariant running && Sending(cfg, w, block, attempts, steps, State())
        invariant queue.sentPending >= SignedCount(attempts[..i])
      {
        ghost var before := State();
        InFlightCounted(cfg, w, steps, before);
        SignedNext(attempts, i);
        ghost var step := SendNext(block, attempts[i]);
        SendsOneMore(cfg, w, block, attempts, steps, before, step, State());
        steps := steps + [step];
        i := i + 1;
      }
      InFlightCounted(cfg, w, steps, State());
      assert attempts[..|attempts|] == attempts;
      RunFromKeeps(cfg, w, steps);
    }

    /**
     Goes through the hashes of an operation and confirms it, waits, panics on a failed transaction, or
     replaces the last transaction. `before` and `after` are the operations around it.
     */
    method PerformCommitmentStep(op: EthOp, block: nat, reply: CheckReply, ghost before: seq<EthOp>, ghost after: seq<EthOp>)
      returns (committed: bool, op': EthOp)
      requires running
      modifies `db, `running, `sent, `confirmations
      ensures var w := World(old(db), Running(before + [op] + after, queue, old(sent)), mined, old(confirmations));
        var w' := NextCheck(cfg, w, |before|, block, Replies(op, reply.view), reply.dbWorks,
                            SupplementFor(op, reply.supplement));
        && w'.db == db && w'.mined == mined && w'.confirmations == confirmations
        && (!running ==> w'.mem.Stopped?)
        && (running && !committed ==> w'.mem == Running(before + [op'] + after, queue, sent))
        && (running && committed && queue.ReportCommitment().Some? ==>
              w'.mem == Running(before + after, queue.ReportCommitment().value, sent))
    {
      ghost var ops := before + [op] + after;
      ghost var w := World(db, Running(ops, queue, sent), mined, confirmations);
      ghost var replies := Replies(op, reply.view);
      assert ops[|before|] == op && ops[..|before|] + ops[|before| + 1..] == before + after;
      op' := op;
      var k := 0;
      while k < |op.hashes|
        invariant k <= |op.hashes|
        invariant Scan(cfg, op, replies, block, 0) == Scan(cfg, op, replies, block, k)
        invariant db == w.db && running && sent == w.mem.sent && confirmations == w.confirmations
      {
        var hash := op.hashes[k];
        var status := reply.view(hash);
        if status.Unavailable? {
          return false, op;
        }
        match CheckTransactionState(cfg, k == |op.hashes| - 1, op, status, block) {
        case Pending =>
          return false, op;
        case Committed =>
          if !reply.dbWorks || !IsPreviousOperationConfirmed(db, op) {
            return false, op;
          }
          var confirmed := ConfirmOperation(db, op, hash);
          if confirmed.None? {
            return false, op;
          }
          db := confirmed.value;
          confirmations := confirmations + [Confirmation(op.id, hash, status.confirmations)];
          return true, op;
        case Stuck =>
        case Failed =>
          running := false;
          return false, op;
        }
        k := k + 1;
      }
      if reply.supplement.Replaces? {
        var deadline, hash := block + cfg.waitBlocks, Hash(op.nonce, reply.supplement.tag);
        op' := op.(deadline := deadline, hashes := op.hashes + [hash]);
        assert ops[|before| := op'] == before + [op'] + after;
        if reply.supplement.sent {
          sent := sent + {(op.id, hash)};
          if reply.supplement.stored {
            db := db.(rows := UpdateEthTx(db.rows, op.id, deadline, hash));
          }
        }
      }
      committed := false;
    }

    /** The machine's state while the operations are sifted: the kept ones and those still to be checked. */
    ghost function Sifting(kept: seq<EthOp>): World
      reads this
    {
      World(db, if running then Running(kept + ongoing, queue, sent) else Stopped, mined, confirmations)
    }

    /** Checks the next operation and keeps it unless it is committed. */
    method CheckNext(kept: seq<EthOp>, block: nat, reply: CheckReply) returns (kept': seq<EthOp>, ghost step: Step)
      requires running && ongoing != [] && queue.sentPending == |kept| + |ongoing| && TruthfulView(mined, reply.view)
      modifies `db, `ongoing, `queue, `running, `sent, `confirmations
      ensures ongoing == old(ongoing)[1..] && (running ==> queue.sentPending == |kept'| + |ongoing|)
      ensures Next(cfg, old(Sifting(kept)), step) == Some(Sifting(kept'))
      ensures Checks(old(Sifting(kept)), block, reply, old(ongoing)[0], step)
    {
      ghost var w := Sifting(kept);
      var op := ongoing[0];
      ongoing := ongoing[1..];
      assert w.mem.ongoing == kept + [op] + ongoing;
      step := Check(|kept|, block, Replies(op, reply.view), reply.dbWorks, SupplementFor(op, reply.supplement));
      assert CheckAllowed(w, |kept|, step.replies, step.supplement);
      var committed, op' := PerformCommitmentStep(op, block, reply, kept, ongoing);
      kept' := kept;
      if running {
        if committed {
          queue := queue.ReportCommitment().value;
        } else {
          kept' := kept + [op'];
        }
      }
    }

    /** The sifting loop: every operation is checked and kept unless it is committed. */
    method SiftOngoing(block: nat, answers: nat -> CheckReply) returns (ghost steps: seq<Step>)
      requires running && queue.sentPending == |ongoing| && forall n :: TruthfulView(mined, answers(n).view)
      modifies `db, `ongoing, `queue, `running, `sent, `confirmations
      ensures Run(cfg, old(State()), steps) == Some(State())
      ensures ChecksEach(cfg, old(State()), block, answers, old(ongoing), steps)
      ensures running ==> |steps| == old(|ongoing|)
    {
      ghost var w, ops := State(), ongoing;
      var kept: seq<EthOp> := [];
      steps := [];
      var n := 0;
      assert kept + ongoing == ongoing;
      while ongoing != [] && running
        invariant n == |steps| <= |ops| && ongoing == ops[n..]
        invariant Checking(cfg, w, block, answers, ops, steps, Sifting(kept))
        invariant running ==> queue.sentPending == |kept| + |ongoing|
        decreases |ongoing|
      {
        ghost var before := Sifting(kept);
        ghost var step;
        kept, step := CheckNext(kept, block, answers(n));
        ChecksOneMore(cfg, w, block, answers, ops, steps, before, step, Sifting(kept));
        steps := steps + [step];
        n := n + 1;
      }
      assert running ==> kept + ongoing == kept;
      ongoing := kept;
    }

    /** Checks every operation in flight once, in order, each with its own answers. */
    method CheckOngoing(block: nat, answers: nat -> CheckReply) returns (ghost steps: seq<Step>)
      requires Valid() && running && forall n :: TruthfulView(mined, answers(n).view)
      modifies `db, `ongoing, `queue, `running, `sent, `confirmations
      ensures Valid() && Run(cfg, old(State()), steps) == Some(State())
      ensures ChecksEach(cfg, old(State()), block, answers, old(ongoing), steps)
      ensures running ==> |steps| == old(|ongoing|)
    {
      ghost var w := State();
      InFlightCounted(cfg, w, [], w);
      steps := SiftOngoing(block, answers);
      RunFromKeeps(cfg, w, steps);
    }

    /**
     Without a block number nothing happens. Otherwise it sends what the queue allows, attempt by attempt, and then
     checks every operation that is in flight after that, unless this was done for the block before.
     */
    method ProceedNextOperations(lastUsedBlock: nat, blockNumber: Option<nat>, attempts: seq<Attempt>,
                                 answers: nat -> CheckReply)
      returns (usedBlock: nat, ghost sends: seq<Step>, ghost checks: seq<Step>)
      requires Valid() && running && forall n :: TruthfulView(mined, answers(n).view)
      modifies `db, `ongoing, `queue, `running, `sent, `confirmations
      ensures Valid() && Run(cfg, old(State()), sends + checks) == Some(State())
      ensures usedBlock == if blockNumber.None? then lastUsedBlock else blockNumber.value
      ensures blockNumber.None? ==> sends == [] && checks == []
      ensures Run(cfg, old(State()), sends).Some? && Run(cfg, old(State()), sends).value.mem.Running?
      ensures var sent := Run(cfg, old(State()), sends).value;
        blockNumber.Some? ==> SendsEach(cfg, old(State()), blockNumber.value, attempts, sends)
                              && (sent.mem.queue.PopFront().None? || |sends| == |attempts|)
      ensures blockNumber == Some(lastUsedBlock) ==> checks == []
      ensures var sent := Run(cfg, old(State()), sends).value;
        blockNumber.Some? && blockNumber.value != lastUsedBlock ==>
          && ChecksEach(cfg, sent, blockNumber.value, answers, sent.mem.ongoing, checks)
          && (running ==> |checks| == |sent.mem.ongoing|)
    {
      ghost var w := State();
      sends, checks := [], [];
      if blockNumber.None? {
        return lastUsedBlock, [], [];
      }
      var block := blockNumber.value;
      sends := SendQueued(block, attempts);
      if lastUsedBlock != block {
        checks := CheckOngoing(block, answers);
      }
      RunSplit(cfg, w, sends, checks);
      usedBlock := block;
    }
  }
}
