# Verified model of zkSync's sender, data restore, packing and checks

This project models the stateful and arithmetic core of the zkSync repository in Dafny and proves what that
code is for. `dafny verify dfyconfig.toml` checks everything.

**Ethereum sender** (`TxQueue`, `EthDatabase`, `EthSenderRun`, `EthSenderSafety`, `EthSenderProperties`,
`EthSenderTables`, `EthSenderConservation`, `EthSenderStops`, `EthSenderExamples`, `EthSender`). The sender, its
tables and the chain are one state machine. A step is an operation handed over, a load from the table, a start, a
failed start, a check of one operation in flight, a transaction being mined, or a restart of the process. Failures of
the node and of the database, the replies of the node and the ids given out by database sequences are part of the
steps. All theorems quantify over every run from the empty tables. The class `EthSender` has the loops of the source. Each of its methods is proved to take steps of
the machine, so what holds of all runs holds of the object.

**Data restore** (`RestoreEvents`, `LogFetch`, `OpsBlocks`, `TreeState`, `ContractHistory`, `LaggingEvents`,
`RestoreRun`, `CrashRecovery`, `RestoreDriver`). Events are read in windows of Ethereum blocks, turned into rollup
blocks and replayed on the account tree. The chain head may fall behind what was already read, so windows may be read
again; what is fed to the tree is proved not to depend on that. Storage goes through its phases, and a crash may come after any of them. The classes
`EventsState`, `TreeStateObject`, `Storage` and `DataRestoreDriver` are proved against the value-level machine.
Executing one operation and collecting fees stay abstract deterministic functions.

**Packing and signed messages** (`Powers`, `Sequences`, `BitCodec`, `PackedFloat`, `MessageBytes`, `TxMessages`,
`MessageFormat`). Amounts and fees are packed as decimal floats. The encoders are proved optimal, the bit-level code
is proved to carry them exactly, every message is given byte by byte, and signed messages are proved to stay distinct
after padding.

**Batch signatures** (`BatchSignature`) and **storage reader** (`AccessorParser`, `StorageReader`).

## Where the code differs from what one would expect

The model follows the code. These are proved as lemmas, with the exact condition where one exists.

- A restart can lose operations. The query that restores unprocessed operations compares operation ids with the
  binding table's own row ids, by "differs from any". After every run, a restart conserves all operations if and
  only if every operation that was never sent is still listed or some binding row has an id other than the
  operation's (`RestartConservesExactly`); an operation is missing if and only if the last restart was not safe in
  this sense (`RunConserves`, `EachInOnePlace`). `QueuedOperationLost` is a concrete run that loses one. Once two
  operations were ever sent, restarts are safe and bring lost operations back (`TwoSentMakeSafe`,
  `LostOperationsReturn`). Even unsafe restarts never put an operation in two places or send it twice
  (`NeverInTwoPlaces`, `NeverSentTwice`).
- Confirmed ids are those of the first rows, but not always `1..k`, because ids taken by a failed start are not given
  back. They are `1..k` if and only if no start skipped an id before row k (`ConfirmedIdsArePrefix`);
  `ConfirmationsSkipId` is a run that confirms 1 and 3. If the very first id is lost that way, nothing is ever
  confirmed (`BurntIdBlocksConfirmation`, `FirstIdCanBurn`, `ConfirmsExactly`).
- The sender's documentation lists verify before withdraw before commit. The queue takes executions first, then
  proofs, then commits; the dependency order that matters is proved (`DependenciesSentFirst`).
- Nonces and timestamps have no upper check and are cut to 32 bits, so messages are distinct exactly up to that cut
  (`SignedMessagesDistinct`, `NonceWraps`).
- `reverseBits` drops the result of its bit reversal and only reverses bytes. The round trip relies on it.
- A batch needs at least as many signatures as distinct senders. A contract signature that two wallets accept
  therefore does not let a fully signed batch through (`VerifyBatch`, `SharedContractSignature`).
- The log fetch gives up on a range of two blocks, although its message speaks of one (`GetPriorityOperationsLogs`).
- If the chain head minus the offset drops below the last watched block, the next window goes backwards. The
  windows of a run tile the chain if and only if this never happens (`WindowsTileTheChain`); `LaggingHeadReadsTwice`
  is a run that reads a block twice. The logs in between are read again and their events collected again, yet the
  filters on processed blocks, which the source calls a way around unknown duplicates, suffice: the tree is fed
  exactly the executed blocks at the highest watched block, each once (`FedBlocksAreTheChain`), and crashes still
  recover (`CrashesRecover`).
- A replacement transaction that is sent but not stored cannot be confirmed when it is the one mined. As long as it
  is not stored, its operation and all later ones stay unconfirmed (`UnstoredHashBlocks`);
  `UnstoredReplacementStaysUnconfirmed` is such a run.
- After an unsafe restart, loading stops the process if and only if some listed operation comes after a lost one of
  its kind (`OnlyFailureStops`, `RefusesIffAfterLost`).
- The per-transaction block cache keeps the contract version of the first event of a transaction. This equals
  looking up every block with its own version because a transaction lies in one Ethereum block, so all its events
  carry one version (`GetNewOperationBlocks`, `EventsCarryOneVersion`).
- The name parser accepts empty texts and text after a closing bracket; `ParseAccepts` states exactly which names
  it accepts.

## Model

| member | source | states |
|---|---|---|
| TxQueue.PopKeepsValid | core/bin/zksync_eth_sender/src/tx_queue/mod.rs:230-268 | popping keeps every queue contiguous and never lets executions pass proofs or proofs pass commits; the popped operation continues its kind |
| TxQueue.PopsHighestPriority | core/bin/zksync_eth_sender/src/tx_queue/mod.rs:230-266 | below the limit something is popped if and only if some kind may be sent; it is the front of the sendable kind of highest priority and nothing else moves |
| TxQueue.ReturnUndoesPop | core/bin/zksync_eth_sender/src/tx_queue/mod.rs:199-226 | returning a popped operation never fails and restores the queue exactly |
| TxQueue.ReturnContinues | core/bin/zksync_eth_sender/src/tx_queue/operation_queue.rs:37-47 | whatever is returned goes to the front of its kind, frees a slot, and leaves the kind contiguous: only the operation that ends where the kind stands is accepted |
| TxQueue.AddKeepsValid | core/bin/zksync_eth_sender/src/tx_queue/operation_queue.rs:50-70 | an accepted operation extends the ranges of its kind without a gap |
| EthDatabase.LatestBelowIsPrevious | core/lib/storage/src/ethereum/mod.rs:279-293 | the row consulted for an operation is the row just before it, or none for the first row |
| EthDatabase.RowOfHash | core/lib/storage/src/ethereum/mod.rs:296-308 | finds a row that stores the hash, or reports that no row does |
| EthDatabase.UnconfirmedSuffix | core/lib/storage/src/ethereum/mod.rs:32-120 | when the first c rows are confirmed, loading gives exactly the other rows in order |
| EthSenderRun.ScanMeaning | core/bin/zksync_eth_sender/src/lib.rs:589-636 | the first hash the node knows decides the outcome, whichever it is; if it knows none, the deadline alone decides between waiting and replacing |
| EthSenderRun.ScanCommitted | core/bin/zksync_eth_sender/src/lib.rs:461-513 | a committed scan has seen a successful receipt with enough confirmations |
| EthSenderRun.ScanAllStuck | core/bin/zksync_eth_sender/src/lib.rs:515-534 | a scan asks for a replacement only if the node knew no hash and the deadline has passed |
| EthSenderSafety.OnlyOldestConfirms | core/bin/zksync_eth_sender/src/database.rs:232-252 | only the oldest unconfirmed operation passes the check of its predecessor |
| EthSenderSafety.HashFindsRow | core/lib/storage/src/ethereum/mod.rs:491-512 | nonces tell rows apart, so a stored hash leads to the row of its own operation |
| EthSenderSafety.StartKeeps | core/bin/zksync_eth_sender/src/lib.rs:340-411 | a start keeps row order, consecutive nonces, the mirror of rows in memory, the in-flight count and tracked hashes |
| EthSenderSafety.ConfirmKeeps | core/bin/zksync_eth_sender/src/lib.rs:476-513 | a confirmation keeps the same, with confirmed rows remaining a prefix that matches the history |
| EthSenderSafety.SupplementKeeps | core/bin/zksync_eth_sender/src/lib.rs:533-561 | a replacement keeps the same, whichever of signing, storing and sending fails |
| EthSenderSafety.StartFailsKeeps | core/bin/zksync_eth_sender/src/lib.rs:262-274 | a failed start leaves memory exactly as it was |
| EthSenderSafety.RestartKeeps | core/bin/zksync_eth_sender/src/lib.rs:128-184 | a restart rebuilds the operations in flight and a valid queue from the tables |
| EthSenderSafety.RunKeeps | core/bin/zksync_eth_sender/src/lib.rs:187-323 | the invariant holds after every run with any failures and restarts |
| EthSenderProperties.ConfirmedInOrder | core/bin/zksync_eth_sender/src/lib.rs:461-513 | after every run exactly the first rows are confirmed, in order and once each, by an own hash that is the one mined for the nonce and is deep enough |
| EthSenderProperties.HistoryOnlyGrows | core/bin/zksync_eth_sender/src/lib.rs:480-513 | continuing a run never takes back, changes or repeats a confirmation |
| EthSenderProperties.PredecessorCheck | core/bin/zksync_eth_sender/src/database.rs:232-252 | in every reachable state the check passes for an operation if and only if it is the oldest and the first id was 1 |
| EthSenderProperties.ConfirmsExactly | core/bin/zksync_eth_sender/src/lib.rs:447-513 | a check confirms if and only if a deep successful receipt was found, the database works, the operation is the oldest, the first id was 1 and the hash was stored |
| EthSenderProperties.BurntIdBlocksConfirmation | core/lib/storage/src/ethereum/mod.rs:279-293 | if a failed start used up id 1, no continuation of the run confirms anything |
| EthSenderProperties.ConfirmedIdsArePrefix | core/lib/storage/src/ethereum/mod.rs:218-275 | for every run, the ids of the k confirmed operations are exactly 1..k if and only if every start that filled one of the first k rows took the id right after them |
| EthSenderProperties.OldestConfirms | core/bin/zksync_eth_sender/src/lib.rs:461-513 | in every state with the invariant, a check that finds any stored transaction of the oldest operation, the first or a replacement, mined and deep enough confirms it, and changes nothing else |
| EthSenderProperties.UnstoredHashBlocks | core/bin/zksync_eth_sender/src/lib.rs:500-561 | after every run, while the transaction mined for a row's nonce is not among the row's stored hashes, that row and all later ones are unconfirmed |
| EthSenderProperties.OngoingInOrder | core/bin/zksync_eth_sender/src/lib.rs:262-319 | operations in memory increase in id, have consecutive nonces, and the queue's counter equals their number, within the limit |
| EthSenderProperties.StatisticsFit | core/lib/storage/src/ethereum/mod.rs:359-416 | the order check on created operations never fails for the operation the queue pops |
| EthSenderProperties.NoSentHashForgotten | core/bin/zksync_eth_sender/src/lib.rs:379-408 | a hash passed to the node stays in its operation's list until confirmation, whatever fails later, until a restart |
| EthSenderProperties.ReplacementDiscipline | core/bin/zksync_eth_sender/src/lib.rs:533-561 | hashes change or are sent in a check only when the node knew none of them and the deadline had passed; one hash is added and the deadline moves by at least the waiting period |
| EthSenderProperties.ReplacesExactly | core/bin/zksync_eth_sender/src/lib.rs:515-561 | after every run, a check replaces the last transaction if and only if it finds the operation stuck and a replacement is signed; memory then has the new hash and deadline, the table if it was sent and stored, and nothing else changes |
| EthSenderProperties.ReplacementBound | core/bin/zksync_eth_sender/src/lib.rs:583-636 | with waiting period w > 0, an operation started at block b0 has at most 1 + (B - b0) / w hashes, B being the highest block at which it was started or checked |
| EthSenderProperties.DependenciesSentFirst | core/bin/zksync_eth_sender/src/tx_queue/mod.rs:245-266 | each block of a proof was in a commit, and each block of an execution in a proof, sent earlier with a smaller nonce |
| EthSenderTables.CoveredOnlySelf | core/lib/storage/src/chain/operations/mod.rs:141-164 | confirming by block range marks exactly one operation |
| EthSenderTables.AddAllAppends | core/bin/zksync_eth_sender/src/lib.rs:236-238 | accepted operations go to the ends of the queues of their kinds, in order, and nothing else changes |
| EthSenderTables.NextByRange | core/lib/storage/src/ethereum/mod.rs:359-416 | the stored operation whose range continues the first ones is the next stored one |
| EthSenderTables.RunStored | core/bin/zksync_eth_sender/src/lib.rs:128-323 | after every run, whatever its restarts, the sent operations of each kind are the first stored ones, none of them is listed, the confirmed ones are marked, and queued ones are stored and not listed |
| EthSenderTables.NeverSentTwice | core/bin/zksync_eth_sender/src/lib.rs:138-154 | no run, whatever its restarts, sends an operation twice |
| EthSenderTables.NeverInTwoPlaces | core/bin/zksync_eth_sender/src/lib.rs:138-319 | after every run, whatever its restarts, listed, queued, in flight and confirmed exclude each other |
| EthSenderConservation.AddAllSucceeds | core/bin/zksync_eth_sender/src/lib.rs:779-797 | operations that continue the queues are all accepted, each at the end of its own queue |
| EthSenderConservation.LoadSucceeds | core/bin/zksync_eth_sender/src/lib.rs:213-242 | in a conserved state loading never fails and appends every unprocessed operation |
| EthSenderTables.RestartLists | core/lib/storage/src/ethereum/mod.rs:126-152 | after a restart an operation is unprocessed if and only if it was never sent and was listed or some binding id differs from its id |
| EthSenderConservation.RestartConservesIff | core/bin/zksync_eth_sender/src/lib.rs:138-166 | start-up on consistent tables loses nothing if and only if the tables are restart-safe |
| EthSenderConservation.RunConserves | core/bin/zksync_eth_sender/src/lib.rs:138-166 | after every run with the process up, the stored operations of each kind are the sent, queued and unprocessed ones in this order if and only if the last restart was safe, and some operation is lost if and only if it was not |
| EthSenderConservation.RestartConservesExactly | core/lib/storage/src/ethereum/mod.rs:126-152 | after every run, one more restart conserves the operations if and only if it is safe |
| EthSenderConservation.TwoSentMakeSafe | core/lib/storage/src/ethereum/mod.rs:126-152 | every restart is safe once two operations have been sent |
| EthSenderConservation.LostOperationsReturn | core/lib/storage/src/ethereum/mod.rs:126-152 | from then on a restart brings back every operation that an earlier one lost |
| EthSenderExamples.QueuedOperationLost | core/lib/storage/src/ethereum/mod.rs:126-152 | a queued operation is nowhere after a restart if nothing was ever sent |
| EthSenderExamples.FirstIdCanBurn | core/bin/zksync_eth_sender/src/lib.rs:340-389 | a concrete run with one failed start after which no continuation confirms anything |
| EthSenderExamples.ConfirmationsSkipId | core/bin/zksync_eth_sender/src/lib.rs:340-389 | a concrete run that starts id 1, burns id 2, starts id 3 and confirms exactly 1 and 3 |
| EthSenderExamples.UnstoredReplacementStaysUnconfirmed | core/bin/zksync_eth_sender/src/lib.rs:533-561 | a concrete run that sends a replacement, fails to store it and has it mined; a check that finds it deep enough confirms nothing |
| EthSenderStops.ContinuingAreNext | core/bin/zksync_eth_sender/src/tx_queue/operation_queue.rs:50-70 | stored operations of one kind that continue the first n are the next stored ones, in order |
| EthSenderStops.RefusesIffAfterLost | core/bin/zksync_eth_sender/src/lib.rs:779-797 | the queue refuses one of the operations to be loaded if and only if some listed operation comes after a lost one of its kind |
| EthSenderStops.OnlyFailureStops | core/bin/zksync_eth_sender/src/lib.rs:569-580 | after every run, a step stops the process if and only if it meets a transaction that failed on chain or loads an operation that comes after a lost one of its kind; the latter never happens after a safe restart |
| EthSenderConservation.EachInOnePlace | core/bin/zksync_eth_sender/src/lib.rs:213-319 | after every run with the process up, each operation handed over is in exactly one place (waiting, in flight or confirmed) if and only if the last restart was safe |
| EthSender.EthSender.constructor | core/bin/zksync_eth_sender/src/lib.rs:128-184 | starting up is the restart step and establishes the invariant |
| EthSender.EthSender.LoadNewOperations | core/bin/zksync_eth_sender/src/lib.rs:213-242 | the loop takes the loading step, including the stop when an operation is refused |
| EthSender.EthSender.InitializeOperation | core/bin/zksync_eth_sender/src/lib.rs:340-411 | success saves row, binding, nonce and statistics and keeps the operation; failure changes nothing but used up ids |
| EthSender.EthSender.SendQueued | core/bin/zksync_eth_sender/src/lib.rs:262-274 | the sending loop is a run in which step n starts an operation as attempt n goes, with its ids and transaction, or fails; it ends with nothing to pop or at the end of the attempts; however many attempts fail, nothing is left to pop once as many succeeded as may be in flight |
| EthSender.EthSender.PerformCommitmentStep | core/bin/zksync_eth_sender/src/lib.rs:447-565 | the scan over the hashes and its outcome are the check step on this operation |
| EthSender.EthSender.CheckOngoing | core/bin/zksync_eth_sender/src/lib.rs:281-319 | sifting the operations is a run in which step n checks the n-th operation in flight with the n-th answers; unless the process stops, every operation is checked; the invariant is kept |
| EthSender.EthSender.ProceedNextOperations | core/bin/zksync_eth_sender/src/lib.rs:251-323 | without a block number nothing happens; otherwise an iteration is the sends of the attempts followed by checks: none if the block is the one used last, else one for each operation in flight after sending, each with its own answers; the used block is the current one if known |
| RestoreEvents.LogsInSplit | core/bin/data_restore/src/events_state.rs:508-552 | the logs of two adjacent ranges of blocks are those of the joined range |
| RestoreEvents.LogsInOne | core/bin/data_restore/src/events_state.rs:508-552 | the logs of one block are those of that block |
| RestoreEvents.WindowsTile | core/bin/data_restore/src/events_state.rs:208-231 | windows start right after the last watched block and end at the head or a step further, whichever is less; they go backwards only if the head does |
| RestoreEvents.MaxBlockNum | core/bin/data_restore/src/events_state.rs:643-648 | the greatest block number of a list, none for the empty one |
| RestoreEvents.EventVersion | core/bin/data_restore/src/events_state.rs:609-637 | a commit or verification log adds one event at the end of its list, with the initial version plus the number of upgrade blocks not above the log's block |
| RestoreEvents.EventsState.UpdateBlocksState | core/bin/data_restore/src/events_state.rs:560-638 | the loop over logs appends commits and verifications and applies reverts in order |
| RestoreEvents.EventsState.RemoveVerifiedEvents | core/bin/data_restore/src/events_state.rs:651-658 | drops verified events and the commits they cover |
| RestoreEvents.EventsState.UpdateEventsState | core/bin/data_restore/src/events_state.rs:104-176 | one poll of the next window, and the events and block handed to storage |
| LogFetch.GetPriorityOperationsLogs | core/bin/data_restore/src/events_state.rs:344-400 | whatever ranges the node refuses, success returns the logs of start..=end in order once each; each query is the one its predecessor's answer demands, and an error means that the last query of this chain failed or was refused for at most two blocks, with the error that names which |
| OpsBlocks.DirectBlocksOrdered | core/bin/data_restore/src/data_restore_driver.rs:533-585 | for any events, blocks increase strictly, lie above the tree's block, and each is the lookup of an event in its own transaction |
| OpsBlocks.LookupMeaning | core/bin/data_restore/src/data_restore_driver.rs:560-580 | an event leads to the last block of its number in its own transaction, read in its own version, and to none exactly when there is none |
| OpsBlocks.PanicsOnlyWhenAbsent | core/bin/data_restore/src/data_restore_driver.rs:560-580 | the panic means that a new event has no block in its transaction |
| OpsBlocks.DueAreFed | core/bin/data_restore/src/data_restore_driver.rs:533-585 | every event above the tree's block and above all events before it has its block among the blocks, or the loop panics and one of these has none |
| OpsBlocks.BlocksAreVerified | core/bin/data_restore/src/events_state.rs:661-671 | blocks fed to the tree come from committed events and do not exceed the greatest verified block |
| OpsBlocks.GetNewOperationBlocks | core/bin/data_restore/src/data_restore_driver.rs:533-585 | for any events, the loop with its per-transaction cache equals looking up every block directly in the version its transaction was fetched with, which is its own version where transactions have one |
| TreeState.BlockBookkeeping | core/bin/data_restore/src/tree_state.rs:443-481 | non-Noop operations get indices 0..k-1 and consecutive serial ids; the priority range has their count; the updates reproduce the accounts |
| TreeState.RealOpsAt | core/bin/data_restore/src/tree_state.rs:443 | the operations of a stored block are those of the rollup block other than Noop, in order |
| TreeState.BlockExecution | core/bin/data_restore/src/tree_state.rs:136-481 | a block is replayed if and only if every operation succeeds on the accounts that the earlier ones left and the fee account exists in the end; accounts and updates are then those of the operations followed by collecting exactly the reported fees, in order |
| TreeState.UpdateMeaning | core/bin/data_restore/src/inmemory_storage_interactor.rs:119-178 | an update changes only its own account: the named balance or key hash, and a nonce that never falls; it fails exactly on a deletion or an unknown account |
| TreeState.RunBookkeeping | core/bin/data_restore/src/tree_state.rs:136-148 | in a run of blocks every block's range and serial ids continue from the sum of the earlier ones |
| TreeState.PriorityRangesAbut | core/bin/data_restore/src/tree_state.rs:443-481 | consecutive ranges abut with the right length, and serial ids advance in lockstep with the counter |
| TreeState.TreeStateObject.UpdateTreeStatesFromOpsBlock | core/bin/data_restore/src/tree_state.rs:124-573 | the loop over operations computes the value-level block result, or fails exactly when that does; `BlockExecution` and `BlockBookkeeping` say what that result is |
| ContractHistory.TracksLogs | core/bin/data_restore/src/events_state.rs:560-638 | after any lawful logs the events are the commits after block k and the verifications up to the executed block |
| ContractHistory.TracksWithoutVerified | core/bin/data_restore/src/events_state.rs:651-658 | dropping verified events leaves exactly the blocks that are not executed |
| ContractHistory.VerifiedCommittedTracks | core/bin/data_restore/src/events_state.rs:661-671 | the verified committed events are exactly the commits of the newly executed blocks |
| ContractHistory.ExecutedStays | contracts/contracts/AdditionalZkSync.sol:228-254 | reverts never touch executed blocks |
| ContractHistory.DirectBlocksOfChain | core/bin/data_restore/src/data_restore_driver.rs:533-585 | from a slice of the contract's list the lookups are exactly the blocks of that slice |
| LaggingEvents.SurvivorStays | contracts/contracts/AdditionalZkSync.sol:228-254 | commits that no revert among the logs reaches stay in the contract's list |
| LaggingEvents.ReadLogs | core/bin/data_restore/src/events_state.rs:560-638 | wherever logs are read from, again or not: afterwards every surviving committed block above the tree has an event, its predecessors come before it, and surviving events are those of the highest watched block's chain |
| LaggingEvents.PositionFallsBack | core/bin/data_restore/src/events_state.rs:200-231 | moving the position back over logs keeps this |
| LaggingEvents.SequenceFeeds | core/bin/data_restore/src/data_restore_driver.rs:545-585 | such events, repeated or not, give the contract's next blocks without gap or repetition, up to the greatest of them |
| LaggingEvents.NewlyExecutedFeed | core/bin/data_restore/src/data_restore_driver.rs:519-585 | at the highest watched block the blocks found are exactly those executed after the tree's block |
| LaggingEvents.OldVerificationsFeedNothing | core/bin/data_restore/src/data_restore_driver.rs:519-585 | behind the highest watched block nothing new is found |
| RestoreRun.NewBlocksAreNext | core/bin/data_restore/src/data_restore_driver.rs:519-585 | whatever the head, the new blocks of a round are exactly the contract's executed blocks at the highest watched block that were not fed before |
| RestoreRun.ReplayMeaning | core/bin/data_restore/src/data_restore_driver.rs:459-492 | a replay reaches a ledger if and only if the blocks lead there one by one, each by its operations and then the fees they reported |
| RestoreRun.FedBlocksAreTheChain | core/bin/data_restore/src/data_restore_driver.rs:341-412 | over every run, heads that fall behind included, exactly the executed blocks 1, 2, 3, ... of the contract at the highest watched block are fed, each once, and the tree is their replay |
| RestoreRun.SilentBeforeGenesis | core/bin/data_restore/src/data_restore_driver.rs:148-179 | if the contract logged nothing up to its genesis block, this holds for all heads |
| RestoreRun.EventsAreTheSuffix | core/bin/data_restore/src/events_state.rs:200-231 | if heads never fall behind, the events in memory are exactly the commits and verifications of the contract after some block |
| RestoreRun.CounterIsBlockNumber | core/bin/data_restore/src/tree_state.rs:479 | over every such run, feeding each block leaves the tree's counter at that block's number |
| RestoreRun.WindowsTileTheChain | core/bin/data_restore/src/events_state.rs:208-231 | for every run, the windows read cover the Ethereum blocks without gap or overlap if and only if the heads never fell behind the last watched block |
| RestoreRun.LaggingHeadReadsTwice | core/bin/data_restore/src/events_state.rs:208-231 | a run with heads 1, 0, 1 reads block 1 twice, and its windows do not tile |
| RestoreRun.WindowsDoNotMatter | core/bin/data_restore/src/events_state.rs:200-231 | two runs with the same highest watched block have the same ledger, however the logs fell into windows and however often they were read |
| CrashRecovery.EventsRoundTrip | core/bin/data_restore/src/inmemory_storage_interactor.rs:242-298 | saved events load back exactly, whenever each stands in the list of its type |
| CrashRecovery.RunsKeepTyped | core/bin/data_restore/src/events_state.rs:560-638 | which holds after every run |
| CrashRecovery.UpdateTreeStores | core/bin/data_restore/src/inmemory_storage_interactor.rs:196-221 | storing replayed blocks leaves storage with the ledger of the replay |
| CrashRecovery.LoadReaches | core/bin/data_restore/src/data_restore_driver.rs:268-338 | loading finishes what storage says is pending and reaches the state that storage leads to |
| CrashRecovery.LawfulRunsAreOrderly | core/bin/data_restore/src/data_restore_driver.rs:519-585 | when the logs obey the contract, every round finds blocks numbered consecutively from the tree's block, whatever the head |
| CrashRecovery.CrashInvariant | core/bin/data_restore/src/data_restore_driver.rs:341-530 | after any interleaving of steps, crashes and restarts, storage leads to the state of the uninterrupted driver, if its rounds are orderly in this sense |
| CrashRecovery.CrashesRecover | core/bin/data_restore/src/data_restore_driver.rs:268-338 | loading after any such interleaving gives exactly the events, last watched block, accounts and block number of the uninterrupted driver |
| CrashRecovery.NeverPanics | core/bin/data_restore/src/data_restore_driver.rs:268-530 | after any such interleaving, a step succeeds if and only if the process stands where it can be taken: crashes add no panic to those of the uninterrupted driver |
| CrashRecovery.RoundIsRun | core/bin/data_restore/src/data_restore_driver.rs:344-403 | a round of the main loop is a run that polls one head |
| CrashRecovery.EventsCarryOneVersion | core/bin/data_restore/src/events_state.rs:560-638 | if each transaction lies in one Ethereum block, then after any interleaving of steps, crashes and restarts the events of one transaction carry one contract version |
| RestoreDriver.CountersDoNotMatter | core/bin/data_restore/src/tree_state.rs:497-573 | accounts, updates and fees do not depend on indices, counters or serial ids |
| RestoreDriver.ExecuteIsReplay | core/bin/data_restore/src/tree_state.rs:124-148 | executing a block with any counters changes the ledger as the replay without them does |
| RestoreDriver.RunIsReplay | core/bin/data_restore/src/data_restore_driver.rs:459-492 | so does running any list of blocks |
| RestoreDriver.Storage.UpdateTreeState | core/bin/data_restore/src/inmemory_storage_interactor.rs:114-221 | applies the updates in order, or fails exactly where the account map has no such account |
| RestoreDriver.DataRestoreDriver.UpdateEventsState | core/bin/data_restore/src/data_restore_driver.rs:416-456 | polls one window and stores events and position |
| RestoreDriver.DataRestoreDriver.UpdateOperationsState | core/bin/data_restore/src/data_restore_driver.rs:519-530 | stores the new blocks, which are the directly looked up ones |
| RestoreDriver.DataRestoreDriver.ReplayBlocks | core/bin/data_restore/src/data_restore_driver.rs:464-485 | replays all blocks on the tree before anything is stored |
| RestoreDriver.DataRestoreDriver.StoreBlocks | core/bin/data_restore/src/data_restore_driver.rs:487-492 | stores the replayed blocks one after the other, and panics exactly when storing block by block fails |
| RestoreDriver.DataRestoreDriver.UpdateTreeState | core/bin/data_restore/src/data_restore_driver.rs:459-516 | tree and storage become those of replaying and storing block by block, or it panics exactly when that fails |
| RestoreDriver.DataRestoreDriver.RunStateUpdateRound | core/bin/data_restore/src/data_restore_driver.rs:344-403 | a round takes the steps of the crash machine and panics exactly when they do |
| RestoreDriver.DataRestoreDriver.LoadStateFromStorage | core/bin/data_restore/src/data_restore_driver.rs:268-338 | loading is the restart step of the crash machine |
| BitCodec.LowBitsValue | sdk/zksync.js/src/utils.ts:149-156 | the bits of a number in range give the number back |
| BitCodec.ValueLowBits | sdk/zksync.js/src/utils.ts:149-156 | the value of bits gives the bits back |
| BitCodec.NumberToBits | sdk/zksync.js/src/utils.ts:149-156 | halving into fractions still yields the low bits, least significant first |
| BitCodec.UnpackPack | sdk/zksync.js/src/utils.ts:325-339 | unpacking packed bits gives them back |
| BitCodec.PackUnpack | sdk/zksync.js/src/utils.ts:109-147 | packing unpacked bytes gives them back |
| BitCodec.BitsIntoBytesInBEOrder | sdk/zksync.js/src/utils.ts:109-147 | packs eight bits a byte, and throws exactly when the count is not a multiple of eight |
| BitCodec.Buffer2BitsBE | sdk/zksync.js/src/utils.ts:325-339 | lists the bits of all bytes, most significant first |
| PackedFloat.EncodeDownOptimal | sdk/zksync.js/src/utils.ts:158-199 | rounding down gives the greatest representable value not above n |
| PackedFloat.EncodeUpInRange | sdk/zksync.js/src/utils.ts:201-237 | rounding up keeps the incremented mantissa and the exponent within their widths |
| PackedFloat.EncodeUpOptimal | sdk/zksync.js/src/utils.ts:201-237 | rounding up gives the least representable value not below n |
| PackedFloat.EncodeDownLowest | sdk/zksync.js/src/utils.ts:158-199 | of the floats with the chosen value, rounding down takes the one of lowest exponent, for exact amounts and whenever the base does not divide the greatest mantissa |
| PackedFloat.EncodeUpLowest | sdk/zksync.js/src/utils.ts:201-237 | rounding up always takes the one of lowest exponent |
| PackedFloat.SourceFormats | sdk/zksync.js/src/utils.ts:58-61 | the formats in use have base ten, mantissas up to 34359738367 and 2047, exponents up to 31, and the base does not divide the greatest mantissa |
| PackedFloat.RoundingMonotone | sdk/zksync.js/src/utils.ts:286-313 | both encoders are monotone in the amount |
| PackedFloat.RoundingIdempotent | sdk/zksync.js/src/utils.ts:286-313 | both roundings are idempotent |
| PackedFloat.PackableIsFixedPoint | sdk/zksync.js/src/utils.ts:296-317 | n is representable if and only if rounding down fixes it, rounding up fixes it, and both agree |
| PackedFloat.UnpackPackFloat | sdk/zksync.js/src/utils.ts:158-199 | exponent and mantissa survive the bytes |
| PackedFloat.PackUnpackFloat | sdk/zksync.js/src/utils.ts:77-107 | every byte string of the right length is the packing of what it decodes to |
| PackedFloat.PackFloatWrites | sdk/zksync.js/src/utils.ts:192-198 | read as one big-endian number, the packed bytes are mantissa times 2 to the exponent width, plus exponent |
| PackedFloat.PacksUnique | sdk/zksync.js/src/utils.ts:267-279 | an amount has at most one packing in this sense |
| PackedFloat.FloatToInteger | sdk/zksync.js/src/utils.ts:77-107 | the bytes as one big-endian number, divided by 2 to the exponent width, times the base to the remainder; throws exactly on a wrong length |
| PackedFloat.FindExponent | sdk/zksync.js/src/utils.ts:167-178 | the loop finds the least exponent under which n fits |
| PackedFloat.IntegerToFloat | sdk/zksync.js/src/utils.ts:158-199 | the reversed bytes write the greatest representable value not above n as such a number, with the lowest exponent as far as `EncodeDownLowest` has it; throws exactly when n is too big |
| PackedFloat.IntegerToFloatUp | sdk/zksync.js/src/utils.ts:201-237 | the reversed bytes write the least representable value not below n as such a number, with the lowest exponent; throws exactly when n is too big |
| PackedFloat.PackDown | sdk/zksync.js/src/utils.ts:239-261 | the bytes write the greatest representable value not above the amount, and decode to it |
| PackedFloat.PackUp | sdk/zksync.js/src/utils.ts:239-265 | the bytes write the least representable value not below the amount with the lowest exponent, and decode to it |
| PackedFloat.ClosestPackable | sdk/zksync.js/src/utils.ts:286-308 | the closest packable amount or fee is the floor |
| PackedFloat.ClosestGreaterOrEqPackable | sdk/zksync.js/src/utils.ts:291-313 | the closest greater or equal packable amount or fee is the ceiling |
| PackedFloat.IsPackable | sdk/zksync.js/src/utils.ts:296-317 | true if and only if the amount is representable |
| PackedFloat.PackedBytes | sdk/zksync.js/src/utils.ts:267-279 | bytes exist if and only if the amount is representable; they have the format's width, write the amount with its lowest exponent and decode to it |
| PackedFloat.PackChecked | sdk/zksync.js/src/utils.ts:267-279 | the checked packing computes these bytes or throws |
| MessageBytes.NumberToBytesBE | sdk/zksync.js/src/utils.ts:858-865 | the loop writes the 32-bit integer that JavaScript's operators see: read as one big-endian number, the bytes are that integer modulo 256 to their count |
| MessageBytes.BytesNumberOf | sdk/zksync.js/src/utils.ts:858-865 | byte strings of a length and numbers below 256 to that length stand for each other |
| MessageBytes.PackNumber | sdk/zksync.js/src/utils.ts:109-134 | packed bits are the big-endian number whose binary digits, highest first, they are |
| MessageBytes.FourBytes | sdk/zksync.js/src/utils.ts:858-865 | four bytes are the big-endian number modulo 2^32 |
| MessageBytes.BytesIntoBeBits | sdk/zksync-crypto/src/utils.rs:24-34 | the nested loops list the bits of all bytes, most significant first |
| MessageBytes.PadMessage | sdk/zksync-crypto/src/utils.rs:100-104 | the hash input is the message's bits followed by zeros up to 736, and the assertion fails exactly on messages over 92 bytes |
| MessageBytes.PaddedPrefix | sdk/zksync-crypto/src/utils.rs:100-104 | equal padded inputs mean that the longer message is the shorter one followed by zero bytes |
| TxMessages.SourceFormatsWellFormed | sdk/zksync.js/src/utils.ts:58-61 | the amount and fee formats in use meet the condition under which the results on messages hold |
| TxMessages.EncodeInjective | sdk/zksync.js/src/utils.ts:567-632 | two fields of one kind have equal bytes if and only if they are equal up to the 32-bit cut |
| TxMessages.SerializeInjective | sdk/zksync.js/src/utils.ts:634-688 | field lists of one shape have equal bytes if and only if all fields agree up to the cut |
| TxMessages.MessagesFit | sdk/zksync-crypto/src/utils.rs:100-104 | every message has its fixed length, at most 92 bytes, so the padding assertion never fires |
| TxMessages.TwoOrders | sdk/zksync-crypto/src/utils.rs:125-131 | two serialised orders are always 178 bytes |
| TxMessages.SignedMessagesDistinct | sdk/zksync.js/src/utils.ts:634-856 | messages of any kinds have equal padded inputs if and only if their fields agree up to the 32-bit cut |
| TxMessages.SignedMessagesEqual | sdk/zksync.js/src/utils.ts:634-856 | with nonces and timestamps below 2^32, equal padded inputs mean equal fields, and equal messages except behind a swap's orders hash |
| TxMessages.NonceWraps | sdk/zksync.js/src/utils.ts:620-625 | every transfer has the same bytes and hash input as the different transfer whose nonce is larger by 2^32 |
| MessageFormat.FieldBytes | sdk/zksync.js/src/utils.ts:567-632 | each field has exactly the stated bytes: ids below their limits in four bytes, nonces and times modulo 2^32, amounts padded or packed, addresses and hashes of their lengths; it is refused exactly when it has none |
| MessageFormat.TransferBytes | sdk/zksync.js/src/utils.ts:767-780 | a transfer is accepted with exactly these bytes at these positions: type, version, account id at 2, sender at 6, receiver at 26, token at 46, packed amount at 50, packed fee at 55, nonce at 57, times at 61 and 69 |
| MessageFormat.WithdrawBytes | sdk/zksync.js/src/utils.ts:690-716 | likewise for a withdrawal, with the full amount at 50 |
| MessageFormat.ChangePubKeyBytes | sdk/zksync.js/src/utils.ts:782-805 | likewise for a change of key |
| MessageFormat.ForcedExitBytes | sdk/zksync.js/src/utils.ts:807-828 | likewise for a forced exit |
| MessageFormat.MintNFTBytes | sdk/zksync.js/src/utils.ts:717-738 | likewise for minting |
| MessageFormat.WithdrawNFTBytes | sdk/zksync.js/src/utils.ts:740-765 | likewise for withdrawing a minted token |
| MessageFormat.OrderBytes | sdk/zksync.js/src/utils.ts:634-661 | likewise for an order, with the token sold before the one bought and the prices at 38 and 53 |
| MessageFormat.SwapBytes | sdk/zksync.js/src/utils.ts:663-688 | likewise for a swap, with the hash of the first order's bytes followed by the second's at 30 |
| MessageFormat.MessageIsFormat | sdk/zksync.js/src/utils.ts:834-856 | every message is serialised to exactly the bytes of its format, and refused exactly when it has none |
| BatchSignature.FindSignature | core/bin/zksync_api/src/signature_checker.rs:257-287 | the inner loop succeeds if and only if some signature is valid for the sender on the new or the old message |
| BatchSignature.VerifyBatch | core/bin/zksync_api/src/signature_checker.rs:232-294 | the cached loop accepts if and only if every sender has a signature that is theirs on the batch's message, or on the old message where every transaction is backwards compatible, and distinct senders do not outnumber signatures; where no signature serves two senders the count does not matter |
| BatchSignature.EnoughSignatures | core/bin/zksync_api/src/signature_checker.rs:232-294 | by pigeonhole, if each signature serves at most one sender, fully signed batches have enough signatures |
| BatchSignature.PlainSignaturesServeOne | core/bin/zksync_api/src/signature_checker.rs:153-174 | plain signatures on one message serve at most one sender each |
| BatchSignature.SharedContractSignature | core/bin/zksync_api/src/signature_checker.rs:153-174 | one contract signature accepted by two wallets signs for both and is still too few |
| AccessorParser.ParseName | contracts/scripts/read-variable.ts:255-301 | the loop computes the accessor texts, last one first, or the error |
| AccessorParser.ParsePrint | contracts/scripts/read-variable.ts:255-312 | parsing a printed name gives its accessors in reverse, and the variable name is its base |
| AccessorParser.ParseAccepts | contracts/scripts/read-variable.ts:255-301 | a name is accepted if and only if its brackets open and close in turn with no point inside; it is called invalid if and only if only a closing bracket is missing |
| AccessorParser.ParsedTexts | contracts/scripts/read-variable.ts:255-301 | the accessors of any accepted name are its pieces between points and opening brackets, without closing brackets, last one first |
| StorageReader.ReadVariable | contracts/scripts/read-variable.ts:154-159 | computes the value that the type describes, as `ReadMeaning` says |
| StorageReader.ReadMeaning | contracts/scripts/read-variable.ts:88-159 | what a read gives, with slots written out: element i of a static array from its own slot, of a dynamic one from the slot's hash with the length in the slot, several to a slot below 32 bytes and whole slots otherwise; struct members at their slot and offset; or the error of the first part that cannot be read |
| StorageReader.PathMeaning | contracts/scripts/read-variable.ts:161-251 | following an index, a field name or a key is reading on at the element's, member's or hashed place; unknown names and indices are errors and primitives ignore accessors |
| StorageReader.ReadArray | contracts/scripts/read-variable.ts:123-152 | reads every element at the slot and shift that its index gives, from the array's own slot or its hash, or reports the first error |
| StorageReader.ReadPackedArray | contracts/scripts/read-variable.ts:132-143 | the running slot and shift visit the cells that division and remainder give |
| StorageReader.ReadWideArray | contracts/scripts/read-variable.ts:144-149 | elements of whole slots follow one another |
| StorageReader.ReadStruct | contracts/scripts/read-variable.ts:107-121 | the fields are those of the members, each read at its slot and offset, or the first error |
| StorageReader.NextCell | contracts/scripts/read-variable.ts:171-187 | the index formula advances exactly as the loop does |
| StorageReader.PathReadsComponent | contracts/scripts/read-variable.ts:161-251 | for every type and every path into a readable value, reading along the path gives the component of the whole value |
| StorageReader.FuelMonotone | contracts/scripts/read-variable.ts:154-159 | a finished read does not depend on the recursion bound |
| StorageReader.DepthSuffices | contracts/scripts/read-variable.ts:154-251 | if no type contains itself, a bound of one more than the number of types always lets reading finish, whole or along any path |
| StorageReader.PrintedNameReadsComponent | contracts/scripts/read-variable.ts:314-346 | looking up a printed name returns the component that its accessors select |
| StorageReader.FindVariable | contracts/scripts/read-variable.ts:334-340 | the last variable of the name, none exactly when there is none |

## Left out

- Gas prices and the gas adjuster: no property here depends on them.
- Commits of database transactions that fail after a transaction was sent in a start or a confirmation; they are taken to succeed. A replacement's commit may fail.
- Restarts inside a step of the sender, for example between sending a transaction and committing to the database; they are placed between steps.
- EthSender.EthSender.SendQueued: the source retries a failing start without end; the method is given finitely many attempts and stops where they end.
- The queues of the sender are values inside the sender object, not objects of their own; their updates in place are not modelled separately.
- The producer of aggregated operations: they are taken to arrive with growing ids and, for each kind, without gaps in their block ranges.
- Block reverts outside the sender, which edit its tables directly.
- Chain reorganisations: a nonce's mined transaction does not change.
- Tokens, withdrawals and priority-operation data of the data restore, the tree cache, and the check of the final root hash.
- Serial ids of priority operations across a restart of the data restore, which are reloaded from elsewhere.
- Deleting an account in the in-memory storage, which panics in the source; it counts as failing.
- CrashRecovery.CrashesRecover: assumes that executing an operation reports exactly the changes it makes, that the contract's logs obey its own rules from some Ethereum block on, and that no head falls below that block.
- The limit on contract upgrades while reading commit transactions.
- StorageReader.ReadVariable: the recursion bound makes the model total on type descriptions that contain themselves; on all others it is never met; reading primitives and dynamic bytes is one opaque function, and a mapping read as a whole is undefined as in the source.
- StorageReader.PathReadsComponent: assumes type descriptions as the compiler emits them, with element sizes that fill slots or fit into one and distinct member names.
- Parsing of hexadecimal text, addresses and decimal amounts; negative and fractional JavaScript numbers.
- The Rescue hash, field elements, and the packing of the resulting hash bits.
- The signature check of a single transaction, and signatures on message types other than the batch's two messages.
- RestoreDriver.DataRestoreDriver.UpdateOperationsState: assumes of the chain that a transaction lies in one Ethereum block.
- Deployment scripts, command line tools, providers, wallets, the prover and the server around these parts.
