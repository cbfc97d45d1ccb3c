# hpsvm: batches, the account overlay, and fixtures

A Dafny model of the parts of hpsvm where the behaviour is hardest to see from
the code: the conflict-aware batch scheduler and its parallel executor, the
journaled account overlay with checkpoints and derived caches, the staged
transaction lifecycle on top of it, the bounded transaction history, the RPC
fork cache, the Firedancer fixture adapter and the snapshot comparison.

`dafny verify dfyconfig.toml` checks the whole project. Nothing was executed.

## How it is built

* Values first. `Overlay`, `Store`, `Lifecycle`, `History`, `Planner` and
  `Batch` give each operation of the source as a function of the old state,
  with its branches, its error paths and its order of effects.
* Classes second. `AccountsDb.Accounts`, `HistoryDb.TransactionHistory`,
  `Vm.Svm` and `Fork.RpcForkSource` hold the source's fields, update them in
  place with the source's loops, and are proved to compute those functions.
* Theorems third. `TimeTravel`, `View`, `Coherence`, `Staleness`, `Warming`,
  `Lifecycle`, `StageRun`, `Commute`, `InputOrder`, `Inversion`,
  `Serializability`, `Sequential`, `LiveOrder`, `CacheReaders`, `AtMostOnce`,
  `Kept`, `Placement`, `Outcomes`, `Ranking` and `Schedule` state what the
  functions promise; `Witness` holds a machine on which
  a promise one might expect fails.

Code that is not hpsvm's own is a parameter. `Types.Services` holds the account
source, the sysvar and program deserialisers, the ELF verifier and the builtin
list; `Machine.Executor` holds sanitizing, admission and execution. Every result
but the witnesses is for all choices of them. An execution sees the accounts its transaction
locks, the reserved accounts (which nobody can lock for writing) and the answer
of the history check, and what it may write is cut down to its writable keys as
in `crates/hpsvm/src/helpers.rs` lines 172-177.

What the batch results assume of a batch (`Serializability.Ready`): the batched
read of the source agrees with its single read; the keys of one message are
distinct; and, when signatures are verified, nothing is evicted from the history
during the batch and transactions with equal signatures conflict (they share a
fee payer). `Sequential.BatchIsSequential` does without the first assumption.
`BatchRun.refused` lists the single-transaction stages whose accounts were
refused. The abstract machine is told which transactions are refused; the
comparisons with `send_transaction` in `Sequential`, `LiveOrder` and
`CacheReaders` let every send decide for itself.

## What the code does that its documentation does not say

* A batch is not sends in input order. Without refusals the exact condition is
  on the plan (`LiveOrder.ListedExactly`). Which transactions are refused depends
  on the order even then, because closing a program makes the store load every
  program it holds: `Witness.OrderDecidesRefusals`. A condition under which
  nothing is refused is `LiveOrder.SafeBatch`.
* A batch is not sends in plan order either. The comment on the stage read set
  (`crates/hpsvm/src/batch.rs` lines 285-286) says that prewarming never changes
  execution semantics, but a program first cached by a warm-up can make a later
  rebuild fail and a transaction be refused: `Witness.WarmUpsDecideRefusals`,
  with `LiveOrder.BatchMatchesPlanSends` where both refuse the same. With the same
  warm-ups the two are identical (`Sequential.BatchIsSequential`).
* The order in which the deltas of a stage are merged can decide whether the
  merge panics: `Witness.OrderDecidesPanic`.
* When `transact_core` refuses a transaction's accounts it rolls the overlay
  back but does not rebuild the caches, and the caller still receives the result
  of the execution, even a success: `Lifecycle.RefusedStageLeavesStaleEntry`,
  and exactly when it matters `Lifecycle.RefusedStageExactly`.
  The same refusal in a stage of several transactions is a panic.
* `sync_accounts` recognises programdata by its tag, so a delta that empties a
  programdata account is order-sensitive: `Coherence.ClosingOrderShows`, and
  exactly when `Coherence.TagsDecideOrder` and `Staleness.SyncCoherentExactly`.
* Prewarming accounts is invisible, but prewarming programs makes programs
  loadable that only the source held: `Warming.WarmShowsExactly`, and at an
  input `Witness.WarmUpLoadsSourceProgram`.
* `compare_accounts` is neither reflexive nor symmetric when an address is
  listed with two different accounts: `Comparison.DuplicatesDecideSelfEquality`
  and `Comparison.DuplicatesBreakSymmetry`.
* A checkpoint may restore something else once the journal has been shorter
  than it: `TimeTravel.CheckpointRestoresExactly`.
* The adapter can export a status it cannot import again:
  `Firedancer.ExportReadsBackExactly` and `Firedancer.ZeroResultIsNotReadBack`.

## Model

| member | source | states |
|---|---|---|
| `Sequential.BatchIsSequential` | crates/hpsvm/src/batch.rs:190-275 | every planned batch, whatever its outcome short of a panic, ends with the status, the results and the whole machine (overlay, tombstones, journal, both caches, history) of calling `send_transaction` one at a time in plan order with the same warm-ups; refused accounts included |
| `Sequential.MergeIsSequential` | crates/hpsvm/src/batch.rs:257-265 | merging the deltas computed on one snapshot panics exactly when one of the sequential sends is refused, and otherwise leaves the identical machine |
| `Sequential.ResultsAreSequential` | crates/hpsvm/src/batch.rs:359-408 | the results computed on the snapshot are those of the sequential sends |
| `Sequential.TurnSeesSnapshotCaches` | crates/hpsvm/src/batch.rs:359-408 | at its turn in the sequential run a member finds in the program and sysvar caches, for every account it may look at, what the snapshot holds, unless an earlier member writes a sysvar or programdata of a program it looks at |
| `CacheReaders.BatchReadsSequentially` | crates/hpsvm/src/batch.rs:190-275 | for transactions whose outcome may also depend on the slot, the sysvars and the loaded programs they look at: a batch whose members all see the snapshot's caches ends as sends that each see the caches of their turn, if at every stage the caches are settled where members look and no member writes a sysvar or the programdata of a program a later one uses |
| `CacheReaders.StageReadsSequentially` | crates/hpsvm/src/batch.rs:359-408 | the same for one stage, the panic of the merge included |
| `LiveOrder.BatchMatchesPlanSends` | crates/hpsvm/src/batch.rs:190-275 | a finished batch leaves every address reading, the whole history and every result as plain `send_transaction` calls in plan order, without any warm-up, leave them, whenever both refuse the same transactions |
| `LiveOrder.FailureMatchesPrefixSends` | crates/hpsvm/src/batch.rs:213-255 | when warming up a stage fails, the same holds of sending exactly the stages before it |
| `LiveOrder.BatchMatchesInputSends` | crates/hpsvm/src/batch.rs:133-187 | if the plan reverses no conflicting pair, reads and results are those of sends in input order whenever both refuse the same transactions; with room in the history and conflicting repeats, its lookups too |
| `LiveOrder.ListedExactly` | crates/hpsvm/src/batch.rs:133-187 | the batch is sends in input order, on every machine and for every behaviour on which the two refuse the same, if and only if the plan reverses no conflicting pair; and already over the behaviours that cannot be refused at all |
| `LiveOrder.OrdersExactly` | crates/hpsvm/src/batch.rs:515-518 | the same for sends in any order: exactly the orders that reverse no conflicting pair are input order |
| `LiveOrder.SafeBatch` | crates/hpsvm/src/accounts_db.rs:678-730 | if no transaction can write a program or an unparsable sysvar, or at an address where a program is, then nothing is refused in the batch or by sends in any order and no merge panics, so that both comparisons hold outright |
| `Witness.OrderDecidesRefusals` | crates/hpsvm/src/accounts_db.rs:748-786 | a coherent machine and a batch whose plan reverses no conflicting pair, where the batch refuses a transaction that sends in input order do not, and an address reads differently |
| `Witness.WarmUpsDecideRefusals` | crates/hpsvm/src/batch.rs:213-255 | a coherent machine where the warm-up of a stage makes the batch refuse a transaction that sends in the same order do not, and an address reads differently |
| `Serializability.PlanOrderSerializable` | crates/hpsvm/src/batch.rs:190-275 | a finished batch shows the accounts, the history and every result of the abstract one-at-a-time machine run in plan order, where exactly the transactions the batch refused have a result and no effect; no result slot is empty |
| `Outcomes.SendReturnsDue` | crates/hpsvm/src/commit.rs:97-116 | what a caller of `send_transaction` gets, told from what the runtime reported: success if and only if it ran with no error, the error it ran into if and only if it ran into one, each with the signature and details of the execution; the rejection of a transaction that was not admitted or bailed out; already processed for a signature the history holds while signatures are verified |
| `Outcomes.BatchReturnsDue` | crates/hpsvm/src/batch.rs:190-275 | every slot of a finished batch holds that result for its transaction at its turn in plan order, on the accounts and the history its predecessors left |
| `Outcomes.PostAccountsExactly` | crates/hpsvm/src/helpers.rs:155-179 | the accounts an execution writes are exactly the reported accounts of its writable keys, each with its own key |
| `Outcomes.SendLeaves` | crates/hpsvm/src/vm.rs:1218-1226 | after a send that ran and was not refused, every account the transaction may write reads as the runtime reported it (absent at zero lamports), every other address as before, and the history has its result; a refused one leaves reads and history alone, and one that did not run the whole machine |
| `Outcomes.BatchLeaves` | crates/hpsvm/src/batch.rs:190-275 | after a finished batch an address reads as the runtime reported it for the last transaction in plan order that may write it, if that one ran and was not refused; an address nobody may write reads as before |
| `Outcomes.SecondSendIsRejected` | crates/hpsvm/src/execution.rs:746-758 | with signatures verified and a history kept, whatever carries the signature of a transaction that just ran is rejected and changes nothing, and a lookup returns the first result |
| `Outcomes.SeesExactly` | crates/hpsvm/src/execution.rs:369-430 | an execution sees exactly the accounts the transaction names or looks keys up in, and the reserved ones, as the machine reads them |
| `Outcomes.StagesExactly` | crates/hpsvm/src/vm.rs:1500-1569 | a transaction is staged if and only if it is not fatally rejected and the store takes the accounts it would write |
| `Kept.CommittedExactly` | crates/hpsvm/src/batch.rs:190-275 | a finished batch keeps the effects of exactly the transactions that ran at their turn in plan order and were not refused |
| `Serializability.PlanReversesAPair` | crates/hpsvm/src/batch.rs:172-187 | the witness that input order fails in general: writers of {a}, {a,b}, {b} are executed as 0, 2, 1 |
| `Serializability.PlanIsCompatible` | crates/hpsvm/src/batch.rs:133-165 | members of one stage of any plan are distinct, pairwise conflict-free and, with signatures verified, of different signatures; the stages list the batch exactly once |
| `Serializability.StageTracks` | crates/hpsvm/src/batch.rs:197-265 | one stage on the live machine shows the serial run of its members; a failed warm-up shows no change |
| `AtMostOnce.CommittedAtMostOnce` | crates/hpsvm/src/batch.rs:190-275 | with signatures verified, repeated signatures conflicting and a history at least as large as the batch, no two transactions with the same signature have their effects kept, or being written when a merge panics |
| `AtMostOnce.MergeRanksIncluded` | crates/hpsvm/src/commit.rs:63-74 | every member whose effects were merged is among the latest history entries |
| `Schedule.WorkerStepKeepsDraining` | crates/hpsvm/src/batch.rs:384-407 | every step of every worker, whichever pending member it takes, keeps the reports exactly those of the members already taken |
| `Schedule.AnyScheduleSortsAlike` | crates/hpsvm/src/batch.rs:257-260 | every complete interleaving, sorted by index, is the list of the members' reports in stage order |
| `Schedule.MergeKnownOrderFree` | crates/hpsvm/src/batch.rs:261-265 | the deltas of a conflict-free stage merge to the same accounts in any order |
| `Schedule.MergeOrderIsInvisible` | crates/hpsvm/src/commit.rs:63-74 | on the live overlay, any two accepted merge orders leave every address reading the same |
| `LiveOrder.SafeMergeOrderIsInvisible` | crates/hpsvm/src/commit.rs:63-74 | where no program and no unparsable sysvar is written every merge order is accepted, and all leave every address reading the same |
| `Witness.OrderDecidesPanic` | crates/hpsvm/src/commit.rs:63-74 | two transactions that do not conflict, whose deltas merge in one order and panic in the other |
| `Planner.PlanIsSound` | crates/hpsvm/src/batch.rs:133-165 | every index is in exactly one stage; stages are non-empty, ascending and pairwise conflict-free; a stage's union locks conflict with a lock set exactly when some member does |
| `Planner.BestFitIsFirstLightest` | crates/hpsvm/src/batch.rs:172-187 | the chosen stage is the first of those that lock the fewest accounts among the conflict-free ones, and none is chosen exactly when all conflict |
| `Placement.JoinsSmallest` | crates/hpsvm/src/batch.rs:139-187 | each transaction of a batch joins the stage whose members together write and share the fewest accounts, the first of equal ones, among those no member of which interferes with it, and opens a new stage if and only if there is none; no other stage changes |
| `Placement.LighterStageWins` | crates/hpsvm/src/batch.rs:172-187 | a batch where the smaller stage is not the first: writers of {a} reading three more, {a} and {c} are planned as [0], [1, 2] |
| `Placement.ConflictsExactly` | crates/hpsvm/src/batch.rs:515-518 | two transactions conflict if and only if one may write an account the other names as a key or looks keys up in |
| `Placement.InterferingApart` | crates/hpsvm/src/batch.rs:139-165 | such transactions are never in the same stage of a plan |
| `Placement.LocksExactly` | crates/hpsvm/src/batch.rs:496-513 | the locks of a transaction are exactly the accounts it names writable and nobody reserved, and those it names otherwise or looks keys up in |
| `Placement.ReadSetInOrder` | crates/hpsvm/src/batch.rs:287-302 | a stage is warmed up with the static keys of its members, each once, in the order of their first use |
| `Planner.PlanOpenersBlocked` | crates/hpsvm/src/batch.rs:139-165 | the transaction that opens a stage conflicts with an earlier member of each stage before it |
| `Planner.StageCountBound` | crates/hpsvm/src/batch.rs:137-187 | the number of stages is at most one more than the largest number of earlier transactions any transaction conflicts with |
| `Planner.PlanOrderLists` | crates/hpsvm/src/batch.rs:268-274 | the plan's order runs each transaction exactly once |
| `Planner.ExtendConflicts` | crates/hpsvm/src/batch.rs:515-531 | a union of lock sets conflicts exactly when one of them does |
| `Machine.OutcomeWritesLocked` | crates/hpsvm/src/helpers.rs:155-179 | whatever a transaction does, the delta of its outcome writes only accounts it holds writable, each at most once, and a fatal outcome is not included; what it writes there is the row Outcomes.PostAccountsExactly |
| `StageRun.CompatibleKeepsOutcome` | crates/hpsvm/src/execution.rs:746-758 | an outcome of a compatible transaction settled first leaves another transaction's outcome as it was, history check included |
| `StageRun.MergeIsSerial` | crates/hpsvm/src/batch.rs:261-265 | on the abstract machine, settling snapshot outcomes in order is the serial run |
| `Commute.SendsCommute` | crates/hpsvm/src/batch.rs:515-518 | two independent transactions commute: equivalent states, same outcomes |
| `Inversion.InversionIsVisible` | crates/hpsvm/src/batch.rs:515-518 | for any two orders that disagree about a conflicting pair there are transactions with these very locks, copies included, whose results differ |
| `Batch.SendTracks` | crates/hpsvm/src/vm.rs:1218-1226 | a transaction sent to the live machine has the abstract machine's result and, unless refused, its view and history |
| `Batch.WarmUpTracks` | crates/hpsvm/src/batch.rs:213-255 | warming up changes neither any read nor the history, even when it fails |
| `TimeTravel.RollbackRestores` | crates/hpsvm/src/accounts_db.rs:543-561 | after any run of adds, unchecked adds, builtin adds, removes, syncs, prewarms and rollbacks that never shrinks the journal below a checkpoint, rolling back to it restores accounts, tombstones and journal exactly |
| `TimeTravel.RollbackNests` | crates/hpsvm/src/accounts_db.rs:543-561 | rolling back to an inner and then an outer checkpoint is rolling back to the outer one; a checkpoint at or past the end does nothing |
| `TimeTravel.CheckpointRestoresExactly` | crates/hpsvm/src/accounts_db.rs:543-561 | for a given list of rollbacks, a checkpoint is restored by every run with these rollbacks if and only if none of them goes below it |
| `TimeTravel.StaleCheckpointDoesNotRestore` | crates/hpsvm/src/accounts_db.rs:485-487 | a run below a checkpoint after which rolling back to it gives another overlay |
| `TimeTravel.StaleCheckpointMayRestore` | crates/hpsvm/src/accounts_db.rs:485-487 | a run below a checkpoint after which rolling back to it does give the old overlay |
| `TimeTravel.StepRecovers` | crates/hpsvm/src/accounts_db.rs:463-482 | every operation other than a rollback can be undone from the journal it leaves |
| `View.AddAccountUpdates` | crates/hpsvm/src/accounts_db.rs:678-730 | an accepted or late-failing add updates the flat option-valued map at its own address only; one refused by its checks changes nothing |
| `View.UncheckedWritersUpdate` | crates/hpsvm/src/accounts_db.rs:672-676 | unchecked add, builtin add and remove are plain updates of the flat map at one address |
| `View.RunKeepsConsistent` | crates/hpsvm/src/accounts_db.rs:463-561 | in every run from a consistent store, rollbacks included, no address is both cached and tombstoned, now or anywhere in the journal's past |
| `View.SyncOverwrites` | crates/hpsvm/src/accounts_db.rs:798-822 | a successful sync overwrites the flat map with exactly the delta, zero lamports meaning absent, whatever the order of the delta |
| `View.SyncIsOrderFree` | crates/hpsvm/src/accounts_db.rs:798-822 | two orders of one delta leave the same cached accounts and tombstones |
| `View.MissingExact` | crates/hpsvm/src/accounts_db.rs:436-461 | the batched request asks for each unknown key of the list exactly once |
| `View.PrewarmTransparent` | crates/hpsvm/src/accounts_db.rs:436-461 | prewarming changes no read, creates no tombstone, touches no cache, and changes nothing on a source error |
| `Partition.PartitionedSound` | crates/hpsvm/src/accounts_db.rs:798-822 | the swap partition is a permutation with all programdata first, and keeps addresses distinct |
| `Coherence.TagsDecideOrder` | crates/hpsvm/src/accounts_db.rs:798-822 | the partition puts programdata before every program that names it, in every listing of a delta, if and only if the delta tags the programdata its programs name |
| `Coherence.SyncKeepsCoherent` | crates/hpsvm/src/accounts_db.rs:798-822 | a sync of ordinary accounts with tagged programdata, which no program outside names, keeps the caches equal to a rebuild: the condition a caller reads off the delta; the exact one is the next row |
| `Staleness.SyncCoherentExactly` | crates/hpsvm/src/accounts_db.rs:798-822 | after a successful sync, sysvars included, the caches equal a rebuild if and only if, since the last account that unprograms, every program that is not written, or is written before the programdata it names or before the clock, loads alike from the accounts before it and after all, no builtin appears or disappears, and a clock remains unless the slot was the default |
| `Staleness.RemoveCoherentExactly` | crates/hpsvm/src/accounts_db.rs:463-482 | removing an account keeps the caches equal to a rebuild if and only if the programs that name it, or all if it is the clock, load alike without it, and no slot is kept from a clock that is gone |
| `Coherence.CoherentKeys` | crates/hpsvm/src/accounts_db.rs:748-786 | coherent caches hold an entry for exactly the builtins and the executable accounts of the overlay, but for the native loader's and the default address, and the data of exactly the nine sysvars that are held and parse |
| `Coherence.CoherentImages` | crates/hpsvm/src/accounts_db.rs:824-925 | on coherent caches the image of a program consists of its own bytes, of what follows the 45-byte header of its programdata (a tombstone of the current slot if that is gone), or of what follows its own 48-byte header, depending on its loader |
| `Coherence.LoadsExactly` | crates/hpsvm/src/accounts_db.rs:824-925 | a program loads if and only if there is a clock and its bytes pass the verifier or the programdata it names is gone |
| `Coherence.AddsExactly` | crates/hpsvm/src/accounts_db.rs:678-730 | the store takes an account if and only if, with lamports, it parses where it is a sysvar and loads where it is a program (executable, not the native loader's, not the default address), and, where it closes a program, all programs then held load |
| `Staleness.QuietExactly` | crates/hpsvm/src/accounts_db.rs:678-730 | adding a list, taken or refused half-way, leaves both caches as they were if and only if every account up to the refused one is quiet: a program only where there was one and loading to the cached entry, one closed only if another program then fails to load, and a sysvar only with the data the cache has |
| `Coherence.ClosingOrderShows` | crates/hpsvm/src/accounts_db.rs:798-822 | a delta that empties a programdata account (which then carries no tag) leaves a stale image or a tombstone in the cache depending on the order it was listed in |
| `Coherence.UnflaggedKeepsCaches` | crates/hpsvm/src/executed.rs:277-286 | a delta the flag does not mark leaves both caches as they were, coherent or not, and cannot be refused |
| `Warming.WarmKeepsCoherent` | crates/hpsvm/src/accounts_db.rs:937-960 | prewarming accounts and then programs re-establishes coherent caches, unless a sysvar or builtin is first seen there |
| `Warming.WarmShowsExactly` | crates/hpsvm/src/accounts_db.rs:937-960 | warming up leaves the program cache as it was if and only if the source holds no program at a key the overlay did not know |
| `Warming.WarmsExactly` | crates/hpsvm/src/accounts_db.rs:436-461 | a warm-up succeeds if and only if the source answers the request for the unknown keys, if any, and every program then held and not loaded loads |
| `Witness.WarmUpLoadsSourceProgram` | crates/hpsvm/src/accounts_db.rs:937-960 | a coherent machine and a program held by the source only, whose warm-up changes the program cache |
| `Lifecycle.DiscardUndoesStage` | crates/hpsvm/src/executed.rs:236-246 | discard after a live staging gives back the very machine, overlay, tombstones, journal, history and both caches, and its rebuild does not fail, if and only if the caches were coherent or the flag was not set |
| `Lifecycle.CommitWithIsAllOrNothing` | crates/hpsvm/src/executed.rs:189-227 | a sink failing at any change leaves the machine as before staging; one that takes every change commits |
| `Outcomes.SinkSeesChanges` | crates/hpsvm/src/executed.rs:189-227 | a sink is shown, in the order of the accounts, what each address read before staging and reads now; no other address changed |
| `Lifecycle.FlagExactly` | crates/hpsvm/src/executed.rs:277-286 | a staged transaction is flagged exactly if one of its accounts is executable, replaces an executable one or is a sysvar |
| `Lifecycle.CommitPathsAgree` | crates/hpsvm/src/commit.rs:63-116 | staging and committing an outcome gives the same machine and result as applying its delta; a refusal on one path is a refusal on the other |
| `Lifecycle.UnflaggedStageKeepsCaches` | crates/hpsvm/src/executed.rs:277-286 | an outcome not flagged stages successfully and touches no cache |
| `Lifecycle.RefusedStageLeavesStaleEntry` | crates/hpsvm/src/vm.rs:1500-1569 | a refused staging restores the overlay but can leave a cache entry for a program whose account is gone |
| `Lifecycle.RefusedStageExactly` | crates/hpsvm/src/vm.rs:1500-1569 | a refused staging on coherent caches changes nothing at all if and only if every account up to the refused one is quiet |
| `History.LastKDistinct` | crates/hpsvm/src/history.rs:60-75 | over every run at fixed capacity k, a lookup of a signature returns a result if and only if it is the latest recorded for it and fewer than k distinct other signatures were recorded since |
| `History.FoundExactly` | crates/hpsvm/src/history.rs:39-75 | over every run, resizes included, a lookup returns a result if and only if it is the latest recorded for the signature and at every time since fewer other signatures had been recorded than the capacity was at that time; the duplicate check answers accordingly |
| `History.StoreIsRecent` | crates/hpsvm/src/history.rs:29-84 | across any capacity changes an entry of the store has in front of it exactly the signatures recorded since its own latest record |
| `History.RunKeepsValid` | crates/hpsvm/src/history.rs:39-48 | size stays within capacity, no signature is stored twice, a disabled history is empty |
| `History.ZeroForgets` | crates/hpsvm/src/history.rs:39-48 | a run through capacity zero behaves afterwards as on a history created disabled |
| `AccountsDb.Accounts.TryGetAccount` | crates/hpsvm/src/accounts_db.rs:386-399 | reads overlay, tombstone, then source |
| `AccountsDb.Accounts.RecordJournal` | crates/hpsvm/src/accounts_db.rs:568-574 | appends the undo entry of one address and changes nothing else |
| `AccountsDb.Accounts.Rollback` | crates/hpsvm/src/accounts_db.rs:543-561 | the popping loop computes the specified rollback of overlay and journal and leaves the caches alone |
| `AccountsDb.Accounts.RebuildSysvarCache` | crates/hpsvm/src/accounts_db.rs:732-746 | sysvar cache and cache slot become those derived from the overlay |
| `AccountsDb.Accounts.RebuildProgramCache` | crates/hpsvm/src/accounts_db.rs:748-786 | the program cache becomes the derived one when every program loads, and stays untouched otherwise, in whatever order the map is walked |
| `AccountsDb.Accounts.RemoveAccount` | crates/hpsvm/src/accounts_db.rs:463-482 | computes the specified removal: journal, tombstone, cache entry, sysvars |
| `AccountsDb.Accounts.AddAccount` | crates/hpsvm/src/accounts_db.rs:678-730 | computes the specified add with both kinds of failure, before and after the write |
| `AccountsDb.Accounts.AddAccountNoChecks` | crates/hpsvm/src/accounts_db.rs:672-676 | journals and writes one address, leaving both caches |
| `AccountsDb.Accounts.AddBuiltinAccount` | crates/hpsvm/src/accounts_db.rs:789-796 | journals and writes one address; no cache is touched |
| `AccountsDb.Accounts.SyncAccounts` | crates/hpsvm/src/accounts_db.rs:798-822 | partitions in place and adds in order, as specified for the whole store |
| `AccountsDb.PartitionInPlace` | crates/hpsvm/src/accounts_db.rs:807-818 | the two-index swaps on the array compute the partition function |
| `AccountsDb.Accounts.Prewarm` | crates/hpsvm/src/accounts_db.rs:436-461 | computes the specified prewarm, including the source error path |
| `AccountsDb.Accounts.PrewarmPrograms` | crates/hpsvm/src/accounts_db.rs:937-960 | loads the unresolved programs in order, stopping at the first that does not load |
| `HistoryDb.TransactionHistory.SetCapacity` | crates/hpsvm/src/history.rs:39-48 | keeps exactly the most recent entries there is room for, in order, none at zero; the rest of the state is that of the specified resize |
| `HistoryDb.TransactionHistory.AddNewTransaction` | crates/hpsvm/src/history.rs:60-66 | computes the specified LRU insert |
| `HistoryDb.TransactionHistory.GetTransaction` | crates/hpsvm/src/history.rs:52-57 | finds the stored result without reordering anything |
| `HistoryDb.TransactionHistory.CheckTransaction` | crates/hpsvm/src/history.rs:70-75 | answers whether the signature is stored |
| `Vm.LockSetOf` | crates/hpsvm/src/batch.rs:496-513 | key by key, collects exactly the accounts a transaction may write and exactly those it shares, lookup tables included |
| `Vm.BestFitStage` | crates/hpsvm/src/batch.rs:172-187 | the scan returns the first lightest conflict-free stage, or none exactly when all conflict |
| `Vm.Svm.PlanTransactionBatch` | crates/hpsvm/src/batch.rs:133-165 | returns the plan (what it is: Placement.JoinsSmallest), or the error of the first transaction that does not sanitize |
| `Vm.PlanFailsExactly` | crates/hpsvm/src/batch.rs:139-165 | a batch is not planned if and only if one of its transactions cannot be sanitized; the error names the first of them, its position and its reason |
| `Vm.Svm.StageReadSet` | crates/hpsvm/src/batch.rs:287-302 | the static keys of the stage, each once, in order of first use |
| `Vm.Svm.ExecuteTransactionBatchStage` | crates/hpsvm/src/batch.rs:359-408 | for any order in which workers take members, the collected reports are a permutation of the members' reports on the snapshot |
| `Vm.Svm.TransactCore` | crates/hpsvm/src/vm.rs:1500-1569 | computes the specified staging, including fatal outcomes and refusals |
| `Vm.Svm.Commit` | crates/hpsvm/src/executed.rs:166-181 | records the staged history entry and returns the staged result |
| `Vm.Svm.Discard` | crates/hpsvm/src/executed.rs:236-246 | rolls back and rebuilds the caches when flagged; fails exactly where the source panics |
| `Vm.Svm.CommitWith` | crates/hpsvm/src/executed.rs:189-227 | offers the changes in order, commits if the sink takes all, discards at the first refusal |
| `Vm.Svm.SendTransaction` | crates/hpsvm/src/vm.rs:1218-1226 | the send of the specification, whose result is that of Outcomes.SendReturnsDue and whose effects are those of Outcomes.SendLeaves |
| `Vm.Svm.ApplyCommitDelta` | crates/hpsvm/src/commit.rs:63-74 | applies accounts and then the history entry |
| `Vm.Svm.SendTransactionBatch` | crates/hpsvm/src/batch.rs:190-275 | the whole batch loop, whatever the workers' order, ends in the machine of the specified run and replies with its plan and results, its error, or its panic |
| `Vm.AllSlotsFilled` | crates/hpsvm/src/batch.rs:268-274 | after all stages every result slot is filled, so the final `expect` cannot fire |
| `Firedancer.ImportRetracts` | crates/hpsvm-fixture-firedancer/src/fd.rs:228-362 | whatever the importer accepts, export of the result succeeds and importing the export gives the same fixture |
| `Firedancer.FixtureRoundTripExactly` | crates/hpsvm-fixture-firedancer/src/fd.rs:228-362 | export then import is the identity on a fixture if and only if the fixture is canonical, a condition on its fields |
| `Firedancer.ReimportNormalises` | crates/hpsvm-fixture-firedancer/src/fd.rs:228-362 | for every fixture that exports and whose status can be read back, export then import gives the fixture with exactly the listed changes: name and header defaults, runtime flags, programs, status as the two status fields say it, empty return data, comparisons |
| `Firedancer.ProtoRoundTripExactly` | crates/hpsvm-fixture-firedancer/src/fd.rs:228-362 | for an accepted protobuf fixture, export of its import is the fixture itself if and only if it has a named entry point, a slot, no epoch context and first-position account indices |
| `Firedancer.ReexportFillsDefaults` | crates/hpsvm-fixture-firedancer/src/fd.rs:304-362 | export of an import changes nothing but name, slot, epoch context and account indices |
| `Firedancer.ExportExactly` | crates/hpsvm-fixture-firedancer/src/fd.rs:304-362 | which fixtures export: instruction input, a budget not exceeded, accounts found within 32-bit positions, an expressible status and return data |
| `Firedancer.ImportExactly` | crates/hpsvm-fixture-firedancer/src/fd.rs:228-302 | which protobuf fixtures import: both parts present, 32-byte addresses and no seeds, indices in range, a budget not exceeded, and no custom error with a zero result |
| `Firedancer.ImportErrorsAreTrue` | crates/hpsvm-fixture-firedancer/src/fd.rs:228-302 | the error of a refused import names a defect the fixture has, with the field, lengths, indices or values of it |
| `Firedancer.ExportErrorsAreTrue` | crates/hpsvm-fixture-firedancer/src/fd.rs:304-362 | the error of a refused export names what the protobuf form cannot carry, with its values |
| `Firedancer.ExportReadsBackExactly` | crates/hpsvm-fixture-firedancer/src/fd.rs:497-531 | an export is refused by the importer exactly when its status was a zero result with a custom error |
| `Firedancer.ZeroResultIsNotReadBack` | crates/hpsvm-fixture-firedancer/src/fd.rs:497-531 | such a fixture: it exports, and importing the export is an error |
| `Firedancer.BytesRoundTrip` | crates/hpsvm-fixture-firedancer/src/fd.rs:380-385 | exactly the 32-byte strings decode, each to an address that encodes back to it |
| `Firedancer.AddressRoundTrip` | crates/hpsvm-fixture-firedancer/src/fd.rs:417-419 | every address survives encoding and decoding |
| `Firedancer.MetasRoundTrip` | crates/hpsvm-fixture-firedancer/src/fd.rs:421-464 | instruction accounts convert to indices exactly when all are found in range, and then convert back |
| `Firedancer.ComparesForPostAccounts` | crates/hpsvm-fixture-firedancer/src/fd.rs:544-559 | the loop builds the four fixed comparisons and, if any account was recorded, one over their addresses without repetition |
| `Firedancer.ImportedComparesDemand` | crates/hpsvm-fixture-firedancer/src/fd.rs:544-559 | a run passes an import's comparisons exactly when status, inclusion, compute units and return data match and it holds each recorded account |
| `Comparison.ComparisonIsMapEquality` | crates/hpsvm-fixture/src/compare.rs:137-179 | for all snapshots, the indexed comparison holds exactly when the left side lists no in-scope address with two different accounts and both sides are the same map in scope |
| `Comparison.ScopesExactly` | crates/hpsvm-fixture/src/compare.rs:137-179 | under a scope exactly the listed addresses are compared, or exactly the others |
| `Comparison.EverythingComparesAll` | crates/hpsvm-fixture/src/compare.rs:48-77 | the two ready-made lists hold exactly when status, inclusion, fee, return data, logs, number of inner instructions and accounts agree, with or without the compute units |
| `Comparison.DuplicatesDecideSelfEquality` | crates/hpsvm-fixture/src/compare.rs:137-179 | the comparison of a list with itself, and the reversal of a comparison, hold exactly when there are no such duplicates |
| `Comparison.DuplicatesBreakSymmetry` | crates/hpsvm-fixture/src/compare.rs:137-179 | for any two different accounts at one address, lists that compare in one direction, not in the other, and not with themselves |
| `Comparison.ComparisonIsEquivalence` | crates/hpsvm-fixture/src/compare.rs:95-127 | under any list of predicates comparison is an equivalence on snapshots with distinct addresses |
| `Comparison.WeakerListStillPasses` | crates/hpsvm-fixture/src/compare.rs:95-127 | dropping predicates or shrinking scopes never turns a pass into a failure |
| `Comparison.TryCompare` | crates/hpsvm-fixture/src/compare.rs:95-127 | succeeds exactly when all predicates hold, and otherwise names the first that does not |
| `Fork.BoundedStaleness` | crates/hpsvm/src/fork.rs:127-144 | every read of every run returns the remote's answer to it, or an account an earlier read of the address got from the remote, read before the time it was stored plus the time to live; absence and errors are never cached |
| `Fork.CacheIsTransparent` | crates/hpsvm/src/fork.rs:127-144 | over a remote that does not change, every read returns the remote's answer |
| `Fork.RunKeepsSourced` | crates/hpsvm/src/fork.rs:48-70 | over every run the capacity is kept, every entry is an answer of the remote, and hits and misses add up to the reads |
| `Fork.HitsExactly` | crates/hpsvm/src/fork.rs:53-65 | over every run and every remote, a read is a hit if and only if its key was read before, that read left an account, at every time since fewer other keys than the capacity were more recent, and it is read before the time it was stored plus the time to live; each read returns what the remote answered to the read that fetched |
| `Fork.ExpiredIsFetched` | crates/hpsvm/src/fork.rs:53-65 | once the stored time of what a key's last read returned plus the time to live is not after the reading time, the next read asks the remote and returns its answer |
| `Fork.RpcForkSource.constructor` | crates/hpsvm/src/fork.rs:202-221 | default capacity and time to live; a capacity of zero becomes one; the cache starts empty |
| `Fork.RpcForkSource.Get` | crates/hpsvm/src/fork.rs:53-61 | an entry read before its stored time plus the time to live is returned and becomes the most recent; any other is dropped |
| `Fork.RpcForkSource.GetAccountOf` | crates/hpsvm/src/fork.rs:127-144 | computes the specified read, counters and cache included |

## Left out

- SBF execution, loaders' internals, JIT tiers, the resident program store and `InvokeContext`: parameters of the model; a program image is known only by the loader and bytes it came from.
- Signature verification, sanitizing rules, address lookup tables and feature gates: parameters; lookup tables resolve at execution to the keys they had at planning.
- The unlocked read of a program's owner account, sysvars and loader accounts in `crates/hpsvm/src/execution.rs`: only the reserved ones are part of what an execution sees.
- Serializability.PlanOrderSerializable: takes the refused transactions from the batch itself, because sends without the warm-ups may refuse others (Witness.WarmUpsDecideRefusals); LiveOrder.BatchMatchesPlanSends compares with the sends.
- LiveOrder.BatchMatchesPlanSends: is conditional on equal refusals; which programs a rebuild meets depends on the whole overlay, so that beyond LiveOrder.SafeBatch no condition on the batch alone is given.
- LiveOrder.FailureMatchesPrefixSends: conditional on equal refusals for the same reason.
- LiveOrder.BatchMatchesInputSends: conditional on equal refusals for the same reason; Witness.OrderDecidesRefusals shows that they can differ.
- Schedule.MergeOrderIsInvisible: assumes that both orders are accepted, because acceptance can depend on the order (Witness.OrderDecidesPanic); LiveOrder.SafeMergeOrderIsInvisible does without.
- CacheReaders.BatchReadsSequentially: gives a sufficient condition; where a member writes the programdata of a program another one uses, which locks do not forbid, nothing is said.
- Outcomes that depend on the caches in the other batch results: there an outcome depends on accounts and history only.
- Inspectors, transaction origins, callbacks, log collection, metrics and the error taxonomy: a result carries an opaque payload, and errors keep their kind but not their text.
- Custom builtins: `rebuild_program_cache` knows the fixed list only, and so does the model.
- Threads: a parallel stage is a state machine whose steps take any pending member; memory-level concurrency, the locks of the fork cache and interleaved reads through clones of it are not modelled.
- Reference-count sharing, clone cost and hashing: collections are values.
- The hash-map order of `rebuild_program_cache` and of lock sets: the model's loops work for any order.
- The lru crate: an LRU map is the list of its entries, most recent first, with the crate's `get`, `peek`, `put`, `pop` and resize.
- The JSON, protobuf byte and binary codecs, file formats, capture, runner, report and benchmark code, builder types, macros and the command line: thin wrappers or presentation.
- Fee, rent, blockhash and program-test helpers of `crates/hpsvm/src/vm.rs`: single-branch operations over the store.
