# FUNI verification model

A Dafny 4.11 model of the crash-tolerant transaction engine of FUNI, of the transactional
store around it, and of the exact integer and decimal arithmetic it relies on. `dafny verify
dfyconfig.toml` checks everything.

## How it is built

Each database transaction of the program is one atomic step: a pure function from the stored
rows to the stored rows, in which throwing is rolling back. Where the program updates rows in
place, a class holds the same rows, and its methods are proved equal to those functions; the
results about all runs are proved about the functions. A run is any sequence of steps by any
number of callers with any arguments, so that stale reads, retries, interleavings and crashes
are all included.

| part | files |
|---|---|
| shared notions | `Prelude`, `Arithmetic` |
| ladder lifecycle | `LadderModel` (transactions), `LadderInvariant` (what each keeps), `LadderLifecycle` (all runs), `LadderOpen`, `LadderClose` (projection and reconciliation), `LadderRecords` (when each transaction commits and which rows it writes), `LadderStore` (the rows in place), `LadderMisleads` (runs where a guarantee stops) |
| durable broadcast boundary | `Evidence`, `Journal`, `Broadcast` (step machine), `BroadcastSafety` (invariant), `BroadcastRuns` (all runs), `BroadcastCall` (one call in place), `Recovery`, `Misleads` (runs where a guarantee stops) |
| other journal clients | `GuardedExecutor` (V3 executor and recovery), `Canary` |
| ladder planner | `Geometry`, `Conservation`, `CloseMinimums` |
| work selection and leases | `Allocation`, `CyclicRefresh`, `LogScan`, `WorkQueue` |
| direct lookup | `Lookup` (requests, candidates, outbox), `LookupWorker` (worker, registry and refreshers) |
| position truth and external evidence | `PositionTruth`, `ExternalSettlement` |
| texts and prices | `Decimal`, `Amount`, `PriceGuard`, `GasCalibration` |

## Main results

* **Broadcast boundary.** Over every interleaving of callers, with crashes anywhere: a send
  only follows its committed row, carries the journaled transaction, and follows only failed
  attempts; under the insert-once contract no attempt is sent twice; the nonce mutex is
  released on every exit but a crash; and when no row is failed prematurely each stage succeeds on chain
  at most once.
* **Ladder lifecycle.** Parent, legs, journal and reposition phase agree in every reachable
  state; a close is reconciled if and only if its evidence is there, exactly once, and
  is never stuck in runs without a superseded close prepare.
* **Planner.** The geometry loop is complete (it rejects exactly when no ladder exists) and
  optimal (lexicographically closest to the desired ticks).
* **Selection, leases, lookups, position truth.** Work conservation, fairness, exclusion,
  absorbing terminal states, sound negative answers, exactly one outbox row per subscriber.
* **What is recorded and answered.** For each operation, when it commits and exactly what it
  then stores or answers, in terms of the rows and the evidence: the boundary returns on its
  receipt, a pass records what the evidence shows, a close carries the right provenance, an
  eligible pool is found, a reading is stored token by token, a text is read as what it denotes.
* **Exact arithmetic.** Square root, slippage bounds, conservation, round trips, price guard.

## Where the code falls short of what it promises

Each is a proved run or an exact condition; the code is modelled as it is.

* The boundary fails a row when only the pending count has passed its nonce
  (`transaction-boundary.ts:103`). That failure is not final: `Misleads.PendingCountMisleads`
  has two attempts of one stage succeed. `Recovery.ClassifiedFailureIsFinalIff` gives the exact
  condition. The journal reconciler uses only the latest count, which is final when the reads
  come from one snapshot, however old at the commit; `Evidence.NonAtomicReadsMislead` shows that
  they need to.
* The reverted-receipt path of `submit` (`v4-bid-ladder-live.ts:1024-1042`) fails the newest
  row of the stage, whichever attempt the receipt belongs to: `Misleads.LateRevertMisleads`,
  with the exact condition in `Recovery.RevertedFailureIsFinalIff`.
* `persistPrepared` is documented to insert once, but the ledger accepts an identical existing
  row, so the same bytes can be sent twice: `Misleads.LedgerSendsTwice`. Both contracts are
  modelled (`strict`); at-most-once is proved for the documented one, byte identity for both.
  `BroadcastRuns.SendIsRepeatIff` gives the exact condition.
* The V3 executor sends the same bytes again from a PREPARED row, and does not order attempts:
  `GuardedExecutor.LostAnswerSendsTwice`, `GuardedExecutor.OverlapSucceedsTwice`; exactly when:
  `GuardedExecutor.RepeatIsAcceptedIff`, `GuardedExecutor.StepOneLiveIff`.
* The reset loop can move a reposition to CLOSE_CONFIRMED on a close that is not proven
  (`v4-bid-ladder-usdg-reset.ts:1376-1389`): `LadderMisleads.EmptyCloseIsUnproven`; exactly when,
  in terms of what it has read: `LadderLifecycle.ConfirmFromResetIsProvenIff`.
* The cancellation of an orphaned child ladder (`v4-bid-ladder-usdg-reset.ts:1331-1340`) can
  leave a CANCELLED ladder with opening approval rows: `LadderMisleads.OrphanCounterexample`;
  exactly when: `LadderLifecycle.OrphanLeavesOpenRows`.
* A late re-prepare of a failed close attempt unbinds the legs, and no close is reconciled
  until the newest attempt is prepared again: `LadderClose.SupersededPrepareUnbinds`,
  `LadderClose.NewestPrepareRebinds`.
* NO_ACTIVE_LIQUIDITY_POOL can be stored while the registry holds a freshly active pool, and
  over an ELIGIBLE row whose evidence has aged: `LookupWorker.WorkerAnswerIsTrueIff` and
  `Lookup.HidesEligibleIff` say exactly when.
* `retryDirectLookupOutbox` has no status guard and can undo a delivery:
  `Lookup.LateRetryDeliversTwice`.
* A reading with positive fees and a failed liquidity query throws and loses its whole
  transaction: `PositionTruth.PersistThrowsIff`.
* Two canary processes resumed together can mint twice although each holds the nonce mutex
  (exactly when: `Canary.StaleLoadSendsTwiceIff`, and `Canary.OverrunSendsTwiceIff` for a call
  that outlives its lease), and an external-evidence writer with a
  stale reading lowers the stored completeness: `Canary.TwoProcessesMintTwice`,
  `ExternalSettlement.StaleWriterRegresses`.

## Assumptions

* Hashes are injective: a signed transaction stands for its hash, a request for its
  fingerprint. Each account nonce is consumed once, in order (section 6 of the Ethereum Yellow
  Paper).
* The store is serializable, with the uniqueness constraints of its schema; a journal id
  stands for the (workflow, stage, attempt) it was made for.
* Receipts, minted tokens, provider replies, clocks and rival writers are arbitrary
  parameters; the results that need them truthful say so in a precondition.
* Token amounts follow section 6.4.1 of the Uniswap v3 Core whitepaper, with the rounding of
  the V4 adapter for closes and of the V3 adapter for gas calibration; the
  square roots of the range ends are inputs, as are the raw ticks.

## Model

| member | source | states |
|---|---|---|
| LadderInvariant.PrepareKeeps | apps/cli/src/v4-bid-ladder-live.ts:846-944 | journaling a prepared transaction and binding it to the legs keeps the invariant: an opening is admitted only for a PLANNED ladder and makes it live in the same commit |
| LadderInvariant.SettleKeeps | packages/lp-ledger/src/index.ts:3909-3994 | the terminal update from evidence keeps the invariant |
| LadderInvariant.RevertNewestKeeps | apps/cli/src/v4-bid-ladder-live.ts:1024-1042 | the reverted-receipt update of the newest row keeps the invariant |
| LadderInvariant.ProjectOpenKeeps | apps/cli/src/v4-bid-ladder-live.ts:1927-1940 | the open projection keeps the invariant when the minted tokens are distinct |
| LadderInvariant.ConvergeKeeps | apps/cli/src/v4-bid-ladder-terminal-convergence.ts:22-69 | terminal convergence keeps the invariant whatever its provenance |
| LadderInvariant.MirrorsKeep | apps/cli/src/v4-bid-ladder-live.ts:2803-2868 | the canonical mirror update keeps the invariant |
| LadderInvariant.ReconcileCloseKeeps | apps/cli/src/v4-bid-ladder-live.ts:2990-3053 | the close transaction (convergence, mirrors, reset) keeps the invariant |
| LadderInvariant.CancelKeeps | apps/cli/src/v4-bid-ladder-cancellation.ts:300-366 | the revision-guarded cancellation keeps the invariant |
| LadderLifecycle.LegsAlwaysAgree | apps/cli/src/v4-bid-ladder-live.ts:2803-2868 | over every interleaving of the writers, the parent and its five legs agree: all PLANNED without tokens, all OPEN with distinct tokens, all CLOSED, or all CANCELLED |
| LadderLifecycle.StatusOnlyMovesForward | apps/cli/src/v4-bid-ladder-live.ts:1936-1937 | from any reachable state status moves only PLANNED to OPEN to CLOSED or PLANNED to CANCELLED, and a minted token is never replaced |
| LadderLifecycle.CancelAndOpenExclude | apps/cli/src/v4-bid-ladder-live.ts:846-886 | of a cancellation and an opening prepare, whichever commits first refuses the other |
| LadderLifecycle.CancelNeverThrows | apps/cli/src/v4-bid-ladder-cancellation.ts:300-366 | the cancellation never throws, and it cancels exactly when the ladder is live, PLANNED, at the expected revision, expired, with five cancellable legs, no journal row and no blocker elsewhere |
| LadderLifecycle.CancelledNeverOpened | apps/cli/src/v4-bid-ladder-cancellation.ts:309-363 | a cancelled ladder never has an OPEN_BATCH row or a minted leg; one cancelled by expiry has no opening row of any stage |
| LadderLifecycle.OrphanLeavesOpenRows | apps/cli/src/v4-bid-ladder-usdg-reset.ts:1331-1340 | exact condition under which the cancellation of an orphaned child leaves no opening row: no approval was journaled before it |
| LadderMisleads.OrphanCounterexample | apps/cli/src/v4-bid-ladder-usdg-reset.ts:1331-1340 | a reachable three-step run that passes the precheck and ends CANCELLED with a confirmed OPEN_ERC20_APPROVAL row |
| LadderLifecycle.ConfirmedAtMostOnce | apps/cli/src/v4-bid-ladder-live.ts:441-491 | the confirming step applies at most once in any run |
| LadderClose.ConvergeTwice | apps/cli/src/v4-bid-ladder-terminal-convergence.ts:22-69 | a committed convergence repeated at the same time is not blocked and performs zero writes |
| LadderClose.MirrorsAfterConvergence | apps/cli/src/v4-bid-ladder-live.ts:2803-2868 | after a convergence the mirror update writes nothing, and it throws exactly when a mirror row is missing or belongs elsewhere |
| LadderClose.PostconditionExactly | apps/cli/src/v4-bid-ladder-live.ts:2869-2930 | the asserted close postcondition holds of the converged state exactly when the confirmed row has the hash of the receipt and every leg is bound to that row |
| LadderClose.CloseReconciles | apps/cli/src/v4-bid-ladder-live.ts:2990-3053 | from an OPEN ladder in any reachable state the close transaction commits if and only if its evidence is complete (confirmed row with this receipt, no unresolved row, mirrors present, legs bound, reason admitted); it then meets the asserted postcondition and adds exactly one to the revision |
| LadderClose.CloseReconcilesOnce | apps/cli/src/v4-bid-ladder-live.ts:2990-2997 | repeating a committed close performs zero writes and leaves the whole state unchanged |
| LadderClose.ConfirmedCloseIsNewest | apps/cli/src/v4-bid-ladder-terminal-convergence.ts:9-21 | the confirmed close row found by the query is the newest row of its stage and the only successful one |
| LadderClose.BindingHolds | apps/cli/src/v4-bid-ladder-live.ts:870-944 | along every run without a superseded close prepare the legs stay bound to the newest close row |
| LadderOpen.ProjectionOpens | apps/cli/src/v4-bid-ladder-live.ts:1927-1940 | projecting the receipt opens exactly the minted tokens and liquidity, one revision up; the mirrors are all in place exactly when no row of another intent or range stood there for a minted token |
| LadderOpen.StepKeepsMirrors | apps/cli/src/v4-bid-ladder-live.ts:717-796 | every writer keeps the mirror rows of an open ladder present and its own |
| LadderOpen.ReconciliationIsGuaranteed | apps/cli/src/v4-bid-ladder-live.ts:2990-3053 | from an open ladder with its mirrors, after any run that leaves it open, that contains no superseded close prepare, a confirmed close row with no unresolved one is always reconciled: no stuck close |
| LadderStore.Store.PersistPrepared | apps/cli/src/v4-bid-ladder-live.ts:846-944 | the row-by-row transaction computes exactly the transaction function, or rolls back |
| LadderStore.Store.PersistOpenProjection | apps/cli/src/v4-bid-ladder-live.ts:1927-1940 | the loop over the mints computes exactly the projection, or rolls back |
| LadderStore.Store.ConvergeTerminal | apps/cli/src/v4-bid-ladder-terminal-convergence.ts:22-69 | the updating loop, its write count and each of its errors are exactly those of the convergence function; an open parent is closed as FUNI's own close exactly when a close of FUNI is confirmed, and as an unknown external one otherwise |
| LadderClose.ConvergesIff | apps/cli/src/v4-bid-ladder-terminal-convergence.ts:28-51 | when a convergence commits: five minted positions of this ladder, nothing in progress, a requested provenance that is the one the journal shows, and without a confirmed close of FUNI every position freshly read as owned and empty |
| LadderClose.ConvergenceErrors | apps/cli/src/v4-bid-ladder-terminal-convergence.ts:31-51 | each of its six errors: exactly when, in the order they are checked |
| LadderClose.ConvergeRecords | apps/cli/src/v4-bid-ladder-terminal-convergence.ts:57-65 | what it writes on the ladder: FUNI provenance if and only if a close of FUNI is confirmed, otherwise UNKNOWN_EXTERNAL / EXTERNAL_ONCHAIN_MUTATION; every leg closed, an unbound one bound to the confirmed row; a watching reset ended as an operator close, or every unfinished one blocked |
| LadderClose.ConvergeMirrors | apps/cli/src/v4-bid-ladder-terminal-convergence.ts:48-56 | what it writes in the mirror tables: the five positions closed and empty, their truth settled, not earlier than it was checked, by a close of FUNI and untouched otherwise, and no row of another token changed |
| LadderClose.WritesAreChanges | apps/cli/src/v4-bid-ladder-terminal-convergence.ts:46-66 | it reports no write exactly when it changed nothing |
| LadderRecords.PrepareRecords | apps/cli/src/v4-bid-ladder-live.ts:846-944 | when a prepared transaction is admitted, and exactly which journal row, leg bindings, parent and reset fields commit with it |
| LadderRecords.SubmittedRecords | apps/cli/src/v4-bid-ladder-live.ts:947-987 | the submitted mark: when it is refused, and the row and phase it moves |
| LadderRecords.SettleRecordsEvidence | packages/lp-ledger/src/index.ts:3909-3994 | terminal evidence is recorded with its receipt on an open row of its hash, refused on one of another hash, and ignored otherwise |
| LadderRecords.RevertRecords | apps/cli/src/v4-bid-ladder-live.ts:1024-1042 | a reverted receipt fails the newest row of its stage when that is open, with the receipt |
| LadderRecords.ProjectRecords | apps/cli/src/v4-bid-ladder-live.ts:1927-1940 | when the receipt of an opening is projected, and exactly what parent, legs and the three mirror tables then hold |
| LadderRecords.MirrorsRecordClose | apps/cli/src/v4-bid-ladder-live.ts:2803-2868 | when the canonical mirror update commits, what it leaves of parent, legs and mirrors, and what it counts |
| LadderRecords.ConfirmRecords | apps/cli/src/v4-bid-ladder-live.ts:441-491 | when a reposition close is confirmed, whether it applies or was applied, and what it writes |
| LadderRecords.ConfirmFromResetRecords | apps/cli/src/v4-bid-ladder-usdg-reset.ts:1376-1389 | when the reset loop confirms a close on what it has read, and what it writes |
| LadderRecords.ReconcileResetRecords | apps/cli/src/v4-bid-ladder-live.ts:2990-3053 | the reset part of the close transaction, for both reasons |
| LadderRecords.PhaseRecords | packages/lp-ledger/src/index.ts:1959-2015 | which phase moves are made elsewhere, and that each changes phase and revision alone |
| LadderRecords.EmptyRecords | apps/cli/src/v4-bid-ladder-live.ts:3194-3215 | a close of empty positions: when it commits, and which resets it ends |
| LadderRecords.ExternalRecords | apps/cli/src/external-v4-mutation-reconciliation.ts:172-191 | when the external settlement is refused, and what it writes: every position closed, the parent marked as closed from outside once, a close that FUNI executed kept |
| LadderRecords.CancelRecords | apps/cli/src/v4-bid-ladder-cancellation.ts:300-366 | the four answers of the cancellation and what each leaves |
| LadderRecords.BlockersAre | apps/cli/src/v4-bid-ladder-cancellation.ts:76-299 | each blocker is in the list exactly for its own reason; the plan expires after thirty minutes |
| LadderRecords.RematerializeRecords | apps/cli/src/v4-bid-ladder-usdg-reset.ts:757-775 | when the plan of an unopened child is replaced, and what changes |
| LadderRecords.ObserveRecords | apps/cli/src/active-position-reconciliation.ts:68-94 | what a reading of one position changes in the mirror tables of the ladder |
| LadderRecords.OrphanRecords | apps/cli/src/v4-bid-ladder-usdg-reset.ts:1331-1340 | when an orphaned child is cancelled, and what that leaves |
| LadderStore.Store.CloseMirrors | apps/cli/src/v4-bid-ladder-live.ts:2803-2868 | the mirror loop and its counters are exactly those of the mirror function |
| LadderStore.Store.Reconcile | apps/cli/src/v4-bid-ladder-live.ts:2990-3053 | the composed close transaction is all or nothing |
| LadderStore.Store.CancelPlanned | apps/cli/src/v4-bid-ladder-cancellation.ts:300-366 | the guarded leg update always changes five rows, so its own conflict is never thrown |
| Evidence.ConclusiveIsUnanimous | apps/cli/src/transaction-boundary.ts:38-42 | evidence is conclusive if and only if every provider reported the same identity |
| Evidence.BoundedProbe | apps/cli/src/transaction-boundary.ts:47-51 | the probe returns the first decisive evidence, or the last of its four rounds |
| Evidence.ProviderEvidenceIff | apps/cli/src/transaction-boundary.ts:31-37 | what the replies of one provider amount to, in both directions: a receipt only of this very transaction, pending only after the receipt was reported missing, absent only after both were and with two counts that fit; a failed or malformed reply is never absence |
| Evidence.ExactHashIff | apps/cli/src/transaction-boundary.ts:38-42 | what several providers amount to: conclusive exactly when they all agree on one receipt, one nonce or the same counts; otherwise the first inconclusive observation, or a disagreement |
| Evidence.HonestProviderIsExact | apps/cli/src/transaction-boundary.ts:33-37 | a provider answering from one snapshot always yields conclusive evidence, whose kind is exactly where the transaction is |
| Evidence.ConsumedNonceIsFinal | apps/cli/src/v4-durable-journal-reconcile.ts:283-358 | absent with the latest count past the nonce: mined on no continuation of the chain |
| Evidence.EarlierEvidenceHolds | apps/cli/src/v4-durable-journal-reconcile.ts:283-358 | evidence from any earlier snapshot still holds: a receipt as it says, and absent with the latest count past the nonce means that the transaction can no longer succeed |
| Evidence.FinalIff | apps/cli/src/transaction-boundary.ts:95-105 | of all evidence that fails a row, exactly the one read off the pending count alone is not final: some snapshot that shows it is followed by a success |
| Evidence.OpenNonceIsNotFinal | apps/cli/src/transaction-boundary.ts:82-127 | absent with any pending count but a latest count not past the nonce: some continuation mines the transaction successfully |
| Evidence.NonAtomicReadsMislead | apps/cli/src/transaction-boundary.ts:33-37 | with the reads taken from different snapshots the same evidence fits a transaction that succeeded |
| Journal.PersistKeeps | packages/lp-ledger/src/index.ts:3782-3855 | an accepted insert keeps row order and nonce uniqueness and holds the transaction; under the insert-once contract it is the first row of its attempt |
| Journal.InsertIff | packages/lp-ledger/src/index.ts:3782-3855 | when an insert is accepted and that it adds exactly one PREPARED row: the next attempt, with a nonce no live row holds and a hash no row has; the ledger also accepts the identical row |
| Journal.SettleRecords | packages/lp-ledger/src/index.ts:3909-3994 | evidence is recorded: an open row of the transaction becomes exactly the verdict, a terminal one stays, another transaction is refused, and every other row stays as it is |
| Journal.AdvanceRecords | packages/lp-ledger/src/index.ts:3864-3908 | a guarded transition moves exactly the caller's own row, and is refused exactly when the newest row is due and its own is not |
| Journal.SettleKeeps | packages/lp-ledger/src/index.ts:3909-3994 | the terminal update keeps row order and nonce uniqueness and only moves rows forward |
| BroadcastSafety.StepKeeps | apps/cli/src/transaction-boundary.ts:82-127 | every step of every caller, crash, throw, reconciler and miner keeps the protocol invariant |
| BroadcastRuns.SendsAreJournaled | apps/cli/src/transaction-boundary.ts:79-127 | whatever was sent is the transaction committed for its attempt, every earlier attempt of the stage has failed, and its sender never loaded a prepared transaction |
| BroadcastRuns.CommittedBeforeSend | apps/cli/src/transaction-boundary.ts:79-127 | a send only happens when its row is already committed |
| BroadcastRuns.SentAtMostOnce | apps/cli/src/transaction-boundary.ts:79-127 | under the insert-once journal contract no attempt is ever sent twice, over every interleaving and every crash |
| BroadcastRuns.RepeatedSendsAreIdentical | packages/lp-ledger/src/index.ts:3782-3855 | behind the ledger, two sends of one attempt are the same bytes |
| BroadcastRuns.LedgerIsStrictUntilRepeat | packages/lp-ledger/src/index.ts:3782-3855 | a run of the ledger in which nobody re-inserts an identical row is a run of the insert-once journal |
| BroadcastRuns.RowsOnlyMoveForward | packages/lp-ledger/src/index.ts:3864-3994 | no row is lost or given another transaction, statuses only move PREPARED to SUBMITTED to CONFIRMED or FAILED, and terminal rows never change |
| BroadcastRuns.AttemptsFollowFailures | apps/cli/src/v4-bid-ladder-live.ts:817-886 | an attempt is only followed by another one once it FAILED, and no two live rows of the wallet share a nonce |
| BroadcastRuns.ExitReleases | apps/cli/src/transaction-boundary.ts:82-127 | a call that held the nonce mutex leaves it released on every exit but a crash |
| BroadcastRuns.LeasesAreBounded | packages/lp-ledger/src/index.ts:3129-3152 | a stored lease never lasts longer than its time to live |
| BroadcastRuns.CrashesDoNotBlock | packages/lp-ledger/src/index.ts:3129-3152 | after a crash another call gets the mutex once the time to live has passed |
| BroadcastRuns.MutexExcludes | packages/lp-ledger/src/index.ts:3129-3152 | at most one call is between acquire and release in every run in which no call outlives its lease |
| BroadcastRuns.FirstUnfailedAttempt | apps/cli/src/v4-bid-ladder-live.ts:807-845 | a call ends at once exactly when its stage is confirmed; otherwise it takes the first attempt that has not failed, which is the open row or the one after the last |
| BroadcastRuns.CallerConfirms | apps/cli/src/v4-bid-ladder-live.ts:1043-1060 | a successful receipt takes the caller's own newest open row to CONFIRMED and changes no other |
| BroadcastRuns.CallerFails | apps/cli/src/v4-bid-ladder-live.ts:1024-1042 | a reverted one fails the newest row of the stage when it is open, changes no other, and ends the call |
| BroadcastRuns.CallerAdvances | apps/cli/src/v4-bid-ladder-live.ts:947-987 | the update throws, and records nothing, exactly when the newest row is due and the caller's own is not |
| BroadcastCall.AnswerIsRight | apps/cli/src/transaction-boundary.ts:95-105 | what a call answers on the newest row: it returns if and only if there is a receipt or the provider accepted the send, throws for good if and only if neither holds and a count has passed the nonce, and asks for reconciliation otherwise; and what its row becomes, while every other row stays |
| BroadcastCall.ReturnsIff | apps/cli/src/transaction-boundary.ts:95-105 | for any rows: with a receipt or an acceptance it fails to return exactly when a newer attempt overtook it |
| BroadcastCall.Boundary.BroadcastDurable | apps/cli/src/transaction-boundary.ts:82-127 | one uninterrupted call is a run of the step machine; exactly when it sends and that it sends its own request; when the newest row is open it only recovers that, and returns if and only if the deciding round is its receipt; otherwise it answers by its evidence; the rows follow that evidence, and the mutex is released unless it never got it |
| BroadcastCall.Boundary.Recover | apps/cli/src/transaction-boundary.ts:107-112 | a loaded transaction is only probed and classified, never signed or sent: it returns if and only if the deciding round is its receipt, and its row follows the evidence |
| BroadcastCall.Boundary.CommitAndSend | apps/cli/src/transaction-boundary.ts:113-120 | sign, commit, send, in this order: it sends exactly when the signing succeeded and the insert was accepted |
| BroadcastCall.PendingMeansOpen | apps/cli/src/transaction-boundary.ts:95-105 | the call asks for reconciliation exactly when the evidence leaves its transaction open |
| BroadcastCall.Boundary.SignAndSend | apps/cli/src/transaction-boundary.ts:113-126 | sign, commit, send, probe, classify, in this order; it answers by the deciding round, and the committed row follows it |
| Recovery.PassIsRun | apps/cli/src/v4-durable-journal-reconcile.ts:249-412 | a reconciliation pass over any candidates is a run of reconcile events: it never sends |
| Recovery.Reconciler.Reconcile | apps/cli/src/v4-durable-journal-reconcile.ts:249-412 | a pass records the evidence: every open row that a candidate names becomes what the first deciding candidate shows, CONFIRMED or FAILED, every other row stays, and each result says what the evidence shows |
| Recovery.PassRecordsEvidence | apps/cli/src/v4-durable-journal-reconcile.ts:249-412 | the same over every journal and every list of candidates |
| Recovery.TerminalRowsAreTrue | apps/cli/src/v4-durable-journal-reconcile.ts:283-358 | with evidence read from one snapshot of the chain, at the commit or at any time before it, and without a premature failure, every FAILED row can never succeed any more and every CONFIRMED row has |
| Recovery.StageSucceedsAtMostOnce | apps/cli/src/v4-bid-ladder-live.ts:817-886 | so in such runs, with any mining between a snapshot and its commit, each stage of each workflow succeeds on chain at most once |
| Recovery.ClassifiedFailureIsFinalIff | apps/cli/src/transaction-boundary.ts:95-105 | a failure classified by the boundary is final if and only if it was not read off the pending count alone; then the transaction is dead at the commit, however old the snapshot, and otherwise it is not dead at the snapshot |
| Misleads.PendingCountMisleads | apps/cli/src/transaction-boundary.ts:103 | a run in which a failure read off the pending count lets two attempts of one stage succeed |
| Misleads.LedgerSendsTwice | packages/lp-ledger/src/index.ts:3801-3818 | a run in which the ledger, accepting an identical row, lets two callers send the same bytes |
| GuardedExecutor.StepKeeps | apps/cli/src/v3-multichain-executor.ts:140-163 | every step of every execution, recovery and crash keeps the executor invariant and only moves rows forward |
| GuardedExecutor.SendsAreJournaled | apps/cli/src/v3-multichain-executor.ts:140-151 | every transaction sent is the one of its row, and no other live row has its nonce |
| GuardedExecutor.CommittedBeforeSend | apps/cli/src/v3-multichain-executor.ts:140-151 | only an execution that has just committed sends; a recovery never does |
| GuardedExecutor.RowsOnlyMoveForward | apps/cli/src/v3-multichain-executor.ts:140-163 | statuses only move PREPARED to SUBMITTED to CONFIRMED or FAILED, and terminal rows never change |
| GuardedExecutor.ExitReleases | apps/cli/src/v3-multichain-executor.ts:151 | the nonce mutex is released on every exit but a crash |
| GuardedExecutor.TerminalRowsAreTrue | apps/cli/src/v3-multichain-executor.ts:140-163 | with receipts read from the chain, a CONFIRMED row succeeded and a FAILED one reverted, in every reachable state |
| GuardedExecutor.StageSucceedsAtMostOnce | apps/cli/src/v3-multichain-executor.ts:140-151 | each stage succeeds at most once when its callers open an attempt only after the others failed |
| GuardedExecutor.OverlapSucceedsTwice | apps/cli/src/v3-multichain-executor.ts:140-151 | a run with two open attempts of one stage that both succeed: the executor does not order attempts |
| GuardedExecutor.LostAnswerSendsTwice | apps/cli/src/v3-multichain-executor.ts:140-151 | a run in which an unanswered send is repeated with the same bytes from its PREPARED row |
| GuardedExecutor.Executor.Execute | apps/cli/src/v3-multichain-executor.ts:140-151 | one uninterrupted execution is a run of the step machine; exactly when it inserts, sends and submits, what it answers, and what its row and every other row hold afterwards |
| GuardedExecutor.EntersIff | apps/cli/src/v3-multichain-executor.ts:140-163 | when an execution gets the lease of the wallet and a recovery takes up a row |
| GuardedExecutor.InsertsIff | apps/cli/src/v3-multichain-executor.ts:140-151 | when its commit is accepted: no row of the attempt and no row that holds the hash or, alive, the nonce; or the same transaction still PREPARED |
| GuardedExecutor.Executor.RecoverRow | apps/cli/src/v3-multichain-executor.ts:161-163 | a recovery never sends and never touches the mutex; it settles exactly its own row, exactly when the hash is found and its receipt arrives |
| Geometry.NoLadderWhenClose | apps/cli/src/v4-bid-ladder-planner.ts:122-131 | the rejection is right: such endpoints admit no valid ladder at all |
| Geometry.Feasible | apps/cli/src/v4-bid-ladder-planner.ts:122-131 | the interval of the next boundary is empty only at the first one |
| Geometry.Complete | apps/cli/src/v4-bid-ladder-planner.ts:132-142 | the order, alignment and range checks after the loop cannot fail |
| Geometry.AlignedFloor | apps/cli/src/v4-bid-ladder-planner.ts:98 | the greatest multiple of the spacing at or below the tick |
| Geometry.AlignedCeil | apps/cli/src/v4-bid-ladder-planner.ts:99 | the least multiple of the spacing at or above the tick |
| Conservation.SlicesCollapseBelowFifty | apps/cli/src/v4-bid-ladder-planner.ts:77-82 | the scaled slices collapse exactly below 50 basis points; otherwise five adjoining, strictly deepening slices end exactly at the maximum |
| Conservation.SlicesAreScaled | apps/cli/src/v4-bid-ladder-planner.ts:77-82 | each slice is the planned one (five drops, five weights) scaled to the selected maximum and rounded down |
| Conservation.FundingIsConserved | apps/cli/src/v4-bid-ladder-planner.ts:166-173 | the split succeeds exactly from 13 raw units up, sums to the total, and the last leg gains fewer than four units over its exact share |
| Conservation.AllocatedCollect | apps/cli/src/v4-bid-ladder-live.ts:2617-2632 | for all nonempty weights the amounts sum to the total, each but the last the floor of its share |
| Conservation.CloseIsConserved | apps/cli/src/v4-bid-ladder-live.ts:607-613 | principal plus fees is the returned amount exactly when the return covers the principal, and the principal covers the minimums at every price within the bounds |
| CloseMinimums.IntegerSquareRoot | apps/cli/src/v4-bid-ladder-live.ts:85-96 | terminates for every natural number with r*r <= value < (r+1)*(r+1); refuses negative values |
| CloseMinimums.RootMonotone | apps/cli/src/v4-bid-ladder-live.ts:85-96 | the integer root is unique and monotone |
| CloseMinimums.CloseMinimums | apps/cli/src/v4-bid-ladder-live.ts:97-129 | lower <= price <= upper, both are the exact 2% bounds up to flooring, and at every execution price between them the close returns at least both minimums |
| CloseMinimums.AmountsAreFloors | packages/uniswap-v4-adapter/src/index.ts:217 | both amounts are the exact ones of the position at the price cut to its range, rounded down |
| CloseMinimums.AmountsMonotone | packages/uniswap-v4-adapter/src/index.ts:217 | as the price rises a position holds no more of token 0 and no less of token 1 |
| Allocation.FastIsStale | apps/cli/src/direct-token-lookup.ts:134-138 | every fast candidate is also a stale one |
| Allocation.OrdersAreTotal | apps/cli/src/direct-token-lookup.ts:134-138 | both orders are strict and total over different pools |
| Allocation.CandidatesAre | apps/cli/src/direct-token-lookup.ts:134-138 | which rows are candidates of the two lists |
| Allocation.RankingPrefers | apps/cli/src/direct-token-lookup.ts:134-137 | what the ranking prefers, in this order: liquidity at all, a pool known to be eligible, a quote in dollars, more liquidity, an older refresh |
| Allocation.Allocate | apps/cli/src/direct-token-lookup.ts:139-151 | returns exactly min(budget, stale candidates) distinct stale pools, the fast backfill adds nothing, and the cursor stands right behind the rows passed |
| Allocation.Traverse | apps/cli/src/direct-token-lookup.ts:139-151 | the traversal picks the first untaken rows of the ring in order, each with the cursor right behind it |
| Allocation.NextRound | apps/cli/src/direct-token-lookup.ts:139-156 | after a commit the next round sees the untaken ring rotated by what was picked |
| Allocation.RoundsCoverAll | apps/cli/src/direct-token-lookup.ts:139-156 | with one shared refresh time and a budget above six, every candidate is picked within ceil(non-fast / fairness slots) committed rounds, wherever the cursor stood |
| Lookup.CompletesAtMostOnce | apps/cli/src/direct-token-lookup.ts:218-239 | a request revision completes at most once in any run and its outcome never changes |
| Lookup.OnlyNewestCompletes | apps/cli/src/direct-token-lookup.ts:218-239 | a revision that is not the newest is never completed |
| Lookup.OneOutboxRowEach | apps/cli/src/direct-token-lookup.ts:61-91 | every subscriber of a completed revision has exactly one outbox row, whether it attached before or after |
| Lookup.DeliveredChangesOnlyByRetry | apps/cli/src/direct-token-lookup.ts:270-278 | a delivered row stays delivered under every transaction but a retry of it |
| Lookup.DeliveredAtMostOnce | apps/cli/src/direct-token-lookup.ts:255-278 | each row is delivered at most once in every run without a retry of a delivered row |
| Lookup.LookupStore.CompleteLookup | apps/cli/src/direct-token-lookup.ts:218-239 | in place: completed exactly on the newest open revision; a pool that is eligible is stored and answered as found, otherwise the proposal stands, and a negative answer is stored if and only if its counts cover every structural candidate; each subscriber without an outbox row gets one |
| Lookup.CompletionStores | apps/cli/src/direct-token-lookup.ts:218-239 | the same of the completion as a function, for every proposal and every basis |
| Lookup.EligibleIff | apps/cli/src/direct-token-lookup.ts:179-184 | a pool is eligible exactly when the newest fresh evidence on it, over this and all earlier revisions, says so |
| Lookup.LeaseRecords | apps/cli/src/direct-token-lookup.ts:92-104 | when a request is leased and released, and what that changes |
| Lookup.OutboxRecords | apps/cli/src/direct-token-lookup.ts:255-278 | when an outbox row is leased, delivered or put back, and what that changes |
| Lookup.RetryDelays | apps/cli/src/direct-token-lookup.ts:273-278 | the delays double from 250 milliseconds up to five seconds |
| LookupWorker.OtherSettleRecords | apps/cli/src/direct-token-lookup.ts:186-190 | another refresher touches only an open request with a pending row of its pool, and of that only those rows |
| LookupWorker.FinishRecords | apps/cli/src/direct-token-lookup.ts:241-254 | the last step of the worker commits its answer |
| Lookup.ReuseIff | apps/cli/src/direct-token-lookup.ts:30-60 | when a request is reused, and what a new one holds |
| LookupWorker.AnswerStores | apps/cli/src/direct-token-lookup.ts:241-254 | what the worker stores: exactly the pools that were eligible at its start and not refreshed since, or are by the rows; found when there is one, negative when no candidate is stale, a timeout or unavailable providers otherwise |
| LookupWorker.EligibleRowIsFound | apps/cli/src/direct-token-lookup.ts:241-254 | a pool whose row the worker holds ELIGIBLE on fresh evidence is stored as found |
| LookupWorker.RecomputeStores | apps/cli/src/direct-token-lookup.ts:185 | what another refresher stores once no row is pending |
| LookupWorker.ExpireStores | apps/cli/src/direct-token-lookup.ts:105-121 | what the expiry of a request stores |
| LookupWorker.UpdateRecords | apps/cli/src/direct-token-lookup.ts:165-168 | which rows an update changes, and that a settled row is eligible exactly when its pool is initialized and liquid |
| LookupWorker.InitialRowRight | apps/cli/src/direct-token-lookup.ts:159-164 | what an inserted row says, and from when its evidence is |
| LookupWorker.StartRecords | apps/cli/src/direct-token-lookup.ts:241-247 | which requests and pools the worker takes over, with which rows, plan and eligible pools |
| PositionTruth.BlockNeverDecreases | apps/cli/src/active-position-reconciliation.ts:68-94 | over readings in any block order and with any failures the stored block never decreases, and confirmed implies no terminal reason |
| PositionTruth.OnlyGoodEvidenceUnconfirms | apps/cli/src/active-position-reconciliation.ts:68-94 | a confirmed position is un-confirmed only by an error-free reading at a block not older than the stored one, or by a confirmed-close convergence |
| PositionTruth.PersistThrowsIff | apps/cli/src/active-position-reconciliation.ts:68-94 | exactly when a reading is lost with its whole transaction: an unconfirmed owned V4 position with positive fees whose liquidity query failed |
| PositionTruth.FailuresKeepPresentation | apps/cli/src/active-position-reconciliation.ts:35-47 | after a failed reading a confirmed position is still shown as active, never as fresh |
| PositionTruth.TruthStore.PersistReading | apps/cli/src/active-position-reconciliation.ts:68-94 | in place: a reading that is not lost is stored whole, token by token: the owed tokens of V3, the grown fees of V4 floored in units of 2^-128 on the liquidity read or the stored one; with its owner, terminal reason, confirmation, times and retries |
| PositionTruth.PersistStores | apps/cli/src/active-position-reconciliation.ts:68-94 | the same of the upsert as a function, for every stored row and every reading |
| PositionTruth.MintRecords | apps/cli/src/active-position-reconciliation.ts:192-200 | a mint known from its receipt only adds an unverified row, makes an unconfirmed one due, and leaves a confirmed one alone |
| PositionTruth.ShownIff | apps/cli/src/active-position-reconciliation.ts:33-47 | what is shown for a position, in both directions |
| WorkQueue.TopDue | apps/cli/src/economic-reconciliation-work.ts:32-36 | each batch is exactly the top of the priority order among the due items |
| WorkQueue.TopIsUrgent | apps/cli/src/economic-reconciliation-work.ts:32-36 | such a batch leaves nothing due behind that has a higher priority, or the same and has waited longer |
| WorkQueue.EnsureRecords | apps/cli/src/economic-reconciliation-work.ts:19-31 | what an ensure leaves: a new item, or a priority that never falls and a waiting time that never rises |
| WorkQueue.CompleteRecords | apps/cli/src/economic-reconciliation-work.ts:38 | an item is completed by its owner alone, and then leased to nobody |
| WorkQueue.LeaseApplies | apps/cli/src/economic-reconciliation-work.ts:32-36 | a lease may be written on a clock reading of any age |
| WorkQueue.LaneRecords | apps/cli/src/active-position-reconciliation.ts:187-191 | when an RPC lane is granted and given back |
| WorkQueue.RetryRecords | apps/cli/src/economic-reconciliation-work.ts:39 | a retry is its owner's alone, and fails the item closed or puts it back with its back-off |
| WorkQueue.RetryDelayBounds | apps/cli/src/economic-reconciliation-work.ts:39 | the back-off doubles from one second to 256 seconds; the cap of 300 seconds is never reached |
| WorkQueue.NoTwoOwners | apps/cli/src/economic-reconciliation-work.ts:32-36 | no item is ever under unexpired leases of two owners, over all runs with a monotone clock, whatever the age of the clock reading each lease was written with |
| WorkQueue.StaleOwnerIsPowerless | apps/cli/src/economic-reconciliation-work.ts:38-39 | an owner whose item was re-leased can neither complete nor retry it |
| WorkQueue.TerminalIsAbsorbing | apps/cli/src/economic-reconciliation-work.ts:19-31 | COMPLETED and FAILED_CLOSED are absorbing, also under later ensures |
| WorkQueue.Queue.LeaseWork | apps/cli/src/economic-reconciliation-work.ts:32-36 | in place, with a clock read before the write: exactly the top due items are leased to the owner, none when none was found due before, and nothing else changes |
| WorkQueue.NoTwoLaneOwners | apps/cli/src/active-position-reconciliation.ts:187-190 | no RPC lane is ever under unexpired leases of two owners, whatever the age of the clock readings |
| LogScan.CommittedExactly | apps/cli/src/position-adoption.ts:206-230 | a block lies in exactly one committed window if it is between the initial block and the cursor, and in none otherwise |
| LogScan.ScannersTile | apps/cli/src/position-adoption.ts:206-230 | concurrent scanners keep the committed windows disjoint and contiguous |
| LogScan.CursorStore.Scan | apps/cli/src/position-adoption.ts:206-230 | one scanner with arbitrary rival commits terminates; it gets one full window further with each commit, cut at the latest block; complete means every block up to the latest is committed, incomplete means the window budget ran out or the compare-and-set was lost |
| CyclicRefresh.RoundIsCyclic | apps/cli/src/v3-state-cache.ts:25-30 | a round takes the next min(limit, n) distinct pools in cyclic order and turns the ring by as many |
| CyclicRefresh.AttemptsAreFair | apps/cli/src/v3-state-cache.ts:25-36 | after any number of rounds with any limits and failures the attempt counts of any two pools differ by at most one |
| CyclicRefresh.Cache.PersistRefresh | apps/cli/src/v3-state-cache.ts:34-36 | stores the last successful inspection of each cached pool and moves the cursor whatever failed |
| Amount.ParseUndoesFormat | apps/telegram-lp-bot/src/amount-ux.ts:10-24 | for every raw amount, decimals 0 to 255 and number of places: parsing the printed text gives the amount cut to those places, when positive |
| Amount.ParseUndoesFullFormat | apps/telegram-lp-bot/src/amount-ux.ts:10-24 | with all places printed every positive amount comes back |
| Amount.NegativeIsRefused | apps/telegram-lp-bot/src/amount-ux.ts:10-24 | a printed negative amount is never read back |
| Amount.FormatOfParsed | apps/telegram-lp-bot/src/amount-ux.ts:10-24 | an accepted text and the printed form of its value are read as the same amount |
| Amount.AmountIsRead | apps/telegram-lp-bot/src/amount-ux.ts:10-20 | every text of the written form, with any white space around it, is read as exactly the number its digits denote in raw units, or refused for exactly one of the other reasons |
| Amount.OnlyAmountsAreRead | apps/telegram-lp-bot/src/amount-ux.ts:10-20 | and a text is refused as no decimal exactly when it has no such form |
| Amount.PrintsAnAmount | apps/telegram-lp-bot/src/amount-ux.ts:21-24 | what is printed has that form: no more than the places asked for, no zero at the end of the fraction, after a minus exactly when negative |
| Decimal.ReadsBack | apps/telegram-lp-bot/src/amount-ux.ts:21-24 | decimal digits of a number, read back, without leading zeros |
| PriceGuard.ReadsExactly | apps/cli/src/lp-entry-price-guard.ts:25-34 | a price text is read as exactly the number it denotes, and refused exactly when malformed, out of exponent range, zero, or a plus before a bare fraction |
| PriceGuard.PlusIsPlus | apps/cli/src/lp-entry-price-guard.ts:25-39 | sums of fractions stand for sums of numbers |
| PriceGuard.TimesIsTimes | apps/cli/src/lp-entry-price-guard.ts:25-39 | products of fractions stand for products of numbers |
| PriceGuard.QuotientOfRationals | apps/cli/src/lp-entry-price-guard.ts:39 | quotients of fractions stand for quotients of numbers |
| PriceGuard.GuardIsExact | apps/cli/src/lp-entry-price-guard.ts:41-48 | for readable prices it passes if and only if ten times the absolute difference is less than the reference price, as exact numbers; the deviation is the floor of ten thousand times the relative difference |
| PriceGuard.JudgeIgnoresNotation | apps/cli/src/lp-entry-price-guard.ts:41-48 | equal prices written differently get the same verdict and deviation |
| PriceGuard.UnreadableBlocks | apps/cli/src/lp-entry-price-guard.ts:41-48 | every missing or unreadable price blocks, and which blocker it gives |
| PriceGuard.PriceIsRead | apps/cli/src/lp-entry-price-guard.ts:25-34 | every text of the written form is read as its digits times the power of ten, and refused exactly when the exponent is beyond a hundred, the digits are all zero, or a plus stands before a point |
| PriceGuard.OnlyPricesAreRead | apps/cli/src/lp-entry-price-guard.ts:25-34 | and no other text is read as a price |
| PriceGuard.ShownPrices | apps/cli/src/lp-entry-price-guard.ts:41-48 | the prices shown beside the verdict: cut to 18 places, and when each is there |
| PriceGuard.PrintThenRead | apps/cli/src/lp-entry-price-guard.ts:25-38 | printing then re-parsing gives exactly the price cut to 18 places; below one unit it is refused |
| PriceGuard.PrintLosesLessThanAUnit | apps/cli/src/lp-entry-price-guard.ts:35-38 | the loss is less than one unit of 10^-18, and nothing when the denominator divides 10^18 |
| ExternalSettlement.Validate | apps/cli/src/external-v4-mutation-reconciliation.ts:172-205 | the validation loop accepts exactly the evidence whose legs are in range, own their token and are named once |
| ExternalSettlement.EnoughEvidenceNamesAll | apps/cli/src/external-v4-mutation-reconciliation.ts:172-205 | as many valid legs as the ladder has name every leg |
| ExternalSettlement.FullEvidenceIsComplete | apps/cli/src/external-v4-mutation-reconciliation.ts:215-265 | FULL means every leg is named, and principal plus fees is the aggregate return with no negative fee |
| ExternalSettlement.CompletenessIff | apps/cli/src/external-v4-mutation-reconciliation.ts:215-265 | when evidence is incomplete, partial or full, and what its principal and fees are |
| ExternalSettlement.PersistIff | apps/cli/src/external-v4-mutation-reconciliation.ts:166-214 | when evidence is refused, taken as known or stored |
| ExternalSettlement.StepRank | apps/cli/src/external-v4-mutation-reconciliation.ts:166-303 | a write lowers the completeness rank exactly when the row it read was not the row it replaces and that row ranked higher |
| ExternalSettlement.CompletenessNeverRegresses | apps/cli/src/external-v4-mutation-reconciliation.ts:166-303 | with writers acting on the stored row completeness never regresses |
| LadderInvariant.StepKeeps | apps/cli/src/v4-bid-ladder-live.ts:846-1042 | every atomic transaction of every writer (prepare, submitted mark, settlement, reverted receipt, open projection, convergence, mirror update, close reconciliation, external settlement on earlier readings, both cancellations, both moves to CLOSE_CONFIRMED, the other phase moves, rematerialization) keeps the whole lifecycle invariant and moves status, tokens and rows only forward |
| LadderInvariant.SettleExternallyKeeps | apps/cli/src/external-v4-mutation-reconciliation.ts:172-191 | the external close step keeps the invariant although all its guards were read before its transaction: the ladder it was picked as is still closed from outside |
| LadderInvariant.UnselectedSettlementUndoes | apps/cli/src/external-v4-mutation-reconciliation.ts:367-394 | the selection is needed: the transaction alone undoes every proven close |
| LadderInvariant.ConfirmFromResetKeeps | apps/cli/src/v4-bid-ladder-usdg-reset.ts:1376-1389 | the second move to CLOSE_CONFIRMED, on whatever it read before, keeps everything but the proof of the close |
| LadderLifecycle.ConfirmFromResetIsProvenIff | apps/cli/src/v4-bid-ladder-usdg-reset.ts:1376-1389 | exact condition on what the call read, however stale, over every honest run: that move leaves a proven close if and only if it read exactly one close row and a parent closed by FUNI, neither of which it checks |
| LadderInvariant.MovePhaseKeeps | packages/lp-ledger/src/index.ts:1959-2015 | a guarded move of the reposition phase made elsewhere keeps the invariant |
| LadderInvariant.RematerializeKeeps | apps/cli/src/v4-bid-ladder-usdg-reset.ts:757-775 | replacing the plan of a child that is not opened keeps the invariant |
| LadderLifecycle.HonestIsWellFormed | apps/cli/src/external-v4-mutation-reconciliation.ts:695-735 | readings taken at any two earlier points of the run, however stale, are good enough for every result about runs |
| LadderLifecycle.RepositionIsSafe | apps/cli/src/v4-bid-ladder-live.ts:441-491 | exact, in every reachable state with a phase at or past CLOSE_CONFIRMED: there is a recorded manual authorization, exactly one CLOSE_BATCH row that is CONFIRMED with a successful receipt, and a parent CLOSED with FUNI provenance, if and only if the reset loop never moved on readings that show several close rows or a parent not closed by FUNI |
| LadderMisleads.EmptyCloseIsUnproven | apps/cli/src/v4-bid-ladder-usdg-reset.ts:1376-1389 | such a move is reachable: a run from a new ladder in which an authorized close is journaled, another writer closes the ladder as empty before the close is marked submitted, its receipt is recorded, and the reset loop has read the rows once before and once after that |
| LadderLifecycle.StepLasts | apps/cli/src/v4-bid-ladder-live.ts:846-1042 | every transaction leaves a CLOSED parent closed with the same FUNI provenance, and close rows that end in a success as they are: what makes a stale reading of them safe |
| LadderLifecycle.LaterConfirmsAreIdle | apps/cli/src/v4-bid-ladder-live.ts:441-491 | in such runs every later call changes nothing and reports ALREADY_ADVANCED (or throws while the reset is blocked) |
| LadderClose.SupersededPrepareUnbinds | apps/cli/src/v4-bid-ladder-live.ts:870-944 | a late re-prepare of a failed close attempt is accepted and binds the legs to it; the close that follows cannot be reconciled |
| LadderClose.NewestPrepareRebinds | apps/cli/src/v4-bid-ladder-live.ts:870-944 | a re-prepare of the newest attempt is accepted as well and binds the legs to it again |
| LadderStore.Store.SettleExternal | apps/cli/src/external-v4-mutation-reconciliation.ts:172-191 | in place: the checks on the readings, the loop over the legs and the guarded parent update are exactly the settlement |
| LadderStore.Store.CancellationBlockers | apps/cli/src/v4-bid-ladder-cancellation.ts:76-299 | the list pushed together is empty if and only if the cancellation with the same arguments succeeds |
| Misleads.LateRevertMisleads | apps/cli/src/v4-bid-ladder-live.ts:1024-1042 | a run in which the late reverted receipt of attempt 0 fails attempt 1, so that attempts 1 and 2 both succeed |
| Recovery.RevertedFailureIsFinalIff | apps/cli/src/v4-bid-ladder-live.ts:1024-1042 | exact condition: the failure a caller records from a reverted receipt is final if and only if the newest row is the receipt's own or can no longer succeed |
| BroadcastRuns.LedgerPartsIff | packages/lp-ledger/src/index.ts:3801-3818 | exact condition: the ledger parts from the insert-once journal in exactly the steps that insert an attempt whose row is there with the same bytes |
| BroadcastRuns.LedgerSendsOnceWithoutRepeat | packages/lp-ledger/src/index.ts:3782-3855 | behind the ledger too no attempt is sent twice in runs without such a step |
| BroadcastRuns.SendIsRepeatIff | packages/lp-ledger/src/index.ts:3801-3818 | exact condition, from every reachable state: the send after an accepted insert is a repeat if and only if the insert found its row there and that row was sent |
| GuardedExecutor.SentAtMostOnce | apps/cli/src/v3-multichain-executor.ts:140-151 | each attempt is sent at most once in every run in which no commit finds its attempt already journaled |
| GuardedExecutor.PreparedRowSendsAgain | apps/cli/src/v3-multichain-executor.ts:140-151 | the other direction, from every reachable state: a row still PREPARED lets an execution that signs the same bytes send them once more |
| GuardedExecutor.RepeatIsAcceptedIff | apps/cli/src/v3-multichain-executor.ts:140-151 | exact condition: the commit of an attempt that was sent already is accepted if and only if its row is still PREPARED with the same bytes |
| GuardedExecutor.StepOneLiveIff | apps/cli/src/v3-multichain-executor.ts:140-151 | exact condition: a step gives a stage two live attempts if and only if it is an overlapping commit |
| GuardedExecutor.OpenAttemptsCanBothSucceed | apps/cli/src/v3-multichain-executor.ts:140-151 | from every reachable state with two open attempts that are not mined yet both can still succeed |
| Geometry.BidLadderGeometry | apps/cli/src/v4-bid-ladder-planner.ts:108-143 | with the range check and the loop: rejects, at its first iteration, exactly when the endpoints are fewer than five spacings apart; otherwise aligned, ordered by at least one spacing, with fixed endpoints, and lexicographically closer to the desired ticks than every other valid ladder, in both orientations |
| Lookup.NegativeAnswerIsSound | apps/cli/src/direct-token-lookup.ts:171-185 | answered from the candidate rows, NO_ACTIVE_LIQUIDITY_POOL is stored exactly when it was proposed, no pool was found or is eligible, every row is freshly classified or unsupported, and the plan counts no further structural candidate; without any row exactly when the registry lists no structural candidate |
| Lookup.RegistryAnswerIsSound | apps/cli/src/direct-token-lookup.ts:218-239 | answered with registry evidence, as the worker does, it is stored exactly when it was proposed, no pool was found or is eligible, and no structural candidate is stale |
| Lookup.HidesEligibleIff | apps/cli/src/direct-token-lookup.ts:171-185 | exact condition under which it is stored over a row that says ELIGIBLE: such a row whose evidence has aged, and nothing else against the answer |
| LookupWorker.WorkerAnswerIsTrueIff | apps/cli/src/direct-token-lookup.ts:173-254 | in every reachable state of the worker and the refreshers beside it: when the worker stores NO_ACTIVE_LIQUIDITY_POOL, and that this answer is false, with a freshly active pool in the registry, if and only if some active pool is not held by a candidate row, which means that its last refresh since the start was not settled or its row was given up |
| LookupWorker.NegativeIff | apps/cli/src/direct-token-lookup.ts:241-254 | the worker stores it exactly when its revision is the newest and open, it reports nothing, and no candidate is stale |
| LookupWorker.StepKeeps | apps/cli/src/direct-token-lookup.ts:159-194 | every step of worker, refreshers and requests keeps what the worker knows about the active pools |
| LookupWorker.UnselectedPoolIsMissed | apps/cli/src/direct-token-lookup.ts:241-254 | a reachable run with such a false answer: a pool outside the selection is refreshed meanwhile |
| LookupWorker.AbandonedReadIsMissed | apps/cli/src/direct-token-lookup.ts:249 | a reachable run with such a false answer: the worker stores its own read in the registry and then marks the row unavailable |
| LookupWorker.AgedRowIsHidden | apps/cli/src/direct-token-lookup.ts:185-190 | a reachable run that stores the negative answer over an aged ELIGIBLE row |
| Lookup.LateRetryDeliversTwice | apps/cli/src/direct-token-lookup.ts:273-278 | from every state with a delivered row, a late retry undoes the delivery, and the row is delivered again |
| Lookup.TwoDeliveriesAreReachable | apps/cli/src/direct-token-lookup.ts:255-278 | a run from the empty tables with two deliveries of one row |
| Lookup.LookupStore.AttachSubscriber | apps/cli/src/direct-token-lookup.ts:76-91 | a late subscriber of a finished revision gets its row in the same commit, and every other row of the outbox stays |
| PositionTruth.TruthStore.SettleClosedPosition | apps/cli/src/v4-bid-ladder-terminal-convergence.ts:53-55 | afterwards the position is unconfirmed, its stored block is unchanged, and it is sound |
| WorkQueue.LateConflictKeepsMerge | apps/cli/src/economic-reconciliation-work.ts:19-31 | an ensure that read before another writer inserted throws exactly when the sources differ, and then its merge stays |
| WorkQueue.Queue.EnsureWork | apps/cli/src/economic-reconciliation-work.ts:19-31 | in place, on a row read before: nothing but priority and time of an existing item ever changes |
| WorkQueue.Queue.RetryWork | apps/cli/src/economic-reconciliation-work.ts:39 | with the attempts and the clock read before the write: only the owner retries; a call by anyone else changes nothing, one by the owner frees the item for 1 to 256 seconds after the reading and leaves the others alone |
| Canary.FreshLoadsSendOnce | apps/cli/src/guarded-canary.ts:162-163 | over every run of any number of processes, each phase is sent at most once if none acquires the mutex with a load older than the journaled entry or while another is inside |
| Canary.StaleLoadSendsTwiceIff | apps/cli/src/guarded-canary.ts:162-163 | the other direction: a process that found no entry and gets the mutex sends its phase, and that is a second send if and only if the phase was sent since its load |
| Canary.OverrunSendsTwiceIff | apps/cli/src/guarded-canary.ts:162-163 | what an overrun does: from every unfinished state in which a process that found no entry gets the mutex while another is inside, the two calls send the phase once, and once more if and only if the one inside had still to send it |
| Canary.StartIff | apps/cli/src/guarded-canary.ts:329-350 | which intents a process starts or resumes, and from where |
| Canary.ThrowLeaves | apps/cli/src/guarded-canary.ts:456-478 | what a throw leaves: a recoverable intent as it is, any other one failed, and the mutex released |
| Canary.LeasesIff | apps/cli/src/guarded-canary.ts:163-165 | when a process gets the lease of the wallet, and for how long |
| Canary.LeavesBoundary | apps/cli/src/guarded-canary.ts:163-165 | with a journaled entry, as after a send, the intent is marked submitted and the mutex released |
| Canary.ResumedCompletes | apps/cli/src/guarded-canary.ts:340-470 | a preview whose process crashes after its approval was sent is completed by the next one: one approval and one mint, the mutex free, the position reconciled |
| Canary.EachPhaseSendsOnce | apps/cli/src/guarded-canary.ts:340-470 | with one process restarted any number of times each phase is sent at most once, whatever other clients do to the lease |
| Canary.TwoProcessesMintTwice | apps/cli/src/guarded-canary.ts:162-165 | a run from a fresh preview, with the mutex taken and released in order, in which one approval is sent and two processes resumed together mint twice: the second acquires with a stale load |
| ExternalSettlement.StaleWriterRegresses | apps/cli/src/external-v4-mutation-reconciliation.ts:166-303 | for every ladder a run from nothing in which a stale writer replaces FULL evidence by none |
| GasCalibration.RepresentativeLiquidity | apps/cli/src/open-gas-calibration.ts:33-36 | the doubling loop returns the smallest sufficient power of two, or None exactly when none below 2^128 is; no amount up to half of it suffices |
| GasCalibration.V3AmountsAreFloors | packages/uniswap-v3-adapter/src/index.ts:24 | the V3 amounts: token 0 rounded down twice over what the price leaves of the range, token 1 as in V4 |
| GasCalibration.EnoughMonotone | packages/uniswap-v3-adapter/src/index.ts:24 | more liquidity never holds less of either token, with the two roundings of the V3 amounts |

## Left out

- The RPC-verified projection of the open receipt (`v4-bid-ladder-live.ts:1624-1903`), which repeats the same row updates after reading the chain
- Freshness handoff of an open receipt (`v4-bid-ladder-live.ts:1915-1926`): one enqueue, covered by the work queue
- Links between parent and child resets are forward phases here
- The effective-downside comparison after the geometry loop, a floating-point safeguard: the cap is proved never to go past the selected depth
- Two workers on one lookup request at a time; the last readings of a worker and its completion are one step, and structural candidates carry no execution blocker of their own
- The WETH-only gas calibration, which is the same doubling loop on one amount
- Collecting fees: only its allocation is modelled
- Blockers found in other tables are one argument of the cancellation
- The early return of the projection when it is already complete, which writes nothing
- The nonce-conflict guard of the journal inside the ladder model; it is in `Journal`
- `deriveCalibrationRange` and `deriveWethOnlyCalibrationRange`: local tick rounding only
- `selectActivePositionRefresh`, targeted request leases and the wallet sync request: easy orderings and the same lease pattern as the work queue
- Discovery of work and pools, portfolio snapshots, presentation and telemetry
- A loaded transaction whose call data differs from the request is thrown as a mismatch instead of pending, with the same rows and mutex
- Gate lists, fee evidence and deployment checks before an execution: conjunctions whose failure throws before the first step
- RPC, signing, ABI and receipt decoding, SQL text, busy retries and foreground waits
- Floating-point USD values and the `Math.log` tick computation
- Liveness of superseded lookup revisions, which the code does not promise
