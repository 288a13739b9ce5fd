# Verified model of the cargo extraction service's billing, recovery and parsing core

This project models the parts of the service that move money or decide what a document says, and proves what they
promise. Verify with `dafny verify dfyconfig.toml` (Dafny 4.11).

**The prepaid-billing and task-lifecycle protocol.** `Database` holds the tenant, task, ledger and feedback tables;
money is counted in ticks of 0.0001. `Billing` says what each billing statement does, `Lifecycle` turns every
committed transaction of the service into one of nineteen steps (submit, claim, success with charge, failure, cancel,
both timeouts, both recoveries, retry, recharge, price change, activation, feedback and refund), and `Session` writes
the same operations statement by statement, in a transaction that commits or rolls back, proved equal to the steps.
`Invariants` and `Reachable` prove what every run keeps, `Settlement` who is charged and at which price,
`Conservation` where the money is. `StepEffects` says over the columns themselves what each step does and exactly
when. `Deduction` goes below the transaction: any number of concurrent deductions of one task, statement by statement
under row locks, with other writers of that task kept out or let in.

**The ledger tools.** `Rebuild` specifies `rebuild_ledgers`, `Migration` runs its three loops in place, `RebuildSteps`
what they decide for one row, task or reservation, `RebuildProofs` and `RebuildAgain` say what it guarantees on
arbitrary legacy data and that it is idempotent, `RebuiltCharges` which tasks it leaves charged. `Reconcile` is the
one-pass recomputation. `Audit` and `Agreement` prove the two tools against the live protocol and against each other.
`Sorting` is the stable sort they rely on, and `Chronology` says what its order is and what follows for the ledger.

**Self-contained pieces.** `Semaphore` and `Executions` (the Redis sorted set of tenant slots, and the executions
behind them), `RateLimit` (the fixed window), `LocalQueue` (the in-process worker pool), `PieceTable` (Word 97 text by
pieces, section 2.4.1 of [MS-DOC]), `PieceWriting` (such documents written and read back) and `PieceCut` (what the
length limit does to them), `Rtf`, `RtfReader` and `RtfWriting` (direct emission, the buffered reader that refines it,
and documents written and read back), `Compare`, `LeafVerdicts`, `CompareProofs`, `ListOrder`, `DiffRows`,
`DiffVerdict` and `AbComparison` (ground-truth comparison, lists in any order, leaf rows and their verdict, score and
A/B classification).

## Assumptions

- One committed transaction is one atomic step: the ORM reads take no locks, so this is serializability and not what
  the database promises by default. `Deduction` drops it for the charge.
- Row ids are positions in insertion order; a feedback row is keyed by its task, which is unique.
- Tenants open with balance 0 (`app/api/v1/auth.py:117-126`).
- Times are integers, and worker ids, clocks, outcomes of extraction and arrival of messages are arguments of steps.
- Legacy amounts are exact reals in ticks: the 28-digit rounding of Python's decimal context is not modelled, except
  for the limit it puts on `quantize`.

## What the code does differently from what one would expect

- Three writes of an execution are not fenced by its lease. The exit for an inactive tenant
  (`app/services/extraction_service.py:82-94`) has neither a status nor a lease guard; the timeouts
  (`app/celery_tasks.py:102-121`, `app/services/queue_service.py:138-154`) have a status guard and no lease guard.
  `SupersededActsExactly` says what an execution that lost its lease can still do: its exit hits any task of an inactive
  tenant that is not failed and free already, its timeout any task that is pending or processing, and nothing else it
  writes has an effect.
- So a superseded claimant's exit can turn a task that another worker finished and charged into a failed one:
  `SettlementExact` gives the exact condition, `LateExitUnsettles` a run, `LeaseGuardSettles` shows that a lease guard
  would be enough. The charge itself stays consistent with the ledger (`ChargesMatchLedger`). And the timeout of an
  execution, which is a transaction of its own after the one that hands the task back, can fail the task that the next
  claimant works on (`LateTimeOutHitsSuccessor`).
- Leases are fenced by worker id only, and a redelivered Celery message keeps its request id
  (`ReusedWorkerIdIsNotFenced`; `WriteTakesEffectExactly` says when a fenced write counts).
- The request id is the semaphore token too. Every running execution has a slot of its own at all times if and only if
  none begins under the token of another that still runs (`OwnSlotsExactly`). Otherwise the first of them to end gives
  back the slot of both, and more executions run than the limit allows (`RedeliveryExceedsLimit`).
- `rebuild_ledgers` raises when a stored balance is not a number and the tenant keeps an active reservation
  (`RaisesExactly`; one such table in `NotANumberRaises`).
- `rebuild_ledgers` can take a charge away and keep its deduction, as for a charged task with a refund of less than any
  amount may be (`SmallRefundLosesCharge`). Charges and accepted deductions match if and only if the legacy charges that
  the report does not mention match them (`RebuiltChargesMatchExactly`). Such a task can never be charged again
  (`OldDeductionBlocksCharge`).
- `validate_money` refuses "1.00000": it counts decimal places as written (`app/core/money.py:42-43`,
  `FifthPlaceIsRefused`).
- The list comparison takes the first match. With the numeric tolerance of 0.001 that can miss an existing pairing
  (`ToleranceMisleads`). Pairable lists match in every order if and only if items that share one expected item share
  them all (`FirstMatchIsRightExactly`). Infinite numbers do not match themselves (`MatchesItselfIffClean`).
- The leaf rows of a comparison can all match although the value does not. They tell the verdict if and only if the
  ground truth has no list, no null and no empty object in it, or is null, or has a row that can never match
  (`RowsTellVerdictExactly`).
- A Word text that is readable without the limit of 100,000 characters is refused as ill-formed if and only if the
  limit falls inside a surrogate pair of a UTF-16 piece (`RefusedExactlyAtSplitPair`; one such document in
  `EmojiAtLimitIsRefused`).
- `deduct_for_task_success` trusts the hold it read. If another transaction rewrites the task between that read and the
  task UPDATE, the charge is still made at most once, but it is the atomic deduction if and only if the hold that was
  read is still the task's (`ChargeIsAtomicExactly`); a timeout and a retry in between leave money reserved that no
  task holds (`StaleReadBreaksAccounting`). The one caller updates the task row before (`app/services/extraction_service.py:187-196`),
  so a database with row locks keeps such writers out.

## Model

| member | source | states |
|---|---|---|
| Money.ValidateMoney | app/core/money.py:19-44 | Accepts exactly the finite amounts inside the bounds that are written with at most four places, and returns them unchanged in ticks. |
| Money.TicksAre | app/core/money.py:5-6 | A whole number is 10,000 ticks each, and each decimal place to the left counts ten times as much. |
| Money.FifthPlaceIsRefused | app/core/money.py:42-43 | 1.00000 is in range, equals 1.0000, and is refused while that is accepted. |
| Billing.CheckAgreesWithReserve | app/services/billing_service.py:37-99 | The fast balance check of an upload and the atomic reservation agree on who can pay and on the price. |
| Reachable.RunKeeps | app/services/billing_service.py:72-367 | Every state of every run of the nineteen steps satisfies the invariant over tenants, tasks, holds, ledger rows, charges and feedback. |
| Reachable.NextKeeps | app/services/extraction_service.py:51-283 | Each single step keeps the invariant, from any state that satisfies it. |
| Reachable.ReservationAccounting | app/services/billing_service.py:72-135 | In every reachable state `reserved_balance` is the sum over the tenant's reserved tasks, 0 <= reserved <= balance <= maximum, and a task is reserved exactly while PENDING or PROCESSING. |
| Invariants.ReleaseIsSafe | app/services/billing_service.py:102-135 | In a good state releasing never raises and frees exactly the task's own hold. |
| Invariants.TimeOutKeeps | app/celery_tasks.py:102-121 | The Celery timeout, which checks no lease, keeps the invariant. |
| Invariants.TimeOutLocallyKeeps | app/services/queue_service.py:138-154 | The in-process timeout, which releases before it looks at the status, keeps the invariant. |
| Invariants.AcceptKeeps | app/api/admin/feedback.py:317-372 | Accepting feedback, with or without a refund and whatever the refund answers, keeps the invariant. |
| Reachable.TaskMoves | app/services/extraction_service.py:51-283 | All ways a step can change a task: each step leaves it alone or makes the one move its guard allows. |
| Reachable.NewTaskIsSubmitted | app/api/v1/extract.py:142-205 | Tasks appear only by submission, pending and holding the price of that moment. |
| Reachable.OwnerIsLastClaimant | app/services/extraction_service.py:51-80 | Whoever is in the lease column made the latest claim of the task. |
| Reachable.Fencing | app/services/extraction_service.py:178-283 | A success, failure or cancellation that changes anything is written under the worker id of the task's latest claim, in any interleaving and without clocks. |
| Reachable.SupersededWorkerIsInert | app/services/extraction_service.py:178-283 | With fresh worker ids, the success, failure and cancellation of an execution superseded by a later claim change no table. |
| Settlement.SupersededActsExactly | app/celery_tasks.py:102-131 | Of all six writes of an execution superseded under fresh worker ids, one changes something iff it is the exit, the tenant is inactive and the task is not failed and free already, or it is a timeout and the task is pending or processing. |
| Settlement.LateTimeOutHitsSuccessor | app/celery_tasks.py:124-131 | A run with fresh worker ids: a cancelled execution's task is claimed by another worker, then its timeout fails that worker's task, whose success changes nothing any more. |
| Reachable.ReusedWorkerIdIsNotFenced | app/celery_tasks.py:165-166 | A run in which the first of two claims under one id still fails the task: fresh ids are needed. |
| Reachable.SuccessIsLeftOnlyByExit | app/services/extraction_service.py:82-94 | SUCCESS is left by a step if and only if that step is an inactive-tenant exit that meets the finished task. |
| Reachable.ChargeIsPermanent | app/services/billing_service.py:224-260 | No step takes a charge back or changes its amount. |
| Settlement.SettlementExact | app/services/extraction_service.py:82-94 | SUCCESS and charged coincide throughout a run if and only if no inactive-tenant exit of the run meets a finished task. |
| Settlement.LeaseGuardSettles | app/services/extraction_service.py:82-94 | If every such exit were made by the current lease holder, no run would contain one that meets a finished task. |
| Settlement.LateExitUnsettles | app/services/extraction_service.py:82-94 | A run with fresh worker ids in which a worker claims while the tenant is active and is superseded by a later claim, the later claimant finishes and is charged, and the first worker's exit then leaves the charged task FAILED. |
| Settlement.WriteTakesEffectExactly | app/services/extraction_service.py:178-283 | A success, failure or cancellation changes something iff it names the lease owner and the task is processing (for a failure: in whatever status), and for a success the tenant is active. |
| Settlement.ChargesMatchLedger | app/services/billing_service.py:224-260 | A task is charged iff the ledger has exactly one DEDUCTION for it, with amount `charged_amount`; SUCCESS implies charged; finished tasks hold nothing; uncharged ones carry no charge. |
| Settlement.HeldPrice | app/services/billing_service.py:75-99 | A held amount is the unit price at the step that last reserved for the task, whatever happened since. |
| Settlement.HeldChargeSucceeds | app/services/billing_service.py:164-260 | In any good state the lease holder of an active tenant's task can be charged: the whole next state is given, and only this hold leaves the account. |
| Settlement.UnreservedChargeSparesHolds | app/services/billing_service.py:188-203 | A charge without reservation costs the current price and never eats into the holds of other tasks. |
| Settlement.OldDeductionBlocksCharge | app/services/billing_service.py:249-274 | A task with a deduction in the ledger is not charged by any later success. |
| Conservation.MoneyIsConserved | app/services/billing_service.py:279-367 | In every reachable state a balance is recharges minus deductions plus refunds, and refunds never exceed deductions. |
| Conservation.RefundsAreOnceAndExact | app/services/billing_service.py:484-568 | A task has at most one REFUND, only after its DEDUCTION and of its amount, and `is_refunded` holds iff that row exists. |
| Conservation.ReviewStep | app/api/v1/feedback.py:89-104 | One step moves a review only along the allowed transitions, never takes a refund back, and pays one only while accepting. |
| Conservation.DecisionIsFinal | app/api/v1/feedback.py:93-95 | Once accepted or resolved, a feedback stays so over any continuation of the run. |
| Conservation.KeysAreUnique | app/api/v1/extract.py:80-94 | A tenant's idempotency key names at most one task, in every reachable state. |
| Conservation.ResubmissionChangesNothing | app/api/v1/extract.py:149-187 | Submitting a key again changes no table, even if the look-up ran before the competing commit. |
| Deduction.AtMostOneCharge | app/services/billing_service.py:149-260 | Any number of concurrent deductions of one task, in any interleaving of statements with each other and with transactions that leave this task and its deduction alone: at most one commits, and the tables are those of a serial history with one atomic deduction per commit. |
| Deduction.StatementIsAtomic | app/services/billing_service.py:174-260 | A statement changes the committed tables only when it commits, and then by exactly the atomic deduction; losers leave no trace. |
| Deduction.AtMostOneUnderInterference | app/services/billing_service.py:204-241 | At most one commits even if any other transactions, as far as row locks let them, write the same task in between, and none if it was charged before. |
| Deduction.ChargeIsAtomicExactly | app/services/billing_service.py:149-260 | Under the same interference a statement that does not commit changes no committed table, and a commit is the atomic deduction of that moment iff the hold that was read is still the task's. |
| Deduction.StaleReadBreaksAccounting | app/services/billing_service.py:164-237 | A run from a good state in which a timeout, a retry and a claim come between read and debit: the charge leaves 1000 reserved that no task holds. |
| Session.Session.ReserveForNewTask | app/services/billing_service.py:72-99 | A reservation raises that tenant's reserved balance by the answered price, within the balance, and touches nothing else; appending one task that holds this price then restores the invariant. |
| Session.Session.ReleaseTaskReservation | app/services/billing_service.py:102-135 | The release frees the hold, finds none, or raises, exactly as specified, inside the caller's transaction. |
| Session.Session.DeductForTaskSuccess | app/services/billing_service.py:138-275 | Debit, re-read, guarded task update, ledger row and commit amount to the atomic deduction; every failing path leaves the committed tables alone. |
| Session.Session.RechargeBalance | app/services/billing_service.py:279-367 | Succeeds exactly for 0.01 to 1,000,000 at four places, an existing tenant and a balance that stays within the maximum. Then the very amount asked for is added to that balance and written in the answered row with the balance before and after, and nothing else changes. Otherwise nothing does; a missing tenant is no error. The invariant is kept. |
| Session.Session.UpdateUnitPrice | app/services/billing_service.py:370-392 | Exactly a price from 0.01 to 100 at four places of an existing tenant is set, to the amount given and only there; balances, reserved balances, held amounts and ledger stay; the invariant is kept. |
| Session.Session.RefundTaskDeduction | app/services/billing_service.py:468-570 | Finds the earlier refund, refuses, or credits exactly the deduction with its row, staged in the caller's transaction. |
| Session.Session.SubmitTask | app/api/v1/extract.py:142-187 | Look-up, capacity, reservation, insert and the rollback on a duplicate key amount to the submission step. |
| Session.Session.ClaimTask | app/services/extraction_service.py:51-80 | Claims exactly a pending task, or a processing one whose lease has no date or one before now; then the row names this worker, expires after the lease and counts one more attempt, with all else as before. Otherwise nothing changes; the invariant is kept. |
| Session.Session.ExitIfInactive | app/services/extraction_service.py:82-94 | Fails the task and releases its hold in one transaction iff the tenant is missing or inactive. |
| Session.Session.FinishSuccessfully | app/services/extraction_service.py:178-200 | Result and charge commit together or not at all, and only under the lease. |
| Session.Session.FinishWithFailure | app/services/extraction_service.py:265-283 | Failure and release commit together, and only under the lease. |
| Session.Session.HandBack | app/services/extraction_service.py:236-253 | Only a processing task of this worker changes, keeping its hold; afterwards this worker is not processing it; the invariant is kept. |
| Session.Session.MarkTimeout | app/celery_tasks.py:102-121 | Releases the hold and fails an active task; leaves every other task alone. |
| Session.Session.MarkLocalTimeout | app/services/queue_service.py:138-154 | Releases first, then fails the task if it is still active. |
| Session.Session.RecoverStaleTasks | app/celery_tasks.py:239-246 | Requeues exactly the tasks whose lease ran out. |
| Session.Session.RecoverUncompletedTasks | app/services/queue_service.py:44-49 | Requeues every processing task and leaves the lease columns as they are. |
| Session.Session.SubmitTaskFeedback | app/api/v1/feedback.py:35-113 | A success leaves an open review, a decided one is never reopened, no other review and no refund mark changes; the invariant is kept. |
| Session.Session.RetryTask | app/api/admin/tasks.py:160-193 | Requeues an uncharged failed task with a new hold at the current price. |
| Session.Session.AcceptFeedback | app/api/admin/feedback.py:317-372 | Acceptance and refund commit together; a refused refund leaves the feedback open. |
| Session.Session.RejectFeedback | app/api/admin/feedback.py:457-482 | A decided review stays, no other review and no refund mark changes; the invariant is kept. |
| StepEffects.ClaimTakesExactly | app/services/extraction_service.py:51-80 | A claim changes anything iff the task is pending, or processing with no lease date or one before now; then this whole row; otherwise a live lease keeps its owner. |
| StepEffects.RecoveryRequeuesExactly | app/celery_tasks.py:239-246 | Recovery makes pending, without lease, exactly the processing tasks without a live lease. |
| StepEffects.LocalRecoveryRequeuesAll | app/services/queue_service.py:44-49 | The start-up recovery makes every processing task pending and changes no other column. |
| StepEffects.CancelHandsBackExactly | app/services/extraction_service.py:236-253 | A cancellation changes anything iff the worker is processing the task; then it is pending without lease. |
| StepEffects.FailureDropsExactly | app/services/extraction_service.py:265-283 | In a good state a failure takes effect iff the worker holds the lease, and then fails the task and gives back what it held. |
| StepEffects.ExitDropsExactly | app/services/extraction_service.py:82-94 | The exit does the same iff the tenant is inactive. |
| StepEffects.TimeOutDropsExactly | app/celery_tasks.py:102-121 | The Celery timeout does the same iff the task is the named tenant's and unfinished. |
| StepEffects.LocalTimeOutDropsExactly | app/services/queue_service.py:138-154 | The in-process timeout does so iff the task is unfinished, and leaves the lease columns. |
| StepEffects.RechargeCreditsExactly | app/services/billing_service.py:279-367 | A recharge changes anything iff it is from 0.01 to 1,000,000 at four places and the balance stays within the maximum; then balance and row carry the very amount. |
| StepEffects.PriceIsSetExactly | app/services/billing_service.py:370-392 | A price from 0.01 to 100 at four places is set as given, any other leaves everything. |
| StepEffects.SubmissionAnswers | app/api/v1/extract.py:142-187 | Which answer a submission gets, by key, number of unfinished tasks and unreserved balance, and the whole next state where a task is created; any other answer changes nothing. |
| StepEffects.RetryTakesExactly | app/api/admin/tasks.py:160-193 | A retry changes anything iff the task is failed and uncharged and its tenant can pay; then it holds the current price. |
| StepEffects.UnreservedChargeExactly | app/services/billing_service.py:188-260 | Without a hold a task is charged iff it is uncharged, processing or finished, without deduction row, and its tenant could reserve the current price; then the whole next state. |
| StepEffects.FeedbackOpensExactly | app/api/v1/feedback.py:82-104 | When feedback opens a review, opens it again, or changes nothing. |
| StepEffects.AcceptancePaysExactly | app/api/admin/feedback.py:317-372 | An acceptance pays back the whole charge with its row and mark, or leaves the review open where the balance would pass the maximum. |
| StepEffects.RefundIsPaidOnce | app/services/billing_service.py:468-570 | A refund that is asked for again finds its row and pays nothing; the row repeats the amount of a deduction of that task. |
| Sorting.SortSorts | scripts/migrate_sqlite_to_postgres.py:56-65 | Sorting yields keys ascending in the order that `Chronology.KeyLeIsBefore` describes. |
| Chronology.TextLeIsBefore | scripts/migrate_sqlite_to_postgres.py:56-65 | For all texts, the order used is that of the first differing character, a beginning coming before its continuations. |
| Chronology.KeyLeIsBefore | scripts/migrate_sqlite_to_postgres.py:56-65 | Keys are ordered by creation text, equal ones by row id. |
| Chronology.SortIsChronological | scripts/migrate_sqlite_to_postgres.py:56-65 | After sorting, a row created earlier, or at the same time with a smaller id, stands earlier. |
| Chronology.AcceptedAreChronological | scripts/migrate_sqlite_to_postgres.py:89-123 | So do the accepted rows of a tenant in the rebuilt ledger. |
| Chronology.RechargePaysInRebuild | scripts/migrate_sqlite_to_postgres.py:88-124 | Of a tenant's recharge and a later deduction within it, read in either order, both are accepted, and the recharge's balance after is the deduction's balance before. |
| Chronology.EarlierReservationWins | scripts/migrate_sqlite_to_postgres.py:137-166 | Of two reservations of which the balance covers one, the one created earlier is kept, in whichever order they are read. |
| Sorting.FilterSort | scripts/migrate_sqlite_to_postgres.py:89-92 | Selecting rows and sorting them commute, because the sort is stable. |
| RebuildProofs.ReplayChains | scripts/migrate_sqlite_to_postgres.py:93-123 | On any rows: accepted rows chain from 0, each adds its signed amount, all stay within the range, and the last one gives the rebuilt balance. |
| RebuildSteps.RowIsAcceptedExactly | scripts/migrate_sqlite_to_postgres.py:93-123 | Which amount each type of row may have after which balance, in numbers; an accepted row gets the balances before and after it, any other is rejected. |
| RebuildSteps.TaskIsVoidedExactly | scripts/migrate_sqlite_to_postgres.py:126-133 | A task loses charge, hold and lease iff a rejected row names it or its charge is no number from 0.01 to 100. |
| RebuildSteps.ReservationIsKeptExactly | scripts/migrate_sqlite_to_postgres.py:150-166 | A reservation is kept iff it is a number from 0.01 to 100 that the balance still covers; otherwise the task is voided and reported; a balance that is no number stops the run. |
| RebuildSteps.HoldsAreThose | scripts/migrate_sqlite_to_postgres.py:139-147 | The tasks that compete for a balance are exactly the tenant's unfinished ones that are marked reserved. |
| RebuildSteps.BalanceIsReplacedExactly | scripts/migrate_sqlite_to_postgres.py:123-124 | A stored balance is replaced by where the accepted rows end, and kept where there are none. |
| RebuildProofs.TenantRowsArePartitioned | scripts/migrate_sqlite_to_postgres.py:88-124 | Each row of a tenant is accepted or rejected exactly once, up to its snapshots. |
| RebuildProofs.RowsArePartitioned | scripts/migrate_sqlite_to_postgres.py:88-124 | The same over all listed tenants; rows of unlisted tenants vanish. |
| RebuildProofs.ReservationsAreCovered | scripts/migrate_sqlite_to_postgres.py:137-167 | The rebuilt balance is where the accepted rows end, the rebuilt reserved balance is the sum over the surviving active reservations, and unless a stored balance without accepted rows is negative or not finite it lies between 0 and the balance. |
| RebuildProofs.RaisesExactly | scripts/migrate_sqlite_to_postgres.py:152-155 | The run stops with an exception iff some tenant without accepted rows has a balance that is no number and, after screening, an active reservation of a valid amount. |
| RebuiltCharges.NotANumberRaises | scripts/migrate_sqlite_to_postgres.py:152-155 | One account with no number for a balance and one active reservation: the migration stops. |
| RebuiltCharges.ChargeSurvivesExactly | scripts/migrate_sqlite_to_postgres.py:126-166 | A task comes out charged iff it was, by a possible amount, and the rejection report does not mention it. |
| RebuiltCharges.RebuiltChargesMatchExactly | scripts/migrate_sqlite_to_postgres.py:79-169 | After a rebuild the charged tasks are those with an accepted deduction iff the legacy charges that the report leaves alone are. |
| RebuiltCharges.SmallRefundLosesCharge | scripts/migrate_sqlite_to_postgres.py:110-133 | A charged task with a valid deduction and a refund of 50 ticks comes out failed and uncharged while its deduction is accepted. |
| RebuildAgain.ReplayAgain | scripts/migrate_sqlite_to_postgres.py:93-123 | Replaying accepted rows accepts them all again with the same snapshots and balance. |
| RebuildAgain.AdmitAllAgain | scripts/migrate_sqlite_to_postgres.py:137-167 | On its own output the reservation loop keeps every task and every reserved balance and rejects nothing. |
| RebuildAgain.RebuildIsIdempotent | scripts/migrate_sqlite_to_postgres.py:79-169 | On its own output the whole function changes no account, task or row and rejects nothing. |
| Migration.LegacyTables.Transition | scripts/migrate_sqlite_to_postgres.py:97-108 | The branches over the row types decide validity and next balance as the replay does. |
| Migration.LegacyTables.ReplayLedger | scripts/migrate_sqlite_to_postgres.py:93-123 | The inner loop computes accepted rows, running balance, rejections and named tasks of one ledger. |
| Migration.LegacyTables.ReplayLedgers | scripts/migrate_sqlite_to_postgres.py:88-124 | The first loop rewrites the balances and collects the valid rows of all tenants. |
| Migration.LegacyTables.ScreenTasks | scripts/migrate_sqlite_to_postgres.py:126-133 | The second loop invalidates exactly the tasks named by a rejected row or charged an invalid amount. |
| Migration.LegacyTables.RebuildReserved | scripts/migrate_sqlite_to_postgres.py:137-167 | The third loop admits reservations in chronological order against each balance, or stops where the comparison raises. |
| Migration.LegacyTables.RebuildInPlace | scripts/migrate_sqlite_to_postgres.py:79-169 | The three loops in place leave exactly the tables and rejections of the specification, or raise where it does; `Chronology` says in which order that is. |
| Audit.AuditReplay | scripts/migrate_sqlite_to_postgres.py:79-169 | For every run of the live service, its tables fed to the migration in any order come back unchanged: every row accepted with its own snapshots, no task invalidated, every balance and reserved balance recomputed to what is stored. |
| Audit.CommitOrderShows | scripts/migrate_sqlite_to_postgres.py:56-65 | Rows read in commit order with timestamps that do not go back satisfy the dating condition of the audit. |
| Reconcile.HalfEven | scripts/reconcile_tenant_billing.py:83 | Rounds to a nearest tick, with ties to the even one. |
| Reconcile.SumLedger | scripts/reconcile_tenant_billing.py:63-81 | The loop's credits minus debits are the net of the valid rows, the others are listed, and unreadable text stops it. |
| Reconcile.SumReservations | scripts/reconcile_tenant_billing.py:96-104 | The loop's sum takes the unit price for each invalid amount and lists those. |
| Reconcile.ReconcileTenant | scripts/reconcile_tenant_billing.py:57-109 | The command's outcome, including each way it stops, in the order of its checks. |
| Reconcile.EntryCountsExactly | scripts/reconcile_tenant_billing.py:63-81 | What one row adds to the sum, in numbers, and when it is listed instead. |
| Reconcile.HoldCountsExactly | scripts/reconcile_tenant_billing.py:96-104 | What one reservation adds: its amount if that is a price, else the tenant's price, and then it is listed. |
| Reconcile.PlanIsMadeExactly | scripts/reconcile_tenant_billing.py:57-109 | A plan is made iff everything reads and 0 <= reserved <= balance <= 99,999,999.9999 after rounding, and when the command stops with which message. |
| Reconcile.ApplyIsFinal | scripts/reconcile_tenant_billing.py:126-136 | After applying a plan the command finds the same totals and nothing left to normalize. |
| Agreement.SumIsReplayPlusRejected | scripts/reconcile_tenant_billing.py:63-81 | For any rows the one-pass sum exceeds the stepwise balance by exactly the amount-valid rows the replay rejected. |
| Agreement.ReplayAcceptsAllValid | scripts/migrate_sqlite_to_postgres.py:93-123 | The replay accepts every amount-valid row iff all prefix sums stay in the range, and then ends at the one-pass sum. |
| Agreement.ReconcileAgreesWithRebuild | scripts/reconcile_tenant_billing.py:60-109 | Where sums stay in range and a row is accepted, both tools arrive at the same balance, and on whole ticks without normalized or screened tasks at the same reserved balance. |
| Agreement.LiveServiceIsReconciled | scripts/reconcile_tenant_billing.py:60-109 | For every run of the live service and any query order the command recomputes the stored balance and reserved balance, excludes nothing and normalizes nothing. |
| Semaphore.TenantKey.Acquire | app/celery_tasks.py:25-47 | The Lua script grants exactly what a plain token-to-deadline map grants, and keeps agreeing with it on everything unexpired. |
| Semaphore.TenantKey.Release | app/celery_tasks.py:49-55 | Releases the token, reports whether it was there, and drops the empty key. |
| Semaphore.TenantKey.Evict | app/celery_tasks.py:41-46 | The key-level EXPIRE never deletes an unexpired token. |
| Semaphore.TenantKey.ScriptsKeepLimit | app/celery_tasks.py:25-55 | After any calls of the scripts, expiries included, the sorted set holds no more unexpired tokens than the largest limit asked for. |
| Semaphore.SlotsWithinLimit | app/celery_tasks.py:38-47 | At any time no more tokens are unexpired than the largest limit ever asked for. |
| Semaphore.AcquireCounts | app/celery_tasks.py:39-43 | Acquiring again with a held token takes no second slot. |
| Executions.LiveIsHeld | app/celery_tasks.py:147-173 | A token is unexpired iff some execution granted under it is within its ttl and nobody released the token since. |
| Executions.OwnSlotsExactly | app/celery_tasks.py:147-173 | At every moment of a history every running execution has an unexpired token that no other running one has, iff no execution begins under the token of another that still runs. An execution ends by its own release or its ttl. |
| Executions.OwnSlotsCount | app/celery_tasks.py:147-173 | There are never fewer running executions than slots taken, and equally many iff each has a slot of its own. |
| Executions.ExecutionsWithinLimit | app/celery_tasks.py:147-173 | Without such overlaps all running executions together never exceed the limit, whoever crashes. |
| Executions.ScriptExecutionsWithinLimit | app/celery_tasks.py:147-173 | The same of the executions that the scripts of one key granted, in any calls. |
| Executions.RefusedOnlyWhenFull | app/celery_tasks.py:38-44 | A refusal means that as many other executions may still be running as the limit says. |
| Executions.RedeliveryExceedsLimit | app/celery_tasks.py:150-173 | Limit one: a token is granted again while its execution runs, that execution releases it, another token is granted, and two executions with different tokens run. |
| RateLimit.RedisKey.Consume | app/core/rate_limit.py:28-41 | INCR and EXPIRE NX move the counter as specified; allowed iff the count is within the limit; the key stands where all requests so far left it. |
| RateLimit.SlidingBound | app/core/rate_limit.py:28-41 | For any trace, a closed interval of window length holds at most 2 * limit allowed requests. |
| RateLimit.KeyKeepsSlidingBound | app/core/rate_limit.py:28-41 | Whatever requests one key has served with one limit and window, it answered at most 2 * limit of those in any closed window with yes. |
| RateLimit.SlidingBoundIsTight | app/core/rate_limit.py:28-41 | That many are reached for every limit and window. |
| RateLimit.RefusedMeansLimitUsed | app/core/rate_limit.py:28-41 | A request is refused only if `limit` requests within the last window were allowed. |
| LocalQueue.WorkerChanges | app/services/queue_service.py:126-159 | One worker's change of state changes the running count and the items in hand by just its own share. |
| LocalQueue.TaskQueueManager.Enqueue | app/services/queue_service.py:82-85 | An item goes to the back of the queue and is the only one added to what is pending. |
| LocalQueue.TaskQueueManager.Take | app/services/queue_service.py:110-116 | Taking an item moves it from the front of the queue into the worker's hands. |
| LocalQueue.TaskQueueManager.Admit | app/services/queue_service.py:118-132 | The active counter equals the running items; a tenant at its limit goes to the back of the queue, an admitted one stays within it, no tenant ever runs more than the largest limit looked up for it, and no item is lost while the pool runs. |
| LocalQueue.TaskQueueManager.Finish | app/services/queue_service.py:157-161 | The counter goes down with the item and is never clamped. |
| PieceTable.FindsWrittenPcdt | app/core/parser/doc_parser.py:186-209 | The CLX scan finds the piece table behind any number of property records. |
| PieceTable.FoundPcdtWasWritten | app/core/parser/doc_parser.py:186-209 | Whatever the scan accepts is of that format, with the piece table it returns. |
| PieceTable.ScanClx | app/core/parser/doc_parser.py:186-209 | The loop terminates and computes the specified scan, errors included. |
| PieceTable.ReadTable | app/core/parser/doc_parser.py:211-226 | Positions and file offsets are read from the bytes, refused in the order of the checks iff malformed, too many or unordered. |
| PieceTable.ReadPieces | app/core/parser/doc_parser.py:228-249 | Succeeds iff every needed piece is in bounds and well-formed; then character k is the one found by looking up position aCP[0]+k alone, and the length is the covered range capped at 100,000; else the first bad piece's error. Where a piece lies is settled by `PieceWriting`. |
| PieceTable.ExtractPieceTableText | app/core/parser/doc_parser.py:175-249 | The same for the whole extraction from the table stream's bytes, with every error in its place. |
| PieceWriting.WrittenRunsReadBack | app/core/parser/doc_parser.py:228-249 | Byte runs and UTF-16 runs laid at any offsets o, written as 0x40000000 + 2 * o and as o: the text read is the runs one after the other up to ccpText and 100,000, unless that cut divides a surrogate pair or a run is ill-formed. |
| PieceWriting.WrittenDocumentReadsBack | app/core/parser/doc_parser.py:175-249 | The same from the table stream byte for byte, with any property records before the table and anything around it. |
| PieceWriting.SpareBitsAreIgnored | app/core/parser/doc_parser.py:234-237 | Of a 32-bit file offset only the bits of the offset and the mark of 8-bit text count. |
| PieceWriting.EncodedIsWellFormed | app/core/parser/doc_parser.py:167-172 | The UTF-16 units of any Unicode text are well-formed. |
| PieceWriting.WellFormedIsEncoded | app/core/parser/doc_parser.py:167-172 | Well-formed units are those of some Unicode text. |
| PieceWriting.TooManyPiecesAreRefused | app/core/parser/doc_parser.py:213-216 | A table of more than 100,000 pieces is refused whatever it holds. |
| PieceTable.SplitPairIsRefused | app/core/parser/doc_parser.py:167-172 | Text that ends in a high surrogate is ill-formed. |
| PieceCut.CutWellFormed | app/core/parser/doc_parser.py:167-172 | A prefix of well-formed text is well-formed iff it does not end inside a surrogate pair. |
| PieceCut.RefusedExactlyAtSplitPair | app/core/parser/doc_parser.py:228-249 | A document readable without the length limit is refused, as ill-formed, iff the unit before the limit is a high surrogate of an uncompressed piece; otherwise it is read. |
| PieceCut.EmojiAtLimitIsRefused | app/core/parser/doc_parser.py:228-249 | A table and stream of 99,999 letters and one emoji, readable without the limit, is refused. |
| Rtf.DepthIsBalance | app/core/parser/doc_parser.py:366-380 | The stack is as deep as groups were opened minus closed, never negative and never above 1,000. |
| Rtf.GroupIsScoped | app/core/parser/doc_parser.py:366-380 | Where a group is closed, destination, code page, fallback count and pending star are again those before it, whatever happened inside. |
| Rtf.SkippedIsSilent | app/core/parser/doc_parser.py:344-351 | A skipped destination emits nothing, and only a closing group ends it. |
| RtfReader.Reader.Turn | app/core/parser/doc_parser.py:364-481 | One turn of the buffered loop does one step of the direct machine and keeps the buffer decodable: nothing is skipped and the code page unchanged while bytes wait. |
| RtfReader.Reader.ScanWord | app/core/parser/doc_parser.py:430-446 | The letter and digit loops read the specified control word, sign and number. |
| RtfReader.ExtractRtfText | app/core/parser/doc_parser.py:332-490 | The buffered reader ends in an error of the direct machine, an unclosed group, or the first 100,000 characters of direct emission; `RtfWriting.DocumentReadsBack` says what that is for written documents. |
| RtfReader.BufferedIsDirect | app/core/parser/doc_parser.py:332-490 | For a document the direct machine reads to its end: the text is its emission cut at the limit, an untruncated success has balanced groups, and the only error is an unclosed group that is there. |
| RtfReader.DirectErrors | app/core/parser/doc_parser.py:332-490 | For any other document the reader reports the same error, unless it had all its text before. |
| RtfWriting.WordReads | app/core/parser/doc_parser.py:430-446 | A control word written with a signed parameter and a blank is read as that word and parameter, and the blank is consumed. |
| RtfWriting.HexPairIsInt | app/core/parser/doc_parser.py:404-407 | The two characters behind `\'` are read as a hexadecimal number with blanks or a sign around one digit, as `int` does. |
| RtfWriting.HexEscapeEmits | app/core/parser/doc_parser.py:401-413 | A byte written as a hexadecimal escape is decoded under the current code page, or dropped where text is skipped. |
| RtfWriting.OpenStep | app/core/parser/doc_parser.py:366-372 | A group opens with the destination, code page and fallback count around it, which are put aside, and with no star pending. |
| RtfWriting.DocumentReadsBack | app/core/parser/doc_parser.py:332-490 | Any document of plain and escaped bytes, signed and unsigned Unicode escapes with `\uc` replacements, named characters, code pages, binary data, line breaks, and groups to a depth of 1,000, open, hidden or starred, is read as its structure means: a group keeps its code page and replacement count to itself, a hidden one all its text. |
| RtfWriting.WrittenTextReadsBack | app/core/parser/doc_parser.py:464-472 | Any text written as literals and Unicode escapes, negative from U+8000 to U+FFFF, is read back unchanged, up to the length limit. |
| Compare.CompareValues | app/services/evaluation_service.py:62-108 | The recursive comparison, with early exits, decides the specified relation on all JSON values. |
| LeafVerdicts.NumbersMatchExactly | app/services/evaluation_service.py:71-75 | A number is met exactly by a finite number within 0.001 or a text that reads as one. |
| LeafVerdicts.TextsMatchExactly | app/services/evaluation_service.py:100-108 | A text is met by the same folded text; in a numeric field two that read as numbers without their commas are compared as numbers. |
| LeafVerdicts.NumericFieldsExactly | app/services/evaluation_service.py:54-59 | A path is numeric iff its first or its last name is, each without its index. |
| Compare.CompareLists | app/services/evaluation_service.py:83-99 | The first-match-and-pop loop decides the greedy matching. |
| CompareProofs.GreedyPairs | app/services/evaluation_service.py:83-99 | For all JSON lists, True implies a one-to-one pairing of matching items. |
| CompareProofs.GreedyIsExact | app/services/evaluation_service.py:83-99 | Where items that share one expected item share them all, True holds iff a pairing exists. |
| ListOrder.FirstMatchIsRightExactly | app/services/evaluation_service.py:83-99 | Pairable lists match in every order of both iff items that share one expected item share them all; otherwise some order misses the pairing. |
| ListOrder.ZigzagServesEveryOrder | app/services/evaluation_service.py:83-99 | The condition is enough: every order matches. |
| ListOrder.EveryOrderNeedsZigzag | app/services/evaluation_service.py:83-99 | The condition is needed, and lists that match in every order are pairable. |
| ListOrder.UnpairableNeverMatches | app/services/evaluation_service.py:83-99 | Lists without a pairing match in no order. |
| CompareProofs.ToleranceMisleads | app/services/evaluation_service.py:72-76 | Two numbers on each side that can be paired although the comparison says False. |
| CompareProofs.ContainersAreMultisets | app/services/evaluation_service.py:76-99 | Lists of complete container objects with text values match iff they are permutations of each other under text and number normalisation. |
| CompareProofs.PoisonMatchesNothing | app/services/evaluation_service.py:62-108 | A ground truth with a non-finite number or a NaN text anywhere is matched by nothing. |
| CompareProofs.MatchesItselfIffClean | app/services/evaluation_service.py:62-108 | A value matches itself iff it contains no such number or text. |
| DiffRows.BuildFieldDiffRows | app/services/evaluation_service.py:142-173 | The recursive loops build the specified rows in order. |
| DiffRows.RowsShowValues | app/services/evaluation_service.py:142-173 | Every row pairs the two values found by the same way into both, null standing for what is missing, under the path of that way, and its mark is the verdict on them. |
| DiffVerdict.RowsTellVerdictExactly | app/services/evaluation_service.py:142-173 | For any path and all extracted values: the rows all match iff the value does, iff the ground truth has no list, no null and no empty object in it, or is null, or has a row that can never match. |
| DiffVerdict.FieldRowsTellVerdict | app/services/evaluation_service.py:142-173 | Below a named field the last condition is that nothing ever matches the ground truth at all. |
| DiffVerdict.Disagreement | app/services/evaluation_service.py:142-173 | For every other ground truth an extracted value whose rows all match and which is no match: a null too many in a list, a missing key for a null, a text for an empty object. |
| DiffRows.RowsAgreeWithVerdict | app/services/evaluation_service.py:142-173 | Without lists, nulls and empty objects all leaf rows match iff the whole value does. |
| DiffRows.EmptyObjectHasNoRows | app/services/evaluation_service.py:143-149 | An empty object has no row that could fail, while a text does not match it. |
| DiffRows.CriticalIsInherited | app/services/evaluation_service.py:166-173 | Every row below a field is critical iff the top-level field is. |
| DiffRows.NumericByRootOrLeaf | app/services/evaluation_service.py:54-59 | A nested field is compared as a number iff its top-level field or its own name is a numeric one. |
| AbComparison.EvaluateExtracted | app/services/evaluation_service.py:111-139 | Per-field matches, differing keys in order, and the share of matching fields. |
| AbComparison.FullScoreIsMatch | app/services/evaluation_service.py:126-139 | No field differs iff the whole ground truth is matched as one object with missing keys read as null. |
| AbComparison.BuildAbComparison | app/services/evaluation_service.py:176-278 | The nested loops tally every pair once, release is allowed iff all four gates pass, and then no critical pair went from matching to not matching. |
| AbComparison.SummaryCounts | app/services/evaluation_service.py:188-214 | The four counts are the sizes of the sets they name, share out the pairs either run reports, and FIXED minus REGRESSED is the gain in matches. |
| AbComparison.SwapSwaps | app/services/evaluation_service.py:188-214 | Swapping the runs swaps FIXED and REGRESSED and leaves the other two. |
| AbComparison.ReleaseHasNoCriticalRegression | app/services/evaluation_service.py:208-214 | The regression gate passes iff no critical pair went from matching to not matching. |
| AbComparison.GateSeesLostFields | app/services/evaluation_service.py:188-210 | The same over the rows' own marks: of equal case ids and fields the last row counts, and the candidate's word on being critical goes before the baseline's. |
| AbComparison.StatisticsOf | app/services/evaluation_service.py:238-240 | What the other gates read from absent, null and older statistics. |

## Left out

- Extraction itself (language model, vision, OCR, normalisation, prompts): a success, failure or cancellation step.
- Webhooks, HTTP, queue transport, error texts, timestamps other than leases, result documents, audit fields of reviews.
- The handling of weak isolation inside transactions other than the deduction; see Assumptions.
- The demo tenant seed (`app/main.py:46-72`), which starts with a balance that no ledger row explains.
- The dispatch bookkeeping of recovery (`last_dispatched_at`, batch size) and the choice of which pending tasks to resend.
- Rounding in Python's decimal context and in doubles: amounts, tolerances and semaphore scores are exact.
- `int` of more than 4,300 digits, which newer Python versions refuse.
- The clock granularity of Redis; a key is taken to live at least its full EXPIRE time.
- Multi-byte code pages in Word and RTF text: a decoder is a function of one byte.
- The cleaning of extracted text and the tables found in it, the FIB of a Word file, and the simple-text range of files without a piece table.
- Row contents of the A/B report beyond field, match and criticality; they are copied through.
- `str`, case folding and decimal parsing in the comparison: arbitrary functions of their argument.
- Statistics, listings, exports, configuration, authentication.
