# A verified model of the console's durable execution core

The console runs agent work durably: Runs own a Budget, Invocations execute as numbered
Attempts against a provider, every accepted fact is a committed row, and subscribers
follow the journal of committed Events. This project models the parts of it whose
correctness rests on interleavings, arithmetic or graph search, and proves what they
promise, for every input, every run and every reachable state.

| file | what it models |
|---|---|
| `Budgets.dfy`, `BudgetLedger.dfy` | Allocation arithmetic, the capacity accounts of a Run's two partitions, and every run of reserve, extend, consume, release and increase |
| `Runs.dfy` | the Run's status machine, the operator's pause, and the admission rules |
| `BudgetIncreases.dfy` | the Budget Increase service over its Decision and increase rows |
| `Invocations.dfy`, `RetryPolicy.dfy` | Invocation and Attempt rows, failure classification, the durable retry decision, settlement |
| `ExecutorState.dfy` | durable Attempt execution as one state with one step per atomic segment |
| `ExecutorInvariants.dfy`, `ExecutorRuns.dfy` | what every step keeps; every reachable state |
| `ExecutorHistory.dfy`, `ExecutorSafety.dfy`, `ExecutorProgress.dfy` | what no step takes back; the safety results; termination and when a permitted retry can start |
| `ExecutorOutcomes.dfy` | what each operation of the executor reports, against the rows and flights it leaves |
| `ExecutorFlights.dfy`, `ExecutorTables.dfy` | the protocol seen from one flight and from one row of each table: what each step makes of it, exactly |
| `ExecutorAdmission.dfy`, `ExecutorEndings.dfy` | when work begins and when it is refused; how an Attempt ends and what that makes of its Invocation, exactly, and where every ending comes from |
| `AttemptExecutor.dfy` | the executor as a class updating rows and flights in place, each method proved to make exactly its step |
| `EventStreamModel.dfy`, `EventStreamSafety.dfy`, `EventStreamRuns.dfy` | journal, subscribers and replay loops; exactly-once delivery over every interleaving |
| `EventStreamDelivery.dfy` | who is handed what, and who is ended: both directions of each delivery |
| `EventStream.dfy` | the stream and its mutable subscribers as classes |
| `SseAttachment.dfy` | one HTTP response attached to the stream, and its single teardown |
| `PlanSource.dfy`, `PlanLimits.dfy` | the iterative check of a raw plan source's object graph, and the nesting and round limits of its expressions |
| `TaskGraph.dfy` | Task dependency reachability and acyclic insertion |
| `RequirementTree.dfy`, `RequirementProposal.dfy`, `RequirementRoots.dfy`, `RequirementOrder.dfy`, `RequirementStatus.dfy` | Requirement forests, proposals over keys, root expansion with its order and its end, composed status |
| `CursorCodec.dfy`, `PageCursor.dfy` | base64url (section 5 of RFC 4648) with a wrapping accumulator, and the page cursor |
| `JsonText.dfy`, `CanonicalJson.dfy` | JSON text that reads back in one way (RFC 8259), and canonical JSON |
| `JsonReader.dfy`, `KeyOrder.dfy` | a reader of JSON written from the grammar, which gives the canonical text's meaning back; the order of an object's keys |
| `AcceptanceChecks.dfy` | idempotent, fail-fast acceptance checks over one append-only table |

## How to read it

A component that updates rows or fields is modelled twice: as steps, which are functions
from state to state, and as a class whose methods update fields with the original's
loops and branches. Each method's `ensures` equates the object's new `View()` with the
step of its old one; the lemmas are about the steps and therefore about the class. A
transaction is one atomic step that commits whole or writes nothing; between two steps
anything else may happen. Calls into the provider, a command, a subscriber's callback or
the clock are arbitrary parameters of the step.

Status names follow the original's with these exceptions, kept apart from Dafny's
keywords and from each other: an Attempt is `Prepared` (pending), `Executing` (running),
`Completed` (succeeded), `Faulted` (failed) and `Aborted` (cancelled).

## Where a guarantee has a condition

Five guarantees hold only under a condition, and the condition is proved exactly:

- A backoff that would end past the deadline is refused, so that no retry is persisted
  that can never run. Consumption is not treated alike: classification refuses a retry
  only beyond the allocation (with the cost tolerance), the start check refuses as soon
  as the allocation is reached, so an Attempt that consumes exactly its tokens leaves a
  permitted retry that fails the Invocation when it comes due
  (`ExecutorProgress.PermittedRetryStarts`, for every state; `ExecutorProgress.StrandedRetry`,
  a run of the protocol in which it happens). And a zero amount of cost or tokens bounds no
  start (`ExecutorAdmission.PermittedExactly`), although any use is beyond it
  (`RetryPolicy.ExhaustedExactly`).
- The attachment releases everything whatever the order, except that listeners stay
  registered when the close, a failing heartbeat or the handler ends it inside their own
  registration (`SseAttachment.ReleasedExactlyOnce`, `SseAttachment.ListenersLeftBehind`). The HTTP
  transport the console uses never does that.
- `unbase64url` inverts `base64url`, but a text is the encoding of what it decodes to
  only when its unused trailing bits are zero (`CursorCodec.CanonicalExactly`,
  `CursorCodec.TwoTextsOneByte`).
- A subscriber is carried live exactly while the stream listens; one that subscribes
  after the stream was closed replays once and is never told of a later commit
  (`EventStreamRuns.CommitServed`).
- The expansion of Requirement roots ends exactly when no parent cycle lies below a
  visited root (`RequirementOrder.RecursionEnds`); validated trees have none.

Four smaller observations: a Run that was waiting when it was paused comes back running,
its wait reason not restored (`Runs.ResumeUndoesPause`); an Attempt whose dispatch
rejected before the provider was called stays in flight, and advancing its Invocation
only reports that (`AttemptExecutor.AttemptExecutor.AdvanceInvocation`); an extension
raises the committed amount by exactly what it adds only where the node has not overrun
(`BudgetLedger.ExtensionRaisesCommitted`); and a shortfall is the least cover only among
exact covers, because the fit test admits the cost tolerance
(`BudgetLedger.ToleranceAdmitsLess`).

Cost is a real, tokens and Attempts are integers, times are milliseconds, ids are natural
numbers.

## Model

| member | source | states |
|---|---|---|
| `Budgets.CapacityAccount` | core/src/budgets.ts:260-274 | The accumulation loop: reserved, consumed and committed are the sums over the charges, committed is the direct amount plus every charge, and availability is the signed rest of the limit. |
| `Budgets.RunCapacityAccount` | core/src/budgets.ts:345-362 | For all charges, overrun or not: global availability is exactly the sum of the two partitions' availabilities, and each partition may reserve its own availability less exactly the other's overrun. |
| `Budgets.EffectiveFits` | core/src/budgets.ts:276-280 | An amount fits a partition's effective availability if and only if it keeps both the partition and the whole Run within their limits. |
| `Budgets.LimitsMean` | core/src/budgets.ts:345-362 | The final reserve is limited by its own base and increases, the ordinary pool by what the base leaves beside the base reserve and its own increases; an increase of one moves no limit of the other. |
| `BudgetLedger.CapacityOf` | server/src/persistence/stores/budgets.ts:198-205 | The capacity read from reservation rows is what every admission consults: committed amounts, the Run's effective limit and both effective availabilities. |
| `BudgetLedger.CommittedSplits` | core/src/budgets.ts:255-258 | What children are charged is what an admission vouched for plus exactly what they overran. |
| `BudgetLedger.StepKeepsSecuredFits` | server/src/persistence/stores/budgets.ts:295-324 | Every reserve, extend, consume, release and increase keeps the admitted amounts within each partition's limit and the Run's, one tolerance each. |
| `BudgetLedger.CommittedBound` | server/src/persistence/stores/budgets.ts:390-398 | Over every run of the ledger, committed amounts exceed a limit by at most one tolerance plus exactly what children overran. |
| `BudgetLedger.CommittedWithinLimits` | core/src/budgets.ts:62-68 | Without overruns, committed tokens and Attempts never exceed a limit of either partition or the Run, and committed cost never by more than 1e-9 in total: the tolerance does not accumulate. |
| `BudgetLedger.AdmissionRestoresLimits` | server/src/persistence/stores/budgets.ts:336-388 | Whatever overran earlier, after an admitted reservation or extension the Run and its partition are within their limits. |
| `BudgetLedger.AdmittedExactly` | server/src/persistence/stores/budgets.ts:295-398 | In every run of the ledger a step is admitted if and only if its amount is proper, the reservation it names is active (and ordinary, to be extended) and the partition and the Run still fit with it; then it writes its one row or limit; a refusal names what was missing and writes nothing; consumption is never refused for want of capacity. |
| `BudgetLedger.ShortfallExact` | core/src/budgets.ts:381-394 | The shortfall is zero exactly when the requirement fits, always covers it, and no exact cover is smaller in any component. |
| `BudgetLedger.ToleranceAdmitsLess` | core/src/budgets.ts:378-379 | Only exact covers are dominated: an amount smaller by the tolerance still fits. |
| `BudgetLedger.ExtensionRaisesCommitted` | server/src/persistence/stores/allocation-extensions.ts:69-115 | An extension raises the Run's committed amount by at most what it adds, with equality in a component if and only if it adds nothing there or the node has not overrun there. |
| `BudgetLedger.EnsureFunds` | server/src/execution/plan-node-capacity.ts:104-151 | A node of another Run, a join and a node that is not ready, running or waiting fund nothing, for that reason; for any other, a funded child fits its node, only an `extend` node grows, only when short and by exactly the shortfall, and a refusal means exactly that the node is short and its policy or the Run's capacity forbids growth. |
| `Runs.IsTerminal` | core/src/runs.ts:280-289 | Exactly completed, failed and cancelled have no successor. |
| `Runs.OperateKeeps` | server/src/persistence/stores/runs.ts:196-390 | Transition, pause and resume keep the row's schema; an ended Run never moves; a hard pause is never weakened by a pause; a paused Run is moved by a transition only to cancelled; a resumed Run admits new work. |
| `Runs.InterruptionVersusAdmission` | core/src/runs.ts:201-227 | Whatever interrupts execution also refuses new work; the converse fails exactly for a soft pause and for a Run that completed or failed. |
| `Runs.TablesExactly` | core/src/runs.ts:184-190 | Which statuses precede each status, and that a Run can be increased in its ordinary partition exactly until it has ended unless it is verifying, in its final reserve exactly then unless it awaits signoff. |
| `Runs.MovedExactly` | server/src/persistence/stores/runs.ts:196-290 | A transition is accepted if and only if it follows an edge, the Run is not paused unless it is cancelled, it clears exactly the wait in force and enters a wait only with a reason of the runtime's own; the row it leaves. |
| `Runs.ResumeUndoesPause` | server/src/persistence/stores/runs.ts:350-390 | A resume gives back the row before the pause if and only if the Run was not waiting for something else; a waiting Run comes back running. |
| `BudgetIncreases.BudgetIncreaseService.IncreasableRun` | server/src/execution/budget-increases.ts:257-264 | The refusal of an unknown or ended Run and of a partition its status does not admit. |
| `BudgetIncreases.BudgetIncreaseService.OpenIncreaseOf` | server/src/persistence/stores/decisions.ts:327-331 | The scan for open increase Decisions finds exactly them, in creation order. |
| `BudgetIncreases.BudgetIncreaseService.ByDecision` | server/src/persistence/stores/budget-increases.ts:100-103 | The increase a Decision authorized, if one is recorded. |
| `BudgetIncreases.BudgetIncreaseService.TotalsByRun` | server/src/persistence/stores/budget-increases.ts:111-119 | The recorded increases of the Run summed per partition. |
| `BudgetIncreases.BudgetIncreaseService.RequestIncrease` | server/src/execution/budget-increases.ts:124-160 | The reply and the new rows are those of the request step: refusals and replays write nothing, an accepted request opens exactly one Decision with the exact subject. |
| `BudgetIncreases.BudgetIncreaseService.ResolveIncrease` | server/src/execution/budget-increases.ts:176-219 | The reply and the new rows are those of the resolve step: an approval resolves the Decision and records one increase together, a denial records none, replays and refusals write nothing. |
| `BudgetIncreases.Reachable` | server/src/execution/budget-increases.ts:117-123 | Over every interleaving of requests, answers, supersessions and Run operations: at most one open increase Decision per Run, increases in bijection with approved Decisions and carrying their subjects, totals equal to the approved subjects. |
| `BudgetIncreases.RequestNeverInconsistent` | server/src/execution/budget-increases.ts:130-135 | No reachable request meets two open Decisions or one without a subject. |
| `BudgetIncreases.ResolveNeverInconsistent` | server/src/execution/budget-increases.ts:190-206 | No reachable answer meets rows that disagree. |
| `BudgetIncreases.RequestReplays` | server/src/execution/budget-increases.ts:131-133 | Whatever the rows were, a second identical request writes nothing and replies with the first one's Decision, marked as a replay. |
| `BudgetIncreases.ResolveReplays` | server/src/execution/budget-increases.ts:198-205 | Whatever the rows were, a second identical answer writes nothing and replies with the first one's increase, marked as a replay. |
| `BudgetIncreases.EffectiveLimitsGrow` | server/src/persistence/stores/budget-increases.ts:42-52 | Effective limits are the base plus the approved subjects per partition, and over any continuation no limit shrinks. |
| `BudgetIncreases.NoLateIncrease` | core/src/runs.ts:174-188 | Every increase on record was appended by the approval of its Decision at a moment when its Run's row had neither ended nor was verifying, nor awaited signoff if the increase is of the final reserve. |
| `BudgetIncreases.RequestAnswered` | server/src/execution/budget-increases.ts:124-160 | In every reachable state a request of a valid amount opens exactly one Decision with that subject if and only if the Run exists, has not ended, is not verifying, awaits no signoff when it is for the final reserve, and has no increase Decision open; with one open it replays or names it; and every refusal has its one reason. |
| `BudgetIncreases.ResolveAnswered` | server/src/execution/budget-increases.ts:176-219 | In every reachable state the approval of an open increase Decision records its one increase if and only if the Run's status still admits it; a denial always resolves it; a repeated answer replays, the opposite one conflicts, and nothing else writes. |
| `BudgetIncreases.DisagreementRefused` | server/src/execution/budget-increases.ts:130-206 | Whatever the store holds, rows that disagree are refused exactly for what is wrong with them: a Decision that does not belong, a missing or foreign subject, an approved Decision without its increase, two open Decisions. |
| `BudgetIncreases.SupersededGivesWay` | server/src/execution/budget-increases.ts:128-160 | After an open increase Decision is superseded, the next request opens a new one and the superseded one can no longer be approved. |
| `BudgetIncreases.WaitingRunGrows` | core/src/runs.ts:174-188 | A Run that waits on its budget is asked for and granted any valid amount in either partition, and its increases then total exactly that. |
| `Invocations.TerminalStatuses` | core/src/invocations.ts:446-454 | The ended statuses are exactly those that no edge of the Invocation or Attempt machine leaves. |
| `Invocations.EdgesExactly` | core/src/invocations.ts:446-454 | The edges of the Invocation and Attempt machines, by what each status can have been before. |
| `RetryPolicy.ClassifyProper` | core/src/invocations.ts:846-865 | Every classification satisfies the Attempt row's schema, and an interrupted Attempt never completes. |
| `RetryPolicy.ClassifiedExactly` | server/src/execution/retry-policy.ts:61-114 | Each status and each failure class occurs exactly under its own condition on what interrupted the Attempt, what was reported, whether it is valid and whether the allocation is exhausted. |
| `RetryPolicy.RetryDecidedExactly` | server/src/execution/retry-policy.ts:140-172 | A retry is permitted if and only if none of the eight reasons speaks against it, a refusal names the first that does, and a permitted one starts at the end of the backoff after a transient provider error and is otherwise unset. |
| `RetryPolicy.RetryPermittedExactly` | server/src/execution/retry-policy.ts:124-172 | The same as one condition: nothing ended the turn, the failure is retryable, an Attempt remains, and the earliest start lies before the deadline; only a transient provider error persists that start. |
| `RetryPolicy.BackoffDoubles` | core/src/invocations.ts:772-776 | The wait is the base at first and doubles with every Attempt until the maximum caps it. |
| `RetryPolicy.SettledExactly` | server/src/execution/invocation-lifecycle.ts:71-101 | When a terminal Attempt ends its Invocation, as what and for which failure, each exactly; only a permitted retry leaves it as it was. |
| `AttemptExecutor.AttemptExecutor.Inspect` | server/src/execution/attempt-executor.ts:226-250 | The permission the rows imply, with the scans over Attempts and Usage. |
| `AttemptExecutor.AttemptExecutor.ConsumedByInvocation` | server/src/execution/attempt-executor.ts:246-246 | The Invocation's recorded Usage, summed. |
| `AttemptExecutor.AttemptExecutor.Refuse` | server/src/execution/attempt-executor.ts:310-343 | A refusal's own transaction and its report: an exhausted Invocation fails, one with a committed request ends blocked, an ended one and every other refusal write nothing; a request that no row holds is a conflict. |
| `AttemptExecutor.AttemptExecutor.CheckCapacity` | server/src/execution/governor.ts:160-173 | The governor's refusal in its fixed order, from the configured provider, process and worktree limits, the reported availability and the active leases; none exactly when a lease may be granted. |
| `AttemptExecutor.AttemptExecutor.PrepareNextAttempt` | server/src/execution/attempt-executor.ts:262-308 | Attempt, lease, Invocation and, only after the commit, the flight: the whole new state of one prepare transaction, and its outcome. |
| `AttemptExecutor.AttemptExecutor.ExecutePreparedAttempt` | server/src/execution/attempt-executor.ts:356-408 | The dispatch boundary: joined, settled again, dispatched, withheld with its cause, or left idle by a dispatch that rejects before the provider is called; and what is reported. |
| `AttemptExecutor.AttemptExecutor.ReportEnded` | server/src/execution/attempt-executor.ts:357-367 | Without a flight: the persisted outcome of an ended Attempt, and a conflict for any other. |
| `AttemptExecutor.AttemptExecutor.DispatchResolved` | server/src/execution/attempt-executor.ts:376-377 | The flight keeps the outcome it will be finalized with; a withheld one gets the empty interrupted outcome. |
| `AttemptExecutor.AttemptExecutor.RecordUsage` | server/src/execution/attempt-executor.ts:494-495 | One Usage row per reported chunk, in order. |
| `AttemptExecutor.AttemptExecutor.Conclude` | server/src/execution/attempt-executor.ts:481-526 | Interruption read late from the Run row, classification, retry decision and the Decision the Invocation ends blocked on. |
| `AttemptExecutor.AttemptExecutor.SettleCancelled` | server/src/execution/run-cancellation.ts:55-68 | The convergence loop cancels exactly the Run's Invocations that have neither ended nor an executing Attempt. |
| `AttemptExecutor.AttemptExecutor.FinalizeAttempt` | server/src/execution/attempt-executor.ts:466-563 | The whole new state of one finalization, committed or failed, and its outcome. |
| `AttemptExecutor.AttemptExecutor.Interrupt` | server/src/execution/attempt-executor.ts:636-642 | Delivers to an interruptible flight and reports exactly whether it did. |
| `AttemptExecutor.AttemptExecutor.InterruptRun` | server/src/execution/attempt-executor.ts:650-652 | Delivers to exactly the Run's interruptible flights and returns them. |
| `AttemptExecutor.AttemptExecutor.EnforceDeadlines` | server/src/execution/attempt-executor.ts:669-675 | Delivers a deadline to exactly the interruptible flights whose deadline has passed. |
| `AttemptExecutor.AttemptExecutor.AdvanceInvocation` | server/src/execution/attempt-executor.ts:618-627 | A flight that only failed to commit is finalized again, any other is left alone and reported in flight, and only without one is the next Attempt prepared and executed; each with the outcome it returns. |
| `ExecutorOutcomes.PreparationReported` | server/src/execution/attempt-executor.ts:262-308 | A preparation reports an Attempt exactly when it made one, executing, leased and in flight; a capacity refusal and a failed transaction write nothing; a refusal that wrote ended the Invocation. |
| `ExecutorOutcomes.ExecutionReported` | server/src/execution/attempt-executor.ts:356-408 | An execution is reported underway exactly when a flight of it is; an ended Attempt is reported as its row stands; every other report leaves everything as it was. |
| `ExecutorOutcomes.FinalizationReported` | server/src/execution/attempt-executor.ts:466-563 | A finalization reports the Attempt's row, a retry pending exactly while the Invocation keeps running, its ended status otherwise, and a Decision exactly when the Invocation ended blocked on it. |
| `ExecutorAdmission.PermittedExactly` | server/src/execution/attempt-executor.ts:226-250 | The permission to start is given if and only if the Invocation is open with its manifest and nothing executing, its Run neither ended nor paused, no request stands, the deadline lies ahead, the last Attempt permits a retry from now on, and an Attempt and some of the allocation are left. |
| `ExecutorAdmission.RefusedExactly` | server/src/execution/attempt-executor.ts:226-250 | In a reachable state a refusal names the first of the six things that refuse, and a later start only for a retry not yet due; a waiting Invocation, a refused retry and an unanswered request are never what it names. |
| `ExecutorAdmission.PreparedExactly` | server/src/execution/attempt-executor.ts:262-343 | A preparation makes exactly one Attempt, with its lease and flight, if and only if nothing speaks against it and there is room; it fails the Invocation if and only if that is out of time or allocation; otherwise, or uncommitted, it changes nothing. |
| `ExecutorAdmission.RefusalRecorded` | server/src/execution/attempt-executor.ts:310-343 | Whatever the rows: a refusal for the allocation fails an open Invocation, one for a request ends it blocked on the request it committed, and nothing else is written. |
| `ExecutorAdmission.CapacityRefusedExactly` | server/src/execution/governor.ts:160-173 | Which limit refuses a lease, each exactly; none if and only if the provider is available and it, the process and the worktrees have room. |
| `ExecutorAdmission.PreparationReportsExactly` | server/src/execution/attempt-executor.ts:262-343 | What a preparation reports: the Attempt it made, the limit without room for it, or the reason that refuses it. |
| `ExecutorAdmission.UsageAddsUp` | server/src/persistence/stores/usage.ts:108-111 | The Usage of an Attempt adds exactly its bill to what its own Invocation has consumed, and nothing to another's. |
| `ExecutorRuns.Reachable` | server/src/execution/attempt-executor.ts:262-563 | Every reachable state of the protocol, with crashes, recoveries, control and failed commits interleaving at the awaits, satisfies the whole invariant. |
| `ExecutorRuns.StepKeeps` | server/src/execution/attempt-executor.ts:262-675 | Each atomic step keeps it. |
| `ExecutorSafety.AttemptsBounded` | server/src/execution/attempt-executor.ts:226-250 | At most one Attempt that has not ended, never more than allocated, each later one admitted after a permitted retry, not before its `notBefore` and before the Invocation-wide deadline. |
| `ExecutorInvariants.RefusalFindsRunning` | server/src/execution/attempt-executor.ts:310-343 | A refusal that writes only ever fails a running Invocation with nothing executing, so its transition is legal. |
| `ExecutorSafety.LeasesAreRunningAttempts` | server/src/execution/attempt-executor.ts:278-290 | The active leases are exactly those of the running Attempts, at most one flight per Invocation, and no provider, process or worktree limit is ever exceeded. |
| `ExecutorSafety.ProviderCalledOnce` | server/src/execution/attempt-executor.ts:393-408 | Each Attempt reaches the provider at most once, under a Run neither paused nor ended at dispatch and with no interruption delivered. |
| `ExecutorSafety.InterruptedOnce` | server/src/execution/attempt-executor.ts:629-642 | An interruption is delivered at most once per Attempt; delivering again, with any cause, changes nothing. |
| `ExecutorFlights.FlightMoves` | server/src/execution/attempt-executor.ts:396-408 | In every reachable state every step moves the flight of an Attempt as a small machine of its own does: the cause it is interrupted for, its outcome, its phase and its loss depend on the step, the flight and its Run's row alone; the first cause stays and none arrives after the outcome. |
| `ExecutorFlights.CauseAndOutcomeExplained` | server/src/execution/attempt-executor.ts:396-408 | In every run the cause a flight carries was given by one step (a delivery, its deadline, a shutdown, its Run's cancellation or hard pause, or a dispatch its stopped Run withheld), and its outcome by its provider's return or that of the withheld dispatch. |
| `ExecutorEndings.WithheldEnds` | server/src/execution/attempt-executor.ts:389-408 | A dispatch that its stopped Run withholds never calls the provider and, over any continuation up to its finalization, ends for the cause its Run had: under a pause interrupted (or spent), its Invocation not cancelled unless its Run is; under an ended Run aborted, its Invocation cancelled. |
| `ExecutorEndings.AbortedOnlyCancelled` | server/src/execution/attempt-executor.ts:396-408 | In every run an aborted Attempt was cancelled: its Run is, or a step gave it that cause, or its provider reported it. |
| `ExecutorEndings.EndingExplained` | server/src/execution/attempt-executor.ts:466-558 | Every ended Attempt was ended by one step of the run, its committed finalization or a recovery, exactly as the rows and the flight of that moment tell. |
| `ExecutorEndings.ConcludedExactly` | server/src/execution/attempt-executor.ts:481-526 | How an Attempt ends, from the Run's row, the cause held in memory, the report, its validity, the consumption and a committed request: each status, each failure, the retry and the Decision it is blocked on, exactly. |
| `ExecutorEndings.FinalizedExactly` | server/src/execution/attempt-executor.ts:466-558 | In a reachable state a committed finalization leaves exactly that Attempt row, exactly what it makes of the Invocation with the reason a failed one failed for, and reports exactly that. |
| `ExecutorEndings.FinalizedBefore` | server/src/execution/attempt-executor.ts:470-475 | A finalization that finds its Attempt ended drops the flight and reports the rows as they stand. |
| `ExecutorEndings.ApprovalBlocks` | server/src/execution/attempt-executor.ts:544-555 | Without a request, the Invocation ends blocked if and only if the provider reported a well-formed call, nothing was delivered to the Attempt, and its Run is neither cancelled nor hard paused; it is then blocked on that Decision and reported with it. |
| `ExecutorTables.RunMoves` | server/src/persistence/stores/runs.ts:196-390 | A Run's row moves only by the step that creates it, its cancellation, its pause and what moves it, each exactly when its own row admits it. |
| `ExecutorTables.RowMoves` | server/src/execution/run-cancellation.ts:55-68 | Beside its own preparation and finalization, an Invocation's row moves only by the one request of its executing Attempt, by the end of its cancelled Run's work, which cancels it exactly if it is open and idle, and by recovery. |
| `ExecutorTables.RecoveryConcludes` | server/src/execution/recovery-service.ts:101-151 | How recovery ends the Attempt of a dead process, its retry decision and what that makes of the Invocation, exactly. |
| `ExecutorTables.InvocationsAreCreated` | server/src/persistence/stores/invocations.ts:113-150 | An Invocation comes about once, pending, for a Run that takes new work and with an Attempt to allocate, and in no other way. |
| `ExecutorTables.LeaseMoves` | server/src/execution/attempt-executor.ts:536-538 | A lease is released by the committed finalization of its Attempt and by recovery, and never changes otherwise. |
| `ExecutorTables.CallMoves` | server/src/execution/attempt-executor.ts:400-408 | The provider is called exactly by the execution of an idle flight without outcome or interruption under a Run that takes new work, unless its dispatch rejects. |
| `ExecutorTables.DeliveryMoves` | server/src/execution/attempt-executor.ts:636-675 | Every cause a step gives a flight is delivered to it once, except the one a dispatch is withheld for. |
| `ExecutorSafety.UsageOnlyFromProvider` | server/src/execution/attempt-executor.ts:393-408 | No Usage is recorded of an Attempt that never reached the provider. |
| `ExecutorSafety.HistoryKept` | server/src/execution/attempt-executor.ts:470-475 | Over any continuation an ended Attempt keeps its row, its Usage and its released lease, and an ended Invocation its whole row. |
| `ExecutorHistory.StepForward` | core/src/invocations.ts:682-690 | Every step moves each status along one edge of its machine, appends Usage only of executing Attempts, never re-activates a lease, and never rewrites a flight's outcome or delivered interruption. |
| `ExecutorSafety.FinalizationCommitsTogether` | server/src/execution/attempt-executor.ts:529-558 | Terminal transition, exact Usage, lease release and the end of the flight happen in one step, nothing was on record before, and no later step undoes or repeats them. |
| `ExecutorSafety.FailedCommitRetries` | server/src/execution/attempt-executor.ts:349-355 | A failed finalization writes no row, and the next call resumes from the same outcome without a provider call. |
| `ExecutorSafety.CancelledOverrides` | server/src/execution/attempt-executor.ts:481-486 | A Run cancelled before finalization overrides the cause held in memory: no retry, the Invocation ends, and nothing of the Run is left but executing Attempts. |
| `ExecutorSafety.NoLateSuccess` | server/src/execution/attempt-executor.ts:481-486 | Under a committed cancellation or hard pause nothing the provider reported counts as a result. |
| `ExecutorSafety.SoftPauseFinalizesAlike` | server/src/execution/attempt-executor.ts:481-482 | A soft pause changes nothing at finalization. |
| `ExecutorSafety.CancellationReaches` | server/src/execution/run-control.ts:124-141 | An accepted cancellation reaches exactly the Run's interruptible flights and rewrites no delivered cause. |
| `ExecutorSafety.PauseReaches` | server/src/execution/run-control.ts:144-153 | A soft pause interrupts nothing; a hard one reaches every interruptible flight of its Run. |
| `ExecutorSafety.RecoveryEndsEverything` | server/src/execution/recovery-service.ts:96-157 | After the boot reconciliation no Attempt is executing, no lease is active, what had ended is unchanged and no Usage was recorded. |
| `ExecutorSafety.RecoveredAs` | server/src/execution/recovery-service.ts:101-151 | A dead process's Attempt ends aborted exactly under a cancelled Run without a committed Decision, otherwise interrupted; a committed Decision blocks its Invocation. |
| `ExecutorProgress.AdvancingTerminates` | server/src/execution/attempt-executor.ts:617-627 | Over any run the Attempts of an Invocation change at most twice per allocated Attempt. |
| `ExecutorProgress.PermittedRetryStarts` | server/src/execution/attempt-executor.ts:245-249 | A retry that finalization permitted starts when it is due if and only if consumption is strictly below every bound of the allocation; otherwise every preparation refuses it. |
| `ExecutorProgress.StrandedRetry` | server/src/execution/retry-policy.ts:128-139 | A concrete run of the protocol whose finalization permits a retry that can never run, the allocation being consumed exactly: whenever it is prepared, it is refused and the Invocation fails. |
| `EventStream.Subscriber.ReadPage` | server/src/persistence/journal.ts:66-79 | The first `limit` in-scope Events after the cursor, in sequence order. |
| `EventStream.Subscriber.Send` | server/src/events/stream.ts:221-234 | One frame to an open subscriber; a refusal or a throw ends it. |
| `EventStream.Subscriber.End` | server/src/events/stream.ts:236-245 | Ends an open subscription once, with its reason. |
| `EventStream.Subscriber.HandOver` | server/src/events/stream.ts:189-193 | A page handed over Event by Event, the cursor moving with each, cut short only by the end of the subscription. |
| `EventStream.Subscriber.Pass` | server/src/events/stream.ts:186-207 | One pass of the replay loop: it ends, is suspended by a full page, or goes round again because it was told to. |
| `EventStream.Subscriber.RunLoop` | server/src/events/stream.ts:181-210 | A replay loop up to its next suspension or return: the whole new state of the entry. |
| `EventStream.Subscriber.Replay` | server/src/events/stream.ts:176-181 | A second replay only asks the running one to read again. |
| `EventStream.EventStream.Subscribe` | server/src/events/stream.ts:107-121 | A new entry from the clamped sequence, its `connected` frame and its first replay segment. |
| `EventStream.EventStream.Committed` | server/src/events/stream.ts:164-173 | Every open entry reads on or is told to read again; the others are untouched. |
| `EventStream.EventStream.PublishOutput` | server/src/events/stream.ts:124-134 | Transient output goes to the open, in-scope entries that are not replaying and to no other. |
| `EventStream.EventStream.DisconnectAll` | server/src/events/stream.ts:143-147 | Ends every subscription and reports how many were open; the stream goes on. |
| `EventStream.EventStream.Close` | server/src/events/stream.ts:137-140 | Ends every subscription and stops listening. |
| `EventStreamRuns.Reachable` | server/src/events/stream.ts:124-211 | Over every interleaving of subscriptions, commits, resumed replays, output, refusals and closes the invariant of every entry holds. |
| `EventStreamRuns.DeliveredExactly` | server/src/events/stream.ts:1-20 | Each subscriber was handed exactly the in-scope journal in (afterSeq, cursor], told of its end at most once, has at most one replay loop, and, while the stream listens and no loop is suspended, has every committed in-scope Event. |
| `EventStreamRuns.WindowOrdered` | server/src/events/stream.ts:4-10 | What is handed over is strictly increasing: nothing twice, nothing out of order. |
| `EventStreamRuns.CaughtUpIsTrue` | server/src/events/stream.ts:202-205 | Every in-scope Event up to a `caught_up` frame was handed over before it. |
| `EventStreamRuns.OutputOnlyWhenCaughtUp` | server/src/events/stream.ts:128-133 | While the stream listens, a transient frame reaches only subscribers that have everything committed so far. |
| `EventStreamDelivery.PublishedExactly` | server/src/events/stream.ts:124-134 | A chunk of output is one more frame for exactly the entries that are open, in scope and not replaying, each of which stays open exactly when its peer accepts; every other entry is unchanged. |
| `EventStreamDelivery.EndsOnlyByReply` | server/src/events/stream.ts:221-245 | A subscriber ends only for its own reply to the last frame it was handed, by its own close or with the stream: the frames of a step are handed over one by one until one is refused, throws or closes it, and while it accepts it stays open. |
| `EventStreamDelivery.ListensUntilShutdown` | server/src/events/stream.ts:136-140 | In every run the stream listens from the beginning and exactly until its shutdown. |
| `EventStreamDelivery.EndsExactly` | server/src/events/stream.ts:136-147 | A close, a disconnect and the shutdown end exactly the open entries they name, once and with their reason, and change nothing else. |
| `EventStreamDelivery.SubscribedExactly` | server/src/events/stream.ts:107-121 | A subscription is one more entry with the filter and the clamped start it asked for, its first frame `connected` with the last committed sequence, its further frames and its end under the one rule of delivery; once its replay is over and it is still open, it has every in-scope Event after the start. |
| `EventStreamDelivery.CommittedExactly` | server/src/events/stream.ts:164-173 | A commit leaves ended subscribers alone, and all of them once the stream no longer listens, and tells a replaying one to read once more. |
| `EventStreamDelivery.HandedOverExactly` | server/src/events/stream.ts:1-20 | In every reachable state an Event of the journal has been handed to a subscriber if and only if it lies after the start and up to the cursor and carries every part of the scope asked for. |
| `EventStreamDelivery.TurnsFinish` | server/src/events/stream.ts:186-207 | From any reachable state one more turn of the event loop than Events are left finishes a replay; a subscriber still open then has every in-scope Event. |
| `EventStreamDelivery.AnnouncedOnce` | server/src/events/stream.ts:202-205 | A commit that finds an open idle subscriber tells it exactly once more, by the end of the replay it starts, that it has caught up. |
| `EventStreamDelivery.AnnouncedFirst` | server/src/events/stream.ts:202-205 | The first replay of a subscription announces that exactly once. |
| `EventStreamRuns.CommitServed` | server/src/events/stream.ts:136-140 | A commit past an idle open cursor is served if and only if the stream still listens. |
| `EventStreamRuns.ReplayEnds` | server/src/events/stream.ts:186-207 | Without further commits a suspended replay ends within as many turns as Events are left, with everything handed over to an open subscriber. |
| `EventStreamRuns.NothingAfterTheEnd` | server/src/events/stream.ts:221-245 | Logs only grow, and an ended subscriber is handed nothing more. |
| `SseAttachment.Attachment.constructor` | server/src/api/events.ts:72-144 | The attachment up to its return, with callbacks during the registration, the greeting and the subscription. |
| `SseAttachment.Attachment.EndWith` | server/src/api/events.ts:87-101 | The one idempotent teardown. |
| `SseAttachment.Attachment.On` | server/src/api/events.ts:78-135 | Each callback, from the peer, the timer, the stream or the handler. |
| `SseAttachment.ReleasedExactlyOnce` | server/src/api/events.ts:11-19 | Whatever the order: teardown at most once, the response ended once, heartbeat off, no open entry, and the listeners released if and only if neither the peer's close nor a throwing heartbeat nor the handler's end came while they were being registered; not ended means everything still held. |
| `SseAttachment.ClosedByIncident` | server/src/api/events.ts:87-107 | Before there is a stream entry, exactly the peer's close, a throwing heartbeat and the handler's end close the attachment, and nothing else changes it. |
| `SseAttachment.FirstReasonStays` | server/src/api/events.ts:63-64 | The first reason is never rewritten. |
| `SseAttachment.EndedByTheFirst` | server/src/api/events.ts:72-144 | Over every order of incidents, an attachment ends if and only if one of them ends it, with the reason of the first that does: with `Backpressure` exactly for a written frame that throws or takes the buffer over its bound, while dropped output and a written heartbeat end nothing. |
| `SseAttachment.ListenersLeftBehind` | server/src/api/events.ts:92-102 | A case in which listeners stay: the peer's close fires inside its own registration. |
| `PlanSource.AssertSourceObjectAcyclic` | core/src/plans.ts:377-407 | Accepts if and only if every reference path from the root visits at most `maxDepth` objects; a refusal names a path one too long or one that ends in its own ancestor; it terminates on cyclic graphs. |
| `PlanSource.ShallowIsAcyclic` | core/src/plans.ts:371-376 | A bounded graph has no object that is its own ancestor, so every reachable cycle is rejected. |
| `PlanSource.VisitShrinks` | core/src/plans.ts:381-406 | The termination measure: visiting a frame makes the stack cheaper. |
| `PlanLimits.ValidateExecutionPlanSource` | core/src/plans.ts:416-442 | Accepted if and only if the object graph, the schema and every expression stay within their limits; otherwise the first offending expression is named. |
| `PlanLimits.CheckExpression` | core/src/plans.ts:422-440 | One expression within its limits, or the defect that is checked first. |
| `PlanLimits.CollectRounds` | core/src/plans.ts:350-369 | Every evaluator-optimizer's round limit is pushed, in walk order. |
| `PlanLimits.WithinExactly` | core/src/plans.ts:422-440 | Depth and collected rounds are within limits exactly when every chain of nested Patterns and every nested evaluator-optimizer is. |
| `PlanLimits.AsDeep` | core/src/plans.ts:333-348 | Some chain of nested Patterns is exactly as long as the depth. |
| `PlanLimits.NoDeeper` | core/src/plans.ts:333-348 | No chain of nested Patterns is longer than the depth. |
| `PlanLimits.RoundsAreUnrolled` | core/src/plans.ts:350-369 | A round limit is collected exactly when some nested evaluator-optimizer carries it. |
| `TaskGraph.WouldCreateDependencyCycle` | core/src/tasks.ts:201-224 | True if and only if the Task equals or is reachable from the proposed dependency; always terminates. |
| `TaskGraph.Adjacency` | core/src/tasks.ts:207-212 | One list per Task, its dependencies in insertion order. |
| `TaskGraph.AlwaysAcyclic` | core/src/tasks.ts:197-200 | Over every sequence of proposals the graph stays acyclic, and exactly the edges that would close a cycle are refused. |
| `RequirementTree.ValidateRequirementTree` | core/src/requirements.ts:83-120 | Accepts exactly the forests: unique ids, existing parents, a composition on precisely the parents, no parent cycle; a refusal names an entry that violates its rule. |
| `RequirementTree.WalksToRoot` | core/src/requirements.ts:110-117 | The walk to the root ends at an entry without a parent, or the parents followed from its own start come back to an entry already met. |
| `RequirementTree.IndexById` | core/src/requirements.ts:88-92 | The id index, or an id that appears twice. |
| `RequirementTree.CountChildren` | core/src/requirements.ts:93-101 | The parents of the tree, or an entry whose parent is missing. |
| `RequirementProposal.ProposedRequirementTreeDefects` | core/src/requirements.ts:409-447 | Every kind of defect is listed, once, for exactly the entries that have it, a parent cycle for exactly those whose own parents come back to a key already met; the list is empty if and only if the proposal is proper. |
| `RequirementProposal.ProperExactly` | core/src/requirements.ts:409-409 | A proposal is a forest over its keys with kept Requirements unique exactly when no entry has a defect of any kind. |
| `RequirementProposal.KeyPass` | core/src/requirements.ts:412-416 | The first entry of each key, and a defect for exactly the later ones. |
| `RequirementProposal.KeptPass` | core/src/requirements.ts:417-422 | A defect for exactly the entries that keep a Requirement kept before. |
| `RequirementProposal.ShapeOf` | core/src/requirements.ts:424-432 | Exactly the self-parent, unknown-parent and composition defects of one entry. |
| `RequirementProposal.MeetsCycle` | core/src/requirements.ts:434-445 | True exactly when the parents of the entry, followed one by one, come back to a key already met; it terminates on every proposal. |
| `RequirementProposal.ProperIsForest` | core/src/requirements.ts:387-398 | A proposal without defects is accepted as a tree under every injective assignment of ids to its keys. |
| `RequirementRoots.ExpandRequirementRoots` | core/src/requirements.ts:134-159 | The expansion of known roots, or the first unknown one; on every list of entries without a parent cycle below a visited root, validated or not. |
| `RequirementRoots.VisitFrom` | core/src/requirements.ts:147-156 | One recursive visit adds its leaves, in position order, to those already found. |
| `RequirementRoots.SortOrders` | core/src/requirements.ts:155-155 | Children are visited in position order, each once. |
| `RequirementRoots.ExpansionExact` | core/src/requirements.ts:134-134 | Without duplicates, exactly the leaves at or below one of the roots. |
| `RequirementOrder.ExpansionOrder` | core/src/requirements.ts:155-158 | Two leaves stand in the order of the first roots that cover them and, below the same one, in the order of the siblings, by position and then by entry, at which their ancestors part. |
| `RequirementOrder.SortIsStable` | core/src/requirements.ts:155-155 | The smaller position first, and at equal positions the earlier entry. |
| `RequirementOrder.RecursionEnds` | core/src/requirements.ts:147-156 | The recursion stays within one level per entry and the root if and only if no parent cycle lies below the root. |
| `RequirementRoots.IndependentRootsConcatenate` | core/src/requirements.ts:157-158 | For roots none of which lies at or below another, the concatenation of the expansions of each. |
| `RequirementStatus.DerivedFromSet` | core/src/requirements.ts:219-236 | The status depends on the set of live statuses alone. |
| `RequirementStatus.DerivedExactly` | core/src/requirements.ts:219-236 | Under each composition, exactly when the status is satisfied, violated, infeasible, retired or open, by the statuses that occur among the children. |
| `RequirementStatus.OrderDoesNotMatter` | core/src/requirements.ts:219-222 | Only the multiset of children matters. |
| `RequirementStatus.GroupReplacement` | core/src/requirements.ts:218-236 | Replacing any non-empty group of children by its own status leaves the parent's status unchanged, under both compositions. |
| `RequirementStatus.RetiredIsIdentity` | core/src/requirements.ts:223-224 | A retired child beside any other changes nothing. |
| `RequirementStatus.WaivedIsSatisfied` | core/src/requirements.ts:218-225 | A waived child counts exactly as a satisfied one. |
| `CursorCodec.Base64url` | core/src/api.ts:171-182 | The loop over groups of three writes the unpadded base64url text. |
| `CursorCodec.Unbase64url` | core/src/api.ts:185-199 | Decodes exactly the texts that pass the alphabet and length check. |
| `CursorCodec.DecodeText` | core/src/api.ts:187-198 | The loop whose accumulator is, at every step, the true bit prefix wrapped to 32 bits emits the exact bytes. |
| `CursorCodec.ShiftWraps` | core/src/api.ts:191-191 | Shifting the wrapped accumulator and adding a digit wraps the true value. |
| `CursorCodec.EncodingRoundTrips` | core/src/api.ts:184-199 | Every encoding passes the check and decodes to the bytes it came from. |
| `CursorCodec.CanonicalExactly` | core/src/api.ts:184-199 | A well-formed text is the encoding of what it decodes to if and only if its unused trailing bits are zero. |
| `CursorCodec.TwoTextsOneByte` | core/src/api.ts:184-199 | `QQ` and `QR` decode to the same byte. |
| `PageCursor.DecodeCursor` | core/src/api.ts:206-221 | The decoder's checks in the order they are made. |
| `PageCursor.CursorRoundTrips` | core/src/api.ts:157-161 | A cursor decodes to exactly its own key under its own scope, order and shape, and is refused everywhere else with the first thing that differs. |
| `PageCursor.CursorsDiffer` | core/src/api.ts:201-203 | Different cursors never share a text. |
| `PageCursor.AcceptedOnlyInScope` | core/src/api.ts:206-221 | Exactly the texts that carry the expected scope, the name of the expected order and a key of the expected shape are accepted, with that very key; any other is malformed exactly when it is not base64url, not JSON or not such an array. |
| `CanonicalJson.SameTextExactly` | core/src/validation.ts:86-93 | Two values have equal canonical text if and only if they are equal up to object key order, at any depth. |
| `CanonicalJson.SortIdempotent` | core/src/validation.ts:95-110 | Sorting is idempotent. |
| `CanonicalJson.SortMeans` | core/src/validation.ts:95-110 | Sorting orders every object's keys, drops undefined members and changes no meaning. |
| `CanonicalJson.ReadOnce` | core/src/validation.ts:91-93 | The serialization is injective: one text has one meaning, whatever follows it. |
| `CanonicalJson.WrittenAlike` | core/src/validation.ts:86-90 | Sorted values that mean the same are written the same. |
| `CanonicalJson.SameCallExactly` | core/src/tool-calls.ts:27-37 | Two proposed calls have equal canonical bytes if and only if they name the same tool with an input that means the same. |
| `JsonReader.CanonicalReadsBack` | core/src/validation.ts:86-110 | A reader of JSON written from the grammar alone gives back from the canonical text exactly what the value means, to the last character; a value with a non-finite number at any depth is refused, and only an undefined one has no text. |
| `JsonReader.CallReadsBack` | core/src/tool-calls.ts:27-37 | The canonical bytes of a proposed call read back as its tool and its input under those two names. |
| `JsonReader.CharReadBack` | core/src/validation.ts:91-93 | Every escape is read as its character and is the shortest the grammar admits. |
| `KeyOrder.KeysOrderedExactly` | core/src/validation.ts:95-110 | Keys that are array indices come first and by value, any others by the first character in which they differ, a prefix first. |
| `KeyOrder.IndexKeyExactly` | core/src/validation.ts:95-110 | The keys enumerated first are exactly the numbers below 2^32 - 1 in decimal. |
| `AcceptanceChecks.AcceptanceCheckService.Run` | server/src/execution/acceptance-checks.ts:123-139 | A pass up to its first command or its outcome. |
| `AcceptanceChecks.AcceptanceCheckService.Loop` | server/src/execution/acceptance-checks.ts:130-138 | The fail-fast loop over the criteria in id order. |
| `AcceptanceChecks.AcceptanceCheckService.CommandReturned` | server/src/execution/acceptance-checks.ts:185-215 | A concurrent row wins and nothing is written twice; otherwise exactly one Evaluation is appended, and the pass goes on. |
| `AcceptanceChecks.AcceptanceCheckService.CommandFailed` | server/src/execution/acceptance-checks.ts:134-134 | A check that was not carried out records nothing. |
| `AcceptanceChecks.AcceptanceCheckService.Find` | server/src/execution/acceptance-checks.ts:132-132 | The scope's recorded Evaluation of a criterion, if any. |
| `AcceptanceChecks.SortIdsSorts` | server/src/execution/acceptance-checks.ts:129-129 | Distinct criteria sort into one strictly increasing list, whatever order a request names them in. |
| `AcceptanceChecks.Reachable` | server/src/execution/acceptance-checks.ts:123-216 | Over every interleaving of passes, infrastructure failures, failed records and crashes the invariant holds. |
| `AcceptanceChecks.OneEvaluationPerCriterion` | server/src/execution/acceptance-checks.ts:23-27 | At most one Evaluation per criterion, recorded criteria a prefix of the id order, only the last possibly failing. |
| `AcceptanceChecks.CompletedPassesAgree` | server/src/execution/acceptance-checks.ts:86-92 | All completed passes report the same verdict on the same Evaluations, even with nondeterministic commands. |
| `AcceptanceChecks.CompleteRowsRunNothing` | server/src/execution/acceptance-checks.ts:23-27 | A pass runs a command if and only if the rows are not complete. |
| `AcceptanceChecks.RecordedForGood` | server/src/execution/acceptance-checks.ts:23-27 | A recorded criterion is never executed again and its row never changes. |
| `AcceptanceChecks.VerdictIsExitCode` | server/src/execution/acceptance-checks.ts:200-215 | In every run a recorded Evaluation is passed if and only if its exit code is the one its criterion expects. |
| `AcceptanceChecks.PassedExactly` | server/src/execution/acceptance-checks.ts:130-139 | A completed pass reports `Passed` if and only if every criterion of the scope is on record with exactly the exit code it expects. |
| `AcceptanceChecks.StartExactly` | server/src/execution/acceptance-checks.ts:123-139 | A new pass reports every row on record, none of them executed; over complete rows it ends with their verdict, otherwise it runs the command of the first criterion not on record. |
| `AcceptanceChecks.ReturnExactly` | server/src/execution/acceptance-checks.ts:185-215 | A command that came back records its exit code for the criterion its pass awaited, unless a row is there by now; the pass reports that row as executed, fails on it if it failed, and otherwise goes on over what others recorded. |
| `AcceptanceChecks.LostPasses` | server/src/execution/acceptance-checks.ts:123-139 | A check not carried out, a record that fails and a dead process end their passes and record nothing. |

## Left out

- Tasks, Plan Nodes, Handoffs and conversation replies that follow an Invocation's settlement and a cancelled Run's convergence: they hang on the statuses modelled here and add no rule to them.
- Changesets, transcripts, continuation payloads and the worktree release after settlement: external work around the transactions; a collection or storage that throws is the step that returns a flight to idle with its outcome kept.
- Result validation, tool authorization and provider adapters: their answers are arbitrary parameters (`valid`, the completion, the Usage chunks).
- The provider's reported availability and its retry-after time: one arbitrary answer in `CapacityRefusalOf`; every limit and the order of the refusals are modelled.
- AttemptExecutor.AttemptExecutor.Refuse: does not move the Invocation's running Tasks or release its worktree, which follow the row it writes.
- AttemptExecutor.AttemptExecutor.FinalizeAttempt: does not move the Invocation's Tasks, store its result or release its worktree, which follow the settlement it reports.
- ExecutorSafety.ProviderCalledOnce: a provider that cannot be resolved counts as called, because its failure is caught like that of a call.
- The first inspection before the continuation is resolved: it writes only what the second one inside the transaction may write, so a preparation is the transaction alone.
- Who moves an Invocation to `waiting`: no code of the modelled services does; the status and its refusal are kept.
- Several processes over one database: one process executes at a time, and the boot reconciliation runs before it prepares anything; a reconciliation that finds a flight does nothing here.
- Supersession of an increase Decision: a step from open to superseded, whoever makes it.
- Reservations of Tasks and Invocations under a Plan Node: their accounts are computed by the same loop; the ledger models the Run-level children and the funding of one child of a node.
- The bound on pending frames of a subscriber: outside a delivery nothing is pending, so it never ends a subscription by itself; a refusal, a throw and a close from inside the callback are modelled.
- Subscribers that commit, or act on other subscriptions, from inside `deliver`; a replay page of zero Events, for which a replay would never end.
- The routing cache of transient output: the scope of an output is a parameter.
- Path strings of a plan source: a frame carries the objects on its path instead of the keys.
- What the plan schema parses: the parsed expressions are a parameter; the schema admits no Pattern without parts.
- The UTF-8 byte length of a string: one sum over its characters.
- RequirementRoots.ExpandRequirementRoots: excludes a parent cycle below a root that is visited, where the original recursion is not bounded (`RequirementOrder.RecursionEnds`) and returns nothing to describe.
- Percent-encoding and JSON parsing of a cursor: any reader that inverts the writer; numbers in keys are integers.
- Canonical JSON of fractional and very large numbers (whose text uses exponents), of lone surrogates, and of a `__proto__` key, which the sorting copy would lose.
- White space between JSON tokens, fractions and exponents: the reader of `JsonReader.dfy` reads the JSON that canonical text can be.
- UTF-16 code units: strings are sequences of characters, so keys outside the basic plane sort by character; any one total order of keys gives the same results.
- A different set of criteria for one and the same scope of checks: a scope has one fixed set, as its Gate, round or Publication fixes it; output Artifacts and Evidence are not modelled.
- Floating-point rounding of cost, message text, random ids, Event payloads.
