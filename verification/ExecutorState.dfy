/**
 * Durable Attempt execution as one state and one step per atomic segment: the rows
 * (Runs, Invocations with their Attempts, leases, Usage) together with the in-memory
 * flights of the executing process. A transaction is one step that either commits
 * whole or writes nothing; between two steps anything else may happen.
 */
module ExecutorState {
  import opened Wrappers
  import opened Budgets
  import Runs
  import opened Invocations
  import opened RetryPolicy

  datatype UsageChunk = UsageChunk(costUsd: real, tokens: nat)

  datatype UsageRow = UsageRow(attempt: AttemptId, chunk: UsageChunk)

  /** A capacity lease, named by the one Attempt it was granted to; a writing one holds a worktree. */
  datatype Lease = Lease(provider: nat, writes: bool, active: bool)

  datatype Outcome = Outcome(completion: Completion, usage: seq<UsageChunk>)

  /** Where the flight's `executing` promise stands. */
  datatype Phase = Idle | AtProvider | Withheld | Settling

  /** The in-memory entry of one prepared Attempt. */
  datatype Flight = Flight(run: nat, deadlineAt: Option<nat>, aborted: bool, interruption: Option<Cause>,
                           outcome: Option<Outcome>, phase: Phase)

  /** One provider call, with the Run row and the interruption read at dispatch. */
  datatype ProviderCall = ProviderCall(attempt: AttemptId, run: Runs.Run, interruption: Option<Cause>)

  /** The concurrency limit of each configured provider, of the process and, unless there is none, of its worktrees. */
  datatype Config = Config(providers: map<nat, nat>, maxProcessConcurrency: nat, maxWorktrees: Option<nat>,
                           backoffBaseMs: nat, backoffMaxMs: nat)

  /**
   * `calls` and `delivered` record what reached the provider and which interruptions were
   * delivered; no step reads them.
   */
  datatype State = State(
    runs: map<nat, Runs.Run>, invocations: map<nat, Invocation>, leases: map<AttemptId, Lease>, usage: seq<UsageRow>,
    flights: map<AttemptId, Flight>, calls: seq<ProviderCall>, delivered: multiset<AttemptId>)

  predicate Exists(invocations: map<nat, Invocation>, a: AttemptId) {
    a.invocation in invocations && 1 <= a.number <= |invocations[a.invocation].attempts|
  }

  function Row(invocations: map<nat, Invocation>, a: AttemptId): Attempt
    requires Exists(invocations, a)
  {
    invocations[a.invocation].attempts[a.number - 1]
  }

  // ---------------------------------------------------------------------------
  // Usage
  // ---------------------------------------------------------------------------

  /** One Usage row per chunk, in order. */
  function RowsFor(a: AttemptId, chunks: seq<UsageChunk>): (rows: seq<UsageRow>)
    ensures |rows| == |chunks| && forall k :: 0 <= k < |rows| ==> rows[k] == UsageRow(a, chunks[k])
  {
    if chunks == [] then [] else RowsFor(a, chunks[..|chunks| - 1]) + [UsageRow(a, chunks[|chunks| - 1])]
  }

  function UsageOf(usage: seq<UsageRow>, a: AttemptId): seq<UsageChunk> {
    if usage == [] then []
    else
      var last := usage[|usage| - 1];
      UsageOf(usage[..|usage| - 1], a) + (if last.attempt == a then [last.chunk] else [])
  }

  /** What one Usage row counts for against an Invocation. */
  function Counted(row: UsageRow, invocation: nat): Allocation {
    if row.attempt.invocation == invocation then Allocation(row.chunk.costUsd, row.chunk.tokens, 0) else ZERO_ALLOCATION
  }

  function UsageTotal(usage: seq<UsageRow>, invocation: nat): Allocation {
    if usage == [] then ZERO_ALLOCATION
    else AddAllocation(UsageTotal(usage[..|usage| - 1], invocation), Counted(usage[|usage| - 1], invocation))
  }

  function Consumed(usage: seq<UsageRow>, invocation: nat, attempts: nat): Allocation {
    UsageTotal(usage, invocation).(attempts := attempts)
  }

  // ---------------------------------------------------------------------------
  // Admission
  // ---------------------------------------------------------------------------

  datatype Reason =
    | InvocationTerminal | InvocationWaiting | AttemptActive | RunTerminal | RunPaused | RetryRefused | RetryNotYet
    | OutOfAllocation | BlockedByRequest

  datatype Permission = MayStart | MayNot(reason: Reason, notBefore: Option<nat>)

  function NextPermission(s: State, i: nat, now: nat): Permission
    requires i in s.invocations && s.invocations[i].run in s.runs
  {
    var inv, run := s.invocations[i], s.runs[s.invocations[i].run];
    if Ended(inv.status) then MayNot(InvocationTerminal, None)
    else if inv.status == Waiting then MayNot(InvocationWaiting, None)
    else if inv.manifest == None then MayNot(InvocationTerminal, None)
    else if HasActiveAttempt(inv) then MayNot(AttemptActive, None)
    else if Runs.IsTerminal(run.status) then MayNot(RunTerminal, None)
    else if run.pause != None then MayNot(RunPaused, None)
    else if inv.request != None then MayNot(BlockedByRequest, None)
    else if DeadlineOf(inv).Some? && now >= DeadlineOf(inv).value then MayNot(OutOfAllocation, None)
    else if inv.attempts != [] && !Permitted(inv.attempts[|inv.attempts| - 1]) then MayNot(RetryRefused, None)
    else if inv.attempts != [] && inv.attempts[|inv.attempts| - 1].retry.value.notBefore.Some?
      && inv.attempts[|inv.attempts| - 1].retry.value.notBefore.value > now then
      MayNot(RetryNotYet, inv.attempts[|inv.attempts| - 1].retry.value.notBefore)
    else if |inv.attempts| >= inv.allocation.attempts then MayNot(OutOfAllocation, None)
    else
      var consumed := Consumed(s.usage, i, |inv.attempts|);
      if inv.allocation.costUsd > 0.0 && consumed.costUsd >= inv.allocation.costUsd then MayNot(OutOfAllocation, None)
      else if inv.allocation.tokens > 0 && consumed.tokens >= inv.allocation.tokens then MayNot(OutOfAllocation, None)
      else MayStart
  }

  function ActiveLeases(leases: map<AttemptId, Lease>): set<AttemptId> {
    set a | a in leases && leases[a].active
  }

  function ActiveLeasesOf(leases: map<AttemptId, Lease>, provider: nat): set<AttemptId> {
    set a | a in leases && leases[a].active && leases[a].provider == provider
  }

  /** The active leases that hold a worktree. */
  function ActiveWriters(leases: map<AttemptId, Lease>): set<AttemptId> {
    set a | a in leases && leases[a].active && leases[a].writes
  }

  datatype CapacityRefusal = ConfiguredLimit | ProviderQuota | ProviderConcurrency | ProcessConcurrency

  function Worktrees(m: Manifest): nat {
    if m.writes then 1 else 0
  }

  /** The governor's answer from lease rows, in its fixed order; `available` is the provider's own report. */
  function CapacityRefusalOf(s: State, c: Config, m: Manifest, available: bool): Option<CapacityRefusal> {
    if m.provider !in c.providers || c.providers[m.provider] == 0 || c.maxProcessConcurrency == 0 then
      Some(ConfiguredLimit)
    else if c.maxWorktrees.Some? && Worktrees(m) > c.maxWorktrees.value then Some(ConfiguredLimit)
    else if !available then Some(ProviderQuota)
    else if |ActiveLeasesOf(s.leases, m.provider)| >= c.providers[m.provider] then Some(ProviderConcurrency)
    else if |ActiveLeases(s.leases)| >= c.maxProcessConcurrency then Some(ProcessConcurrency)
    else if c.maxWorktrees.Some? && |ActiveWriters(s.leases)| + Worktrees(m) > c.maxWorktrees.value then
      Some(ProcessConcurrency)
    else None
  }

  predicate CapacityGranted(s: State, c: Config, m: Manifest, available: bool) {
    CapacityRefusalOf(s, c, m, available) == None
  }

  // ---------------------------------------------------------------------------
  // Prepare
  // ---------------------------------------------------------------------------

  function WithInvocation(s: State, i: nat, inv: Invocation): State {
    s.(invocations := s.invocations[i := inv])
  }

  /**
   * The refusal's own transaction: an exhausted Invocation fails, one with a committed request ends
   * blocked, anything else is only reported.
   */
  function RefuseOn(s: State, i: nat, reason: Reason): State
    requires i in s.invocations
  {
    var inv := s.invocations[i];
    if Ended(inv.status) then s
    else if reason == BlockedByRequest && inv.request.Some? then
      WithInvocation(s, i, inv.(status := Blocked, blockedBy := inv.request))
    else if reason == OutOfAllocation then
      WithInvocation(s, i, inv.(status := Failed, failure := Some(FailedAllocation)))
    else s
  }

  function NewAttempt(now: nat): Attempt {
    Attempt(Executing, None, false, None, now)
  }

  /** The Invocation after its next Attempt was created and started. */
  function Started(inv: Invocation, now: nat, startNow: nat): Invocation {
    inv.(attempts := inv.attempts + [NewAttempt(now)],
         status := Running,
         startedAt := if inv.startedAt.Some? then inv.startedAt else Some(startNow))
  }

  function PreparedOn(s: State, i: nat, now: nat, startNow: nat): State
    requires i in s.invocations && s.invocations[i].manifest.Some?
  {
    var inv := Started(s.invocations[i], now, startNow);
    var a := AttemptId(i, |inv.attempts|);
    s.(invocations := s.invocations[i := inv],
       leases := s.leases[a := Lease(inv.manifest.value.provider, inv.manifest.value.writes, true)],
       flights := s.flights[a := Flight(inv.run, DeadlineOf(inv), false, None, None, Idle)])
  }

  /** The prepare transaction after the continuation was resolved: everything is inspected again. */
  function Prepare(s: State, c: Config, i: nat, now: nat, startNow: nat, available: bool, commits: bool): State {
    if i !in s.invocations || s.invocations[i].run !in s.runs || !commits then s
    else match NextPermission(s, i, now)
      case MayNot(reason, _) => RefuseOn(s, i, reason)
      case MayStart =>
        if CapacityGranted(s, c, s.invocations[i].manifest.value, available) then PreparedOn(s, i, now, startNow) else s
  }

  // ---------------------------------------------------------------------------
  // Execute
  // ---------------------------------------------------------------------------

  /**
   * The synchronous start of `executePreparedAttempt`: the dispatch boundary, or straight on to settling a returned
   * outcome. A dispatch that `rejects`, reading its rows or rendering its input, never calls the provider and leaves
   * the flight as it was.
   */
  function Execute(s: State, a: AttemptId, rejects: bool): State {
    if a !in s.flights || s.flights[a].run !in s.runs || s.flights[a].phase != Idle then s
    else
      var f, run := s.flights[a], s.runs[s.flights[a].run];
      if f.outcome.Some? then s.(flights := s.flights[a := f.(phase := Settling)])
      else if rejects then s
      else if f.interruption == None && Runs.AdmitsNewWork(run) then
        s.(flights := s.flights[a := f.(phase := AtProvider)],
           calls := s.calls + [ProviderCall(a, run, f.interruption)])
      else
        var cause := if f.interruption.Some? then f.interruption.value
          else if Runs.IsTerminal(run.status) then CausedByCancel else CausedByPause;
        s.(flights := s.flights[a := f.(interruption := Some(cause), aborted := true, phase := Withheld)])
  }

  /**
   * The dispatch promise resolves: with the provider's outcome, or with the empty outcome of an
   * Attempt that was never dispatched.
   */
  function Return(s: State, a: AttemptId, outcome: Outcome): State {
    if a !in s.flights then s
    else
      var f := s.flights[a];
      match f.phase
      case AtProvider => s.(flights := s.flights[a := f.(outcome := Some(outcome), phase := Settling)])
      case Withheld =>
        s.(flights :=
            s.flights[a := f.(outcome := Some(Outcome(ProviderInterrupted(f.interruption), [])), phase := Settling)])
      case _ => s
  }

  /**
   * Collecting the Changeset or storing the continuation threw: the promise rejects and the outcome
   * stays in memory.
   */
  function CollectFails(s: State, a: AttemptId): State {
    if a in s.flights && s.flights[a].phase == Settling then
      s.(flights := s.flights[a := s.flights[a].(phase := Idle)])
    else s
  }

  /** An accepted `request_decision` of the executing Attempt commits. */
  function RequestDecision(s: State, a: AttemptId, decision: nat): State {
    if a !in s.flights || !Exists(s.invocations, a) || !Row(s.invocations, a).status.Executing?
      || s.invocations[a.invocation].request.Some? then s
    else WithInvocation(s, a.invocation, s.invocations[a.invocation].(request := Some(decision)))
  }

  // ---------------------------------------------------------------------------
  // Finalize
  // ---------------------------------------------------------------------------

  /** A cancellation in the Run row overrides the cause held in memory; a hard pause only fills an absent one. */
  function EffectiveInterruption(run: Runs.Run, held: Option<Cause>): Option<Cause> {
    match Runs.ExecutionInterruptionOf(run)
    case Some(ByCancellation) => Some(CausedByCancel)
    case Some(ByHardPause) => if held.Some? then held else Some(CausedByPause)
    case None => held
  }

  /** The terminal Attempt row and what its Invocation is blocked on. */
  datatype Ending = Ending(attempt: Attempt, blocked: Option<nat>)

  function EndingOf(c: Config, inv: Invocation, number: nat, run: Runs.Run, held: Option<Cause>,
                    completion: Completion, consumed: Allocation, valid: bool, approval: nat, now: nat): Ending
    requires 1 <= number <= |inv.attempts|
  {
    var interruption := EffectiveInterruption(run, held);
    var seen := if completion == ApprovalRequired(false) then ToolFailed else completion;
    var classified := if inv.request.Some? then Classified(Faulted, Some(DecisionRequested), false)
                      else Classify(seen, valid, interruption, consumed, inv.allocation);
    var approvalRequired := inv.request == None && seen == ApprovalRequired(true) && interruption == None;
    var previous := if number > 1 then inv.attempts[number - 2].failure else None;
    var retry := DecideRetry(classified,
                             RetryFacts(number, inv.allocation.attempts, previous, approvalRequired, inv.request.Some?,
                                        DeadlineOf(inv), now, c.backoffBaseMs, c.backoffMaxMs));
    Ending(Attempt(classified.status, classified.failure, classified.cancelled, retry,
                   inv.attempts[number - 1].admittedAt),
           if inv.request.Some? then inv.request else if approvalRequired then Some(approval) else None)
  }

  /** The Invocation with one Attempt ended and settled. */
  function EndAttempt(inv: Invocation, number: nat, e: Ending): Invocation
    requires 1 <= number <= |inv.attempts|
  {
    Settle(inv.(attempts := inv.attempts[number - 1 := e.attempt]), e.attempt, e.blocked)
  }

  /** A cancelled Run's Invocations without an executing Attempt converge to `cancelled`. */
  function SettleCancelledRun(invocations: map<nat, Invocation>, run: nat): map<nat, Invocation> {
    map i | i in invocations ::
      if invocations[i].run == run && !Ended(invocations[i].status) && !HasActiveAttempt(invocations[i]) then
        invocations[i].(status := Cancelled)
      else invocations[i]
  }

  predicate CanFinalize(s: State, a: AttemptId) {
    && a in s.flights && s.flights[a].phase == Settling && s.flights[a].outcome.Some?
    && Exists(s.invocations, a) && s.invocations[a.invocation].run in s.runs
  }

  /** How the Attempt of a returned flight ends, its Usage counted. */
  function FinalEnding(s: State, c: Config, a: AttemptId, valid: bool, approval: nat, now: nat): Ending
    requires CanFinalize(s, a)
  {
    var f, inv := s.flights[a], s.invocations[a.invocation];
    var usage := s.usage + RowsFor(a, f.outcome.value.usage);
    EndingOf(c, inv, a.number, s.runs[inv.run], f.interruption, f.outcome.value.completion,
             Consumed(usage, a.invocation, |inv.attempts|), valid, approval, now)
  }

  /**
   * The finalization transaction and the removal of the flight it commits for; a failed commit
   * leaves the outcome for the next call.
   */
  function Finalize(s: State, c: Config, a: AttemptId, valid: bool, approval: nat, now: nat, commits: bool): State {
    if !CanFinalize(s, a) then s
    else if !commits then s.(flights := s.flights[a := s.flights[a].(phase := Idle)])
    else if AttemptEnded(Row(s.invocations, a).status) then s.(flights := s.flights - {a})
    else
      var f, inv := s.flights[a], s.invocations[a.invocation];
      var settled :=
        s.invocations[a.invocation := EndAttempt(inv, a.number, FinalEnding(s, c, a, valid, approval, now))];
      s.(usage := s.usage + RowsFor(a, f.outcome.value.usage),
         invocations :=
           if s.runs[inv.run].status == Runs.Cancelled then SettleCancelledRun(settled, inv.run) else settled,
         leases := if a in s.leases then s.leases[a := s.leases[a].(active := false)] else s.leases,
         flights := s.flights - {a})
  }

  // ---------------------------------------------------------------------------
  // Interrupts and operator control
  // ---------------------------------------------------------------------------

  predicate Interruptible(f: Flight) {
    f.outcome == None && !f.aborted
  }

  function Abort(f: Flight, cause: Cause): Flight {
    if Interruptible(f) then f.(interruption := Some(cause), aborted := true) else f
  }

  /** Those of `targets` that an interruption still reaches. */
  function Reached(flights: map<AttemptId, Flight>, targets: set<AttemptId>): set<AttemptId> {
    set a | a in targets && a in flights && Interruptible(flights[a])
  }

  function AbortAll(flights: map<AttemptId, Flight>, targets: set<AttemptId>, cause: Cause): map<AttemptId, Flight> {
    map a | a in flights :: if a in targets then Abort(flights[a], cause) else flights[a]
  }

  /** Delivers one cause to every interruptible flight that `targets` names. */
  function InterruptAll(s: State, targets: set<AttemptId>, cause: Cause): State {
    s.(flights := AbortAll(s.flights, targets, cause), delivered := s.delivered + multiset(Reached(s.flights, targets)))
  }

  function FlightsOf(s: State, run: nat): set<AttemptId> {
    set a | a in s.flights && s.flights[a].run == run
  }

  function Overdue(s: State, now: nat): set<AttemptId> {
    set a | a in s.flights && s.flights[a].deadlineAt.Some? && s.flights[a].deadlineAt.value <= now
  }

  /**
   * The operator cancels: the intent commits and converges idle work, then the signal is delivered;
   * a repeat only delivers again.
   */
  function CancelRun(s: State, r: nat): State {
    if r !in s.runs then s
    else if s.runs[r].status == Runs.Cancelled then InterruptAll(s, FlightsOf(s, r), CausedByCancel)
    else match Runs.Move(s.runs[r], Runs.Transition(Runs.Cancelled, None, None))
      case Err(_) => s
      case Ok(run) =>
        var committed := s.(runs := s.runs[r := run], invocations := SettleCancelledRun(s.invocations, r));
        InterruptAll(committed, FlightsOf(s, r), CausedByCancel)
  }

  function PauseRun(s: State, r: nat, mode: Runs.PauseMode): State {
    if r !in s.runs then s
    else match Runs.Pause(s.runs[r], mode)
      case Err(_) => s
      case Ok(run) =>
        var committed := s.(runs := s.runs[r := run]);
        if run.pause == Some(Runs.Hard) then InterruptAll(committed, FlightsOf(s, r), CausedByPause) else committed
  }

  /** A resume, or any transition another service makes of a Run other than cancelling it. */
  function MoveRun(s: State, r: nat, op: Runs.Operation): State {
    if r !in s.runs || op.ByPause? || (op.ByTransition? && op.t.to == Runs.Cancelled) then s
    else match Runs.Operate(s.runs[r], op)
      case Err(_) => s
      case Ok(run) => s.(runs := s.runs[r := run])
  }

  // ---------------------------------------------------------------------------
  // Restart
  // ---------------------------------------------------------------------------

  /** How recovery ends the Attempt of a process that died. */
  function RecoveredEnding(c: Config, inv: Invocation, number: nat, run: Runs.Run, now: nat): Ending
    requires 1 <= number <= |inv.attempts|
  {
    var admittedAt := inv.attempts[number - 1].admittedAt;
    if inv.request == None && run.status == Runs.Cancelled then
      Ending(Attempt(Aborted, None, true, Some(RetryDecision(false, NoCancelled, None)), admittedAt), None)
    else
      var previous := if number > 1 then inv.attempts[number - 2].failure else None;
      var retry := DecideRetry(Classified(Interrupted, Some(ByInterruption), false),
                               RetryFacts(number, inv.allocation.attempts, previous, false, inv.request.Some?,
                                          DeadlineOf(inv), now, c.backoffBaseMs, c.backoffMaxMs));
      Ending(Attempt(Interrupted, Some(ByInterruption), false, retry, admittedAt), inv.request)
  }

  function RecoveredInvocation(c: Config, inv: Invocation, run: Runs.Run, now: nat): Invocation {
    var n := |inv.attempts|;
    if n == 0 || AttemptEnded(inv.attempts[n - 1].status) then inv
    else EndAttempt(inv, n, RecoveredEnding(c, inv, n, run, now))
  }

  /** A cancelled Run some of whose work an executing Attempt holds back. */
  predicate HeldBack(s: State, r: nat) {
    r in s.runs && s.runs[r].status == Runs.Cancelled
      && exists i :: i in s.invocations && s.invocations[i].run == r && HasActiveAttempt(s.invocations[i])
  }

  /** The boot reconciliation, one transaction over every row: no flight of this process exists yet. */
  function Recover(s: State, c: Config, now: nat): State {
    if s.flights != map[] || exists i :: i in s.invocations && s.invocations[i].run !in s.runs then s
    else
      var recovered :=
        map i | i in s.invocations :: RecoveredInvocation(c, s.invocations[i], s.runs[s.invocations[i].run], now);
      s.(invocations := map i | i in recovered ::
           if HeldBack(s, recovered[i].run) && !Ended(recovered[i].status) && !HasActiveAttempt(recovered[i]) then
             recovered[i].(status := Cancelled)
           else recovered[i],
         leases := map a | a in s.leases :: s.leases[a].(active := false))
  }

  // ---------------------------------------------------------------------------
  // Runs of the protocol
  // ---------------------------------------------------------------------------

  datatype Step =
    | CreateRun(run: nat, conversation: nat)
    | CreateInvocation(invocation: nat, of: nat, manifest: Option<Manifest>, allocation: Allocation)
    | PrepareStep(invocation: nat, now: nat, startNow: nat, available: bool, commits: bool)
    | ExecuteStep(attempt: AttemptId, rejects: bool)
    | ReturnStep(attempt: AttemptId, outcome: Outcome)
    | CollectFailsStep(attempt: AttemptId)
    | RequestStep(attempt: AttemptId, decision: nat)
    | FinalizeStep(attempt: AttemptId, valid: bool, approval: nat, now: nat, commits: bool)
    | InterruptStep(attempt: AttemptId, cause: Cause)
    | DeadlinesStep(now: nat)
    | ShutdownStep
    | CancelStep(run: nat)
    | PauseStep(run: nat, mode: Runs.PauseMode)
    | MoveRunStep(run: nat, op: Runs.Operation)
    | CrashStep
    | RecoverStep(now: nat)

  function Apply(s: State, c: Config, step: Step): State {
    match step
    case CreateRun(r, conversation) =>
      if r in s.runs then s else s.(runs := s.runs[r := Runs.Run(conversation, Runs.Created, None, None)])
    case CreateInvocation(i, r, manifest, allocation) =>
      if i in s.invocations || r !in s.runs || !Runs.AdmitsNewWork(s.runs[r]) || allocation.attempts < 1 then s
      else WithInvocation(s, i, Invocation(r, Pending, None, None, None, manifest, allocation, None, []))
    case PrepareStep(i, now, startNow, available, commits) => Prepare(s, c, i, now, startNow, available, commits)
    case ExecuteStep(a, rejects) => Execute(s, a, rejects)
    case ReturnStep(a, outcome) => Return(s, a, outcome)
    case CollectFailsStep(a) => CollectFails(s, a)
    case RequestStep(a, decision) => RequestDecision(s, a, decision)
    case FinalizeStep(a, valid, approval, now, commits) => Finalize(s, c, a, valid, approval, now, commits)
    case InterruptStep(a, cause) => InterruptAll(s, {a}, cause)
    case DeadlinesStep(now) => InterruptAll(s, Overdue(s, now), CausedByDeadline)
    case ShutdownStep => InterruptAll(s, s.flights.Keys, CausedByShutdown)
    case CancelStep(r) => CancelRun(s, r)
    case PauseStep(r, mode) => PauseRun(s, r, mode)
    case MoveRunStep(r, op) => MoveRun(s, r, op)
    case CrashStep => s.(flights := map[])
    case RecoverStep(now) => Recover(s, c, now)
  }

  const EMPTY := State(map[], map[], map[], [], map[], [], multiset{})

  function After(c: Config, steps: seq<Step>): State {
    if steps == [] then EMPTY else Apply(After(c, steps[..|steps| - 1]), c, steps[|steps| - 1])
  }
}
