/**
 * One row by itself, table by table: what each step of the protocol makes of one Run, one
 * Invocation, one lease, the recorded Usage, the provider calls and the interruptions
 * delivered to one Attempt. What a step does not name it does not touch.
 */
module ExecutorTables {
  import opened Wrappers
  import opened Budgets
  import Runs
  import opened Invocations
  import opened RetryPolicy
  import opened ExecutorState
  import opened ExecutorInvariants
  import opened ExecutorRuns
  import opened ExecutorHistory
  import opened ExecutorSafety
  import opened ExecutorOutcomes
  import opened ExecutorFlights
  import opened ExecutorEndings

  // ---------------------------------------------------------------------------
  // Runs
  // ---------------------------------------------------------------------------

  /** The paused form of a started Run: one that runs or waits now waits on the operator; hard once, hard still. */
  function Paused(run: Runs.Run, mode: Runs.PauseMode): Runs.Run {
    var halted := run.status in {Runs.Running, Runs.Waiting};
    Runs.Run(run.conversation, if halted then Runs.Waiting else run.status,
             if halted then Some(Runs.OnOperator) else None,
             Some(if mode == Runs.Hard || run.pause == Some(Runs.Hard) then Runs.Hard else Runs.Soft))
  }

  /** A transition another service may make of an unpaused Run. */
  predicate Allowed(run: Runs.Run, t: Runs.Transition) {
    && t.to in Runs.Successors(run.status) && run.pause == None
    && (t.to == Runs.Running && run.status == Runs.Waiting ==> t.cleared == run.waitReason)
    && (t.to == Runs.Running ==> t.cleared != Some(Runs.OnOperator))
    && (t.to == Runs.Waiting ==> t.waitReason.Some? && t.waitReason.value != Runs.OnOperator)
  }

  function RunAfter(run: Runs.Run, r: nat, step: Step): Runs.Run {
    match step
    case CancelStep(q) =>
      if q == r && !HasEnded(run) then Runs.Run(run.conversation, Runs.Cancelled, None, None) else run
    case PauseStep(q, mode) =>
      if q == r && !HasEnded(run) && run.status != Runs.Created then Paused(run, mode) else run
    case MoveRunStep(q, op) =>
      if q != r then run
      else (
        match op
        case ByPause(_) => run
        case ByResume =>
          if run.pause == None then run
          else Runs.Run(run.conversation, if run.status == Runs.Waiting then Runs.Running else run.status, None, None)
        case ByTransition(t) =>
          if t.to != Runs.Cancelled && Allowed(run, t) then
            Runs.Run(run.conversation, t.to, if t.to == Runs.Waiting then t.waitReason else None, None)
          else run)
    case _ => run
  }

  lemma PausedForm(run: Runs.Run, mode: Runs.PauseMode)
    requires Runs.WellFormed(run)
    ensures Runs.Pause(run, mode) ==
      if HasEnded(run) then Err(Runs.RunTerminal)
      else if run.status == Runs.Created then Err(Runs.NotStarted)
      else Ok(Paused(run, mode))
  {
    match run.pause
    case None =>
    case Some(held) => assert held == Runs.Soft || held == Runs.Hard;
  }

  lemma PauseRuns(s: State, r: nat, q: nat, mode: Runs.PauseMode)
    requires r in s.runs && Runs.WellFormed(s.runs[r])
    ensures r in PauseRun(s, q, mode).runs
      && PauseRun(s, q, mode).runs[r] == RunAfter(s.runs[r], r, PauseStep(q, mode))
  {
    PausedForm(s.runs[r], mode);
    hide Runs.Pause, AbortAll, Reached, FlightsOf, Paused;
  }

  lemma CancelRuns(s: State, r: nat, q: nat)
    requires r in s.runs && Runs.WellFormed(s.runs[r])
    ensures r in CancelRun(s, q).runs && CancelRun(s, q).runs[r] == RunAfter(s.runs[r], r, CancelStep(q))
  {
    hide SettleCancelledRun, AbortAll, Reached, FlightsOf;
    if q in s.runs { CancellableExactly(s.runs[q]); }
  }

  /** The row a transition or a resume leaves. */
  lemma OperatedForm(run: Runs.Run, r: nat, op: Runs.Operation)
    requires Runs.WellFormed(run) && !op.ByPause? && (op.ByTransition? ==> op.t.to != Runs.Cancelled)
    ensures RunAfter(run, r, MoveRunStep(r, op)) ==
      match Runs.Operate(run, op)
      case Ok(after) => after
      case Err(_) => run
  {
    match op
    case ByTransition(t) =>
      Runs.MovedExactly(run, t);
      assert Runs.Move(run, t).Ok? <==> Allowed(run, t);
      if Allowed(run, t) {
        assert Runs.Move(run, t).value == run.(status := t.to, waitReason := Runs.Move(run, t).value.waitReason,
                                               pause := None);
      }
    case ByResume =>
      Runs.ResumedExactly(run);
  }

  lemma MoveRuns(s: State, r: nat, q: nat, op: Runs.Operation)
    requires r in s.runs && Runs.WellFormed(s.runs[r])
    ensures r in MoveRun(s, q, op).runs && MoveRun(s, q, op).runs[r] == RunAfter(s.runs[r], r, MoveRunStep(q, op))
  {
    if q == r && !op.ByPause? && (op.ByTransition? ==> op.t.to != Runs.Cancelled) {
      OperatedForm(s.runs[r], r, op);
      hide RunAfter, Runs.Operate;
    } else {
      hide Runs.Operate, Allowed;
    }
  }

  lemma RunsUntouched(s: State, c: Config, step: Step)
    requires !step.CreateRun? && !step.CancelStep? && !step.PauseStep? && !step.MoveRunStep?
    ensures Apply(s, c, step).runs == s.runs
  {
    hide NextPermission, CapacityRefusalOf, FinalEnding, EndAttempt, SettleCancelledRun, RowsFor, RecoveredInvocation,
      HeldBack, AbortAll, Reached, DeadlineOf, Started, CanFinalize, Overdue;
  }

  /**
   * A Run's row moves only by the step that creates it, by its cancellation, its pause and what moves it, each exactly
   * when its own row admits it; a created one is new, unpaused and belongs to its conversation.
   */
  lemma RunMoves(s: State, c: Config, step: Step, r: nat)
    requires Inv(s, c)
    ensures r in s.runs ==>
      r in Apply(s, c, step).runs && Apply(s, c, step).runs[r] == RunAfter(s.runs[r], r, step)
    ensures r !in s.runs ==>
      && (r in Apply(s, c, step).runs <==> step.CreateRun? && step.run == r)
      && (r in Apply(s, c, step).runs ==>
            Apply(s, c, step).runs[r] == Runs.Run(step.conversation, Runs.Created, None, None))
  {
    hide Inv, Prepare, Execute, Return, RequestDecision, Finalize, InterruptAll, CancelRun, PauseRun, MoveRun, Recover,
      Runs.WellFormed, RunAfter, CollectFails;
    if r in s.runs {
      RunRows(s, c);
      match step
      case PauseStep(q, mode) => PauseRuns(s, r, q, mode);
      case CancelStep(q) => CancelRuns(s, r, q);
      case MoveRunStep(q, op) => MoveRuns(s, r, q, op);
      case CreateRun(_, _) => RunStays(s.runs[r], r, step);
      case _ =>
        RunsUntouched(s, c, step);
        RunStays(s.runs[r], r, step);
        hide Apply;
    } else {
      match step
      case PauseStep(q, mode) => NoNewRun(s, r, q, mode, Runs.ByResume);
      case CancelStep(q) => NoNewRun(s, r, q, Runs.Soft, Runs.ByResume);
      case MoveRunStep(q, op) => NoNewRun(s, r, q, Runs.Soft, op);
      case CreateRun(_, _) =>
      case _ => RunsUntouched(s, c, step); hide Apply;
    }
  }

  lemma RunRows(s: State, c: Config)
    requires Inv(s, c)
    ensures forall r :: r in s.runs ==> Runs.WellFormed(s.runs[r])
  {
    hide Runs.WellFormed;
  }

  lemma RunStays(run: Runs.Run, r: nat, step: Step)
    requires !step.CancelStep? && !step.PauseStep? && !step.MoveRunStep?
    ensures RunAfter(run, r, step) == run
  {
  }

  lemma NoNewRun(s: State, r: nat, q: nat, mode: Runs.PauseMode, op: Runs.Operation)
    requires r !in s.runs
    ensures r !in CancelRun(s, q).runs && r !in PauseRun(s, q, mode).runs && r !in MoveRun(s, q, op).runs
  {
    hide SettleCancelledRun, AbortAll, Reached, FlightsOf, Runs.Move, Runs.Pause, Runs.Operate;
  }

  // ---------------------------------------------------------------------------
  // Invocations
  // ---------------------------------------------------------------------------

  /** Open, and with no Attempt that has not ended. */
  predicate OpenAndIdle(inv: Invocation) {
    && inv.status in {Pending, Invocations.Running, Waiting}
    && forall k :: 0 <= k < |inv.attempts| ==> inv.attempts[k].status !in {Prepared, Executing}
  }

  /** A cancelled Run's Invocation ends cancelled unless it has ended or an Attempt of it still executes. */
  predicate Converged(inv: Invocation, after: Invocation) {
    after == if OpenAndIdle(inv) then inv.(status := Cancelled) else inv
  }

  lemma ConvergesExactly(inv: Invocation)
    ensures Converged(inv, Converge(inv))
  {
    assert OpenAndIdle(inv) <==> !Ended(inv.status) && !HasActiveAttempt(inv);
  }

  /** What recovery makes of an Invocation whose Attempt the dead process was executing. */
  ghost predicate RecoversTo(c: Config, inv: Invocation, run: Runs.Run, now: nat, after: Invocation) {
    && |after.attempts| == |inv.attempts| > 0
    && var n := |inv.attempts|; var attempt := after.attempts[n - 1];
      var cancelled := inv.request == None && run.status == Runs.Cancelled;
      && attempt.status == (if cancelled then Aborted else Interrupted)
      && attempt.failure == (if cancelled then None else Some(ByInterruption))
      && attempt.cancelled == cancelled && attempt.admittedAt == inv.attempts[n - 1].admittedAt
      && DecidedAs(attempt.retry, Classified(attempt.status, attempt.failure, attempt.cancelled),
                   FactsOf(c, inv, n, false, now))
      && SettledBy(inv, after, attempt, n, inv.request)
  }

  lemma RecoveryConcludes(c: Config, inv: Invocation, run: Runs.Run, now: nat)
    requires InvocationOk(inv) && LastExecuting(inv)
    ensures RecoversTo(c, inv, run, now, RecoveredInvocation(c, inv, run, now))
  {
    var n := |inv.attempts|;
    var e := RecoveredEnding(c, inv, n, run, now);
    var attempt := e.attempt;
    RecoveredEndingOk(c, inv, n, run, now);
    RetryDecidedExactly(Classified(attempt.status, attempt.failure, attempt.cancelled), FactsOf(c, inv, n, false, now));
    assert DecidedAs(attempt.retry, Classified(attempt.status, attempt.failure, attempt.cancelled),
                     FactsOf(c, inv, n, false, now));
    RecoverySettles(c, inv, n, e, now);
    EndedRow(inv, n, e);
    hide DecidedAs, SettledBy, EndAttempt, AttemptsOk, EndingOk, DecideRetry, DeadlineOf;
  }

  lemma RecoverySettles(c: Config, inv: Invocation, number: nat, e: Ending, now: nat)
    requires 1 <= number <= |inv.attempts| && inv.status == Invocations.Running && EndingOk(inv, number, e)
    requires e.attempt.status in {Aborted, Interrupted} && e.blocked == inv.request
    requires e.attempt.cancelled == (e.attempt.status == Aborted)
    requires e.attempt.failure == if e.attempt.status == Aborted then None else Some(ByInterruption)
    requires e.attempt.status == Aborted ==> inv.request == None
    requires DecidedAs(e.attempt.retry, Classified(e.attempt.status, e.attempt.failure, e.attempt.cancelled),
                       FactsOf(c, inv, number, false, now))
    ensures SettledBy(inv, EndAttempt(inv, number, e), e.attempt, number, inv.request)
  {
    hide Settle, DeadlineOf, InTime, DecidedAs;
    var moved := inv.(attempts := inv.attempts[number - 1 := e.attempt]);
    SettledExactly(moved, e.attempt, e.blocked);
    if e.attempt.retry.Some? && !e.attempt.retry.value.permitted {
      RefusedBecause(e.attempt.retry.value, Classified(e.attempt.status, e.attempt.failure, e.attempt.cancelled),
                     FactsOf(c, inv, number, false, now));
    }
  }

  /** What a step that neither prepares nor finalizes this Invocation's own Attempt makes of its row. */
  ghost predicate RowMoved(s: State, c: Config, step: Step, i: nat, after: Invocation)
    requires i in s.invocations && s.invocations[i].run in s.runs
  {
    var inv := s.invocations[i];
    var run := s.runs[inv.run];
    match step
    case RequestStep(a, decision) =>
      after == if a.invocation == i && a in s.flights && inv.request == None then inv.(request := Some(decision))
        else inv
    case CancelStep(r) => if r == inv.run && !HasEnded(run) then Converged(inv, after) else after == inv
    case FinalizeStep(a, _, _, _, commits) =>
      if commits && CanFinalize(s, a) && s.invocations[a.invocation].run == inv.run && run.status == Runs.Cancelled then
        Converged(inv, after)
      else after == inv
    case RecoverStep(now) =>
      if s.flights == map[] && LastExecuting(inv) then RecoversTo(c, inv, run, now, after) else after == inv
    case _ => after == inv
  }

  lemma RequestRows(s: State, c: Config, a: AttemptId, decision: nat, i: nat)
    requires Inv(s, c) && i in s.invocations && s.invocations[i].run in s.runs
    ensures i in RequestDecision(s, a, decision).invocations
    ensures RowMoved(s, c, RequestStep(a, decision), i, RequestDecision(s, a, decision).invocations[i])
  {
    hide Inv, ShapeOk, CanFinalize, RecoversTo, Converged;
    if a in s.flights {
      EveryFlightFlies(s, c, a);
      ExecutingRow(s, c, a);
    }
  }

  lemma SettledRow(invocations: map<nat, Invocation>, r: nat, i: nat)
    requires i in invocations
    ensures i in SettleCancelledRun(invocations, r)
    ensures SettleCancelledRun(invocations, r)[i] ==
            if invocations[i].run == r then Converge(invocations[i]) else invocations[i]
  {
  }

  lemma CancelRows(s: State, c: Config, r: nat, i: nat)
    requires i in s.invocations && s.invocations[i].run in s.runs
    ensures i in CancelRun(s, r).invocations && RowMoved(s, c, CancelStep(r), i, CancelRun(s, r).invocations[i])
  {
    hide SettleCancelledRun, AbortAll, Reached, FlightsOf, Converged, OpenAndIdle, Runs.Move;
    SettledRow(s.invocations, r, i);
    ConvergesExactly(s.invocations[i]);
    if r in s.runs { CancellableExactly(s.runs[r]); }
  }

  lemma FinalizeRows(s: State, c: Config, a: AttemptId, valid: bool, approval: nat, now: nat, commits: bool, i: nat)
    requires Inv(s, c) && i in s.invocations && s.invocations[i].run in s.runs
    requires CanFinalize(s, a) && commits ==> a.invocation != i
    ensures i in Finalize(s, c, a, valid, approval, now, commits).invocations
    ensures RowMoved(s, c, FinalizeStep(a, valid, approval, now, commits), i,
                     Finalize(s, c, a, valid, approval, now, commits).invocations[i])
  {
    hide Inv, FinalEnding, EndAttempt, Converged, OpenAndIdle, Converge, SettleCancelledRun, RowsFor, LastExecuting;
    if CanFinalize(s, a) && commits {
      hide Finalize;
      EveryFlightFlies(s, c, a);
      FinalizedRow(s, c, a, valid, approval, now, i);
      ConvergesExactly(s.invocations[i]);
    }
  }

  lemma RecoverRows(s: State, c: Config, now: nat, i: nat)
    requires Inv(s, c) && i in s.invocations && s.invocations[i].run in s.runs
    ensures i in Recover(s, c, now).invocations
    ensures RowMoved(s, c, RecoverStep(now), i, Recover(s, c, now).invocations[i])
  {
    hide Inv, Recover, RowsOk, FlightsOk, HeldBack, RecoveredInvocation, Converge, RowMoved;
    if s.flights == map[] {
      InvParts(s, c);
      RecoverRow(s, c, now, i);
      RecoveredMoves(s, c, now, i, Recover(s, c, now).invocations[i]);
    } else {
      NothingRecovered(s, c, now);
      NotMoved(s, c, now, i);
    }
  }

  lemma NotMoved(s: State, c: Config, now: nat, i: nat)
    requires i in s.invocations && s.invocations[i].run in s.runs && s.flights != map[]
    ensures RowMoved(s, c, RecoverStep(now), i, s.invocations[i])
  {
  }

  lemma NothingRecovered(s: State, c: Config, now: nat)
    requires s.flights != map[]
    ensures Recover(s, c, now) == s
  {
  }

  lemma RecoveredMoves(s: State, c: Config, now: nat, i: nat, after: Invocation)
    requires Inv(s, c) && s.flights == map[] && i in s.invocations && s.invocations[i].run in s.runs
    requires var inv := RecoveredInvocation(c, s.invocations[i], s.runs[s.invocations[i].run], now);
      after == if HeldBack(s, inv.run) then Converge(inv) else inv
    ensures RowMoved(s, c, RecoverStep(now), i, after)
  {
    hide Inv, InvocationOk, RecoversTo, RecoveredInvocation, Converge, LastExecuting, HeldBack, RowMoved;
    var inv := s.invocations[i];
    EveryRowOk(s, c, i);
    CancelledRest(s, c, i);
    if LastExecuting(inv) {
      RecoveryConcludes(c, inv, s.runs[inv.run], now);
      RecoveredEnds(c, inv, s.runs[inv.run], now);
      EndedStays(RecoveredInvocation(c, inv, s.runs[inv.run], now));
    } else {
      NotRecovered(c, inv, s.runs[inv.run], now);
      EndedStays(inv);
    }
    RecoveryMoved(s, c, now, i, after);
  }

  lemma RecoveryMoved(s: State, c: Config, now: nat, i: nat, after: Invocation)
    requires i in s.invocations && s.invocations[i].run in s.runs && s.flights == map[]
    ensures RowMoved(s, c, RecoverStep(now), i, after) <==>
      if LastExecuting(s.invocations[i]) then RecoversTo(c, s.invocations[i], s.runs[s.invocations[i].run], now, after)
      else after == s.invocations[i]
  {
    hide RecoversTo, LastExecuting;
  }

  lemma EndedStays(inv: Invocation)
    ensures Ended(inv.status) ==> Converge(inv) == inv
  {
  }

  /** A Run that recovery would converge is cancelled, and what of it does not execute has ended. */
  lemma CancelledRest(s: State, c: Config, i: nat)
    requires Inv(s, c) && i in s.invocations && s.invocations[i].run in s.runs
    ensures HeldBack(s, s.invocations[i].run) ==>
      s.runs[s.invocations[i].run].status == Runs.Cancelled
        && (Ended(s.invocations[i].status) || LastExecuting(s.invocations[i]))
  {
    hide RowsOk, LeasesOk, FlightsOk, CallsOk, UsageOk, DeliveredOk, CapacityOk, LastExecuting;
  }

  lemma RecoverRow(s: State, c: Config, now: nat, i: nat)
    requires RowsOk(s.runs, s.invocations) && s.flights == map[] && i in s.invocations
    ensures i in Recover(s, c, now).invocations
    ensures var inv := RecoveredInvocation(c, s.invocations[i], s.runs[s.invocations[i].run], now);
      Recover(s, c, now).invocations[i] == if HeldBack(s, inv.run) then Converge(inv) else inv
  {
    hide RecoveredInvocation, HeldBack, InvocationOk;
  }

  lemma NotRecovered(c: Config, inv: Invocation, run: Runs.Run, now: nat)
    requires !LastExecuting(inv)
    ensures RecoveredInvocation(c, inv, run, now) == inv
  {
  }

  /** A cancelled Run leaves no recovered Invocation to converge. */
  lemma RecoveredEnds(c: Config, inv: Invocation, run: Runs.Run, now: nat)
    requires InvocationOk(inv) && LastExecuting(inv)
    ensures RecoveredInvocation(c, inv, run, now).run == inv.run
    ensures run.status == Runs.Cancelled ==> Ended(RecoveredInvocation(c, inv, run, now).status)
  {
    RecoveredAs(c, inv, run, now);
    RecoveredInvocationOk(c, inv, run, now);
    hide InvocationOk, RecoveredInvocation;
  }

  lemma OtherRows(s: State, c: Config, step: Step, i: nat)
    requires i in s.invocations && s.invocations[i].run in s.runs
    requires step.PrepareStep? ==> step.invocation != i
    requires !step.RequestStep? && !step.CancelStep? && !step.FinalizeStep? && !step.RecoverStep?
    ensures i in Apply(s, c, step).invocations && Apply(s, c, step).invocations[i] == s.invocations[i]
  {
    hide NextPermission, CapacityRefusalOf, DeadlineOf, AbortAll, Reached, Runs.Operate, Runs.Pause;
  }

  /**
   * An Invocation's row moves by nothing but its own preparation and finalization, the one request of its executing
   * Attempt, its Run's cancellation, which ends it unless it has ended or an Attempt still executes, and recovery.
   */
  lemma RowMoves(s: State, c: Config, step: Step, i: nat)
    requires Inv(s, c) && i in s.invocations
    requires step.PrepareStep? ==> step.invocation != i
    requires step.FinalizeStep? && step.commits && CanFinalize(s, step.attempt) ==> step.attempt.invocation != i
    ensures s.invocations[i].run in s.runs && i in Apply(s, c, step).invocations
      && RowMoved(s, c, step, i, Apply(s, c, step).invocations[i])
  {
    hide Inv, RowMoved, InvocationOk, Prepare, Execute, Return, CollectFails, RequestDecision, Finalize, InterruptAll,
      CancelRun, PauseRun, MoveRun, Recover, CanFinalize;
    EveryRowOk(s, c, i);
    match step
    case RequestStep(a, decision) => RequestRows(s, c, a, decision, i);
    case CancelStep(r) => CancelRows(s, c, r, i);
    case FinalizeStep(a, valid, approval, now, commits) =>
      FinalizeRows(s, c, a, valid, approval, now, commits, i);
    case RecoverStep(now) => RecoverRows(s, c, now, i);
    case _ =>
      OtherRows(s, c, step, i);
      OtherRowStays(s, c, step, i);
      hide Apply;
  }

  lemma OtherRowStays(s: State, c: Config, step: Step, i: nat)
    requires i in s.invocations && s.invocations[i].run in s.runs
    requires !step.RequestStep? && !step.CancelStep? && !step.FinalizeStep? && !step.RecoverStep?
    ensures RowMoved(s, c, step, i, s.invocations[i])
  {
    hide CanFinalize, RecoversTo;
  }

  /** An Invocation is created once, for a Run that takes new work, with an Attempt to allocate; it is pending. */
  lemma InvocationsAreCreated(s: State, c: Config, step: Step, i: nat)
    requires i !in s.invocations
    ensures i in Apply(s, c, step).invocations <==>
      && step.CreateInvocation? && step.invocation == i
      && step.of in s.runs && !Stopped(s.runs[step.of]) && step.allocation.attempts >= 1
    ensures i in Apply(s, c, step).invocations ==>
      Apply(s, c, step).invocations[i] ==
      Invocation(step.of, Pending, None, None, None, step.manifest, step.allocation, None, [])
  {
    if step.CreateInvocation? && step.of in s.runs {
      assert Runs.AdmitsNewWork(s.runs[step.of]) <==> !Stopped(s.runs[step.of]);
    }
    hide NextPermission, CapacityRefusalOf, DeadlineOf, AbortAll, Reached, Runs.Operate, Runs.Pause, Runs.Move,
      FinalEnding, EndAttempt, RecoveredInvocation, HeldBack;
  }

  // ---------------------------------------------------------------------------
  // Leases, Usage, provider calls and deliveries
  // ---------------------------------------------------------------------------

  /** A lease is released by the finalization of its Attempt and by recovery, and never changes otherwise. */
  lemma LeaseMoves(s: State, c: Config, step: Step, a: AttemptId)
    requires Inv(s, c) && a in s.leases
    ensures a in Apply(s, c, step).leases
    ensures Apply(s, c, step).leases[a] ==
      if (step.FinalizeStep? && step.attempt == a && step.commits && CanFinalize(s, a))
         || (step.RecoverStep? && s.flights == map[]) then s.leases[a].(active := false)
      else s.leases[a]
  {
    hide Inv, Finalize, Recover, Prepare;
    match step
    case PrepareStep(i, now, startNow, available, commits) =>
      PreparedLeases(s, c, i, now, startNow, available, commits, a);
    case FinalizeStep(b, valid, approval, now, commits) => FinalizedLeases(s, c, b, valid, approval, now, commits, a);
    case RecoverStep(now) =>
      if s.flights == map[] {
        InvParts(s, c);
        RecoveredShape(s, c, now);
      } else {
        NothingRecovered(s, c, now);
      }
    case _ => LeasesUntouched(s, c, step); hide Apply;
  }

  lemma PreparedLeases(s: State, c: Config, i: nat, now: nat, startNow: nat, available: bool, commits: bool,
                       a: AttemptId)
    requires Inv(s, c) && a in s.leases
    ensures var s' := Prepare(s, c, i, now, startNow, available, commits);
      a in s'.leases && s'.leases[a] == s.leases[a]
  {
    hide Inv, NextPermission, CapacityRefusalOf, DeadlineOf;
    if i in s.invocations { NewLease(s, c, i); }
  }

  lemma NewLease(s: State, c: Config, i: nat)
    requires Inv(s, c) && i in s.invocations
    ensures AttemptId(i, |s.invocations[i].attempts| + 1) !in s.leases
  {
    NewKey(s, i);
  }

  lemma FinalizedLeases(s: State, c: Config, b: AttemptId, valid: bool, approval: nat, now: nat, commits: bool,
                        a: AttemptId)
    requires Inv(s, c) && a in s.leases
    ensures var s' := Finalize(s, c, b, valid, approval, now, commits);
      && a in s'.leases
      && s'.leases[a] ==
            if a == b && commits && CanFinalize(s, b) then s.leases[a].(active := false) else s.leases[a]
  {
    hide Inv, FinalEnding, EndAttempt, SettleCancelledRun, RowsFor;
    if CanFinalize(s, b) { EveryFlightFlies(s, c, b); }
  }

  lemma LeasesUntouched(s: State, c: Config, step: Step)
    requires !step.PrepareStep? && !step.FinalizeStep? && !step.RecoverStep?
    ensures Apply(s, c, step).leases == s.leases
  {
    hide CancelRun, PauseRun, MoveRun, InterruptAll;
    match step
    case CancelStep(r) => ControlKeepsLeases(s, r, Runs.Soft, Runs.ByResume);
    case PauseStep(r, mode) => ControlKeepsLeases(s, r, mode, Runs.ByResume);
    case MoveRunStep(r, op) => ControlKeepsLeases(s, r, Runs.Soft, op);
    case InterruptStep(a, cause) => InterruptKeepsLeases(s, {a}, cause);
    case DeadlinesStep(now) => InterruptKeepsLeases(s, Overdue(s, now), CausedByDeadline);
    case ShutdownStep => InterruptKeepsLeases(s, s.flights.Keys, CausedByShutdown);
    case _ =>
  }

  lemma InterruptKeepsLeases(s: State, targets: set<AttemptId>, cause: Cause)
    ensures InterruptAll(s, targets, cause).leases == s.leases
  {
    hide AbortAll, Reached;
  }

  lemma ControlKeepsLeases(s: State, r: nat, mode: Runs.PauseMode, op: Runs.Operation)
    ensures CancelRun(s, r).leases == s.leases && PauseRun(s, r, mode).leases == s.leases
      && MoveRun(s, r, op).leases == s.leases
  {
    hide AbortAll, Reached, Runs.Operate, Runs.Pause, Runs.Move, SettleCancelledRun, FlightsOf;
  }

  /** Usage is recorded by a committed finalization alone: one row per chunk its provider returned, in order. */
  lemma UsageMoves(s: State, c: Config, step: Step)
    requires Inv(s, c)
    ensures Apply(s, c, step).usage ==
      if step.FinalizeStep? && step.commits && CanFinalize(s, step.attempt) then
        s.usage + RowsFor(step.attempt, s.flights[step.attempt].outcome.value.usage)
      else s.usage
  {
    hide Inv, Finalize, RowsFor, CanFinalize;
    match step
    case FinalizeStep(a, valid, approval, now, commits) => FinalizedUsage(s, c, a, valid, approval, now, commits);
    case _ => UsageUntouched(s, c, step); hide Apply;
  }

  lemma FinalizedUsage(s: State, c: Config, a: AttemptId, valid: bool, approval: nat, now: nat, commits: bool)
    requires Inv(s, c)
    ensures Finalize(s, c, a, valid, approval, now, commits).usage ==
      if commits && CanFinalize(s, a) then s.usage + RowsFor(a, s.flights[a].outcome.value.usage) else s.usage
  {
    hide Inv, FinalEnding, EndAttempt, SettleCancelledRun, RowsFor, ShapeOk;
    if CanFinalize(s, a) { EveryFlightFlies(s, c, a); }
  }

  lemma UsageUntouched(s: State, c: Config, step: Step)
    requires !step.FinalizeStep?
    ensures Apply(s, c, step).usage == s.usage
  {
    hide NextPermission, CapacityRefusalOf, DeadlineOf, AbortAll, Reached, Runs.Operate, Runs.Pause, Runs.Move,
      RecoveredInvocation, HeldBack, SettleCancelledRun;
  }

  /**
   * The provider is called exactly by the execution of an idle flight that has no outcome, carries no interruption and
   * whose Run takes new work, unless its dispatch rejects.
   */
  lemma CallMoves(s: State, c: Config, step: Step)
    ensures var calls := Apply(s, c, step).calls;
      if step.ExecuteStep? && !step.rejects && step.attempt in s.flights && s.flights[step.attempt].run in s.runs
         && s.flights[step.attempt].phase == Idle && s.flights[step.attempt].outcome == None
         && s.flights[step.attempt].interruption == None && !Stopped(s.runs[s.flights[step.attempt].run]) then
        calls == s.calls + [ProviderCall(step.attempt, s.runs[s.flights[step.attempt].run], None)]
      else calls == s.calls
  {
    hide NextPermission, CapacityRefusalOf, DeadlineOf, AbortAll, Reached, Runs.Operate, Runs.Pause, Runs.Move,
      FinalEnding, EndAttempt, RecoveredInvocation, HeldBack, SettleCancelledRun, RowsFor;
    if step.ExecuteStep? && step.attempt in s.flights && s.flights[step.attempt].run in s.runs {
      var run := s.runs[s.flights[step.attempt].run];
      assert Runs.AdmitsNewWork(run) <==> !Stopped(run);
    }
  }

  /** Every cause a step gives a flight is delivered to it, once, except the one a dispatch is withheld for. */
  ghost predicate Delivered(s: State, a: AttemptId, step: Step) {
    && a in s.flights && s.flights[a].run in s.runs && !step.ExecuteStep?
    && s.flights[a].interruption == None && s.flights[a].outcome == None
    && CauseGiven(s.flights[a], s.runs[s.flights[a].run], a, step).Some?
  }

  lemma ReachedOnce(s: State, targets: set<AttemptId>, a: AttemptId, cause: Cause)
    ensures InterruptAll(s, targets, cause).delivered[a] ==
            s.delivered[a] + if a in targets && a in s.flights && Interruptible(s.flights[a]) then 1 else 0
  {
  }

  lemma DeliveryMoves(s: State, c: Config, step: Step, a: AttemptId)
    requires Inv(s, c)
    ensures Apply(s, c, step).delivered[a] == s.delivered[a] + if Delivered(s, a, step) then 1 else 0
  {
    hide Inv, InterruptAll, CancelRun, PauseRun, Delivered, Flying;
    if a in s.flights { EveryFlightFlies(s, c, a); }
    match step
    case InterruptStep(b, cause) => TargetsReached(s, a, {b}, cause, step);
    case DeadlinesStep(now) => TargetsReached(s, a, Overdue(s, now), CausedByDeadline, step);
    case ShutdownStep => TargetsReached(s, a, s.flights.Keys, CausedByShutdown, step);
    case CancelStep(r) => CancelDelivers(s, a, r);
    case PauseStep(r, mode) => PauseDelivers(s, a, r, mode);
    case _ => NothingDelivered(s, c, step); hide Apply;
  }

  lemma TargetsReached(s: State, a: AttemptId, targets: set<AttemptId>, cause: Cause, step: Step)
    requires a in s.flights ==> Flying(s, a)
    requires (step.InterruptStep? && targets == {step.attempt})
      || (step.DeadlinesStep? && targets == Overdue(s, step.now)) || (step.ShutdownStep? && targets == s.flights.Keys)
    ensures InterruptAll(s, targets, cause).delivered[a] == s.delivered[a] + if Delivered(s, a, step) then 1 else 0
  {
    hide InterruptAll, Exists, Row;
    ReachedOnce(s, targets, a, cause);
  }

  lemma CancelDelivers(s: State, a: AttemptId, r: nat)
    requires a in s.flights ==> Flying(s, a)
    ensures CancelRun(s, r).delivered[a] == s.delivered[a] + if Delivered(s, a, CancelStep(r)) then 1 else 0
  {
    hide SettleCancelledRun, AbortAll, Reached, Runs.Move;
    if r in s.runs { CancellableExactly(s.runs[r]); }
    ReachedOnce(s, FlightsOf(s, r), a, CausedByCancel);
  }

  lemma PauseDelivers(s: State, a: AttemptId, r: nat, mode: Runs.PauseMode)
    requires a in s.flights ==> Flying(s, a)
    ensures PauseRun(s, r, mode).delivered[a] == s.delivered[a] + if Delivered(s, a, PauseStep(r, mode)) then 1 else 0
  {
    hide AbortAll, Reached;
    ReachedOnce(s, FlightsOf(s, r), a, CausedByPause);
  }

  lemma NothingDelivered(s: State, c: Config, step: Step)
    requires !step.InterruptStep? && !step.DeadlinesStep? && !step.ShutdownStep? && !step.CancelStep?
      && !step.PauseStep?
    ensures Apply(s, c, step).delivered == s.delivered
    ensures forall a :: !Delivered(s, a, step)
  {
    hide NextPermission, CapacityRefusalOf, DeadlineOf, AbortAll, Reached, Runs.Operate, Runs.Pause, Runs.Move,
      FinalEnding, EndAttempt, RecoveredInvocation, HeldBack, SettleCancelledRun, RowsFor;
  }
}
