/**
 * How an Attempt ends, told from the rows: which interruption is in force, what the
 * provider reported, what was consumed and what the Invocation had requested decide its
 * status, its retry and its Invocation's end, each exactly; and why one was ever aborted.
 */
module ExecutorEndings {
  import opened Wrappers
  import opened Budgets
  import Runs
  import opened Invocations
  import opened RetryPolicy
  import opened ExecutorState
  import opened ExecutorInvariants
  import opened ExecutorRuns
  import opened ExecutorHistory
  import opened ExecutorSafety
  import opened ExecutorOutcomes
  import opened ExecutorFlights

  // ---------------------------------------------------------------------------
  // One Attempt
  // ---------------------------------------------------------------------------

  /** Something interrupts the Attempt: its Run's row, a cause held in memory, or its provider. */
  predicate IsInterrupted(run: Runs.Run, held: Option<Cause>, completion: Completion) {
    run.status == Runs.Cancelled || run.pause == Some(Runs.Hard) || held.Some? || completion.ProviderInterrupted?
  }

  /**
   * A cancelled Run goes before the cause held in memory, that before a hard pause, that before the
   * provider's word.
   */
  predicate IsCause(cause: Cause, run: Runs.Run, held: Option<Cause>, completion: Completion) {
    if run.status == Runs.Cancelled then cause == CausedByCancel
    else if held.Some? then cause == held.value
    else if run.pause == Some(Runs.Hard) then cause == CausedByPause
    else completion == ProviderInterrupted(Some(cause))
  }

  /** What a retry could follow, were it not for the allocation. */
  predicate CouldRetry(completion: Completion, valid: bool) {
    || (completion == ProviderCompleted && !valid)
    || completion in {ProviderError(true), ToolFailed, ApprovalRequired(false)}
  }

  /** A well-formed call nobody approved yet, of an Attempt that nothing interrupted and that asked for nothing. */
  predicate ApprovalDue(inv: Invocation, run: Runs.Run, held: Option<Cause>, completion: Completion) {
    inv.request == None && !IsInterrupted(run, held, completion) && completion == ApprovalRequired(true)
  }

  /**
   * How the Attempt ends: a committed request decides it before everything else, then what interrupted it, then what
   * the provider reported; and where a retry could follow, exhaustion does.
   */
  ghost predicate EndsAs(attempt: Attempt, asked: bool, run: Runs.Run, held: Option<Cause>, completion: Completion,
                         valid: bool, exhausted: bool) {
    var interrupted := IsInterrupted(run, held, completion);
    var cancelled := !asked && IsCause(CausedByCancel, run, held, completion);
    var late := !asked && IsCause(CausedByDeadline, run, held, completion);
    var stopped := !asked && interrupted && !cancelled && !late;
    var ran := !asked && !interrupted;
    && AttemptEnded(attempt.status)
    && (attempt.status == Aborted <==> cancelled)
    && (attempt.cancelled <==> cancelled)
    && (attempt.status == TimedOut <==> late)
    && (attempt.status == Interrupted <==> stopped && !exhausted)
    && (attempt.status == Completed <==> ran && completion == ProviderCompleted && valid)
    && (attempt.failure == None <==> attempt.status in {Aborted, Completed})
    && (attempt.failure == Some(DecisionRequested) <==> asked)
    && (attempt.failure == Some(ByInterruption) <==> attempt.status in {TimedOut, Interrupted})
    && (attempt.failure == Some(AllocationExhausted) <==>
        exhausted && (stopped || (ran && CouldRetry(completion, valid))))
    && (attempt.failure == Some(ProviderPermanent) <==> ran && completion == ProviderError(false))
    && (attempt.failure == Some(ProviderTransient) <==> ran && completion == ProviderError(true) && !exhausted)
    && (attempt.failure == Some(ResultInvalid) <==> ran && completion == ProviderCompleted && !valid && !exhausted)
    && (attempt.failure == Some(ToolFailure) <==>
        ran && (completion in {ApprovalRequired(true), DecisionReported}
             || (completion in {ToolFailed, ApprovalRequired(false)} && !exhausted)))
  }

  /** What the retry decision of the Attempt reads, with the approval it is due. */
  function FactsOf(c: Config, inv: Invocation, number: nat, approvalDue: bool, now: nat): RetryFacts
    requires 1 <= number <= |inv.attempts|
  {
    RetryFacts(number, inv.allocation.attempts, if number > 1 then inv.attempts[number - 2].failure else None,
               approvalDue, inv.request.Some?, DeadlineOf(inv), now, c.backoffBaseMs, c.backoffMaxMs)
  }

  /** The ending, exactly: the Attempt as told, its retry decided on these facts, and what it is blocked on. */
  ghost predicate Concluded(e: Ending, c: Config, inv: Invocation, number: nat, run: Runs.Run, held: Option<Cause>,
                            completion: Completion, consumed: Allocation, valid: bool, approval: nat, now: nat)
    requires 1 <= number <= |inv.attempts|
  {
    var due := ApprovalDue(inv, run, held, completion);
    && EndsAs(e.attempt, inv.request.Some?, run, held, completion, valid, Exhausted(consumed, inv.allocation))
    && DecidedAs(e.attempt.retry, Classified(e.attempt.status, e.attempt.failure, e.attempt.cancelled),
                 FactsOf(c, inv, number, due, now))
    && e.attempt.admittedAt == inv.attempts[number - 1].admittedAt
    && e.blocked == (if inv.request.Some? then inv.request else if due then Some(approval) else None)
  }

  lemma ToldByRows(attempt: Attempt, run: Runs.Run, held: Option<Cause>, completion: Completion, valid: bool,
                   exhausted: bool)
    requires var seen := if completion == ApprovalRequired(false) then ToolFailed else completion;
      ClassifiedAs(Classified(attempt.status, attempt.failure, attempt.cancelled), seen, valid,
                   EffectiveInterruption(run, held), exhausted)
    ensures EndsAs(attempt, false, run, held, completion, valid, exhausted)
  {
  }

  lemma ConcludedExactly(c: Config, inv: Invocation, number: nat, run: Runs.Run, held: Option<Cause>,
                         completion: Completion, consumed: Allocation, valid: bool, approval: nat, now: nat)
    requires 1 <= number <= |inv.attempts|
    ensures Concluded(EndingOf(c, inv, number, run, held, completion, consumed, valid, approval, now), c, inv, number,
                      run, held, completion, consumed, valid, approval, now)
  {
    hide Exhausted, Classify, DecideRetry, DeadlineOf, EndsAs, ClassifiedAs, DecidedAs;
    var e := EndingOf(c, inv, number, run, held, completion, consumed, valid, approval, now);
    var interruption := EffectiveInterruption(run, held);
    var seen := if completion == ApprovalRequired(false) then ToolFailed else completion;
    var classified := Classify(seen, valid, interruption, consumed, inv.allocation);
    ClassifiedExactly(seen, valid, interruption, consumed, inv.allocation);
    ClassifyProper(seen, valid, interruption, consumed, inv.allocation);
    var asked := Classified(Faulted, Some(DecisionRequested), false);
    var facts := FactsOf(c, inv, number, ApprovalDue(inv, run, held, completion), now);
    RetryDecidedExactly(if inv.request.Some? then asked else classified, facts);
    if inv.request == None {
      ToldByRows(e.attempt, run, held, completion, valid, Exhausted(consumed, inv.allocation));
    } else {
      AskedEnds(e.attempt, run, held, completion, valid, Exhausted(consumed, inv.allocation));
    }
  }

  lemma AskedEnds(attempt: Attempt, run: Runs.Run, held: Option<Cause>, completion: Completion, valid: bool,
                  exhausted: bool)
    requires attempt.status == Faulted && attempt.failure == Some(DecisionRequested) && !attempt.cancelled
    ensures EndsAs(attempt, true, run, held, completion, valid, exhausted)
  {
  }

  // ---------------------------------------------------------------------------
  // One finalization
  // ---------------------------------------------------------------------------

  /** What the Invocation has on record with the Usage its provider just returned. */
  ghost function ConsumedNow(s: State, a: AttemptId): Allocation
    requires CanFinalize(s, a)
  {
    Consumed(s.usage + RowsFor(a, s.flights[a].outcome.value.usage), a.invocation,
             |s.invocations[a.invocation].attempts|)
  }

  /** The Attempt's row as `Concluded` tells it, from the flight and the rows of the moment. */
  ghost predicate ConcludedNow(s: State, c: Config, a: AttemptId, valid: bool, approval: nat, now: nat,
                               attempt: Attempt) {
    && CanFinalize(s, a)
    && var inv, f := s.invocations[a.invocation], s.flights[a];
      var run, completion := s.runs[inv.run], f.outcome.value.completion;
      var due := ApprovalDue(inv, run, f.interruption, completion);
    && EndsAs(attempt, inv.request.Some?, run, f.interruption, completion, valid,
              Exhausted(ConsumedNow(s, a), inv.allocation))
    && DecidedAs(attempt.retry, Classified(attempt.status, attempt.failure, attempt.cancelled),
                 FactsOf(c, inv, a.number, due, now))
    && attempt.admittedAt == Row(s.invocations, a).admittedAt
  }

  /** What the ended Attempt makes of its Invocation, and why a failed one failed. */
  ghost predicate SettledBy(inv: Invocation, after: Invocation, attempt: Attempt, number: nat, blocked: Option<nat>)
    requires 1 <= number <= |inv.attempts|
  {
    && after == inv.(attempts := inv.attempts[number - 1 := attempt], status := after.status, failure := after.failure,
                     blockedBy := after.blockedBy)
    && (after.status == Blocked <==> blocked.Some?)
    && (after.status == Succeeded <==> attempt.status == Completed)
    && (after.status == Cancelled <==> blocked == None && attempt.status == Aborted)
    && (after.status == Invocations.Running <==> Permitted(attempt))
    && (after.status == Failed <==>
        blocked == None && attempt.status !in {Completed, Aborted} && !Permitted(attempt))
    && after.blockedBy == (if blocked.Some? then blocked else inv.blockedBy)
    && (after.status != Failed ==> after.failure == inv.failure)
    && (after.status == Failed ==>
          && (after.failure == Some(FailedPermanent) <==> attempt.failure == Some(ProviderPermanent))
          && (after.failure == Some(FailedAttempts) <==>
              attempt.failure == Some(ToolFailure) && number > 1
                && inv.attempts[number - 2].failure == Some(ToolFailure))
          && (after.failure == Some(FailedInvalidResult) <==>
              attempt.failure == Some(ResultInvalid) && number >= inv.allocation.attempts)
          && after.failure in {Some(FailedPermanent), Some(FailedAttempts), Some(FailedInvalidResult),
                               Some(FailedAllocation)})
  }

  lemma EndingSettles(c: Config, inv: Invocation, number: nat, run: Runs.Run, held: Option<Cause>,
                      completion: Completion, consumed: Allocation, valid: bool, approval: nat, now: nat, e: Ending)
    requires 1 <= number <= |inv.attempts| && !Ended(inv.status) && inv.status == Invocations.Running
    requires EndingOk(inv, number, e)
    requires Concluded(e, c, inv, number, run, held, completion, consumed, valid, approval, now)
    ensures SettledBy(inv, EndAttempt(inv, number, e), e.attempt, number, e.blocked)
  {
    hide Exhausted, Settle, DeadlineOf, InTime, DecidedAs;
    var moved := inv.(attempts := inv.attempts[number - 1 := e.attempt]);
    var facts := FactsOf(c, inv, number, ApprovalDue(inv, run, held, completion), now);
    SettledExactly(moved, e.attempt, e.blocked);
    if e.attempt.retry.Some? && !e.attempt.retry.value.permitted {
      RefusedBecause(e.attempt.retry.value, Classified(e.attempt.status, e.attempt.failure, e.attempt.cancelled),
                     facts);
    }
  }

  /** The Decision a finalization must leave the Invocation blocked on, by what was committed and what was reported. */
  function BlockingDecision(s: State, a: AttemptId, approval: nat): Option<nat>
    requires CanFinalize(s, a)
  {
    var inv, f := s.invocations[a.invocation], s.flights[a];
    if inv.request.Some? then inv.request
    else if ApprovalDue(inv, s.runs[inv.run], f.interruption, f.outcome.value.completion) then Some(approval)
    else None
  }

  /**
   * A committed finalization, exactly: how the Attempt ends, what that makes of its Invocation, and what is reported.
   * The Invocation ends blocked if and only if it has a committed request, or a well-formed call awaits approval and
   * nothing interrupted the Attempt; then it is blocked on, and reported with, that very Decision.
   */
  lemma FinalizedExactly(s: State, c: Config, a: AttemptId, valid: bool, approval: nat, now: nat)
    requires Inv(s, c) && CanFinalize(s, a)
    ensures var s', inv := Finalize(s, c, a, valid, approval, now, true), s.invocations[a.invocation];
      && Exists(s'.invocations, a)
      && ConcludedNow(s, c, a, valid, approval, now, Row(s'.invocations, a))
      && SettledBy(inv, s'.invocations[a.invocation], Row(s'.invocations, a), a.number,
                   BlockingDecision(s, a, approval))
      && FinalizeReport(s, c, a, valid, approval, now, true) ==
            ReportOf(s, a, approval, Row(s'.invocations, a), s'.invocations[a.invocation].status)
    ensures FinalizeReport(s, c, a, valid, approval, now, false) == FinalizeThrew
  {
    assert FinalizeReport(s, c, a, valid, approval, now, false) == FinalizeThrew;
    hide *;
    EndingIsConcluded(s, c, a, valid, approval, now);
    FinalizedInto(s, c, a, valid, approval, now);
    FinalizedReport(s, c, a, valid, approval, now);
  }

  /** The row that a committed finalization leaves of the Attempt's Invocation, and what that settles. */
  lemma FinalizedInto(s: State, c: Config, a: AttemptId, valid: bool, approval: nat, now: nat)
    requires Inv(s, c) && CanFinalize(s, a)
    ensures !AttemptEnded(Row(s.invocations, a).status)
    ensures var s', inv := Finalize(s, c, a, valid, approval, now, true), s.invocations[a.invocation];
      var e := FinalEnding(s, c, a, valid, approval, now);
      && Exists(s'.invocations, a) && Row(s'.invocations, a) == e.attempt
      && s'.invocations[a.invocation] == EndAttempt(inv, a.number, e)
      && SettledBy(inv, EndAttempt(inv, a.number, e), e.attempt, a.number, BlockingDecision(s, a, approval))
  {
    hide FinalEnding, Finalize, EndAttempt, SettledBy, InvocationOk, EndingOk, Concluded, BlockingDecision, Inv,
      ConcludedNow, ConsumedNow, LastExecuting, Permitted, Converge, RowsOk, FlightsOk;
    EveryFlightFlies(s, c, a);
    InvParts(s, c);
    FinalizedInvocation(s, c, a, valid, approval, now);
    var inv, e := s.invocations[a.invocation], FinalEnding(s, c, a, valid, approval, now);
    SettledInto(s, c, a, valid, approval, now);
    FinalizedRow(s, c, a, valid, approval, now, a.invocation);
    EndingMeans(s, c, a, valid, approval, now);
    EveryRowOk(s, c, a.invocation);
    if !Permitted(e.attempt) { EndedConverged(inv, a.number, e); }
    EndedRow(inv, a.number, e);
  }

  lemma InvParts(s: State, c: Config)
    requires Inv(s, c)
    ensures RowsOk(s.runs, s.invocations) && FlightsOk(s.invocations, s.flights)
  {
  }

  lemma SettledInto(s: State, c: Config, a: AttemptId, valid: bool, approval: nat, now: nat)
    requires CanFinalize(s, a) && s.invocations[a.invocation].status == Invocations.Running
    requires EndingOk(s.invocations[a.invocation], a.number, FinalEnding(s, c, a, valid, approval, now))
    ensures var inv, e := s.invocations[a.invocation], FinalEnding(s, c, a, valid, approval, now);
      SettledBy(inv, EndAttempt(inv, a.number, e), e.attempt, a.number, BlockingDecision(s, a, approval))
  {
    hide FinalEnding, EndAttempt, SettledBy, EndingOk, Concluded, BlockingDecision, ConcludedNow, ConsumedNow;
    var inv, f, e := s.invocations[a.invocation], s.flights[a], FinalEnding(s, c, a, valid, approval, now);
    EndingIsConcluded(s, c, a, valid, approval, now);
    EndingSettles(c, inv, a.number, s.runs[inv.run], f.interruption, f.outcome.value.completion, ConsumedNow(s, a),
                  valid, approval, now, e);
  }

  lemma EveryRowOk(s: State, c: Config, i: nat)
    requires Inv(s, c) && i in s.invocations
    ensures InvocationOk(s.invocations[i]) && s.invocations[i].run in s.runs
  {
    hide LeasesOk, FlightsOk, CallsOk, UsageOk, DeliveredOk, CancelledConverged, CapacityOk, InvocationOk;
  }

  /** An Invocation that ended has nothing left to converge. */
  lemma EndedConverged(inv: Invocation, number: nat, e: Ending)
    requires InvocationOk(inv) && number == |inv.attempts| && LastExecuting(inv) && EndingOk(inv, number, e)
    requires !Permitted(e.attempt)
    ensures Converge(EndAttempt(inv, number, e)) == EndAttempt(inv, number, e)
  {
    hide InvocationOk, EndingOk, Permitted, LastExecuting;
    EndAttemptOk(inv, number, e);
    hide EndAttempt;
  }

  lemma FinalizedReport(s: State, c: Config, a: AttemptId, valid: bool, approval: nat, now: nat)
    requires Inv(s, c) && CanFinalize(s, a)
    ensures var inv, e := s.invocations[a.invocation], FinalEnding(s, c, a, valid, approval, now);
      FinalizeReport(s, c, a, valid, approval, now, true) ==
      ReportOf(s, a, approval, e.attempt, EndAttempt(inv, a.number, e).status)
  {
    hide Inv, FinalEnding, EndAttempt, Concluded, ConcludedNow, ConsumedNow, Permitted, ApprovalDue, IsInterrupted,
      ShapeOk, DeadlineOf;
    EveryFlightFlies(s, c, a);
    EndingIsConcluded(s, c, a, valid, approval, now);
  }

  /** A finalization that finds its Attempt ended drops the flight and reports the rows as they stand. */
  lemma FinalizedBefore(s: State, c: Config, a: AttemptId, valid: bool, approval: nat, now: nat)
    requires CanFinalize(s, a) && AttemptEnded(Row(s.invocations, a).status)
    ensures Finalize(s, c, a, valid, approval, now, true) == s.(flights := s.flights - {a})
    ensures FinalizeReport(s, c, a, valid, approval, now, true) ==
            Finalized(Row(s.invocations, a), SettledAs(s.invocations[a.invocation].status))
  {
  }

  /** A committed request is reported as asked for, an approval as needed, anything else as the settlement alone. */
  function ReportOf(s: State, a: AttemptId, approval: nat, attempt: Attempt, status: InvocationStatus):
      ExecutionOutcome
    requires CanFinalize(s, a)
  {
    var settlement := if Permitted(attempt) then RetryPending(attempt.retry.value) else SettledAs(status);
    var inv := s.invocations[a.invocation];
    if inv.request.Some? then DecisionAsked(attempt, settlement, inv.request.value)
    else if BlockingDecision(s, a, approval).Some? then ApprovalNeeded(attempt, settlement, approval)
    else Finalized(attempt, settlement)
  }

  lemma EndingIsConcluded(s: State, c: Config, a: AttemptId, valid: bool, approval: nat, now: nat)
    requires CanFinalize(s, a)
    ensures var inv, f, e := s.invocations[a.invocation], s.flights[a], FinalEnding(s, c, a, valid, approval, now);
      && ConcludedNow(s, c, a, valid, approval, now, e.attempt)
      && e.blocked == BlockingDecision(s, a, approval)
      && Concluded(e, c, inv, a.number, s.runs[inv.run], f.interruption, f.outcome.value.completion, ConsumedNow(s, a),
                   valid, approval, now)
  {
    hide EndingOf, Consumed, RowsFor, EndsAs, DecidedAs, DeadlineOf, ApprovalDue, Exhausted;
    var inv, f := s.invocations[a.invocation], s.flights[a];
    ConcludedExactly(c, inv, a.number, s.runs[inv.run], f.interruption, f.outcome.value.completion, ConsumedNow(s, a),
                     valid, approval, now);
  }

  /**
   * A required approval blocks: of an Invocation that requested nothing, a committed finalization leaves it blocked if
   * and only if the provider reported a well-formed call that awaits approval, nothing was delivered to the Attempt,
   * and its Run is neither cancelled nor hard paused; it is then blocked on that Decision, and reported with it.
   */
  lemma ApprovalBlocks(s: State, c: Config, a: AttemptId, valid: bool, approval: nat, now: nat)
    requires Inv(s, c) && CanFinalize(s, a) && s.invocations[a.invocation].request == None
    ensures var s', r :=
      Finalize(s, c, a, valid, approval, now, true), FinalizeReport(s, c, a, valid, approval, now, true);
      var f, run := s.flights[a], s.runs[s.invocations[a.invocation].run];
      && Exists(s'.invocations, a)
      && (s'.invocations[a.invocation].status == Blocked <==>
          && f.outcome.value.completion == ApprovalRequired(true) && f.interruption == None
          && run.status != Runs.Cancelled && run.pause != Some(Runs.Hard))
      && (s'.invocations[a.invocation].status == Blocked ==>
            && s'.invocations[a.invocation].blockedBy == Some(approval)
            && r == ApprovalNeeded(Row(s'.invocations, a), SettledAs(Blocked), approval))
      && (r.ApprovalNeeded? ==> s'.invocations[a.invocation].status == Blocked)
  {
    FinalizedExactly(s, c, a, valid, approval, now);
    hide Inv, Finalize, FinalizeReport, ConcludedNow;
  }

  // ---------------------------------------------------------------------------
  // Which steps end an Attempt
  // ---------------------------------------------------------------------------

  /** The Attempts on record are as they were; an Invocation that is new has none. */
  ghost predicate KeepsAttempts(before: map<nat, Invocation>, after: map<nat, Invocation>) {
    && (forall i :: i in before ==> i in after && after[i].attempts == before[i].attempts)
    && (forall i :: i in after && i !in before ==> after[i].attempts == [])
  }

  lemma KeptRow(before: map<nat, Invocation>, after: map<nat, Invocation>, a: AttemptId)
    requires KeepsAttempts(before, after)
    ensures Exists(after, a) <==> Exists(before, a)
    ensures Exists(before, a) ==> Row(after, a) == Row(before, a)
  {
  }

  /** The steps that touch no Attempt row. */
  predicate TouchesNone(step: Step) {
    !step.PrepareStep? && !step.FinalizeStep? && !step.RecoverStep?
  }

  lemma OthersKeepAttempts(s: State, c: Config, step: Step)
    requires TouchesNone(step)
    ensures KeepsAttempts(s.invocations, Apply(s, c, step).invocations)
  {
    hide Runs.Move, Runs.Pause, Runs.Operate, AbortAll, Reached, FlightsOf, Overdue, HasActiveAttempt, CancelRun;
    if step.CancelStep? { CancelKeepsAttempts(s, step.run); }
  }

  lemma CancelKeepsAttempts(s: State, r: nat)
    ensures KeepsAttempts(s.invocations, CancelRun(s, r).invocations)
  {
    hide Runs.Move, AbortAll, Reached, FlightsOf, HasActiveAttempt;
  }

  /** Where the ending of Attempt `a` comes from: the step that ended it, and what it read. */
  ghost predicate EndedBy(s: State, c: Config, step: Step, a: AttemptId, attempt: Attempt) {
    && Exists(s.invocations, a) && Row(s.invocations, a).status == Executing
    && s.invocations[a.invocation].run in s.runs
    && match step
       case FinalizeStep(b, valid, approval, now, commits) =>
         b == a && commits && ConcludedNow(s, c, a, valid, approval, now, attempt)
       case RecoverStep(now) =>
         && s.flights == map[]
         && attempt == RecoveredEnding(c, s.invocations[a.invocation], a.number,
                                       s.runs[s.invocations[a.invocation].run], now).attempt
       case _ => false
  }

  lemma FinalizeEnds(s: State, c: Config, step: Step, a: AttemptId)
    requires Inv(s, c) && step.FinalizeStep? && Exists(Apply(s, c, step).invocations, a)
    ensures Exists(s.invocations, a)
    ensures Row(Apply(s, c, step).invocations, a) != Row(s.invocations, a) ==>
      EndedBy(s, c, step, a, Row(Apply(s, c, step).invocations, a))
  {
    hide Inv, ConcludedNow, Finalize, FinalizeReport, ReportOf, SettledBy, CanFinalize, BlockingDecision;
    var b := step.attempt;
    if CanFinalize(s, b) && step.commits {
      FinalizedExactly(s, c, b, step.valid, step.approval, step.now);
      FinalizedOthers(s, c, b, step.valid, step.approval, step.now, Apply(s, c, step), a);
      if a == b { EndedNow(s, c, a); }
    } else {
      NothingEnded(s, c, step);
    }
  }

  lemma EndedNow(s: State, c: Config, a: AttemptId)
    requires Inv(s, c) && CanFinalize(s, a)
    ensures Exists(s.invocations, a) && Row(s.invocations, a).status == Executing
    ensures s.invocations[a.invocation].run in s.runs
  {
    EveryFlightFlies(s, c, a);
    ExecutingRow(s, c, a);
    hide Inv;
  }

  lemma NothingEnded(s: State, c: Config, step: Step)
    requires step.FinalizeStep? && !(CanFinalize(s, step.attempt) && step.commits)
    ensures Apply(s, c, step).invocations == s.invocations
  {
    hide FinalEnding, EndAttempt;
  }

  lemma ExecutingRow(s: State, c: Config, a: AttemptId)
    requires Inv(s, c) && Exists(s.invocations, a) && !AttemptEnded(Row(s.invocations, a).status)
    ensures Row(s.invocations, a).status == Executing
  {
    EveryRowOk(s, c, a.invocation);
  }

  lemma FinalizedOthers(s: State, c: Config, b: AttemptId, valid: bool, approval: nat, now: nat, s': State,
                        a: AttemptId)
    requires Inv(s, c) && CanFinalize(s, b) && s' == Finalize(s, c, b, valid, approval, now, true)
    requires Exists(s'.invocations, a)
    ensures Exists(s.invocations, a)
    ensures a != b ==> Row(s'.invocations, a) == Row(s.invocations, a)
  {
    hide Inv, Finalize, FinalEnding;
    FinalizedAttempts(s, c, b, valid, approval, now, a.invocation);
    var attempt := FinalEnding(s, c, b, valid, approval, now).attempt;
    OneRowReplaced(s.invocations, s'.invocations, b, attempt, a);
  }

  /** Of the Attempts on record, a committed finalization replaces the one it ends. */
  lemma FinalizedAttempts(s: State, c: Config, b: AttemptId, valid: bool, approval: nat, now: nat, i: nat)
    requires Inv(s, c) && CanFinalize(s, b)
    ensures var s' := Finalize(s, c, b, valid, approval, now, true);
      && s'.invocations.Keys == s.invocations.Keys
      && (i in s.invocations ==>
            s'.invocations[i].attempts ==
            if i == b.invocation then
              s.invocations[i].attempts[b.number - 1 := FinalEnding(s, c, b, valid, approval, now).attempt]
            else s.invocations[i].attempts)
  {
    hide Finalize, FinalEnding, SettledBy, Inv, Converge, EndAttempt, BlockingDecision;
    FinalizedInto(s, c, b, valid, approval, now);
    FinalizedKeys(s, c, b, valid, approval, now);
    EndedRow(s.invocations[b.invocation], b.number, FinalEnding(s, c, b, valid, approval, now));
    if i in s.invocations && i != b.invocation {
      FinalizedRow(s, c, b, valid, approval, now, i);
      ConvergedAttempts(s.invocations[i]);
    }
  }

  lemma OneRowReplaced(before: map<nat, Invocation>, after: map<nat, Invocation>, b: AttemptId, attempt: Attempt,
                       a: AttemptId)
    requires after.Keys == before.Keys && Exists(before, b) && Exists(after, a)
    requires after[a.invocation].attempts ==
             if a.invocation == b.invocation then before[a.invocation].attempts[b.number - 1 := attempt]
             else before[a.invocation].attempts
    ensures Exists(before, a)
    ensures a != b ==> Row(after, a) == Row(before, a)
  {
  }

  lemma ConvergedAttempts(inv: Invocation)
    ensures Converge(inv).attempts == inv.attempts
  {
  }

  lemma FinalizedKeys(s: State, c: Config, a: AttemptId, valid: bool, approval: nat, now: nat)
    requires CanFinalize(s, a)
    ensures Finalize(s, c, a, valid, approval, now, true).invocations.Keys == s.invocations.Keys
  {
    hide FinalEnding, EndAttempt, RowsFor;
  }

  lemma RecoverEnds(s: State, c: Config, step: Step, a: AttemptId)
    requires Inv(s, c) && step.RecoverStep? && Exists(Apply(s, c, step).invocations, a)
    ensures Exists(s.invocations, a)
    ensures Row(Apply(s, c, step).invocations, a) != Row(s.invocations, a) ==>
      EndedBy(s, c, step, a, Row(Apply(s, c, step).invocations, a))
  {
    hide LeasesOk, FlightsOk, CallsOk, UsageOk, DeliveredOk, CancelledConverged, CapacityOk, InvocationOk, HeldBack,
      RecoveredInvocation, ConcludedNow, RecoveredEnding;
    if s.flights == map[] {
      var inv := s.invocations[a.invocation];
      RecoveredAttempts(c, inv, s.runs[inv.run], step.now);
      EveryRowOk(s, c, a.invocation);
      if !AttemptEnded(Row(s.invocations, a).status) { ExecutingRow(s, c, a); }
    }
  }

  lemma RecoveredAttempts(c: Config, inv: Invocation, run: Runs.Run, now: nat)
    ensures var n := |inv.attempts|;
      RecoveredInvocation(c, inv, run, now).attempts ==
      if n == 0 || AttemptEnded(inv.attempts[n - 1].status) then inv.attempts
      else inv.attempts[n - 1 := RecoveredEnding(c, inv, n, run, now).attempt]
  {
    hide RecoveredEnding;
  }

  /** A preparation adds at most one Attempt, and it is executing. */
  lemma PrepareAdds(s: State, c: Config, step: Step, a: AttemptId)
    requires Inv(s, c) && step.PrepareStep? && Exists(Apply(s, c, step).invocations, a)
    ensures Exists(s.invocations, a) ==> Row(Apply(s, c, step).invocations, a) == Row(s.invocations, a)
    ensures !Exists(s.invocations, a) ==> Row(Apply(s, c, step).invocations, a).status == Executing
  {
    hide Inv, NextPermission, CapacityRefusalOf, DeadlineOf;
  }

  /** An Attempt ends in one step, and only by its finalization or by a recovery. */
  lemma EndsOnlyThen(s: State, c: Config, step: Step, a: AttemptId)
    requires Inv(s, c) && Exists(Apply(s, c, step).invocations, a)
    requires AttemptEnded(Row(Apply(s, c, step).invocations, a).status)
    ensures Exists(s.invocations, a)
    ensures Row(s.invocations, a) == Row(Apply(s, c, step).invocations, a)
      || EndedBy(s, c, step, a, Row(Apply(s, c, step).invocations, a))
  {
    hide Inv, EndedBy, Apply, KeepsAttempts;
    if TouchesNone(step) {
      OthersKeepAttempts(s, c, step);
      KeptRow(s.invocations, Apply(s, c, step).invocations, a);
    } else if step.PrepareStep? {
      PrepareAdds(s, c, step, a);
    } else if step.FinalizeStep? {
      FinalizeEnds(s, c, step, a);
    } else {
      RecoverEnds(s, c, step, a);
    }
  }

  // ---------------------------------------------------------------------------
  // Why an Attempt was aborted
  // ---------------------------------------------------------------------------

  /** Step `k` of the run ended Attempt `a` as `attempt`. */
  ghost predicate EndedAt(c: Config, steps: seq<Step>, k: nat, a: AttemptId, attempt: Attempt)
    requires k < |steps|
  {
    EndedBy(After(c, steps[..k]), c, steps[k], a, attempt)
  }

  /** Every ended Attempt was ended by one step of the run, and keeps the row it was given. */
  lemma {:induction false} EndingExplained(c: Config, steps: seq<Step>, a: AttemptId)
    requires Exists(After(c, steps).invocations, a) && AttemptEnded(Row(After(c, steps).invocations, a).status)
    ensures exists k :: 0 <= k < |steps| && EndedAt(c, steps, k, a, Row(After(c, steps).invocations, a))
  {
    hide Inv, Apply, EndedBy, EndedAt;
    if steps != [] {
      var n := |steps| - 1;
      LastStep(c, steps);
      var s, attempt := After(c, steps[..n]), Row(After(c, steps).invocations, a);
      EndsOnlyThen(s, c, steps[n], a);
      hide After;
      if Row(s.invocations, a) == attempt {
        EndingExplained(c, steps[..n], a);
        var k :| 0 <= k < n && EndedAt(c, steps[..n], k, a, attempt);
        SameEarlier(c, steps, k, a, attempt);
      } else {
        EndedLast(c, steps, a, attempt);
      }
    }
  }

  lemma SameEarlier(c: Config, steps: seq<Step>, k: nat, a: AttemptId, attempt: Attempt)
    requires k + 1 < |steps|
    ensures EndedAt(c, steps[..|steps| - 1], k, a, attempt) == EndedAt(c, steps, k, a, attempt)
  {
    hide After, EndedBy;
    assert steps[..|steps| - 1][..k] == steps[..k];
  }

  lemma EndedLast(c: Config, steps: seq<Step>, a: AttemptId, attempt: Attempt)
    requires steps != [] && EndedBy(After(c, steps[..|steps| - 1]), c, steps[|steps| - 1], a, attempt)
    ensures EndedAt(c, steps, |steps| - 1, a, attempt)
  {
    hide After, EndedBy;
  }

  /** The provider of `a` itself reported a cancellation at step `k`. */
  ghost predicate CancelReportedAt(c: Config, steps: seq<Step>, k: nat, a: AttemptId)
    requires k < |steps|
  {
    && steps[k].ReturnStep? && steps[k].attempt == a
    && steps[k].outcome.completion == ProviderInterrupted(Some(CausedByCancel))
    && a in After(c, steps[..k]).flights && After(c, steps[..k]).flights[a].phase == AtProvider
  }

  lemma Earlier(c: Config, steps: seq<Step>, n: nat, k: nat, a: AttemptId, cause: Cause)
    requires k < n <= |steps|
    ensures CauseGivenAt(c, steps[..n], k, a, cause) == CauseGivenAt(c, steps, k, a, cause)
    ensures CancelReportedAt(c, steps[..n], k, a) == CancelReportedAt(c, steps, k, a)
  {
    hide After, CauseGiven;
    assert steps[..n][..k] == steps[..k];
  }

  /** The Invocation keeps its Run, and an ended Run its row. */
  ghost predicate OwnerKept(s: State, s': State, i: nat) {
    && i in s.invocations && i in s'.invocations && s'.invocations[i].run == s.invocations[i].run
    && var r := s.invocations[i].run;
      (r in s.runs && HasEnded(s.runs[r]) ==> r in s'.runs && s'.runs[r] == s.runs[r])
  }

  lemma {:induction false} EndedRunKept(c: Config, steps: seq<Step>, k: nat, i: nat)
    requires k <= |steps| && i in After(c, steps[..k]).invocations
    ensures OwnerKept(After(c, steps[..k]), After(c, steps), i)
    decreases |steps|
  {
    hide Inv, Apply, OwnerKept;
    if k == |steps| {
      assert steps[..k] == steps;
      OwnerSame(After(c, steps), i);
    } else {
      var n := |steps| - 1;
      LastStep(c, steps);
      assert steps[..n][..k] == steps[..k];
      EndedRunKept(c, steps[..n], k, i);
      hide After;
      OwnerStep(After(c, steps[..k]), After(c, steps[..n]), c, steps[n], i);
    }
  }

  lemma OwnerSame(s: State, i: nat)
    requires i in s.invocations
    ensures OwnerKept(s, s, i)
  {
  }

  lemma OwnerStep(s: State, m: State, c: Config, step: Step, i: nat)
    requires Inv(m, c) && OwnerKept(s, m, i)
    ensures OwnerKept(s, Apply(m, c, step), i)
  {
    hide Inv, Apply, UsageForward, LeasesForward, FlightsForward;
    StepForward(m, c, step);
  }

  /** A cause the flight of `a` carries after `n` steps was given by one of them. */
  lemma CauseExplained(c: Config, steps: seq<Step>, n: nat, a: AttemptId, cause: Cause)
    requires n <= |steps| && a in After(c, steps[..n]).flights
    requires After(c, steps[..n]).flights[a].interruption == Some(cause)
    ensures exists k :: 0 <= k < |steps| && CauseGivenAt(c, steps, k, a, cause)
  {
    CauseAndOutcomeExplained(c, steps[..n], a);
    hide After, CauseGivenAt;
    var k :| 0 <= k < n && CauseGivenAt(c, steps[..n], k, a, cause);
    Earlier(c, steps, n, k, a, cause);
  }

  /** A cancellation an outcome reports came from the provider, or from the cause the dispatch was withheld for. */
  lemma ReportExplained(c: Config, steps: seq<Step>, n: nat, a: AttemptId)
    requires n <= |steps| && a in After(c, steps[..n]).flights && After(c, steps[..n]).flights[a].outcome.Some?
    requires After(c, steps[..n]).flights[a].outcome.value.completion == ProviderInterrupted(Some(CausedByCancel))
    ensures (exists k :: 0 <= k < |steps| && CauseGivenAt(c, steps, k, a, CausedByCancel))
      || (exists k :: 0 <= k < |steps| && CancelReportedAt(c, steps, k, a))
  {
    CauseAndOutcomeExplained(c, steps[..n], a);
    var outcome := After(c, steps[..n]).flights[a].outcome.value;
    hide CauseGivenAt, CancelReportedAt, OutcomeGivenAt;
    var k :| 0 <= k < n && OutcomeGivenAt(c, steps[..n], k, a, outcome);
    GivenOutcome(c, steps[..n], k, a, outcome);
    hide After;
    if CancelReportedAt(c, steps[..n], k, a) {
      Earlier(c, steps, n, k, a, CausedByCancel);
    } else {
      assert steps[..n][..k] == steps[..k];
      CauseExplained(c, steps, k, a, CausedByCancel);
    }
  }

  lemma GivenOutcome(c: Config, steps: seq<Step>, k: nat, a: AttemptId, outcome: Outcome)
    requires k < |steps| && OutcomeGivenAt(c, steps, k, a, outcome)
      && outcome.completion == ProviderInterrupted(Some(CausedByCancel))
    ensures CancelReportedAt(c, steps, k, a)
      || (a in After(c, steps[..k]).flights
          && After(c, steps[..k]).flights[a].interruption == Some(CausedByCancel))
  {
    hide After;
  }

  /** What it takes, of the moment it ends, for an Attempt to be aborted. */
  lemma AbortedThen(s: State, c: Config, step: Step, a: AttemptId, attempt: Attempt)
    requires EndedBy(s, c, step, a, attempt) && attempt.status == Aborted
    ensures s.invocations[a.invocation].run in s.runs
    ensures
      || s.runs[s.invocations[a.invocation].run].status == Runs.Cancelled
      || (a in s.flights && s.flights[a].interruption == Some(CausedByCancel))
      || (a in s.flights && s.flights[a].outcome.Some?
          && s.flights[a].outcome.value.completion == ProviderInterrupted(Some(CausedByCancel)))
  {
    hide Consumed, RowsFor, DecidedAs, DecideRetry, Exhausted, DeadlineOf;
  }

  /**
   * In every run an aborted Attempt was cancelled: its Run is cancelled, or some step gave it that cause (a delivery
   * to it, a cancellation of its Run, or a dispatch that its ended Run withheld), or its provider reported it.
   */
  lemma AbortedOnlyCancelled(c: Config, steps: seq<Step>, a: AttemptId)
    requires Exists(After(c, steps).invocations, a) && Row(After(c, steps).invocations, a).status == Aborted
    ensures var s := After(c, steps);
      || (s.invocations[a.invocation].run in s.runs
          && s.runs[s.invocations[a.invocation].run].status == Runs.Cancelled)
      || (exists k :: 0 <= k < |steps| && CauseGivenAt(c, steps, k, a, CausedByCancel))
      || (exists k :: 0 <= k < |steps| && CancelReportedAt(c, steps, k, a))
  {
    EndingExplained(c, steps, a);
    var attempt := Row(After(c, steps).invocations, a);
    hide EndedBy, CauseGivenAt, CancelReportedAt, After;
    var k :| 0 <= k < |steps| && EndedAt(c, steps, k, a, attempt);
    var s := After(c, steps[..k]);
    AbortedThen(s, c, steps[k], a, attempt);
    assert a.invocation in s.invocations by { EndedExists(s, c, steps[k], a, attempt); }
    EndedRunKept(c, steps, k, a.invocation);
    if s.runs[s.invocations[a.invocation].run].status != Runs.Cancelled {
      if s.flights[a].interruption == Some(CausedByCancel) {
        CauseExplained(c, steps, k, a, CausedByCancel);
      } else {
        ReportExplained(c, steps, k, a);
      }
    }
  }

  lemma EndedExists(s: State, c: Config, step: Step, a: AttemptId, attempt: Attempt)
    requires EndedBy(s, c, step, a, attempt)
    ensures a.invocation in s.invocations
  {
    hide ConcludedNow, RecoveredEnding;
  }

  // ---------------------------------------------------------------------------
  // A dispatch that was withheld
  // ---------------------------------------------------------------------------

  /** The empty outcome of an Attempt that never reached its provider. */
  function NotDispatched(cause: Cause): Outcome {
    Outcome(ProviderInterrupted(Some(cause)), [])
  }

  /** The flight was withheld for this cause and still is, or came back without a provider call. */
  ghost predicate WithheldFor(f: Flight, cause: Cause) {
    && f.interruption == Some(cause)
    && (if f.outcome == None then f.phase == Withheld else f.outcome == Some(NotDispatched(cause)))
  }

  lemma WithheldMoves(f: Flight, run: Runs.Run, a: AttemptId, step: Step, cause: Cause)
    requires WithheldFor(f, cause)
    ensures WithheldFor(FlightAfter(f, run, a, step), cause)
  {
    hide CauseGiven;
  }

  /** Attempt `a` is on record and, while it has one, its flight stays withheld for this cause. */
  ghost predicate StaysWithheld(s: State, a: AttemptId, cause: Cause) {
    Exists(s.invocations, a) && (a in s.flights ==> WithheldFor(s.flights[a], cause))
  }

  lemma {:induction false} WithheldLater(c: Config, steps: seq<Step>, more: seq<Step>, a: AttemptId, cause: Cause)
    requires StaysWithheld(After(c, steps), a, cause)
    ensures StaysWithheld(After(c, steps + more), a, cause)
  {
    if more == [] {
      assert steps + more == steps;
    } else {
      var n := |more| - 1;
      WithheldLater(c, steps, more[..n], a, cause);
      OneMore(c, steps, more);
      Reachable(c, steps + more[..n]);
      hide After;
      WithheldStep(After(c, steps + more[..n]), c, more[n], a, cause);
    }
  }

  lemma WithheldStep(s: State, c: Config, step: Step, a: AttemptId, cause: Cause)
    requires Inv(s, c) && StaysWithheld(s, a, cause)
    ensures StaysWithheld(Apply(s, c, step), a, cause)
  {
    hide Inv, Apply, WithheldFor, FlightAfter, Lost, UsageForward, LeasesForward, FlightsForward, RunsForward;
    StepForward(s, c, step);
    if a in s.flights {
      FlightMoves(s, c, step, a);
      WithheldMoves(s.flights[a], s.runs[s.flights[a].run], a, step, cause);
    } else if a in Apply(s, c, step).flights {
      FlightsArePrepared(s, c, step, a);
    }
  }

  /** The cause a stopped Run withholds a dispatch for. */
  function StopCause(run: Runs.Run): Cause {
    if HasEnded(run) then CausedByCancel else CausedByPause
  }

  /** Prepared, and neither dispatched nor interrupted yet, under a Run that takes no new work. */
  ghost predicate AboutToBeWithheld(s: State, a: AttemptId) {
    && a in s.flights && s.flights[a].phase == Idle && s.flights[a].outcome == None
    && s.flights[a].interruption == None
    && s.flights[a].run in s.runs && Stopped(s.runs[s.flights[a].run])
  }

  lemma NothingCalled(s: State, a: AttemptId)
    requires AboutToBeWithheld(s, a)
    ensures Execute(s, a, false).calls == s.calls && Execute(s, a, false).invocations == s.invocations
    ensures a in Execute(s, a, false).flights
      && WithheldFor(Execute(s, a, false).flights[a], StopCause(s.runs[s.flights[a].run]))
  {
  }

  lemma DispatchWithheld(s: State, c: Config, a: AttemptId)
    requires Inv(s, c) && AboutToBeWithheld(s, a)
    ensures Execute(s, a, false).calls == s.calls
    ensures StaysWithheld(Execute(s, a, false), a, StopCause(s.runs[s.flights[a].run]))
  {
    EveryFlightFlies(s, c, a);
    NothingCalled(s, a);
    hide Inv, Execute, WithheldFor, Exists, Row;
  }

  /**
   * How a withheld Attempt ends: its flight carries the cause and the empty outcome; a pause ends it interrupted (or
   * spent, when what was consumed is beyond the allocation), its Invocation failed or retried but never cancelled
   * unless its Run is; an ended Run ends it aborted and its Invocation cancelled.
   */
  ghost predicate EndsWithheld(s: State, c: Config, a: AttemptId, valid: bool, approval: nat, now: nat, cause: Cause)
    requires CanFinalize(s, a)
  {
    var s', inv := Finalize(s, c, a, valid, approval, now, true), s.invocations[a.invocation];
    && s.flights[a].interruption == Some(cause) && s.flights[a].outcome == Some(NotDispatched(cause))
    && Exists(s'.invocations, a)
    && var attempt, status := Row(s'.invocations, a), s'.invocations[a.invocation].status;
      if cause == CausedByCancel || s.runs[inv.run].status == Runs.Cancelled then
        attempt.status == Aborted && status == Cancelled
      else
        && attempt.status == (if Exhausted(ConsumedNow(s, a), inv.allocation) then Faulted else Interrupted)
        && status in {Invocations.Running, Failed}
  }

  lemma WithheldConcluded(s: State, c: Config, a: AttemptId, valid: bool, approval: nat, now: nat, cause: Cause)
    requires Inv(s, c) && CanFinalize(s, a) && StaysWithheld(s, a, cause)
      && s.invocations[a.invocation].request == None && cause in {CausedByCancel, CausedByPause}
    ensures EndsWithheld(s, c, a, valid, approval, now, cause)
  {
    hide Inv, Finalize, FinalizeReport, ConsumedNow, EndsAs, DecidedAs, Exhausted, DeadlineOf, Permitted, ReportOf,
      FactsOf, Row;
    FinalizedExactly(s, c, a, valid, approval, now);
    var inv, attempt := s.invocations[a.invocation], Row(Finalize(s, c, a, valid, approval, now, true).invocations, a);
    WithheldMeans(attempt, s.runs[inv.run], cause, valid, Exhausted(ConsumedNow(s, a), inv.allocation));
  }

  lemma WithheldMeans(attempt: Attempt, run: Runs.Run, cause: Cause, valid: bool, exhausted: bool)
    requires EndsAs(attempt, false, run, Some(cause), NotDispatched(cause).completion, valid, exhausted)
    requires cause in {CausedByCancel, CausedByPause}
    ensures attempt.status ==
      if cause == CausedByCancel || run.status == Runs.Cancelled then Aborted
      else if exhausted then Faulted
      else Interrupted
  {
  }

  /**
   * A dispatch that its stopped Run withholds never calls the provider, and over any continuation up to its
   * finalization it ends for the cause its Run had at that moment: the pause, or the cancellation if it had ended.
   */
  lemma WithheldEnds(c: Config, steps: seq<Step>, more: seq<Step>, a: AttemptId, valid: bool, approval: nat, now: nat)
    requires AboutToBeWithheld(After(c, steps), a)
    requires CanFinalize(After(c, steps + [ExecuteStep(a, false)] + more), a)
    requires After(c, steps + [ExecuteStep(a, false)] + more).invocations[a.invocation].request == None
    ensures After(c, steps + [ExecuteStep(a, false)]).calls == After(c, steps).calls
    ensures EndsWithheld(After(c, steps + [ExecuteStep(a, false)] + more), c, a, valid, approval, now,
                         StopCause(After(c, steps).runs[After(c, steps).flights[a].run]))
  {
    var s, executed := After(c, steps), steps + [ExecuteStep(a, false)];
    assert Inv(s, c) by { Reachable(c, steps); }
    assert Inv(After(c, executed + more), c) by { Reachable(c, executed + more); }
    assert After(c, executed) == Execute(s, a, false) by { ExecutedNext(c, steps, a); }
    hide After, Inv, Execute, Stopped, EndsWithheld, StaysWithheld, CanFinalize, HasEnded;
    DispatchWithheld(s, c, a);
    var cause := StopCause(s.runs[s.flights[a].run]);
    WithheldLater(c, executed, more, a, cause);
    WithheldConcluded(After(c, executed + more), c, a, valid, approval, now, cause);
  }

  lemma ExecutedNext(c: Config, steps: seq<Step>, a: AttemptId)
    ensures After(c, steps + [ExecuteStep(a, false)]) == Execute(After(c, steps), a, false)
  {
    hide Execute;
    OneMore(c, steps, [ExecuteStep(a, false)]);
    assert steps + [ExecuteStep(a, false)][..0] == steps;
  }
}
