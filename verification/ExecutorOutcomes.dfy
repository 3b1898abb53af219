/**
 * What each operation of the executor reports, and that the report is what the rows and
 * flights it leaves say: an Attempt is reported prepared, executing, refused, retried or
 * settled exactly when it is.
 */
module ExecutorOutcomes {
  import opened Wrappers
  import opened Budgets
  import Runs
  import opened Invocations
  import opened RetryPolicy
  import opened ExecutorState
  import opened ExecutorInvariants
  import opened ExecutorRuns
  import opened ExecutorHistory
  import opened ExecutorSafety

  datatype PrepareOutcome =
    | PreparedAs(attempt: AttemptId)
    | CapacityRefused(refusal: CapacityRefusal)
    | NotPermitted(reason: Reason, notBefore: Option<nat>)
    | PrepareThrew

  datatype Settlement = RetryPending(decision: RetryDecision) | SettledAs(status: InvocationStatus)

  datatype ExecutionOutcome =
    | Finalized(attempt: Attempt, settlement: Settlement)
    | ApprovalNeeded(attempt: Attempt, settlement: Settlement, decision: nat)
    | DecisionAsked(attempt: Attempt, settlement: Settlement, decision: nat)
    | FinalizeThrew

  /** How an execution stands at its first await: underway in a flight, long ended, or refused. */
  datatype ExecuteStart = Underway | AlreadyEnded(outcome: ExecutionOutcome) | Rejected | NotPrepared | NoSuchAttempt

  datatype AdvanceOutcome = InFlight(attempt: AttemptId) | NotAdvanced(prepared: PrepareOutcome)
    | Advanced(started: ExecuteStart)

  // ---------------------------------------------------------------------------
  // Prepare
  // ---------------------------------------------------------------------------

  /** A refusal reports its reason; one for a request that no row holds is a conflict. */
  function RefusalReport(inv: Invocation, reason: Reason, notBefore: Option<nat>): PrepareOutcome {
    if reason == BlockedByRequest && !Ended(inv.status) && inv.request == None then PrepareThrew
    else NotPermitted(reason, if reason == BlockedByRequest || reason == OutOfAllocation then None else notBefore)
  }

  function PrepareReport(s: State, c: Config, i: nat, now: nat, available: bool, commits: bool): PrepareOutcome
    requires i in s.invocations && s.invocations[i].run in s.runs
  {
    if !commits then PrepareThrew
    else match NextPermission(s, i, now)
      case MayNot(reason, notBefore) => RefusalReport(s.invocations[i], reason, notBefore)
      case MayStart =>
        match CapacityRefusalOf(s, c, s.invocations[i].manifest.value, available)
        case Some(refusal) => CapacityRefused(refusal)
        case None => PreparedAs(AttemptId(i, |s.invocations[i].attempts| + 1))
  }

  /** The Attempt is new, executing, on an active lease and in flight. */
  ghost predicate NewlyPrepared(s: State, s': State, a: AttemptId) {
    && a !in s.flights && a in s'.flights && s'.flights[a].phase == Idle && s'.flights[a].outcome == None
    && !Exists(s.invocations, a) && Exists(s'.invocations, a) && Row(s'.invocations, a).status == Executing
    && a in s'.leases && s'.leases[a].active
  }

  /** No Attempt, lease or flight came about. */
  ghost predicate NothingPrepared(s: State, s': State, i: nat) {
    && s'.flights == s.flights && s'.leases == s.leases && s'.calls == s.calls
    && i in s.invocations && i in s'.invocations && s'.invocations[i].attempts == s.invocations[i].attempts
  }

  lemma RefusalPrepares(s: State, i: nat, reason: Reason)
    requires i in s.invocations
    ensures NothingPrepared(s, RefuseOn(s, i, reason), i)
    ensures RefuseOn(s, i, reason) != s ==>
      (reason == BlockedByRequest || reason == OutOfAllocation) && Ended(RefuseOn(s, i, reason).invocations[i].status)
  {
  }

  lemma GrantPrepares(s: State, c: Config, i: nat, now: nat, startNow: nat)
    requires Inv(s, c) && i in s.invocations && NextPermission(s, i, now) == MayStart
    ensures s.invocations[i].manifest.Some?
    ensures NewlyPrepared(s, PreparedOn(s, i, now, startNow), AttemptId(i, |s.invocations[i].attempts| + 1))
  {
    hide FlightsOk, LeasesOk, CallsOk, UsageOk, DeliveredOk, CancelledConverged, CapacityOk, InvocationOk,
      NextPermission, FlightOk;
    PreparedAppends(s, i, now, startNow);
    NewKey(s, i);
  }

  /**
   * A preparation reports an Attempt exactly when it made one; a capacity refusal and a
   * failed transaction write nothing; and a refusal that wrote ended the Invocation.
   */
  lemma PreparationReported(s: State, c: Config, i: nat, now: nat, startNow: nat, available: bool, commits: bool)
    requires Inv(s, c) && i in s.invocations && s.invocations[i].run in s.runs
    ensures var s', r :=
      Prepare(s, c, i, now, startNow, available, commits), PrepareReport(s, c, i, now, available, commits);
      && (if r.PreparedAs? then NewlyPrepared(s, s', r.attempt) && r.attempt.invocation == i
            else NothingPrepared(s, s', i))
      && (r.CapacityRefused? || r.PrepareThrew? ==> s' == s)
      && (r.NotPermitted? && s' != s ==>
            (r.reason == BlockedByRequest || r.reason == OutOfAllocation) && r.notBefore == None
              && Ended(s'.invocations[i].status))
  {
    hide Inv, NextPermission, NewlyPrepared, NothingPrepared, CapacityRefusalOf;
    var next := NextPermission(s, i, now);
    if commits && next.MayNot? {
      RefusalPrepares(s, i, next.reason);
      RequestRefused(s, i, now);
    } else if commits {
      GrantPrepares(s, c, i, now, startNow);
    }
    NothingHappens(s, i);
  }

  lemma NothingHappens(s: State, i: nat)
    requires i in s.invocations
    ensures NothingPrepared(s, s, i)
  {
  }

  /** A refusal for a committed request finds one. */
  lemma RequestRefused(s: State, i: nat, now: nat)
    requires i in s.invocations && s.invocations[i].run in s.runs && NextPermission(s, i, now).MayNot?
    ensures NextPermission(s, i, now).reason == BlockedByRequest ==> s.invocations[i].request.Some?
  {
    hide Consumed, HasActiveAttempt, DeadlineOf;
  }

  // ---------------------------------------------------------------------------
  // Execute
  // ---------------------------------------------------------------------------

  function ExecuteReport(s: State, a: AttemptId, rejects: bool): ExecuteStart {
    if a in s.flights then
      var f := s.flights[a];
      if f.phase == Idle && (f.run !in s.runs || (rejects && f.outcome == None)) then Rejected else Underway
    else if !Exists(s.invocations, a) then NoSuchAttempt
    else
      var attempt, inv := Row(s.invocations, a), s.invocations[a.invocation];
      if !AttemptEnded(attempt.status) then NotPrepared
      else AlreadyEnded(Finalized(attempt,
                                  if Permitted(attempt) && !Ended(inv.status) then RetryPending(attempt.retry.value)
                                  else SettledAs(inv.status)))
  }

  /** The outcome of an ended Attempt as its rows tell it: a retry is pending while its Invocation is open. */
  ghost predicate EndedOnRecord(s: State, a: AttemptId, outcome: ExecutionOutcome) {
    && Exists(s.invocations, a)
    && var row, status := Row(s.invocations, a), s.invocations[a.invocation].status;
      outcome == Finalized(row,
                           if Permitted(row) && status !in {Blocked, Succeeded, Invocations.Failed, Cancelled} then
                             RetryPending(row.retry.value)
                           else SettledAs(status))
  }

  /**
   * An execution is reported underway exactly when a flight of it now is; an Attempt
   * reported ended is the row on record; and every other report leaves everything as it was.
   */
  lemma ExecutionReported(s: State, c: Config, a: AttemptId, rejects: bool)
    requires Inv(s, c)
    ensures var s', r := Execute(s, a, rejects), ExecuteReport(s, a, rejects);
      && (r.Underway? <==> a in s'.flights && s'.flights[a].phase != Idle)
      && (r.Rejected? <==> a in s'.flights && s'.flights[a].phase == Idle)
      && (!r.Underway? ==> s' == s)
      && (r.AlreadyEnded? <==> Exists(s.invocations, a) && AttemptEnded(Row(s.invocations, a).status))
      && (r.AlreadyEnded? ==> EndedOnRecord(s, a, r.outcome))
      && (r.NoSuchAttempt? <==> !Exists(s.invocations, a))
      && (r.NotPrepared? <==>
          a !in s.flights && Exists(s.invocations, a) && !AttemptEnded(Row(s.invocations, a).status))
  {
    hide LeasesOk, CallsOk, UsageOk, DeliveredOk, CancelledConverged, CapacityOk, InvocationOk, DeadlineOf;
    if a in s.flights { assert FlightOk(s.invocations, a, s.flights[a]); }
  }

  // ---------------------------------------------------------------------------
  // Finalize
  // ---------------------------------------------------------------------------

  /** What settling one ended Attempt reports. */
  function SettlementOf(attempt: Attempt, settled: Invocation): Settlement {
    if Permitted(attempt) then RetryPending(attempt.retry.value) else SettledAs(settled.status)
  }

  /** A requested Decision is reported before an approval, either with the settlement. */
  function EndingReport(inv: Invocation, number: nat, e: Ending): ExecutionOutcome
    requires 1 <= number <= |inv.attempts|
  {
    var settlement := SettlementOf(e.attempt, EndAttempt(inv, number, e));
    if inv.request.Some? then DecisionAsked(e.attempt, settlement, inv.request.value)
    else if e.blocked.Some? then ApprovalNeeded(e.attempt, settlement, e.blocked.value)
    else Finalized(e.attempt, settlement)
  }

  function FinalizeReport(s: State, c: Config, a: AttemptId, valid: bool, approval: nat, now: nat,
                          commits: bool): ExecutionOutcome
    requires CanFinalize(s, a)
  {
    var inv := s.invocations[a.invocation];
    if !commits then FinalizeThrew
    else if AttemptEnded(Row(s.invocations, a).status) then Finalized(Row(s.invocations, a), SettledAs(inv.status))
    else
      EndingReport(inv, a.number, FinalEnding(s, c, a, valid, approval, now))
  }

  /**
   * Settling an ended Attempt leaves the Invocation running exactly for a permitted retry, and
   * blocked exactly on what blocks it.
   */
  lemma SettlementMeans(inv: Invocation, number: nat, e: Ending)
    requires InvocationOk(inv) && LastExecuting(inv) && number == |inv.attempts| && EndingOk(inv, number, e)
    ensures var inv' := EndAttempt(inv, number, e);
      && inv'.attempts == inv.attempts[number - 1 := e.attempt]
      && (inv'.status == Invocations.Running <==> Permitted(e.attempt))
      && (!Permitted(e.attempt) ==> Ended(inv'.status))
      && (inv'.status == Blocked <==> e.blocked.Some? && e.attempt.status != Completed)
      && (inv'.status == Blocked ==> inv'.blockedBy == e.blocked)
      && (e.blocked.Some? && e.attempt.status == Completed ==> inv.request == None)
  {
    hide AttemptOk, DeadlineOf, InTime;
    PermittedIsNoEnd(e.attempt);
  }

  lemma PermittedIsNoEnd(attempt: Attempt)
    requires AttemptOk(attempt)
    ensures Permitted(attempt) ==>
      attempt.status != Completed && attempt.status != Aborted && PermitsRetry(attempt.retry.value.reason)
    ensures attempt.retry.Some? && attempt.retry.value.reason == NoCancelled ==> !Permitted(attempt)
  {
  }

  /** A Decision that blocks the ending is the one it was blocked on, and never one of a completed Attempt. */
  lemma BlockedEnding(c: Config, inv: Invocation, number: nat, run: Runs.Run, held: Option<Cause>,
                      completion: Completion, consumed: Allocation, valid: bool, approval: nat, now: nat)
    requires 1 <= number <= |inv.attempts|
    ensures var e := EndingOf(c, inv, number, run, held, completion, consumed, valid, approval, now);
      e.blocked.Some? ==> e.attempt.status != Completed
  {
    hide Exhausted, DecideRetry, DeadlineOf;
  }

  /**
   * A finalization reports the Attempt as its row now stands, a retry pending exactly
   * while the Invocation keeps running, the status it ended with otherwise, and a
   * Decision exactly when the Invocation ended blocked on it.
   */
  lemma FinalizationReported(s: State, c: Config, a: AttemptId, valid: bool, approval: nat, now: nat)
    requires Inv(s, c) && CanFinalize(s, a)
    ensures var s', r :=
      Finalize(s, c, a, valid, approval, now, true), FinalizeReport(s, c, a, valid, approval, now, true);
      && !r.FinalizeThrew? && Exists(s'.invocations, a)
      && var inv := s'.invocations[a.invocation];
      && r.attempt == Row(s'.invocations, a)
      && (r.settlement.RetryPending? <==> inv.status == Invocations.Running)
      && (r.settlement.RetryPending? ==> r.attempt.retry == Some(r.settlement.decision))
      && (r.settlement.SettledAs? ==> r.settlement.status == inv.status && Ended(inv.status))
      && (inv.status == Blocked <==> r.DecisionAsked? || r.ApprovalNeeded?)
      && (inv.status == Blocked ==> inv.blockedBy == Some(r.decision))
  {
    hide CallsOk, UsageOk, DeliveredOk, CapacityOk, LeasesOk, CancelledConverged, InvocationOk, LastExecuting,
      EndingOk, DeadlineOf,
         FinalEnding, Finalize, EndAttempt, Permitted;
    var inv, e := s.invocations[a.invocation], FinalEnding(s, c, a, valid, approval, now);
    assert FlightOk(s.invocations, a, s.flights[a]);
    FinalizedRow(s, c, a, valid, approval, now, a.invocation);
    FinalizedInvocation(s, c, a, valid, approval, now);
    assert InvocationOk(inv);
    SettlementMeans(inv, a.number, e);
    EndingMeans(s, c, a, valid, approval, now);
    EndedKeepsRow(inv, a.number, e);
  }

  lemma EndedKeepsRow(inv: Invocation, number: nat, e: Ending)
    requires 1 <= number <= |inv.attempts|
    ensures EndAttempt(inv, number, e).run == inv.run
    ensures Ended(EndAttempt(inv, number, e).status) ==>
      Converge(EndAttempt(inv, number, e)) == EndAttempt(inv, number, e)
  {
  }

  lemma EndingMeans(s: State, c: Config, a: AttemptId, valid: bool, approval: nat, now: nat)
    requires CanFinalize(s, a)
    requires EndingOk(s.invocations[a.invocation], a.number, FinalEnding(s, c, a, valid, approval, now))
    ensures var inv, e := s.invocations[a.invocation], FinalEnding(s, c, a, valid, approval, now);
      && (s.runs[inv.run].status == Runs.Cancelled ==> !Permitted(e.attempt))
      && (e.blocked.Some? ==> e.attempt.status != Completed)
      && (inv.request.Some? ==> e.blocked == inv.request)
      && (Permitted(e.attempt) ==> e.attempt.retry.Some?)
  {
    hide Consumed, RowsFor, EndingOf;
    var f, inv := s.flights[a], s.invocations[a.invocation];
    var consumed := Consumed(s.usage + RowsFor(a, f.outcome.value.usage), a.invocation, |inv.attempts|);
    BlockedEnding(c, inv, a.number, s.runs[inv.run], f.interruption, f.outcome.value.completion, consumed, valid,
                  approval, now);
    if s.runs[inv.run].status == Runs.Cancelled {
      CancelledEnding(c, inv, a.number, s.runs[inv.run], f.interruption, f.outcome.value.completion, consumed, valid,
                      approval, now);
    }
  }
}
