/**
 * The rows of the durable execution protocol: Invocations, their numbered Attempts,
 * the bounded failure record and the durable retry decision, with the two status
 * machines and the one Invocation-wide deadline. Times are milliseconds.
 */
module Invocations {
  import opened Wrappers
  import opened Budgets

  datatype InvocationStatus = Pending | Running | Waiting | Blocked | Succeeded | Failed | Cancelled

  predicate InvocationMoves(from: InvocationStatus, to: InvocationStatus) {
    match from
    case Pending => to in {Running, Cancelled}
    case Running => to in {Waiting, Blocked, Succeeded, Failed, Cancelled}
    case Waiting => to in {Running, Succeeded, Failed, Cancelled}
    case _ => false
  }

  predicate Ended(status: InvocationStatus) {
    status.Blocked? || status.Succeeded? || status.Failed? || status.Cancelled?
  }

  datatype AttemptStatus = Prepared | Executing | Completed | Faulted | TimedOut | Interrupted | Aborted

  predicate AttemptMoves(from: AttemptStatus, to: AttemptStatus) {
    match from
    case Prepared => to in {Executing, Interrupted, Aborted}
    case Executing => to in {Completed, Faulted, TimedOut, Interrupted, Aborted}
    case _ => false
  }

  predicate AttemptEnded(status: AttemptStatus) {
    !status.Prepared? && !status.Executing?
  }

  /** `Ended` and `AttemptEnded` name exactly the statuses no edge leaves. */
  lemma TerminalStatuses(i: InvocationStatus, a: AttemptStatus)
    ensures Ended(i) <==> forall to :: !InvocationMoves(i, to)
    ensures AttemptEnded(a) <==> forall to :: !AttemptMoves(a, to)
  {
    assert InvocationMoves(Pending, Cancelled) && InvocationMoves(Running, Cancelled)
      && InvocationMoves(Waiting, Cancelled);
    assert AttemptMoves(Prepared, Aborted) && AttemptMoves(Executing, Aborted);
  }

  /** The two machines, read the other way round: what each status can have been before. */
  lemma EdgesExactly(from: InvocationStatus, to: InvocationStatus, before: AttemptStatus, after: AttemptStatus)
    ensures InvocationMoves(from, to) <==>
      match to
      case Pending => false
      case Running => from in {Pending, Waiting}
      case Waiting => from == Running
      case Blocked => from == Running
      case Succeeded => from in {Running, Waiting}
      case Failed => from in {Running, Waiting}
      case Cancelled => !Ended(from)
    ensures AttemptMoves(before, after) <==>
      match after
      case Prepared => false
      case Executing => before == Prepared
      case Interrupted => !AttemptEnded(before)
      case Aborted => !AttemptEnded(before)
      case _ => before == Executing
  {
  }

  datatype FailureClass =
    | ProviderTransient | ProviderPermanent | ResultInvalid | AllocationExhausted | ByInterruption | ToolFailure
    | DecisionRequested

  datatype RetryReason =
    | RetryTransient | RetryInvalid | RetryInterrupted | RetryTool
    | NoPermanent | NoAllocation | NoAttempts | NoWallClock | NoCancelled | NoToolAgain | NoApproval | NoDecision

  predicate PermitsRetry(r: RetryReason) {
    r in {RetryTransient, RetryInvalid, RetryInterrupted, RetryTool}
  }

  datatype RetryDecision = RetryDecision(permitted: bool, reason: RetryReason, notBefore: Option<nat>)

  /** `cancelled` is the one flag of the bounded failure detail that a retry decision reads. */
  datatype Attempt = Attempt(status: AttemptStatus, failure: Option<FailureClass>, cancelled: bool,
                             retry: Option<RetryDecision>, admittedAt: nat)

  datatype InvocationFailure = FailedPermanent | FailedAllocation | FailedCancelled | FailedInvalidResult
    | FailedAttempts

  /** `writes` when it grants a write capability, for which its Attempts hold one worktree each. */
  datatype Manifest = Manifest(maxWallClockMs: Option<nat>, provider: nat, writes: bool)

  /** `request` is the Decision of the Invocation's accepted `request_decision` call, once one committed. */
  datatype Invocation = Invocation(
    run: nat, status: InvocationStatus, startedAt: Option<nat>, blockedBy: Option<nat>,
      failure: Option<InvocationFailure>,
    manifest: Option<Manifest>, allocation: Allocation, request: Option<nat>, attempts: seq<Attempt>)

  /** An Attempt is named by its Invocation and its number, counted from 1. */
  datatype AttemptId = AttemptId(invocation: nat, number: nat)

  function DeadlineAt(startedAt: Option<nat>, maxWallClockMs: Option<nat>): Option<nat> {
    if startedAt == None || maxWallClockMs == None then None else Some(startedAt.value + maxWallClockMs.value)
  }

  function DeadlineOf(i: Invocation): Option<nat> {
    if i.manifest == None then None else DeadlineAt(i.startedAt, i.manifest.value.maxWallClockMs)
  }

  function Power2(n: nat): nat {
    if n == 0 then 1 else 2 * Power2(n - 1)
  }

  function RetryBackoffMs(number: nat, baseMs: nat, maxMs: nat): nat {
    var wait := baseMs * Power2(if number >= 1 then number - 1 else 0);
    if wait <= maxMs then wait else maxMs
  }

  predicate Permitted(a: Attempt) {
    a.retry.Some? && a.retry.value.permitted
  }

  /** Some Attempt has not ended. */
  predicate HasActiveAttempt(i: Invocation) {
    exists k :: 0 <= k < |i.attempts| && !AttemptEnded(i.attempts[k].status)
  }

  /** What the row schema demands of one Attempt. */
  ghost predicate AttemptOk(a: Attempt) {
    && (a.retry.Some? ==> AttemptEnded(a.status) && !a.status.Completed?)
    && (a.retry.Some? ==> a.retry.value.permitted == PermitsRetry(a.retry.value.reason))
    && (a.retry.Some? && !a.retry.value.permitted ==> a.retry.value.notBefore == None)
    && (a.status.Completed? ==> a.failure == None)
    && (a.status.Faulted? || a.status.TimedOut? || a.status.Interrupted? ==> a.failure.Some?)
    && (a.status.Aborted? && a.retry.Some? ==> !a.retry.value.permitted)
    && (a.failure.Some? ==> AttemptEnded(a.status))
  }
}
