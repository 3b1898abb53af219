/**
 * Failure classification and the durable retry decision, and the settlement a
 * terminal Attempt implies for its Invocation.
 */
module RetryPolicy {
  import opened Wrappers
  import opened Budgets
  import opened Invocations

  /** How the runtime itself ended an Attempt. */
  datatype Cause = CausedByCancel | CausedByPause | CausedByDeadline | CausedByShutdown

  /** Why an adapter says it was interrupted: a runtime cause, or its own end (`None`). */
  datatype Completion =
    | ProviderCompleted
    | ProviderError(transient: bool)
    | ToolFailed
    | ApprovalRequired(wellFormed: bool)
    | DecisionReported
    | ProviderInterrupted(cause: Option<Cause>)

  datatype Classified = Classified(status: AttemptStatus, failure: Option<FailureClass>, cancelled: bool)

  /** The largest count a double holds exactly; it stands for "no Attempt bound" in the exhaustion test. */
  const MAX_SAFE_INTEGER := 9007199254740991

  predicate Exhausted(consumed: Allocation, allocation: Allocation) {
    !AllocationFits(consumed, allocation.(attempts := MAX_SAFE_INTEGER))
  }

  function Classify(completion: Completion, valid: bool, interruption: Option<Cause>, consumed: Allocation,
                    allocation: Allocation): Classified {
    var exhausted := Exhausted(consumed, allocation);
    var spent := Classified(Faulted, Some(AllocationExhausted), false);
    if interruption == Some(CausedByCancel) then Classified(Aborted, None, true)
    else if interruption == Some(CausedByDeadline) then Classified(TimedOut, Some(ByInterruption), false)
    else if interruption != None then
      (if exhausted then spent else Classified(Interrupted, Some(ByInterruption), false))
    else match completion
      case ProviderCompleted =>
        if valid then Classified(Completed, None, false)
        else if exhausted then spent
        else Classified(Faulted, Some(ResultInvalid), false)
      case ProviderError(transient) =>
        if !transient then Classified(Faulted, Some(ProviderPermanent), false)
        else if exhausted then spent
        else Classified(Faulted, Some(ProviderTransient), false)
      case ToolFailed => if exhausted then spent else Classified(Faulted, Some(ToolFailure), false)
      case ApprovalRequired(_) => Classified(Faulted, Some(ToolFailure), false)
      case DecisionReported => Classified(Faulted, Some(ToolFailure), false)
      case ProviderInterrupted(cause) =>
        if cause == Some(CausedByCancel) then Classified(Aborted, None, true)
        else if cause == Some(CausedByDeadline) then Classified(TimedOut, Some(ByInterruption), false)
        else if exhausted then spent
        else Classified(Interrupted, Some(ByInterruption), false)
  }

  /** What was consumed lies beyond the cost, tolerance included, or beyond the tokens of the allocation. */
  lemma ExhaustedExactly(consumed: Allocation, allocation: Allocation)
    requires consumed.attempts <= MAX_SAFE_INTEGER
    ensures Exhausted(consumed, allocation) <==>
      consumed.costUsd > allocation.costUsd + 0.000000001 || consumed.tokens > allocation.tokens
  {
  }

  /**
   * How an Attempt ends, by what happened: the runtime's own cause decides before the
   * adapter's, a cancellation and a deadline before exhaustion, exhaustion before every
   * failure a retry could follow, and only an uninterrupted valid result completes.
   */
  ghost predicate ClassifiedAs(c: Classified, completion: Completion, valid: bool, interruption: Option<Cause>,
                               exhausted: bool) {
    var interrupted := interruption.Some? || completion.ProviderInterrupted?;
    var cause :=
      if interruption.Some? then interruption else if completion.ProviderInterrupted? then completion.cause else None;
    var failed := (completion == ProviderCompleted && !valid) || completion in {ProviderError(true), ToolFailed};
    var retryable := if interrupted then cause !in {Some(CausedByCancel), Some(CausedByDeadline)} else failed;
    && AttemptEnded(c.status)
    && (c.status == Aborted <==> cause == Some(CausedByCancel))
    && (c.cancelled <==> c.status == Aborted)
    && (c.status == TimedOut <==> cause == Some(CausedByDeadline))
    && (c.status == Completed <==> !interrupted && completion == ProviderCompleted && valid)
    && (c.status == Interrupted <==> interrupted && retryable && !exhausted)
    && (c.failure == None <==> c.status in {Aborted, Completed})
    && (c.failure == Some(ByInterruption) <==> c.status in {TimedOut, Interrupted})
    && (c.failure == Some(AllocationExhausted) <==> retryable && exhausted)
    && (c.failure == Some(ProviderPermanent) <==> !interrupted && completion == ProviderError(false))
    && (c.failure == Some(ProviderTransient) <==> !interrupted && completion == ProviderError(true) && !exhausted)
    && (c.failure == Some(ResultInvalid) <==>
        !interrupted && completion == ProviderCompleted && !valid && !exhausted)
    && (c.failure == Some(ToolFailure) <==>
        !interrupted && (completion.ApprovalRequired? || completion == DecisionReported
                                      || (completion == ToolFailed && !exhausted)))
  }

  lemma ClassifiedExactly(completion: Completion, valid: bool, interruption: Option<Cause>, consumed: Allocation,
                          allocation: Allocation)
    ensures ClassifiedAs(Classify(completion, valid, interruption, consumed, allocation), completion, valid,
                         interruption, Exhausted(consumed, allocation))
  {
    hide Exhausted;
  }

  /** What a retry decision reads beside the classification. */
  datatype RetryFacts = RetryFacts(
    number: nat, maxAttempts: int, previous: Option<FailureClass>, approvalRequired: bool, decisionRequested: bool,
    deadlineAt: Option<nat>, now: nat, backoffBaseMs: nat, backoffMaxMs: nat)

  function Refuse(reason: RetryReason): Option<RetryDecision> {
    Some(RetryDecision(false, reason, None))
  }

  function DecideRetry(c: Classified, f: RetryFacts): Option<RetryDecision> {
    if c.status == Completed then None
    else if f.decisionRequested then Refuse(NoDecision)
    else if c.status == Aborted || c.cancelled then Refuse(NoCancelled)
    else if f.approvalRequired then Refuse(NoApproval)
    else if c.status == TimedOut then Refuse(NoWallClock)
    else if c.failure == None || c.failure == Some(ProviderPermanent) then Refuse(NoPermanent)
    else if c.failure == Some(AllocationExhausted) then Refuse(NoAllocation)
    else if c.failure == Some(ToolFailure) && f.previous == Some(ToolFailure) then Refuse(NoToolAgain)
    else if f.number >= f.maxAttempts then Refuse(NoAttempts)
    else if f.deadlineAt.Some? && f.now >= f.deadlineAt.value then Refuse(NoWallClock)
    else match c.failure.value
      case ProviderTransient =>
        var notBefore := f.now + RetryBackoffMs(f.number, f.backoffBaseMs, f.backoffMaxMs);
        if f.deadlineAt.Some? && notBefore >= f.deadlineAt.value then Refuse(NoWallClock)
        else Some(RetryDecision(true, RetryTransient, Some(notBefore)))
      case ResultInvalid => Some(RetryDecision(true, RetryInvalid, None))
      case ByInterruption => Some(RetryDecision(true, RetryInterrupted, None))
      case _ => Some(RetryDecision(true, RetryTool, None))
  }

  /** A classification the executor or recovery produces. */
  ghost predicate Proper(c: Classified) {
    && AttemptEnded(c.status)
    && (c.status == Completed ==> c.failure == None)
    && (c.status == Aborted <==> c.cancelled)
    && (c.status == Aborted ==> c.failure == None)
    && (c.status in {Faulted, TimedOut, Interrupted} ==> c.failure.Some?)
    && (c.status == TimedOut ==> c.failure == Some(ByInterruption))
    && (c.failure == Some(DecisionRequested) ==> c.status == Faulted)
  }

  lemma ClassifyProper(completion: Completion, valid: bool, interruption: Option<Cause>, consumed: Allocation,
                       allocation: Allocation)
    ensures var c := Classify(completion, valid, interruption, consumed, allocation);
      && Proper(c) && c.failure != Some(DecisionRequested)
      && (interruption == Some(CausedByCancel) ==> c.status == Aborted)
      && (interruption != None ==> c.status != Completed)
      && (c.status == Completed <==> interruption == None && completion == ProviderCompleted && valid)
  {
  }

  /** The failure classes a retry may follow at all. */
  predicate Retryable(c: Classified, previous: Option<FailureClass>) {
    && c.status in {Faulted, Interrupted}
    && c.failure in {Some(ProviderTransient), Some(ResultInvalid), Some(ByInterruption), Some(ToolFailure)}
    && !(c.failure == Some(ToolFailure) && previous == Some(ToolFailure))
  }

  /** When a retry would start at the earliest. */
  function EarliestRetry(c: Classified, f: RetryFacts): nat {
    if c.failure == Some(ProviderTransient) then f.now + RetryBackoffMs(f.number, f.backoffBaseMs, f.backoffMaxMs)
    else f.now
  }

  /** The wait starts at the base and doubles with every Attempt until the maximum caps it. */
  lemma BackoffDoubles(number: nat, baseMs: nat, maxMs: nat)
    ensures RetryBackoffMs(1, baseMs, maxMs) == if baseMs <= maxMs then baseMs else maxMs
    ensures number >= 1 ==>
      var wait := 2 * RetryBackoffMs(number, baseMs, maxMs);
      RetryBackoffMs(number + 1, baseMs, maxMs) == if wait <= maxMs then wait else maxMs
  {
    assert Power2(0) == 1;
    if number >= 1 {
      assert Power2(number) == 2 * Power2(number - 1);
      assert baseMs * Power2(number) == 2 * (baseMs * Power2(number - 1));
    }
  }

  /** What speaks against a retry. */
  ghost predicate Against(r: RetryReason, c: Classified, f: RetryFacts) {
    match r
    case NoDecision => f.decisionRequested
    case NoCancelled => c.status == Aborted
    case NoApproval => f.approvalRequired
    case NoPermanent => c.failure == Some(ProviderPermanent)
    case NoAllocation => c.failure == Some(AllocationExhausted)
    case NoToolAgain => c.failure == Some(ToolFailure) && f.previous == Some(ToolFailure)
    case NoAttempts => c.status != TimedOut && f.number >= f.maxAttempts
    case NoWallClock => c.status == TimedOut || (f.deadlineAt.Some? && EarliestRetry(c, f) >= f.deadlineAt.value)
    case _ => false
  }

  /** What is reported first when several speak against it. */
  ghost function Rank(r: RetryReason): nat {
    match r
    case NoDecision => 0
    case NoCancelled => 1
    case NoApproval => 2
    case NoPermanent => 3
    case NoAllocation => 4
    case NoToolAgain => 5
    case NoAttempts => 6
    case NoWallClock => 7
    case _ => 8
  }

  /** Nothing is decided of a completed Attempt; any other is retried exactly when nothing speaks against it. */
  ghost predicate DecidedAs(d: Option<RetryDecision>, c: Classified, f: RetryFacts) {
    && (d == None <==> c.status == Completed)
    && (d.Some? ==>
          && (d.value.permitted <==> forall r :: !Against(r, c, f))
          && d.value.permitted == PermitsRetry(d.value.reason)
          && (if d.value.permitted then
                && (d.value.reason == RetryTransient <==> c.failure == Some(ProviderTransient))
                && (d.value.reason == RetryInvalid <==> c.failure == Some(ResultInvalid))
                && (d.value.reason == RetryInterrupted <==> c.failure == Some(ByInterruption))
                && (d.value.reason == RetryTool <==> c.failure == Some(ToolFailure))
                && d.value.notBefore ==
                      (if c.failure == Some(ProviderTransient) then Some(EarliestRetry(c, f)) else None)
              else
                && Against(d.value.reason, c, f)
                && (forall r :: Against(r, c, f) ==> Rank(d.value.reason) <= Rank(r))
                && d.value.notBefore == None))
  }

  /**
   * A retry is permitted exactly when nothing speaks against it, and starts no earlier than the backoff after a
   * transient provider error, at once after anything else; a refusal names what speaks against it,
   * the first of several.
   */
  lemma RetryDecidedExactly(c: Classified, f: RetryFacts)
    requires Proper(c) && (c.failure == Some(DecisionRequested) ==> f.decisionRequested)
    ensures DecidedAs(DecideRetry(c, f), c, f)
  {
    hide RetryBackoffMs;
    var d := DecideRetry(c, f);
    if d.Some? && !d.value.permitted { assert Against(d.value.reason, c, f); }
  }

  /** When a refusal names which reason, those it never hides. */
  lemma RefusedBecause(d: RetryDecision, c: Classified, f: RetryFacts)
    requires DecidedAs(Some(d), c, f) && !d.permitted
    ensures d.reason == NoDecision <==> f.decisionRequested
    ensures d.reason == NoCancelled <==> !f.decisionRequested && c.status == Aborted
    ensures !f.decisionRequested && !f.approvalRequired && c.status != Aborted ==>
      && (d.reason == NoPermanent <==> c.failure == Some(ProviderPermanent))
      && (d.reason == NoToolAgain <==> c.failure == Some(ToolFailure) && f.previous == Some(ToolFailure))
      && (d.reason == NoAttempts && c.failure == Some(ResultInvalid) <==>
          c.status != TimedOut && f.number >= f.maxAttempts && c.failure == Some(ResultInvalid))
      && d.reason !in {NoDecision, NoApproval}
  {
    hide EarliestRetry;
    forall r ensures Against(r, c, f) ==> Rank(d.reason) <= Rank(r) {}
    assert Against(NoDecision, c, f) <==> f.decisionRequested;
    assert Against(NoCancelled, c, f) <==> c.status == Aborted;
    assert Against(NoPermanent, c, f) <==> c.failure == Some(ProviderPermanent);
    assert Against(NoToolAgain, c, f) <==> c.failure == Some(ToolFailure) && f.previous == Some(ToolFailure);
    assert Against(NoAttempts, c, f) <==> c.status != TimedOut && f.number >= f.maxAttempts;
  }

  /**
   * A retry is permitted exactly when nothing ended the logical turn, the failure is
   * retryable, an Attempt remains, and its earliest start lies before the one
   * Invocation-wide deadline; only after a transient provider error is that start persisted.
   */
  lemma RetryPermittedExactly(c: Classified, f: RetryFacts)
    requires Proper(c) && (c.failure == Some(DecisionRequested) ==> f.decisionRequested)
    ensures var d := DecideRetry(c, f);
      && (d.Some? && d.value.permitted <==>
            && c.status != Completed && !f.decisionRequested && !f.approvalRequired && Retryable(c, f.previous)
            && f.number < f.maxAttempts
            && (f.deadlineAt.Some? ==> EarliestRetry(c, f) < f.deadlineAt.value))
      && (d.Some? && d.value.permitted ==>
            d.value.notBefore == if c.failure == Some(ProviderTransient) then Some(EarliestRetry(c, f)) else None)
      && (d == None <==> c.status == Completed)
      && (d.Some? ==> d.value.permitted == PermitsRetry(d.value.reason))
      && (d.Some? && !d.value.permitted ==> d.value.notBefore == None)
  {
  }

  // ---------------------------------------------------------------------------
  // Settlement
  // ---------------------------------------------------------------------------

  function FailureFor(d: RetryDecision, failure: Option<FailureClass>): InvocationFailure {
    match d.reason
    case NoPermanent => FailedPermanent
    case NoAllocation => FailedAllocation
    case NoWallClock => FailedAllocation
    case NoCancelled => FailedCancelled
    case NoAttempts => if failure == Some(ResultInvalid) then FailedInvalidResult else FailedAllocation
    case _ => FailedAttempts
  }

  /** What a terminal Attempt makes of its Invocation; a permitted retry changes nothing. */
  function Settle(i: Invocation, attempt: Attempt, blocked: Option<nat>): Invocation {
    if attempt.status == Completed then i.(status := Succeeded)
    else if blocked == None
      && (attempt.status == Aborted || (attempt.retry.Some? && attempt.retry.value.reason == NoCancelled)) then
      i.(status := Cancelled)
    else if blocked.Some? then i.(status := Blocked, blockedBy := blocked)
    else if attempt.retry == None || attempt.retry.value.permitted then i
    else i.(status := Failed, failure := Some(FailureFor(attempt.retry.value, attempt.failure)))
  }

  /**
   * When a terminal Attempt ends its Invocation, and as what: only a pending retry leaves it as it was, and nothing
   * changes but the status and, with it, the failure or the Decision it is blocked on.
   */
  ghost predicate SettledTo(i: Invocation, after: Invocation, attempt: Attempt, blocked: Option<nat>) {
    var cancelled := attempt.status == Aborted || (attempt.retry.Some? && attempt.retry.value.reason == NoCancelled);
    && after == i.(status := after.status, failure := after.failure, blockedBy := after.blockedBy)
    && (after.status == Succeeded <==> attempt.status == Completed)
    && (after.status == Blocked <==> attempt.status != Completed && blocked.Some?)
    && (after.status == Cancelled <==> attempt.status != Completed && blocked == None && cancelled)
    && (after.status == Failed <==>
        attempt.status != Completed && blocked == None && !cancelled && !Permitted(attempt))
    && (after == i <==> blocked == None && Permitted(attempt))
    && after.blockedBy == (if after.status == Blocked then blocked else i.blockedBy)
    && (after.status != Failed ==> after.failure == i.failure)
    && (after.status == Failed ==>
          && attempt.retry.Some?
          && var reason := attempt.retry.value.reason;
          && (after.failure == Some(FailedPermanent) <==> reason == NoPermanent)
          && (after.failure == Some(FailedInvalidResult) <==>
              reason == NoAttempts && attempt.failure == Some(ResultInvalid))
          && (after.failure == Some(FailedAllocation) <==>
              reason in {NoAllocation, NoWallClock} || (reason == NoAttempts && attempt.failure != Some(ResultInvalid)))
          && (after.failure == Some(FailedAttempts) <==> reason in {NoToolAgain, NoApproval, NoDecision}))
  }

  lemma SettledExactly(i: Invocation, attempt: Attempt, blocked: Option<nat>)
    requires !Ended(i.status) && AttemptOk(attempt) && AttemptEnded(attempt.status)
    requires attempt.retry == None <==> attempt.status == Completed
    ensures SettledTo(i, Settle(i, attempt, blocked), attempt, blocked)
  {
  }
}
