/**
 * Progress: how often an Invocation's Attempts can change at all, and exactly when a
 * retry that finalization permitted can start. The two tests differ: a retry is refused
 * only once consumption is beyond the allocation, while a start is refused as soon as
 * consumption reaches it, so a permitted retry may never run.
 */
module ExecutorProgress {
  import opened Wrappers
  import opened Budgets
  import Runs
  import opened Invocations
  import opened RetryPolicy
  import opened ExecutorState
  import opened ExecutorInvariants
  import opened ExecutorRuns
  import opened ExecutorHistory
  import opened ExecutorSafety

  // ---------------------------------------------------------------------------
  // Advancing terminates
  // ---------------------------------------------------------------------------

  ghost predicate Worked(s: State, s': State, i: nat) {
    i in s.invocations && i in s'.invocations && s'.invocations[i].attempts != s.invocations[i].attempts
  }

  /** How many steps of a run changed the Attempts of Invocation `i`. */
  ghost function WorkDone(c: Config, steps: seq<Step>, i: nat): nat {
    if steps == [] then 0
    else
      var front := steps[..|steps| - 1];
      WorkDone(c, front, i) + if Worked(After(c, front), After(c, steps), i) then 1 else 0
  }

  /** Two changes for every ended Attempt, one for an executing one. */
  ghost function Progress(inv: Invocation): int {
    2 * |inv.attempts| - if LastExecuting(inv) then 1 else 0
  }

  lemma WorkIsProgress(before: Invocation, after: Invocation)
    requires InvocationForward(before, after) && InvocationOk(before) && InvocationOk(after)
    ensures Progress(after) >= Progress(before) + if after.attempts != before.attempts then 1 else 0
  {
    hide AttemptOk, StatusOk, DeadlineOf;
    var n := |before.attempts|;
    if |after.attempts| == n && after.attempts != before.attempts {
      var k :| 0 <= k < n && after.attempts[k] != before.attempts[k];
      ActiveIsLast(before);
      assert AttemptForward(before.attempts[k], after.attempts[k]);
      assert k == n - 1 && before.attempts[k].status == Executing;
    }
    if |after.attempts| == n && n > 0 {
      assert AttemptForward(before.attempts[n - 1], after.attempts[n - 1]);
    }
  }

  lemma {:induction false} WorkDoneIsProgress(c: Config, steps: seq<Step>, i: nat)
    ensures i in After(c, steps).invocations ==> WorkDone(c, steps, i) <= Progress(After(c, steps).invocations[i])
    ensures i !in After(c, steps).invocations ==> WorkDone(c, steps, i) == 0
  {
    if steps != [] {
      var front := steps[..|steps| - 1];
      WorkDoneIsProgress(c, front, i);
      Reachable(c, front);
      Reachable(c, steps);
      hide Apply, LeasesOk, FlightsOk, CallsOk, UsageOk, DeliveredOk, CancelledConverged, CapacityOk, InvocationOk,
        InvocationForward, Progress;
      StepForward(After(c, front), c, steps[|steps| - 1]);
      var s, s' := After(c, front), After(c, steps);
      if i in s'.invocations {
        if i in s.invocations {
          WorkIsProgress(s.invocations[i], s'.invocations[i]);
        } else {
          assert Progress(s'.invocations[i]) >= 0 by { NoNegativeProgress(s'.invocations[i]); }
        }
      }
    }
  }

  lemma NoNegativeProgress(inv: Invocation)
    ensures Progress(inv) >= 0
  {
  }

  /**
   * Over any run, however often the Invocation is advanced, interrupted, failed or
   * recovered, its Attempts change at most twice per allocated Attempt: repeated
   * advancing stops doing work.
   */
  lemma AdvancingTerminates(c: Config, steps: seq<Step>, i: nat)
    requires i in After(c, steps).invocations
    ensures WorkDone(c, steps, i) <= 2 * After(c, steps).invocations[i].allocation.attempts
  {
    WorkDoneIsProgress(c, steps, i);
    Reachable(c, steps);
    hide After, WorkDone, LeasesOk, FlightsOk, CallsOk, UsageOk, DeliveredOk, CancelledConverged, CapacityOk, StatusOk;
    assert InvocationOk(After(c, steps).invocations[i]);
  }

  // ---------------------------------------------------------------------------
  // Permitted is not startable
  // ---------------------------------------------------------------------------

  /**
   * Consumption is strictly below every bound the Invocation's allocation sets; a zero cost or
   * token amount sets none.
   */
  predicate BelowAllocation(consumed: Allocation, allocation: Allocation) {
    && (allocation.costUsd > 0.0 ==> consumed.costUsd < allocation.costUsd)
    && (allocation.tokens > 0 ==> consumed.tokens < allocation.tokens)
  }

  /** A moment at which nothing but the allocation can refuse the retry. */
  predicate Due(inv: Invocation, run: Runs.Run, retry: RetryDecision, now: nat) {
    && Runs.AdmitsNewWork(run)
    && (DeadlineOf(inv).Some? ==> now < DeadlineOf(inv).value)
    && (retry.notBefore.Some? ==> retry.notBefore.value <= now)
  }

  /**
   * A retry that finalization permitted starts when it is due if and only if what the
   * Invocation has consumed is strictly below its allocation; otherwise it is refused
   * at every such time and the refusal fails the Invocation.
   */
  lemma PermittedRetryStarts(s: State, c: Config, a: AttemptId, valid: bool, approval: nat, now: nat, later: nat)
    requires Inv(s, c) && CanFinalize(s, a) && Permitted(FinalEnding(s, c, a, valid, approval, now).attempt)
    requires Due(s.invocations[a.invocation], s.runs[s.invocations[a.invocation].run],
                 FinalEnding(s, c, a, valid, approval, now).attempt.retry.value, later)
    ensures var s', inv := Finalize(s, c, a, valid, approval, now, true), s.invocations[a.invocation];
      var consumed := Consumed(s'.usage, a.invocation, |inv.attempts|);
      && a.invocation in s'.invocations && s'.invocations[a.invocation].run in s'.runs
      && (NextPermission(s', a.invocation, later) == MayStart <==> BelowAllocation(consumed, inv.allocation))
      && (NextPermission(s', a.invocation, later).MayNot? ==>
            NextPermission(s', a.invocation, later).reason == OutOfAllocation)
  {
    hide CallsOk, UsageOk, DeliveredOk, CapacityOk, LeasesOk, CancelledConverged, Consumed, FinalEnding, AttemptOk,
      DeadlineOf;
    var inv, e := s.invocations[a.invocation], FinalEnding(s, c, a, valid, approval, now);
    var s' := Finalize(s, c, a, valid, approval, now, true);
    assert FlightOk(s.invocations, a, s.flights[a]);
    assert s'.runs == s.runs by { FinalizeShape(s, c, a, valid, approval, now); }
    FinalizedRow(s, c, a, valid, approval, now, a.invocation);
    FinalizedInvocation(s, c, a, valid, approval, now);
    assert InvocationOk(inv);
    EndAttemptOk(inv, a.number, e);
    hide Finalize;
    RetriedRow(inv, a.number, e);
    var inv' := s'.invocations[a.invocation];
    ActiveIsLast(inv');
    hide FlightsOk, InvocationOk;
    StartableExactly(s', a.invocation, later);
  }

  /** With a permitted retry the Invocation keeps running, unchanged but for the ended Attempt. */
  lemma RetriedRow(inv: Invocation, number: nat, e: Ending)
    requires 1 <= number == |inv.attempts| && EndingOk(inv, number, e) && Permitted(e.attempt)
    ensures EndAttempt(inv, number, e) == inv.(attempts := inv.attempts[number - 1 := e.attempt])
    ensures inv.request == None && number < inv.allocation.attempts
  {
    hide AttemptOk;
    PermittedStatus(e.attempt);
  }

  lemma PermittedStatus(attempt: Attempt)
    requires AttemptOk(attempt) && Permitted(attempt)
    ensures attempt.status != Aborted && attempt.status != Completed && PermitsRetry(attempt.retry.value.reason)
  {
  }

  lemma StartableExactly(s: State, i: nat, now: nat)
    requires i in s.invocations && s.invocations[i].run in s.runs
    requires var inv := s.invocations[i];
      && inv.status == Invocations.Running && inv.manifest.Some? && !HasActiveAttempt(inv) && inv.request == None
      && 0 < |inv.attempts| < inv.allocation.attempts && Permitted(inv.attempts[|inv.attempts| - 1])
      && Due(inv, s.runs[inv.run], inv.attempts[|inv.attempts| - 1].retry.value, now)
    ensures var inv, consumed := s.invocations[i], Consumed(s.usage, i, |s.invocations[i].attempts|);
      && (NextPermission(s, i, now) == MayStart <==> BelowAllocation(consumed, inv.allocation))
      && (NextPermission(s, i, now).MayNot? ==> NextPermission(s, i, now).reason == OutOfAllocation)
  {
    hide Consumed, DeadlineOf, HasActiveAttempt;
  }

  // ---------------------------------------------------------------------------
  // A run that strands a permitted retry
  // ---------------------------------------------------------------------------

  /** One provider, one Attempt at a time. */
  const CFG := Config(map[0 := 1], 1, None, 0, 0)

  const MANIFEST := Manifest(None, 0, false)

  const SPENT := AttemptId(0, 1)

  /** Interrupted on its own, after using exactly the tokens the Invocation was allocated. */
  const USED_UP := Outcome(ProviderInterrupted(None), [UsageChunk(0.0, 10)])

  /** An Invocation with two Attempts and 10 tokens whose first Attempt's provider uses all of them. */
  const STEPS: seq<Step> := [
    CreateRun(0, 0), CreateInvocation(0, 0, Some(MANIFEST), Allocation(0.0, 10, 2)),
    PrepareStep(0, 0, 0, true, true), ExecuteStep(SPENT, false), ReturnStep(SPENT, USED_UP)]

  const RUN := Runs.Run(0, Runs.Created, None, None)

  /** The first of two Attempts, executing. */
  const EXHAUSTED := Invocation(0, Invocations.Running, Some(0), None, None, Some(MANIFEST), Allocation(0.0, 10, 2),
                                None, [NewAttempt(0)])

  const SPENT_ATTEMPT :=
    Attempt(Interrupted, Some(ByInterruption), false, Some(RetryDecision(true, RetryInterrupted, None)), 0)

  /** Where that run ends. */
  const EXHAUSTED_STATE := Standing(
    EXHAUSTED, map[SPENT := Lease(0, false, true)], map[SPENT := Flight(0, None, false, None, Some(USED_UP), Settling)],
    [ProviderCall(SPENT, RUN, None)])

  lemma NextStep(k: nat)
    requires k < |STEPS|
    ensures After(CFG, STEPS[..k + 1]) == Apply(After(CFG, STEPS[..k]), CFG, STEPS[k])
  {
    hide Apply;
    assert STEPS[..k + 1][..k] == STEPS[..k];
  }

  /** A state of that run. */
  function Standing(invocation: Invocation, leases: map<AttemptId, Lease>, flights: map<AttemptId, Flight>,
                    calls: seq<ProviderCall>): State {
    State(map[0 := RUN], map[0 := invocation], leases, [], flights, calls, multiset{})
  }

  const CREATED := Invocation(0, Pending, None, None, None, Some(MANIFEST), Allocation(0.0, 10, 2), None, [])

  lemma AfterCreation()
    ensures After(CFG, STEPS[..2]) == Standing(CREATED, map[], map[], [])
  {
    assert STEPS[..0] == [];
    assert After(CFG, []) == EMPTY;
    NextStep(0);
    NextStep(1);
    hide After;
    assert After(CFG, STEPS[..1]) == EMPTY.(runs := map[0 := RUN]);
  }

  lemma MayPrepare(s: State)
    requires s == Standing(CREATED, map[], map[], [])
    ensures NextPermission(s, 0, 0) == MayStart && CapacityGranted(s, CFG, MANIFEST, true)
  {
    assert ActiveLeases(s.leases) == {} && ActiveLeasesOf(s.leases, 0) == {} && ActiveWriters(s.leases) == {};
    assert Consumed(s.usage, 0, 0) == ZERO_ALLOCATION;
  }

  lemma AfterPreparation()
    ensures After(CFG, STEPS[..3]) ==
            Standing(EXHAUSTED, map[SPENT := Lease(0, false, true)],
                     map[SPENT := Flight(0, None, false, None, None, Idle)], [])
  {
    hide After, NextPermission, CapacityGranted;
    AfterCreation();
    NextStep(2);
    var s := After(CFG, STEPS[..2]);
    MayPrepare(s);
    assert Apply(s, CFG, STEPS[2]) == PreparedOn(s, 0, 0, 0);
    assert Started(CREATED, 0, 0) == EXHAUSTED by { assert [] + [NewAttempt(0)] == [NewAttempt(0)]; }
    assert PreparedOn(s, 0, 0, 0).invocations == map[0 := EXHAUSTED];
  }

  /** The state is what the run leaves. */
  lemma AfterSteps()
    ensures After(CFG, STEPS) == EXHAUSTED_STATE
  {
    hide After;
    AfterPreparation();
    NextStep(3);
    NextStep(4);
    assert STEPS[..5] == STEPS;
    assert After(CFG, STEPS[..4]).flights == map[SPENT := Flight(0, None, false, None, None, AtProvider)];
  }

  lemma ExhaustedUsage()
    ensures Consumed([] + RowsFor(SPENT, USED_UP.usage), 0, 1) == Allocation(0.0, 10, 1)
  {
    var rows := [] + RowsFor(SPENT, USED_UP.usage);
    assert rows[..0] == [] && rows[0] == UsageRow(SPENT, UsageChunk(0.0, 10));
    assert UsageTotal(rows[..0], 0) == ZERO_ALLOCATION;
  }

  lemma ExhaustedEnding(c: Config)
    ensures CanFinalize(EXHAUSTED_STATE, SPENT)
      && FinalEnding(EXHAUSTED_STATE, c, SPENT, false, 0, 0) == Ending(SPENT_ATTEMPT, None)
  {
    ExhaustedUsage();
    hide Consumed, RowsFor;
  }

  const FINALIZE := FinalizeStep(SPENT, false, 0, 0, true)

  /** Finalizing the Attempt now permits its retry. */
  ghost predicate PermitsOnFinalize(s: State) {
    CanFinalize(s, SPENT) && Permitted(FinalEnding(s, CFG, SPENT, false, 0, 0).attempt)
  }

  /** A preparation at `later` is refused, and the refusal fails the Invocation. */
  ghost predicate FailsAt(s: State, later: nat) {
    && 0 in s.invocations && s.invocations[0].run in s.runs
    && NextPermission(s, 0, later) == MayNot(OutOfAllocation, None)
    && Prepare(s, CFG, 0, later, later, true, true) ==
          WithInvocation(s, 0, s.invocations[0].(status := Failed, failure := Some(FailedAllocation)))
  }

  lemma FailsAfterFinalization(later: nat)
    ensures FailsAt(Finalize(EXHAUSTED_STATE, CFG, SPENT, false, 0, 0, true), later)
  {
    var s' := Finalize(EXHAUSTED_STATE, CFG, SPENT, false, 0, 0, true);
    ExhaustedEnding(CFG);
    ExhaustedUsage();
    FinalizeShape(EXHAUSTED_STATE, CFG, SPENT, false, 0, 0);
    FinalizedRow(EXHAUSTED_STATE, CFG, SPENT, false, 0, 0, 0);
    hide Finalize, FinalEnding, Consumed, RowsFor;
    assert s'.invocations[0] == EXHAUSTED.(attempts := [SPENT_ATTEMPT]);
    StartableExactly(s', 0, later);
    hide NextPermission;
  }

  /**
   * A run of the protocol whose permitted retry never starts: the finalization that ends
   * it permits the retry, and whenever that is prepared, it is refused and the refusal
   * fails the Invocation.
   */
  lemma StrandedRetry(later: nat)
    ensures PermitsOnFinalize(After(CFG, STEPS))
    ensures FailsAt(After(CFG, STEPS + [FINALIZE]), later)
  {
    hide After, Finalize, FinalEnding, FailsAt, CanFinalize;
    AfterSteps();
    ExhaustedEnding(CFG);
    FailsAfterFinalization(later);
    OneMore(CFG, STEPS, [FINALIZE]);
    assert STEPS + [FINALIZE][..0] == STEPS;
  }
}
