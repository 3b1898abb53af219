/**
 * What no step takes back. Ended Attempts and Invocations, recorded Usage, released
 * leases, provider calls and delivered interruptions are history: every step only adds
 * to them, and every status it changes it changes along one edge of its machine.
 */
module ExecutorHistory {
  import opened Wrappers
  import opened Budgets
  import Runs
  import opened Invocations
  import opened RetryPolicy
  import opened ExecutorState
  import opened ExecutorInvariants
  import opened ExecutorRuns

  /** An Attempt row stays or takes one edge of its machine; an ended one therefore stays. */
  ghost predicate AttemptForward(before: Attempt, after: Attempt) {
    after == before || (AttemptMoves(before.status, after.status) && after.admittedAt == before.admittedAt)
  }

  ghost predicate InvocationForward(before: Invocation, after: Invocation) {
    && after.run == before.run && after.allocation == before.allocation && after.manifest == before.manifest
    && (before.startedAt.Some? ==> after.startedAt == before.startedAt)
    && (before.request.Some? ==> after.request == before.request)
    && (after.status == before.status || InvocationMoves(before.status, after.status))
    && (Ended(before.status) ==> after == before)
    && |before.attempts| <= |after.attempts| <= |before.attempts| + 1
    && (forall k :: 0 <= k < |before.attempts| ==> AttemptForward(before.attempts[k], after.attempts[k]))
    && (|after.attempts| > |before.attempts| ==> !LastExecuting(before) && LastExecuting(after))
  }

  ghost predicate InvocationsForward(before: map<nat, Invocation>, after: map<nat, Invocation>) {
    forall i :: i in before ==> i in after && InvocationForward(before[i], after[i])
  }

  ghost predicate RunsForward(before: map<nat, Runs.Run>, after: map<nat, Runs.Run>) {
    forall r :: r in before ==>
      && r in after && after[r].conversation == before[r].conversation
      && (Runs.IsTerminal(before[r].status) ==> after[r] == before[r])
  }

  /** Usage only grows, and only by rows of Attempts that were executing. */
  ghost predicate UsageForward(invocations: map<nat, Invocation>, before: seq<UsageRow>, after: seq<UsageRow>) {
    && before <= after
    && (forall k :: |before| <= k < |after| ==>
          Exists(invocations, after[k].attempt) && !AttemptEnded(Row(invocations, after[k].attempt).status))
  }

  ghost predicate LeasesForward(before: map<AttemptId, Lease>, after: map<AttemptId, Lease>) {
    forall a :: a in before ==>
      && a in after && after[a].provider == before[a].provider && after[a].writes == before[a].writes
      && (after[a].active ==> before[a].active)
  }

  /**
   * While a flight lives, what it belongs to, the interruption it was given and the outcome it
   * returned never change.
   */
  ghost predicate FlightsForward(before: map<AttemptId, Flight>, after: map<AttemptId, Flight>) {
    forall a :: a in before && a in after ==>
      && after[a].run == before[a].run && after[a].deadlineAt == before[a].deadlineAt
      && (before[a].aborted ==> after[a].aborted && after[a].interruption == before[a].interruption)
      && (before[a].outcome.Some? ==> after[a].outcome == before[a].outcome)
  }

  ghost predicate Forward(s: State, s': State) {
    && RunsForward(s.runs, s'.runs)
    && InvocationsForward(s.invocations, s'.invocations)
    && UsageForward(s.invocations, s.usage, s'.usage)
    && LeasesForward(s.leases, s'.leases)
    && FlightsForward(s.flights, s'.flights)
    && s.calls <= s'.calls
    && s.delivered <= s'.delivered
  }

  // ---------------------------------------------------------------------------
  // One Invocation
  // ---------------------------------------------------------------------------

  lemma Unmoved(invocations: map<nat, Invocation>)
    ensures InvocationsForward(invocations, invocations)
  {
  }

  lemma UpdateForward(before: map<nat, Invocation>, i: nat, inv: Invocation)
    requires i in before && InvocationForward(before[i], inv)
    ensures InvocationsForward(before, before[i := inv])
  {
    Unmoved(before);
    hide InvocationForward;
  }

  lemma ConvergeForward(inv: Invocation)
    requires InvocationOk(inv)
    ensures InvocationForward(inv, Converge(inv))
  {
    hide AttemptsOk;
  }

  /**
   * Ending the executing Attempt moves the Attempt and, unless a retry remains, its Invocation;
   * converging afterwards is at most that one move.
   */
  lemma EndForward(inv: Invocation, number: nat, e: Ending)
    requires InvocationOk(inv) && number == |inv.attempts| && LastExecuting(inv) && EndingOk(inv, number, e)
    ensures InvocationForward(inv, EndAttempt(inv, number, e))
    ensures InvocationForward(inv, Converge(EndAttempt(inv, number, e)))
  {
    hide AttemptOk;
    var after := EndAttempt(inv, number, e);
    assert inv.status == Running && inv.attempts[number - 1].status == Executing;
    assert AttemptForward(inv.attempts[number - 1], e.attempt);
  }

  lemma StartForward(s: State, i: nat, now: nat, startNow: nat)
    requires RowsOk(s.runs, s.invocations) && i in s.invocations && NextPermission(s, i, now) == MayStart
    ensures InvocationForward(s.invocations[i], Started(s.invocations[i], now, startNow))
  {
    hide NextPermission, DeadlineOf, AttemptOk;
    PermissionMeans(s, i, now);
    var inv := s.invocations[i];
    assert InvocationOk(inv);
    ActiveIsLast(inv);
    assert inv.status == Pending || inv.status == Running;
  }

  lemma RecoverForward(c: Config, inv: Invocation, run: Runs.Run, now: nat)
    requires InvocationOk(inv)
    ensures InvocationForward(inv, RecoveredInvocation(c, inv, run, now))
    ensures InvocationForward(inv, Converge(RecoveredInvocation(c, inv, run, now)))
  {
    hide RecoveredEnding, EndAttempt, EndingOk, Converge, InvocationForward;
    ActiveIsLast(inv);
    var n := |inv.attempts|;
    if LastExecuting(inv) {
      RecoveredEndingOk(c, inv, n, run, now);
      EndForward(inv, n, RecoveredEnding(c, inv, n, run, now));
    } else {
      ConvergeForward(inv);
      SelfForward(inv);
    }
  }

  lemma SelfForward(inv: Invocation)
    ensures InvocationForward(inv, inv)
  {
  }

  // ---------------------------------------------------------------------------
  // The tables, step by step
  // ---------------------------------------------------------------------------

  lemma SettleForward(before: map<nat, Invocation>, r: nat)
    requires forall i :: i in before ==> InvocationOk(before[i])
    ensures InvocationsForward(before, SettleCancelledRun(before, r))
  {
    hide InvocationForward, InvocationOk;
    var after := SettleCancelledRun(before, r);
    forall i | i in before ensures i in after && InvocationForward(before[i], after[i]) {
      assert after[i] == if before[i].run == r then Converge(before[i]) else before[i];
      ConvergeForward(before[i]);
      SelfForward(before[i]);
    }
  }

  lemma FinalizeForwardRows(s: State, c: Config, a: AttemptId, valid: bool, approval: nat, now: nat, commits: bool)
    requires Inv(s, c)
    ensures InvocationsForward(s.invocations, Finalize(s, c, a, valid, approval, now, commits).invocations)
  {
    hide LeasesOk, CallsOk, UsageOk, DeliveredOk, CancelledConverged, CapacityOk, InvocationForward, InvocationOk,
      Converge, EndAttempt, FinalEnding, EndingOk, HasActiveAttempt;
    var s' := Finalize(s, c, a, valid, approval, now, commits);
    Unmoved(s.invocations);
    if CanFinalize(s, a) && commits && !AttemptEnded(Row(s.invocations, a).status) {
      var inv, e := s.invocations[a.invocation], FinalEnding(s, c, a, valid, approval, now);
      FinalizedInvocation(s, c, a, valid, approval, now);
      EndForward(inv, a.number, e);
      forall i | i in s.invocations
        ensures i in s'.invocations && InvocationForward(s.invocations[i], s'.invocations[i])
      {
        ConvergeForward(s.invocations[i]);
        FinalizedRow(s, c, a, valid, approval, now, i);
      }
    }
  }

  /**
   * The row of Invocation `i` after a committed finalization: ended if it is the Attempt's, then
   * converged if the Run is cancelled.
   */
  lemma FinalizedRow(s: State, c: Config, a: AttemptId, valid: bool, approval: nat, now: nat, i: nat)
    requires CanFinalize(s, a) && !AttemptEnded(Row(s.invocations, a).status) && i in s.invocations
    ensures var s' := Finalize(s, c, a, valid, approval, now, true);
      var inv := s.invocations[a.invocation];
      var row := if i == a.invocation then EndAttempt(inv, a.number, FinalEnding(s, c, a, valid, approval, now))
        else s.invocations[i];
      && i in s'.invocations
      && s'.invocations[i] == if s.runs[inv.run].status == Runs.Cancelled && row.run == inv.run then Converge(row)
            else row
  {
    hide EndAttempt, FinalEnding;
  }

  lemma RecoverForwardRows(s: State, c: Config, now: nat)
    requires Inv(s, c)
    ensures InvocationsForward(s.invocations, Recover(s, c, now).invocations)
  {
    hide LeasesOk, CallsOk, UsageOk, DeliveredOk, CancelledConverged, CapacityOk, InvocationForward, InvocationOk,
      RecoveredInvocation, HeldBack;
    var s' := Recover(s, c, now);
    Unmoved(s.invocations);
    if s.flights == map[] {
      forall i | i in s.invocations
        ensures i in s'.invocations && InvocationForward(s.invocations[i], s'.invocations[i])
      {
        RecoverForward(c, s.invocations[i], s.runs[s.invocations[i].run], now);
      }
    }
  }

  /** What moves nothing but flights and what they have to show for it. */
  lemma FlightStepForward(s: State, s': State)
    requires s' == s.(flights := s'.flights, calls := s'.calls, delivered := s'.delivered)
    requires FlightsForward(s.flights, s'.flights) && s.calls <= s'.calls && s.delivered <= s'.delivered
    ensures Forward(s, s')
  {
    Unmoved(s.invocations);
    hide InvocationsForward;
  }

  lemma InterruptForward(s: State, targets: set<AttemptId>, cause: Cause)
    requires FlightsOk(s.invocations, s.flights)
    ensures Forward(s, InterruptAll(s, targets, cause))
  {
    hide Forward, Exists, Row, DeadlineOf;
    var s' := InterruptAll(s, targets, cause);
    forall a | a in s.flights
      ensures s'.flights[a] == s.flights[a]
        || (Interruptible(s.flights[a]) && s'.flights[a] == Abort(s.flights[a], cause))
    {
      assert FlightOk(s.invocations, a, s.flights[a]);
    }
    FlightStepForward(s, s');
  }

  lemma FlightUpdate(flights: map<AttemptId, Flight>, a: AttemptId, f: Flight)
    requires a in flights && f.run == flights[a].run && f.deadlineAt == flights[a].deadlineAt
    requires flights[a].aborted ==> f.aborted && f.interruption == flights[a].interruption
    requires flights[a].outcome.Some? ==> f.outcome == flights[a].outcome
    ensures FlightsForward(flights, flights[a := f])
  {
  }

  lemma ExecuteForward(s: State, a: AttemptId, rejects: bool)
    requires FlightsOk(s.invocations, s.flights)
    ensures Forward(s, Execute(s, a, rejects))
  {
    hide Forward, FlightsForward, Exists, Row, DeadlineOf;
    Same(s);
    if Execute(s, a, rejects) != s {
      assert FlightOk(s.invocations, a, s.flights[a]);
      FlightUpdate(s.flights, a, Execute(s, a, rejects).flights[a]);
      FlightStepForward(s, Execute(s, a, rejects));
    }
  }

  /** One flight replaced by a later form of itself. */
  lemma FlightForward(s: State, a: AttemptId, f: Flight)
    requires a in s.flights && f.run == s.flights[a].run && f.deadlineAt == s.flights[a].deadlineAt
    requires s.flights[a].aborted ==> f.aborted && f.interruption == s.flights[a].interruption
    requires s.flights[a].outcome.Some? ==> f.outcome == s.flights[a].outcome
    ensures Forward(s, s.(flights := s.flights[a := f]))
  {
    hide Forward, FlightsForward;
    FlightUpdate(s.flights, a, f);
    FlightStepForward(s, s.(flights := s.flights[a := f]));
  }

  lemma ReturnForward(s: State, a: AttemptId, outcome: Outcome)
    requires FlightsOk(s.invocations, s.flights)
    ensures Forward(s, Return(s, a, outcome))
  {
    hide Forward, Exists, Row, DeadlineOf;
    Same(s);
    if Return(s, a, outcome) != s {
      assert FlightOk(s.invocations, a, s.flights[a]);
      FlightForward(s, a, Return(s, a, outcome).flights[a]);
    }
  }

  lemma CollectForward(s: State, a: AttemptId)
    ensures Forward(s, CollectFails(s, a))
  {
    hide Forward;
    Same(s);
    if CollectFails(s, a) != s {
      FlightForward(s, a, s.flights[a].(phase := Idle));
    }
  }

  /** What moves one Invocation row but no Attempt of it. */
  lemma RowStepForward(s: State, i: nat, inv: Invocation)
    requires i in s.invocations && InvocationForward(s.invocations[i], inv)
    ensures Forward(s, WithInvocation(s, i, inv))
  {
    UpdateForward(s.invocations, i, inv);
    hide InvocationForward, InvocationsForward;
  }

  lemma Same(s: State)
    ensures Forward(s, s)
  {
    Unmoved(s.invocations);
  }

  lemma RunStepForward(s: State, r: nat, run: Runs.Run)
    requires r in s.runs ==> run.conversation == s.runs[r].conversation && !Runs.IsTerminal(s.runs[r].status)
    ensures Forward(s, s.(runs := s.runs[r := run]))
  {
    Same(s);
    hide InvocationsForward, UsageForward;
  }

  lemma PreparedForward(s: State, c: Config, i: nat, now: nat, startNow: nat)
    requires Inv(s, c) && i in s.invocations && NextPermission(s, i, now) == MayStart
    ensures s.invocations[i].manifest.Some? && Forward(s, PreparedOn(s, i, now, startNow))
  {
    hide InvocationForward, InvocationsForward, InvocationOk, FlightsOk, CallsOk, UsageOk, DeliveredOk,
      CancelledConverged, CapacityOk, NextPermission, Exists;
    PermissionMeans(s, i, now);
    StartForward(s, i, now, startNow);
    UpdateForward(s.invocations, i, Started(s.invocations[i], now, startNow));
    NewKey(s, i);
  }

  lemma NewKey(s: State, i: nat)
    requires LeasesOk(s.invocations, s.leases) && FlightsOk(s.invocations, s.flights) && i in s.invocations
    ensures var a := AttemptId(i, |s.invocations[i].attempts| + 1); a !in s.leases && a !in s.flights
  {
    var a := AttemptId(i, |s.invocations[i].attempts| + 1);
    assert a in s.flights ==> FlightOk(s.invocations, a, s.flights[a]);
  }

  lemma PrepareForward(s: State, c: Config, i: nat, now: nat, startNow: nat, available: bool, commits: bool)
    requires Inv(s, c)
    ensures Forward(s, Prepare(s, c, i, now, startNow, available, commits))
  {
    hide Forward, LeasesOk, FlightsOk, CallsOk, DeliveredOk, CancelledConverged, CapacityOk, AttemptsOk;
    Same(s);
    if i in s.invocations && commits {
      var reply := NextPermission(s, i, now);
      if reply.MayStart? {
        PreparedForward(s, c, i, now, startNow);
      } else if reply.reason == OutOfAllocation || reply.reason == BlockedByRequest {
        RefusalFindsRunning(s, i, now);
        RowStepForward(s, i, s.invocations[i].(status := Failed, failure := Some(FailedAllocation)));
      }
    }
  }

  lemma RequestForward(s: State, c: Config, a: AttemptId, decision: nat)
    requires Inv(s, c)
    ensures Forward(s, RequestDecision(s, a, decision))
  {
    hide Forward, LeasesOk, FlightsOk, CallsOk, UsageOk, DeliveredOk, CancelledConverged, CapacityOk, AttemptOk,
      DeadlineOf;
    Same(s);
    if RequestDecision(s, a, decision) != s {
      var inv := s.invocations[a.invocation];
      assert InvocationOk(inv);
      ActiveIsLast(inv);
      RowStepForward(s, a.invocation, inv.(request := Some(decision)));
    }
  }

  /** What an ending writes beside the Invocation rows: Usage of the one Attempt, its lease, and flights removed. */
  lemma EndingForward(s: State, s': State, a: AttemptId, rows: seq<UsageRow>)
    requires s' ==
      s.(invocations := s'.invocations, usage := s.usage + rows, leases := s'.leases, flights := s'.flights)
    requires InvocationsForward(s.invocations, s'.invocations) && LeasesForward(s.leases, s'.leases)
    requires forall b :: b in s'.flights ==> b in s.flights && s'.flights[b] == s.flights[b]
    requires Exists(s.invocations, a) && !AttemptEnded(Row(s.invocations, a).status)
      && forall k :: 0 <= k < |rows| ==> rows[k].attempt == a
    ensures Forward(s, s')
  {
    hide InvocationsForward, LeasesForward, Exists, Row;
  }

  lemma FinalizeShape(s: State, c: Config, a: AttemptId, valid: bool, approval: nat, now: nat)
    requires CanFinalize(s, a) && !AttemptEnded(Row(s.invocations, a).status)
    ensures var s' := Finalize(s, c, a, valid, approval, now, true);
      && s' == s.(invocations := s'.invocations, usage := s.usage + RowsFor(a, s.flights[a].outcome.value.usage),
                  leases := s'.leases, flights := s.flights - {a})
      && LeasesForward(s.leases, s'.leases)
  {
    hide RowsFor, FinalEnding, EndAttempt, SettleCancelledRun;
  }

  lemma FinalizeForward(s: State, c: Config, a: AttemptId, valid: bool, approval: nat, now: nat, commits: bool)
    requires Inv(s, c)
    ensures Forward(s, Finalize(s, c, a, valid, approval, now, commits))
  {
    FinalizeForwardRows(s, c, a, valid, approval, now, commits);
    Same(s);
    hide Forward, RowsOk, LeasesOk, CallsOk, UsageOk, DeliveredOk, CancelledConverged, CapacityOk, InvocationsForward,
      RowsFor, LeasesForward;
    if CanFinalize(s, a) {
      assert FlightOk(s.invocations, a, s.flights[a]);
      if commits {
        FinalizeShape(s, c, a, valid, approval, now);
        hide Finalize, FlightsOk;
        EndingForward(s, Finalize(s, c, a, valid, approval, now, commits), a,
                      RowsFor(a, s.flights[a].outcome.value.usage));
      } else {
        FlightForward(s, a, s.flights[a].(phase := Idle));
      }
    }
  }

  lemma RecoverForwardAll(s: State, c: Config, now: nat)
    requires Inv(s, c)
    ensures Forward(s, Recover(s, c, now))
  {
    RecoverForwardRows(s, c, now);
    Same(s);
    hide Forward, InvocationsForward, RecoveredInvocation, HeldBack, LeasesOk, CallsOk, UsageOk, DeliveredOk,
      CancelledConverged, CapacityOk, InvocationOk;
    if s.flights == map[] {
      RecoveredShape(s, c, now);
      hide Recover, RowsOk, FlightsOk;
      ReleasedForward(s, Recover(s, c, now).invocations);
    }
  }

  lemma ReleasedForward(s: State, after: map<nat, Invocation>)
    requires InvocationsForward(s.invocations, after)
    ensures Forward(s, s.(invocations := after, leases := AllReleased(s.leases)))
  {
    hide InvocationsForward, Exists, Row;
  }

  /** Two steps in one: a committed control intent, then the delivery of its interruption. */
  lemma ControlForward(s: State, runs: map<nat, Runs.Run>, invocations: map<nat, Invocation>, targets: set<AttemptId>,
                       cause: Cause)
    requires RunsForward(s.runs, runs) && InvocationsForward(s.invocations, invocations)
      && FlightsOk(s.invocations, s.flights)
    ensures Forward(s, s.(runs := runs, invocations := invocations))
    ensures Forward(s, InterruptAll(s.(runs := runs, invocations := invocations), targets, cause))
  {
    InterruptForward(s, targets, cause);
    Same(s);
    hide InvocationsForward, FlightsOk;
    assert InterruptAll(s.(runs := runs, invocations := invocations), targets, cause) ==
      InterruptAll(s, targets, cause).(runs := runs, invocations := invocations);
  }

  lemma CancelForward(s: State, c: Config, r: nat)
    requires Inv(s, c)
    ensures Forward(s, CancelRun(s, r))
  {
    hide Forward, LeasesOk, CallsOk, UsageOk, DeliveredOk, CancelledConverged, CapacityOk, AttemptsOk, StatusOk,
      InvocationsForward, FlightOk;
    Same(s);
    InterruptForward(s, FlightsOf(s, r), CausedByCancel);
    var t := Runs.Transition(Runs.Cancelled, None, None);
    if r in s.runs && Runs.Move(s.runs[r], t).Ok? {
      var run := Runs.Move(s.runs[r], t).value;
      Runs.OperateKeeps(s.runs[r], Runs.ByTransition(t));
      assert forall i :: i in s.invocations ==> InvocationOk(s.invocations[i]);
      SettleForward(s.invocations, r);
      ControlForward(s, s.runs[r := run], SettleCancelledRun(s.invocations, r), FlightsOf(s, r), CausedByCancel);
    }
  }

  lemma PauseForward(s: State, c: Config, r: nat, mode: Runs.PauseMode)
    requires Inv(s, c)
    ensures Forward(s, PauseRun(s, r, mode))
  {
    hide Forward, LeasesOk, CallsOk, UsageOk, DeliveredOk, CancelledConverged, CapacityOk, AttemptsOk, StatusOk,
      InvocationsForward, FlightOk;
    Same(s);
    Unmoved(s.invocations);
    if r in s.runs && Runs.Pause(s.runs[r], mode).Ok? {
      var run := Runs.Pause(s.runs[r], mode).value;
      Runs.OperateKeeps(s.runs[r], Runs.ByPause(mode));
      ControlForward(s, s.runs[r := run], s.invocations, FlightsOf(s, r), CausedByPause);
    }
  }

  lemma MoveForward(s: State, c: Config, r: nat, op: Runs.Operation)
    requires Inv(s, c)
    ensures Forward(s, MoveRun(s, r, op))
  {
    hide Forward, LeasesOk, FlightsOk, CallsOk, UsageOk, DeliveredOk, CancelledConverged, CapacityOk, AttemptsOk,
      StatusOk;
    Same(s);
    if MoveRun(s, r, op) != s {
      Runs.OperateKeeps(s.runs[r], op);
      RunStepForward(s, r, Runs.Operate(s.runs[r], op).value);
    }
  }

  lemma CreationForward(s: State, c: Config, step: Step)
    requires step.CreateRun? || step.CreateInvocation? || step.CrashStep?
    ensures Forward(s, Apply(s, c, step))
  {
    Same(s);
    hide InvocationForward, UsageForward;
  }

  /** Every step of every reachable state only moves forward. */
  lemma StepForward(s: State, c: Config, step: Step)
    requires Inv(s, c)
    ensures Forward(s, Apply(s, c, step))
  {
    hide Forward, Prepare, Execute, Return, CollectFails, RequestDecision, Finalize, InterruptAll, CancelRun, PauseRun,
      MoveRun, Recover,
         RowsOk, LeasesOk, FlightsOk, CallsOk, UsageOk, DeliveredOk, CancelledConverged, CapacityOk;
    match step
    case CreateRun(_, _) => CreationForward(s, c, step);
    case CreateInvocation(_, _, _, _) => CreationForward(s, c, step);
    case PrepareStep(i, now, startNow, available, commits) =>
      PrepareForward(s, c, i, now, startNow, available, commits);
    case ExecuteStep(a, rejects) => ExecuteForward(s, a, rejects);
    case ReturnStep(a, outcome) => ReturnForward(s, a, outcome);
    case CollectFailsStep(a) => CollectForward(s, a);
    case RequestStep(a, decision) => RequestForward(s, c, a, decision);
    case FinalizeStep(a, valid, approval, now, commits) => FinalizeForward(s, c, a, valid, approval, now, commits);
    case InterruptStep(a, cause) => InterruptForward(s, {a}, cause);
    case DeadlinesStep(now) => InterruptForward(s, Overdue(s, now), CausedByDeadline);
    case ShutdownStep => InterruptForward(s, s.flights.Keys, CausedByShutdown);
    case CancelStep(r) => CancelForward(s, c, r);
    case PauseStep(r, mode) => PauseForward(s, c, r, mode);
    case MoveRunStep(r, op) => MoveForward(s, c, r, op);
    case CrashStep => CreationForward(s, c, step);
    case RecoverStep(now) => RecoverForwardAll(s, c, now);
  }
}
