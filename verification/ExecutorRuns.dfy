/**
 * Finalization, restart and every other step composed: the invariant holds over
 * every run of the protocol, from an empty database and no process.
 */
module ExecutorRuns {
  import opened Wrappers
  import opened Budgets
  import Runs
  import opened Invocations
  import opened RetryPolicy
  import opened ExecutorState
  import opened ExecutorInvariants

  // ---------------------------------------------------------------------------
  // Finalization
  // ---------------------------------------------------------------------------

  /** Everything finalization writes before a cancelled Run's other work converges. */
  function Unconverged(s: State, c: Config, a: AttemptId, valid: bool, approval: nat, now: nat): State
    requires CanFinalize(s, a)
  {
    s.(usage := s.usage + RowsFor(a, s.flights[a].outcome.value.usage),
       invocations := Settled(s, c, a, valid, approval, now),
       leases := if a in s.leases then s.leases[a := s.leases[a].(active := false)] else s.leases,
       flights := s.flights - {a})
  }

  /** Every conjunct of the invariant but the convergence of cancelled Runs. */
  ghost predicate InvTables(s: State, c: Config) {
    && RowsOk(s.runs, s.invocations)
    && LeasesOk(s.invocations, s.leases)
    && FlightsOk(s.invocations, s.flights)
    && CallsOk(s.invocations, s.flights, s.calls)
    && UsageOk(s.invocations, s.usage)
    && DeliveredOk(s.invocations, s.flights, s.delivered)
    && CapacityOk(s.leases, c)
  }

  lemma UnconvergedTables(s: State, c: Config, a: AttemptId, valid: bool, approval: nat, now: nat)
    requires Inv(s, c) && CanFinalize(s, a)
    ensures InvTables(Unconverged(s, c, a, valid, approval, now), c)
  {
    hide RowsOk, LeasesOk, FlightsOk, CallsOk, UsageOk, DeliveredOk, CancelledConverged, CapacityOk, AttemptsOk,
      StatusOk, RowEnded, Settled, LastExecuting;
    var s' := Unconverged(s, c, a, valid, approval, now);
    SettledRows(s, c, a, valid, approval, now);
    EndedTables(s, s'.invocations, a, RowsFor(a, s.flights[a].outcome.value.usage));
    EndedFlights(s, s'.invocations, a);
    ReleaseWithinCapacity(s.leases, c, s'.leases);
  }

  lemma ConvergeKeeps(s: State, c: Config, r: nat)
    requires InvTables(s, c)
    ensures InvTables(s.(invocations := SettleCancelledRun(s.invocations, r)), c)
  {
    hide LeasesOk, FlightsOk, CallsOk, UsageOk, DeliveredOk, CancelledConverged, CapacityOk, AttemptsOk, StatusOk;
    assert forall i :: i in s.invocations ==> InvocationOk(s.invocations[i]);
    SettleCancelledOk(s.invocations, r);
    Framed(s.invocations, SettleCancelledRun(s.invocations, r));
    TablesFramed(s, SettleCancelledRun(s.invocations, r));
    assert RowsOk(s.runs, SettleCancelledRun(s.invocations, r));
  }

  /** One Invocation changed; what another one of a cancelled Run needed for convergence it still has. */
  lemma OthersConverged(runs: map<nat, Runs.Run>, before: map<nat, Invocation>, i: nat, inv: Invocation)
    requires CancelledConverged(runs, before) && i in before && inv.run == before[i].run && inv.run in runs
    requires forall j :: j in before ==> InvocationOk(before[j])
    requires InvocationOk(inv)
    ensures runs[inv.run].status != Runs.Cancelled ==> CancelledConverged(runs, before[i := inv])
    ensures runs[inv.run].status == Runs.Cancelled ==>
      CancelledConverged(runs, SettleCancelledRun(before[i := inv], inv.run))
  {
    hide AttemptsOk, StatusOk, LastExecuting;
    var after := before[i := inv];
    assert forall j :: j in after ==> InvocationOk(after[j]);
    SettleCancelledOk(after, inv.run);
  }

  lemma FinalizeCommitKeeps(s: State, c: Config, a: AttemptId, valid: bool, approval: nat, now: nat)
    requires Inv(s, c) && CanFinalize(s, a) && !AttemptEnded(Row(s.invocations, a).status)
    ensures Inv(Finalize(s, c, a, valid, approval, now, true), c)
  {
    hide LeasesOk, FlightsOk, CallsOk, UsageOk, DeliveredOk, CancelledConverged, CapacityOk, AttemptsOk, StatusOk,
      RowEnded, LastExecuting, FinalEnding, EndAttempt,
         SettleCancelledRun;
    var inv := s.invocations[a.invocation];
    var s1 := Unconverged(s, c, a, valid, approval, now);
    UnconvergedTables(s, c, a, valid, approval, now);
    ConvergeKeeps(s1, c, inv.run);
    SettledRows(s, c, a, valid, approval, now);
    FinalizedInvocation(s, c, a, valid, approval, now);
    var ended := EndAttempt(inv, a.number, FinalEnding(s, c, a, valid, approval, now));
    assert ended.run == inv.run by { EndKeepsOwner(inv, a.number, FinalEnding(s, c, a, valid, approval, now)); }
    OthersConverged(s.runs, s.invocations, a.invocation, ended);
  }

  lemma EndKeepsOwner(inv: Invocation, number: nat, e: Ending)
    requires 1 <= number <= |inv.attempts|
    ensures EndAttempt(inv, number, e).run == inv.run
  {
  }

  lemma FinalizeKeeps(s: State, c: Config, a: AttemptId, valid: bool, approval: nat, now: nat, commits: bool)
    requires Inv(s, c)
    ensures Inv(Finalize(s, c, a, valid, approval, now, commits), c)
  {
    hide RowsOk, LeasesOk, CallsOk, UsageOk, DeliveredOk, CancelledConverged, CapacityOk, AttemptsOk, StatusOk;
    if CanFinalize(s, a) {
      assert FlightOk(s.invocations, a, s.flights[a]);
      if commits {
        FinalizeCommitKeeps(s, c, a, valid, approval, now);
      } else {
        PhaseKeeps(s, c, a);
      }
    }
  }

  // ---------------------------------------------------------------------------
  // Restart
  // ---------------------------------------------------------------------------

  /** What recovery leaves of one Invocation: the same Attempts, every one of them ended. */
  ghost predicate RecoveredFrom(before: Invocation, after: Invocation) {
    && InvocationOk(after) && !LastExecuting(after)
    && after.run == before.run && |after.attempts| == |before.attempts|
    && (forall k :: 0 <= k < |after.attempts| ==> AttemptEnded(after.attempts[k].status))
    && (forall k :: 0 <= k < |before.attempts| && AttemptEnded(before.attempts[k].status) ==>
          after.attempts[k] == before.attempts[k])
    && (!LastExecuting(before) ==> after.status == before.status || after.status == Cancelled)
  }

  lemma RecoveredInvocationOk(c: Config, inv: Invocation, run: Runs.Run, now: nat)
    requires InvocationOk(inv)
    ensures RecoveredFrom(inv, RecoveredInvocation(c, inv, run, now))
  {
    hide RecoveredEnding, StatusOk, EndAttempt, EndingOk;
    ActiveIsLast(inv);
    if LastExecuting(inv) {
      var n := |inv.attempts|;
      var e := RecoveredEnding(c, inv, n, run, now);
      RecoveredEndingOk(c, inv, n, run, now);
      EndAttemptOk(inv, n, e);
      ActiveIsLast(EndAttempt(inv, n, e));
    }
  }

  lemma CancelledAfterRecovery(before: Invocation, inv: Invocation)
    requires RecoveredFrom(before, inv) && !Ended(inv.status)
    ensures RecoveredFrom(before, inv.(status := Cancelled))
  {
    hide AttemptsOk, StatusOk;
    EndedOk(inv, inv.(status := Cancelled));
  }

  /** Every row of a recovered state against the row it came from. */
  lemma RecoveredRows(s: State, c: Config, now: nat, i: nat)
    requires RowsOk(s.runs, s.invocations) && CancelledConverged(s.runs, s.invocations) && s.flights == map[]
      && i in s.invocations
    ensures var after := Recover(s, c, now).invocations;
      && after.Keys == s.invocations.Keys && RecoveredFrom(s.invocations[i], after[i])
      && (s.runs[s.invocations[i].run].status == Runs.Cancelled ==> Ended(after[i].status))
  {
    hide AttemptsOk, StatusOk, RecoveredInvocation, RecoveredFrom;
    var inv := s.invocations[i];
    var r := inv.run;
    assert InvocationOk(inv);
    var recovered := RecoveredInvocation(c, inv, s.runs[r], now);
    RecoveredInvocationOk(c, inv, s.runs[r], now);
    NotExecuting(inv, recovered);
    if !Ended(recovered.status) { CancelledAfterRecovery(inv, recovered); }
    ActiveIsLast(inv);
    assert LastExecuting(inv) && s.runs[r].status == Runs.Cancelled ==> HeldBack(s, r);
  }

  lemma NotExecuting(before: Invocation, inv: Invocation)
    requires RecoveredFrom(before, inv)
    ensures !HasActiveAttempt(inv) && inv.run == before.run
    ensures !LastExecuting(before) ==> inv.status == before.status || inv.status == Cancelled
  {
  }

  /** Row by row, an ended Attempt is the same and every other one has ended. */
  lemma RecoveredFrame(before: map<nat, Invocation>, after: map<nat, Invocation>)
    requires after.Keys == before.Keys && forall i :: i in before ==> RecoveredFrom(before[i], after[i])
    ensures forall a :: Exists(after, a) <==> Exists(before, a)
    ensures forall a :: Exists(before, a) ==> AttemptEnded(Row(after, a).status)
    ensures forall a :: Exists(before, a) && AttemptEnded(Row(before, a).status) ==> Row(after, a) == Row(before, a)
  {
    hide InvocationOk;
  }

  /** Every lease released. */
  function AllReleased(leases: map<AttemptId, Lease>): map<AttemptId, Lease> {
    map a | a in leases :: leases[a].(active := false)
  }

  lemma RecoveredTables(s: State, after: map<nat, Invocation>)
    requires after.Keys == s.invocations.Keys
      && forall i :: i in s.invocations ==> RecoveredFrom(s.invocations[i], after[i])
    requires LeasesOk(s.invocations, s.leases) && UsageOk(s.invocations, s.usage)
      && CallsOk(s.invocations, s.flights, s.calls)
    requires DeliveredOk(s.invocations, s.flights, s.delivered)
    ensures LeasesOk(after, AllReleased(s.leases)) && UsageOk(after, s.usage) && CallsOk(after, map[], s.calls)
      && DeliveredOk(after, map[], s.delivered)
  {
    hide RecoveredFrom;
    RecoveredFrame(s.invocations, after);
  }

  lemma RecoveredKeys(s: State, c: Config, now: nat)
    ensures Recover(s, c, now).invocations.Keys == s.invocations.Keys
  {
  }

  lemma RecoveredShape(s: State, c: Config, now: nat)
    requires RowsOk(s.runs, s.invocations) && s.flights == map[]
    ensures Recover(s, c, now) == s.(invocations := Recover(s, c, now).invocations, leases := AllReleased(s.leases))
  {
    hide InvocationOk, HeldBack, RecoveredInvocation;
  }

  lemma RecoveredRowsOk(s: State, c: Config, now: nat)
    requires RowsOk(s.runs, s.invocations) && CancelledConverged(s.runs, s.invocations) && s.flights == map[]
    ensures var after := Recover(s, c, now).invocations;
      && after.Keys == s.invocations.Keys
      && (forall i :: i in s.invocations ==> RecoveredFrom(s.invocations[i], after[i]))
      && RowsOk(s.runs, after) && CancelledConverged(s.runs, after)
  {
    hide AttemptsOk, StatusOk, LastExecuting, Recover;
    var after := Recover(s, c, now).invocations;
    forall i | i in s.invocations
      ensures i in after && RecoveredFrom(s.invocations[i], after[i])
      ensures s.runs[s.invocations[i].run].status == Runs.Cancelled ==> Ended(after[i].status)
    {
      RecoveredRows(s, c, now, i);
    }
    RecoveredKeys(s, c, now);
  }

  lemma RecoverKeeps(s: State, c: Config, now: nat)
    requires Inv(s, c)
    ensures Inv(Recover(s, c, now), c)
  {
    hide RowsOk, LeasesOk, CallsOk, UsageOk, DeliveredOk, CancelledConverged, CapacityOk, RecoveredFrom;
    if s.flights == map[] {
      RecoveredShape(s, c, now);
      hide Recover;
      RecoveredRowsOk(s, c, now);
      RecoveredTables(s, Recover(s, c, now).invocations);
      ReleaseWithinCapacity(s.leases, c, AllReleased(s.leases));
    }
  }

  // ---------------------------------------------------------------------------
  // Every run
  // ---------------------------------------------------------------------------

  /** An Invocation with no Attempt yet adds no row to any other table. */
  lemma CreateKeeps(s: State, c: Config, i: nat, inv: Invocation)
    requires Inv(s, c) && i !in s.invocations && inv.attempts == [] && InvocationOk(inv) && inv.run in s.runs
    requires s.runs[inv.run].status != Runs.Cancelled
    ensures Inv(WithInvocation(s, i, inv), c)
  {
    hide LeasesOk, FlightsOk, CallsOk, UsageOk, DeliveredOk, AttemptsOk, StatusOk, LastExecuting, CapacityOk,
      DeadlineOf;
    var after := s.invocations[i := inv];
    assert SameRows(s.invocations, after);
    TablesFramed(s, after);
    assert RowsOk(s.runs, after);
    assert CancelledConverged(s.runs, after);
  }

  lemma CrashKeeps(s: State, c: Config)
    requires Inv(s, c)
    ensures Inv(s.(flights := map[]), c)
  {
  }

  lemma CreationKeeps(s: State, c: Config, step: Step)
    requires Inv(s, c) && (step.CreateRun? || step.CreateInvocation?)
    ensures Inv(Apply(s, c, step), c)
  {
    hide LeasesOk, FlightsOk, CallsOk, UsageOk, DeliveredOk, CancelledConverged, CapacityOk, RowsOk;
    match step
    case CreateRun(r, conversation) =>
      if r !in s.runs { RunUpdateKeeps(s, c, r, Runs.Run(conversation, Runs.Created, None, None)); }
    case CreateInvocation(i, r, manifest, allocation) =>
      if Apply(s, c, step) != s {
        CreateKeeps(s, c, i, Invocation(r, Pending, None, None, None, manifest, allocation, None, []));
      }
  }

  lemma StepKeeps(s: State, c: Config, step: Step)
    requires Inv(s, c)
    ensures Inv(Apply(s, c, step), c)
  {
    hide Inv, Prepare, Execute, Return, RequestDecision, Finalize, InterruptAll, CancelRun, PauseRun, MoveRun, Recover;
    match step
    case CreateRun(_, _) => CreationKeeps(s, c, step);
    case CreateInvocation(_, _, _, _) => CreationKeeps(s, c, step);
    case PrepareStep(i, now, startNow, available, commits) => PrepareKeeps(s, c, i, now, startNow, available, commits);
    case ExecuteStep(a, rejects) => ExecuteKeeps(s, c, a, rejects);
    case ReturnStep(a, outcome) => ReturnKeeps(s, c, a, outcome);
    case CollectFailsStep(a) => if CollectFails(s, a) != s { PhaseKeeps(s, c, a); }
    case RequestStep(a, decision) => RequestKeeps(s, c, a, decision);
    case FinalizeStep(a, valid, approval, now, commits) => FinalizeKeeps(s, c, a, valid, approval, now, commits);
    case InterruptStep(a, cause) => InterruptKeeps(s, c, {a}, cause);
    case DeadlinesStep(now) => InterruptKeeps(s, c, Overdue(s, now), CausedByDeadline);
    case ShutdownStep => InterruptKeeps(s, c, s.flights.Keys, CausedByShutdown);
    case CancelStep(r) => CancelKeeps(s, c, r);
    case PauseStep(r, mode) => PauseKeeps(s, c, r, mode);
    case MoveRunStep(r, op) => MoveKeeps(s, c, r, op);
    case CrashStep => CrashKeeps(s, c);
    case RecoverStep(now) => RecoverKeeps(s, c, now);
  }

  /** Every reachable state satisfies the whole invariant. */
  lemma {:induction false} Reachable(c: Config, steps: seq<Step>)
    ensures Inv(After(c, steps), c)
  {
    if steps == [] {
      assert ActiveLeases(map[]) == {} && ActiveWriters(map[]) == {} && forall p :: ActiveLeasesOf(map[], p) == {};
    } else {
      Reachable(c, steps[..|steps| - 1]);
      StepKeeps(After(c, steps[..|steps| - 1]), c, steps[|steps| - 1]);
    }
  }
}
