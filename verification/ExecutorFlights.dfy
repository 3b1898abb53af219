/**
 * One flight by itself. Whatever the whole protocol does, the flight of one Attempt moves
 * as a small machine that reads the step, the flight and its Run's row; so every cause it
 * is interrupted for, and every outcome it is finalized with, has its one origin in the run.
 */
module ExecutorFlights {
  import opened Wrappers
  import opened Budgets
  import Runs
  import opened Invocations
  import opened RetryPolicy
  import opened ExecutorState
  import opened ExecutorInvariants
  import opened ExecutorRuns
  import opened ExecutorHistory
  import opened ExecutorSafety

  predicate HasEnded(run: Runs.Run) {
    run.status in {Runs.Completed, Runs.Failed, Runs.Cancelled}
  }

  /** The Run takes no new work: it has ended or the operator paused it. */
  predicate Stopped(run: Runs.Run) {
    HasEnded(run) || run.pause.Some?
  }

  /**
   * The cause a step gives the flight of `a`: a delivery to it, its deadline, a shutdown, the operator's cancellation
   * or hard pause of its Run, or a dispatch that its stopped Run withholds.
   */
  function CauseGiven(f: Flight, run: Runs.Run, a: AttemptId, step: Step): Option<Cause> {
    match step
    case InterruptStep(b, cause) => if b == a then Some(cause) else None
    case DeadlinesStep(now) =>
      if f.deadlineAt.Some? && f.deadlineAt.value <= now then Some(CausedByDeadline) else None
    case ShutdownStep => Some(CausedByShutdown)
    case CancelStep(r) =>
      if r == f.run && run.status !in {Runs.Completed, Runs.Failed} then Some(CausedByCancel) else None
    case PauseStep(r, mode) =>
      if r == f.run && !HasEnded(run) && run.status != Runs.Created
        && (mode == Runs.Hard || run.pause == Some(Runs.Hard))
      then Some(CausedByPause) else None
    case ExecuteStep(b, rejects) =>
      if b != a || rejects || f.phase != Idle || !Stopped(run) then None
      else if HasEnded(run) then Some(CausedByCancel)
      else Some(CausedByPause)
    case _ => None
  }

  /** The outcome a step gives it: the provider's, or the empty one of a dispatch that was withheld. */
  function OutcomeGiven(f: Flight, a: AttemptId, step: Step): Option<Outcome> {
    if step.ReturnStep? && step.attempt == a then
      match f.phase
      case AtProvider => Some(step.outcome)
      case Withheld => Some(Outcome(ProviderInterrupted(f.interruption), []))
      case _ => None
    else None
  }

  function PhaseAfter(f: Flight, run: Runs.Run, a: AttemptId, step: Step): Phase {
    match step
    case ExecuteStep(b, rejects) =>
      if b != a || f.phase != Idle then f.phase
      else if f.outcome.Some? then Settling
      else if rejects then Idle
      else if f.interruption.Some? || Stopped(run) then Withheld
      else AtProvider
    case ReturnStep(b, _) => if b == a && f.phase in {AtProvider, Withheld} then Settling else f.phase
    case CollectFailsStep(b) => if b == a && f.phase == Settling then Idle else f.phase
    case FinalizeStep(b, _, _, _, _) => if b == a && f.phase == Settling then Idle else f.phase
    case _ => f.phase
  }

  /** A crash loses every flight, a committed finalization its own. */
  predicate Lost(f: Flight, a: AttemptId, step: Step) {
    step.CrashStep? || (step.FinalizeStep? && step.attempt == a && f.phase == Settling && step.commits)
  }

  /** The flight after a step that does not lose it: the first cause stays, and none arrives after the outcome. */
  function FlightAfter(f: Flight, run: Runs.Run, a: AttemptId, step: Step): Flight {
    var cause := if f.interruption.Some? || f.outcome.Some? then f.interruption else CauseGiven(f, run, a, step);
    Flight(f.run, f.deadlineAt, cause.Some?, cause,
           if f.outcome.Some? then f.outcome else OutcomeGiven(f, a, step), PhaseAfter(f, run, a, step))
  }

  // ---------------------------------------------------------------------------
  // The protocol, seen from one flight
  // ---------------------------------------------------------------------------

  /** The flight of `a` in `s'` is the one its own machine makes of the one in `s`. */
  ghost predicate Moved(s: State, s': State, a: AttemptId, step: Step)
    requires a in s.flights && s.flights[a].run in s.runs
  {
    var f := s.flights[a];
    if Lost(f, a, step) then a !in s'.flights
    else a in s'.flights && s'.flights[a] == FlightAfter(f, s.runs[f.run], a, step)
  }

  /** The flight is well shaped and its Run is on record. */
  ghost predicate Flying(s: State, a: AttemptId) {
    && a in s.flights && s.flights[a].run in s.runs && ShapeOk(s.flights[a])
    && Exists(s.invocations, a) && !AttemptEnded(Row(s.invocations, a).status)
    && s.invocations[a.invocation].run == s.flights[a].run
  }

  lemma EveryFlightFlies(s: State, c: Config, a: AttemptId)
    requires Inv(s, c) && a in s.flights
    ensures Flying(s, a)
  {
    hide LeasesOk, CallsOk, UsageOk, DeliveredOk, CancelledConverged, CapacityOk, InvocationOk, DeadlineOf;
    assert FlightOk(s.invocations, a, s.flights[a]);
  }

  lemma ExecuteMoves(s: State, a: AttemptId, b: AttemptId, rejects: bool)
    requires Flying(s, a)
    ensures Moved(s, Execute(s, b, rejects), a, ExecuteStep(b, rejects))
  {
    hide Exists, Row;
  }

  lemma ReturnMoves(s: State, a: AttemptId, b: AttemptId, outcome: Outcome)
    requires Flying(s, a)
    ensures Moved(s, Return(s, b, outcome), a, ReturnStep(b, outcome))
  {
    hide Exists, Row;
  }

  lemma CollectMoves(s: State, a: AttemptId, b: AttemptId)
    requires Flying(s, a)
    ensures Moved(s, CollectFails(s, b), a, CollectFailsStep(b))
  {
    hide Exists, Row;
  }

  lemma FinalizeMoves(s: State, c: Config, a: AttemptId, b: AttemptId, valid: bool, approval: nat, now: nat,
                      commits: bool)
    requires Flying(s, a)
    ensures Moved(s, Finalize(s, c, b, valid, approval, now, commits), a,
                  FinalizeStep(b, valid, approval, now, commits))
  {
    hide FinalEnding, EndAttempt, SettleCancelledRun, RowsFor;
  }

  lemma AbortMoves(s: State, a: AttemptId, targets: set<AttemptId>, cause: Cause, step: Step)
    requires Flying(s, a) && !Lost(s.flights[a], a, step)
    requires !step.ExecuteStep? && !step.ReturnStep? && !step.CollectFailsStep? && !step.FinalizeStep?
    requires CauseGiven(s.flights[a], s.runs[s.flights[a].run], a, step) == if a in targets then Some(cause) else None
    ensures a in AbortAll(s.flights, targets, cause)
    ensures AbortAll(s.flights, targets, cause)[a] ==
            FlightAfter(s.flights[a], s.runs[s.flights[a].run], a, step)
  {
    hide CauseGiven, Exists, Row;
  }

  lemma CancelMoves(s: State, a: AttemptId, r: nat)
    requires Flying(s, a)
    ensures Moved(s, CancelRun(s, r), a, CancelStep(r))
  {
    hide SettleCancelledRun, AbortAll, Exists, Row, ShapeOk, FlightAfter;
    AbortMoves(s, a, if r == s.flights[a].run && s.runs[r].status in {Runs.Completed, Runs.Failed} then {}
               else FlightsOf(s, r), CausedByCancel, CancelStep(r));
    NoneAborted(s.flights, CausedByCancel);
    if r in s.runs { CancellableExactly(s.runs[r]); }
    if r != s.flights[a].run { OtherRun(s, a, r, CausedByCancel); }
  }

  lemma NoneAborted(flights: map<AttemptId, Flight>, cause: Cause)
    ensures AbortAll(flights, {}, cause) == flights
  {
  }

  /** The cancelling transition is refused exactly to a Run that has ended. */
  lemma CancellableExactly(run: Runs.Run)
    ensures Runs.Move(run, Runs.Transition(Runs.Cancelled, None, None)).Ok? <==> !HasEnded(run)
  {
    assert Runs.IsTerminal(run.status) <==> HasEnded(run);
    assert Runs.Cancelled in Runs.Successors(run.status) <==> !HasEnded(run);
  }

  lemma PauseMoves(s: State, a: AttemptId, r: nat, mode: Runs.PauseMode)
    requires Flying(s, a)
    ensures Moved(s, PauseRun(s, r, mode), a, PauseStep(r, mode))
  {
    hide AbortAll, Exists, Row, ShapeOk, FlightAfter;
    var given := CauseGiven(s.flights[a], s.runs[s.flights[a].run], a, PauseStep(r, mode));
    AbortMoves(s, a, if given.Some? then FlightsOf(s, r) else {}, CausedByPause, PauseStep(r, mode));
    NoneAborted(s.flights, CausedByPause);
    if r != s.flights[a].run { OtherRun(s, a, r, CausedByPause); }
  }

  lemma OtherRun(s: State, a: AttemptId, r: nat, cause: Cause)
    requires a in s.flights && s.flights[a].run != r
    ensures a in AbortAll(s.flights, FlightsOf(s, r), cause)
      && AbortAll(s.flights, FlightsOf(s, r), cause)[a] == s.flights[a]
  {
  }

  /** Only a preparation makes a flight, and only of an Attempt that did not exist. */
  lemma PrepareMoves(s: State, c: Config, a: AttemptId, i: nat, now: nat, startNow: nat, available: bool, commits: bool)
    requires Inv(s, c)
    ensures var s' := Prepare(s, c, i, now, startNow, available, commits);
      && (a in s.flights ==> a in s'.flights && s'.flights[a] == s.flights[a])
      && (a in s'.flights && a !in s.flights ==> !Exists(s.invocations, a))
  {
    hide LeasesOk, CallsOk, UsageOk, DeliveredOk, CancelledConverged, CapacityOk, InvocationOk, DeadlineOf,
      NextPermission, CapacityRefusalOf;
    if i in s.invocations { ThisIsNew(s, c, i); }
  }

  lemma ThisIsNew(s: State, c: Config, i: nat)
    requires Inv(s, c) && i in s.invocations
    ensures AttemptId(i, |s.invocations[i].attempts| + 1) !in s.flights
    ensures !Exists(s.invocations, AttemptId(i, |s.invocations[i].attempts| + 1))
  {
    NewKey(s, i);
  }

  /**
   * Seen from one Attempt, every step of every reachable state moves its flight as the flight's own machine does:
   * its cause, its outcome, its phase and whether it is lost depend on nothing but the step, the flight and its Run.
   */
  lemma FlightMoves(s: State, c: Config, step: Step, a: AttemptId)
    requires Inv(s, c) && a in s.flights
    ensures s.flights[a].run in s.runs && Moved(s, Apply(s, c, step), a, step)
  {
    hide Inv, Execute, Return, CollectFails, Finalize, CancelRun, PauseRun, MoveRun, Recover, Prepare, Exists, Row,
      RequestDecision, AbortAll, FlightAfter, ShapeOk, Moved;
    EveryFlightFlies(s, c, a);
    match step
    case ExecuteStep(b, rejects) => ExecuteMoves(s, a, b, rejects);
    case ReturnStep(b, outcome) => ReturnMoves(s, a, b, outcome);
    case CollectFailsStep(b) => CollectMoves(s, a, b);
    case FinalizeStep(b, valid, approval, now, commits) => FinalizeMoves(s, c, a, b, valid, approval, now, commits);
    case CancelStep(r) => CancelMoves(s, a, r);
    case PauseStep(r, mode) => PauseMoves(s, a, r, mode);
    case _ => OtherMoves(s, c, step, a); hide Apply;
  }

  lemma OtherMoves(s: State, c: Config, step: Step, a: AttemptId)
    requires Inv(s, c) && Flying(s, a)
    requires !step.ExecuteStep? && !step.ReturnStep? && !step.CollectFailsStep? && !step.FinalizeStep?
      && !step.CancelStep? && !step.PauseStep?
    ensures Moved(s, Apply(s, c, step), a, step)
  {
    hide Inv, MoveRun, Recover, Prepare, Exists, Row, RequestDecision, AbortAll, FlightAfter, ShapeOk;
    match step
    case PrepareStep(i, now, startNow, available, commits) =>
      PrepareMoves(s, c, a, i, now, startNow, available, commits);
      SameFlight(s, a, step);
    case InterruptStep(b, cause) => AbortMoves(s, a, {b}, cause, step);
    case DeadlinesStep(now) => AbortMoves(s, a, Overdue(s, now), CausedByDeadline, step);
    case ShutdownStep => AbortMoves(s, a, s.flights.Keys, CausedByShutdown, step);
    case CrashStep =>
    case CreateRun(_, _) => SameFlight(s, a, step);
    case CreateInvocation(_, _, _, _) => SameFlight(s, a, step);
    case _ => SameFlight(s, a, step); FlightsUntouched(s, c, step);
  }

  lemma SameFlight(s: State, a: AttemptId, step: Step)
    requires Flying(s, a)
    requires step.CreateRun? || step.CreateInvocation? || step.PrepareStep? || step.RequestStep? || step.MoveRunStep?
      || step.RecoverStep?
    ensures FlightAfter(s.flights[a], s.runs[s.flights[a].run], a, step) == s.flights[a]
  {
    hide Exists, Row;
  }

  lemma FlightsUntouched(s: State, c: Config, step: Step)
    requires step.RequestStep? || step.MoveRunStep? || step.RecoverStep?
    ensures Apply(s, c, step).flights == s.flights
  {
    hide RecoveredInvocation, HeldBack;
  }

  /** No step but the preparation of a new Attempt makes a flight. */
  lemma FlightsArePrepared(s: State, c: Config, step: Step, a: AttemptId)
    requires Inv(s, c) && a !in s.flights && a in Apply(s, c, step).flights
    ensures step.PrepareStep? && !Exists(s.invocations, a)
  {
    hide Inv, Finalize, MoveRun, Recover, Prepare, Exists, RequestDecision, Runs.Move, Runs.Pause, SettleCancelledRun;
    match step
    case PrepareStep(i, now, startNow, available, commits) =>
      PrepareMoves(s, c, a, i, now, startNow, available, commits);
    case FinalizeStep(b, valid, approval, now, commits) =>
      FinalizeDropsOnly(s, c, b, valid, approval, now, commits);
    case RequestStep(_, _) => FlightsUntouched(s, c, step);
    case MoveRunStep(_, _) => FlightsUntouched(s, c, step);
    case RecoverStep(_) => FlightsUntouched(s, c, step);
    case _ =>
  }

  lemma FinalizeDropsOnly(s: State, c: Config, b: AttemptId, valid: bool, approval: nat, now: nat, commits: bool)
    ensures Finalize(s, c, b, valid, approval, now, commits).flights.Keys <= s.flights.Keys
  {
    hide FinalEnding, EndAttempt, SettleCancelledRun, RowsFor;
  }

  // ---------------------------------------------------------------------------
  // Where a cause and an outcome come from
  // ---------------------------------------------------------------------------

  /** Step `k` of the run gave the flight of `a` this cause: the first, and before any outcome. */
  ghost predicate CauseGivenAt(c: Config, steps: seq<Step>, k: nat, a: AttemptId, cause: Cause)
    requires k < |steps|
  {
    var s := After(c, steps[..k]);
    && a in s.flights && s.flights[a].run in s.runs
    && s.flights[a].interruption == None && s.flights[a].outcome == None
    && CauseGiven(s.flights[a], s.runs[s.flights[a].run], a, steps[k]) == Some(cause)
  }

  /** Step `k` of the run gave the flight of `a` this outcome. */
  ghost predicate OutcomeGivenAt(c: Config, steps: seq<Step>, k: nat, a: AttemptId, outcome: Outcome)
    requires k < |steps|
  {
    var s := After(c, steps[..k]);
    && a in s.flights && s.flights[a].outcome == None
    && OutcomeGiven(s.flights[a], a, steps[k]) == Some(outcome)
  }

  /** A run one step longer, and the invariant before that step. */
  lemma LastStep(c: Config, steps: seq<Step>)
    requires steps != []
    ensures var front := steps[..|steps| - 1];
      After(c, steps) == Apply(After(c, front), c, steps[|front|]) && Inv(After(c, front), c)
  {
    Reachable(c, steps[..|steps| - 1]);
    hide Inv, Apply;
  }

  /** What was true of a shorter run's step is true of the longer run's. */
  lemma EarlierStep(c: Config, steps: seq<Step>, k: nat, a: AttemptId, cause: Cause, outcome: Outcome)
    requires k + 1 < |steps|
    ensures CauseGivenAt(c, steps[..|steps| - 1], k, a, cause) == CauseGivenAt(c, steps, k, a, cause)
    ensures OutcomeGivenAt(c, steps[..|steps| - 1], k, a, outcome) == OutcomeGivenAt(c, steps, k, a, outcome)
  {
    hide After, CauseGiven, OutcomeGiven;
    assert steps[..|steps| - 1][..k] == steps[..k];
  }

  /**
   * In every run, the cause a flight carries was given by exactly such a step; and its outcome by its provider's
   * return, or by the return of its withheld dispatch.
   */
  lemma {:induction false} CauseAndOutcomeExplained(c: Config, steps: seq<Step>, a: AttemptId)
    requires a in After(c, steps).flights
    ensures var f := After(c, steps).flights[a];
      && (f.interruption.Some? ==>
            exists k :: 0 <= k < |steps| && CauseGivenAt(c, steps, k, a, f.interruption.value))
      && (f.outcome.Some? ==> exists k :: 0 <= k < |steps| && OutcomeGivenAt(c, steps, k, a, f.outcome.value))
  {
    hide Inv, Apply, CauseGiven, OutcomeGiven, PhaseAfter, Lost, Exists, CauseGivenAt, OutcomeGivenAt;
    if steps != [] {
      var n := |steps| - 1;
      LastStep(c, steps);
      var s, s' := After(c, steps[..n]), After(c, steps);
      if a in s.flights {
        FlightMoves(s, c, steps[n], a);
        hide After;
        CauseAndOutcomeExplained(c, steps[..n], a);
        GivenLast(c, steps, a);
        if s.flights[a].interruption.Some? {
          var k :| 0 <= k < n && CauseGivenAt(c, steps[..n], k, a, s.flights[a].interruption.value);
          EarlierStep(c, steps, k, a, s.flights[a].interruption.value, Outcome(ProviderCompleted, []));
        }
        if s.flights[a].outcome.Some? {
          var k :| 0 <= k < n && OutcomeGivenAt(c, steps[..n], k, a, s.flights[a].outcome.value);
          EarlierStep(c, steps, k, a, CausedByCancel, s.flights[a].outcome.value);
        }
      } else {
        FlightsArePrepared(s, c, steps[n], a);
        FreshFlight(s, c, steps[n], a);
      }
    }
  }

  /** What the last step gave. */
  lemma GivenLast(c: Config, steps: seq<Step>, a: AttemptId)
    requires steps != [] && a in After(c, steps[..|steps| - 1]).flights
    ensures var n := |steps| - 1; var s := After(c, steps[..n]); var f := s.flights[a];
      && (f.run in s.runs && f.interruption == None && f.outcome == None ==>
            var cause := CauseGiven(f, s.runs[f.run], a, steps[n]);
            cause.Some? ==> CauseGivenAt(c, steps, n, a, cause.value))
      && (f.outcome == None ==>
            var outcome := OutcomeGiven(f, a, steps[n]);
            outcome.Some? ==> OutcomeGivenAt(c, steps, n, a, outcome.value))
  {
    hide After, CauseGiven, OutcomeGiven;
  }

  lemma FreshFlight(s: State, c: Config, step: Step, a: AttemptId)
    requires step.PrepareStep? && a !in s.flights && a in Apply(s, c, step).flights
    ensures Apply(s, c, step).flights[a].interruption == None && Apply(s, c, step).flights[a].outcome == None
      && Apply(s, c, step).flights[a].phase == Idle
  {
    hide NextPermission, CapacityRefusalOf, DeadlineOf;
  }
}
