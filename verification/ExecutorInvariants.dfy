/**
 * What every reachable state of the executor satisfies, whatever interleaves at the
 * awaits: cancellations, pauses, deadlines, interrupts, failed commits, crashes and
 * recoveries. Each conjunct reads only the tables it speaks of.
 */
module ExecutorInvariants {
  import opened Wrappers
  import opened Budgets
  import Runs
  import opened Invocations
  import opened RetryPolicy
  import opened ExecutorState

  /** Attempt `k` was admitted before the Invocation's deadline and not before its predecessor's retry allowed. */
  ghost predicate InTime(i: Invocation, k: nat)
    requires 0 < k < |i.attempts|
  {
    && (DeadlineOf(i).Some? ==> i.attempts[k].admittedAt < DeadlineOf(i).value)
    && Permitted(i.attempts[k - 1])
    && (i.attempts[k - 1].retry.value.notBefore.Some? ==>
          i.attempts[k - 1].retry.value.notBefore.value <= i.attempts[k].admittedAt)
  }

  /** The Attempts of one Invocation: bounded, admitted in time, each but the last ended with a permitted retry. */
  ghost predicate AttemptsOk(i: Invocation) {
    && 1 <= i.allocation.attempts && |i.attempts| <= i.allocation.attempts
    && (forall k :: 0 <= k < |i.attempts| ==> AttemptOk(i.attempts[k]) && i.attempts[k].status != Prepared)
    && (forall k :: 0 <= k < |i.attempts| - 1 ==> AttemptEnded(i.attempts[k].status))
    && (forall k :: 0 < k < |i.attempts| ==> InTime(i, k))
    && (i.attempts != [] ==> i.startedAt.Some? && i.manifest.Some?)
  }

  ghost predicate LastExecuting(i: Invocation) {
    i.attempts != [] && !AttemptEnded(i.attempts[|i.attempts| - 1].status)
  }

  /** The Invocation's status agrees with its Attempts. */
  ghost predicate StatusOk(i: Invocation) {
    && i.status != Waiting
    && (i.attempts == [] ==> i.status in {Pending, Cancelled} && i.startedAt == None && i.request == None)
    && (i.attempts != [] ==> i.status != Pending)
    && (LastExecuting(i) ==> i.status == Running)
    && (i.status == Running ==> LastExecuting(i) || (i.attempts != [] && Permitted(i.attempts[|i.attempts| - 1])))
    && (i.request.Some? && !Ended(i.status) ==> LastExecuting(i))
  }

  ghost predicate InvocationOk(i: Invocation) {
    AttemptsOk(i) && StatusOk(i)
  }

  ghost predicate RowsOk(runs: map<nat, Runs.Run>, invocations: map<nat, Invocation>) {
    && (forall r :: r in runs ==> Runs.WellFormed(runs[r]))
    && (forall i :: i in invocations ==> invocations[i].run in runs && InvocationOk(invocations[i]))
  }

  /** Every Attempt was granted one lease; it is active exactly while the Attempt executes. */
  ghost predicate LeasesOk(invocations: map<nat, Invocation>, leases: map<AttemptId, Lease>) {
    && (forall a :: a in leases <==> Exists(invocations, a))
    && (forall a :: a in leases && Exists(invocations, a) ==>
          (leases[a].active <==> !AttemptEnded(Row(invocations, a).status)))
  }

  ghost predicate ShapeOk(f: Flight) {
    && (f.aborted <==> f.interruption.Some?)
    && (f.phase == AtProvider || f.phase == Withheld ==> f.outcome == None)
    && (f.phase == Withheld ==> f.aborted)
    && (f.phase == Settling ==> f.outcome.Some?)
  }

  /** A flight belongs to an executing Attempt and carries its Run and its deadline. */
  ghost predicate FlightOk(invocations: map<nat, Invocation>, a: AttemptId, f: Flight) {
    && Exists(invocations, a) && !AttemptEnded(Row(invocations, a).status)
    && f.run == invocations[a.invocation].run
    && f.deadlineAt == DeadlineOf(invocations[a.invocation])
    && ShapeOk(f)
  }

  ghost predicate FlightsOk(invocations: map<nat, Invocation>, flights: map<AttemptId, Flight>) {
    forall a :: a in flights ==> FlightOk(invocations, a, flights[a])
  }

  /** A flight whose Attempt has been, or is at, the provider. */
  ghost predicate Dispatched(f: Flight) {
    f.phase == AtProvider || f.outcome.Some?
  }

  /**
   * At most one provider call per Attempt, each made under a Run that admitted it and without an
   * interruption, and no second one left to make.
   */
  ghost predicate CallsOk(invocations: map<nat, Invocation>, flights: map<AttemptId, Flight>,
                          calls: seq<ProviderCall>) {
    && (forall j, k :: 0 <= j < k < |calls| ==> calls[j].attempt != calls[k].attempt)
    && (forall k :: 0 <= k < |calls| ==> Runs.AdmitsNewWork(calls[k].run) && calls[k].interruption == None)
    && (forall k :: 0 <= k < |calls| ==> Exists(invocations, calls[k].attempt))
    && (forall k :: 0 <= k < |calls| ==> calls[k].attempt in flights ==> Dispatched(flights[calls[k].attempt]))
  }

  /** Usage is on record only of ended Attempts. */
  ghost predicate UsageOk(invocations: map<nat, Invocation>, usage: seq<UsageRow>) {
    forall k :: 0 <= k < |usage| ==>
      Exists(invocations, usage[k].attempt) && AttemptEnded(Row(invocations, usage[k].attempt).status)
  }

  ghost predicate DeliveredOk(invocations: map<nat, Invocation>, flights: map<AttemptId, Flight>,
                              delivered: multiset<AttemptId>) {
    && (forall a :: a in delivered ==> delivered[a] == 1)
    && (forall a :: a in delivered ==> Exists(invocations, a))
    && (forall a :: a in delivered && a in flights ==> flights[a].aborted)
  }

  /** A cancelled Run keeps no work but what executing Attempts hold back. */
  ghost predicate CancelledConverged(runs: map<nat, Runs.Run>, invocations: map<nat, Invocation>) {
    forall i :: i in invocations && invocations[i].run in runs && runs[invocations[i].run].status == Runs.Cancelled ==>
      Ended(invocations[i].status) || LastExecuting(invocations[i])
  }

  ghost predicate CapacityOk(leases: map<AttemptId, Lease>, c: Config) {
    && |ActiveLeases(leases)| <= c.maxProcessConcurrency
    && (forall p :: p in c.providers ==> |ActiveLeasesOf(leases, p)| <= c.providers[p])
    && (c.maxWorktrees.Some? ==> |ActiveWriters(leases)| <= c.maxWorktrees.value)
  }

  ghost predicate Inv(s: State, c: Config) {
    && RowsOk(s.runs, s.invocations)
    && LeasesOk(s.invocations, s.leases)
    && FlightsOk(s.invocations, s.flights)
    && CallsOk(s.invocations, s.flights, s.calls)
    && UsageOk(s.invocations, s.usage)
    && DeliveredOk(s.invocations, s.flights, s.delivered)
    && CancelledConverged(s.runs, s.invocations)
    && CapacityOk(s.leases, c)
  }

  /** In a well-formed Invocation only the last Attempt can be executing. */
  lemma ActiveIsLast(i: Invocation)
    requires AttemptsOk(i)
    ensures HasActiveAttempt(i) <==> LastExecuting(i)
    ensures forall k :: 0 <= k < |i.attempts| && !AttemptEnded(i.attempts[k].status) ==> k == |i.attempts| - 1
  {
  }

  // ---------------------------------------------------------------------------
  // Steps that leave every Attempt row as it is
  // ---------------------------------------------------------------------------

  /** The Attempt rows, owners and deadlines are the same. */
  ghost predicate SameAttempts(before: map<nat, Invocation>, after: map<nat, Invocation>) {
    && after.Keys == before.Keys
    && (forall i :: i in before ==>
          && after[i].attempts == before[i].attempts
          && after[i].run == before[i].run
          && DeadlineOf(after[i]) == DeadlineOf(before[i]))
  }

  /** The same Attempt rows exist, unchanged, under the same owners and deadlines. */
  ghost predicate SameRows(before: map<nat, Invocation>, after: map<nat, Invocation>) {
    && (forall a :: Exists(before, a) <==> Exists(after, a))
    && (forall a :: Exists(before, a) ==>
          && Row(after, a) == Row(before, a)
          && after[a.invocation].run == before[a.invocation].run
          && DeadlineOf(after[a.invocation]) == DeadlineOf(before[a.invocation]))
  }

  lemma Framed(before: map<nat, Invocation>, after: map<nat, Invocation>)
    requires SameAttempts(before, after)
    ensures SameRows(before, after)
  {
    hide DeadlineOf;
  }

  lemma TablesFramed(s: State, after: map<nat, Invocation>)
    requires SameRows(s.invocations, after)
    requires LeasesOk(s.invocations, s.leases) && FlightsOk(s.invocations, s.flights)
      && CallsOk(s.invocations, s.flights, s.calls)
    requires UsageOk(s.invocations, s.usage) && DeliveredOk(s.invocations, s.flights, s.delivered)
    ensures LeasesOk(after, s.leases) && FlightsOk(after, s.flights) && CallsOk(after, s.flights, s.calls)
    ensures UsageOk(after, s.usage) && DeliveredOk(after, s.flights, s.delivered)
  {
    hide DeadlineOf, Exists, Row;
    assert forall a :: a in s.flights ==> FlightOk(s.invocations, a, s.flights[a]);
  }

  lemma FlightUpdateKeeps(s: State, c: Config, a: AttemptId, f: Flight)
    requires Inv(s, c) && a in s.flights && ShapeOk(f) && f.run == s.flights[a].run
      && f.deadlineAt == s.flights[a].deadlineAt
    requires s.flights[a].aborted ==> f.aborted
    requires Dispatched(s.flights[a]) ==> Dispatched(f)
    ensures Inv(s.(flights := s.flights[a := f]), c)
  {
    hide RowsOk, LeasesOk, UsageOk, CancelledConverged, CapacityOk;
    assert FlightOk(s.invocations, a, s.flights[a]);
  }

  lemma DispatchRecorded(invocations: map<nat, Invocation>, flights: map<AttemptId, Flight>, calls: seq<ProviderCall>,
                         a: AttemptId, run: Runs.Run)
    requires CallsOk(invocations, flights, calls) && Exists(invocations, a) && a in flights && !Dispatched(flights[a])
      && Runs.AdmitsNewWork(run)
    ensures CallsOk(invocations, flights[a := flights[a].(phase := AtProvider)], calls + [ProviderCall(a, run, None)])
  {
    assert forall k :: 0 <= k < |calls| ==> calls[k].attempt != a;
  }

  lemma DispatchKeeps(s: State, c: Config, a: AttemptId)
    requires Inv(s, c) && a in s.flights && s.flights[a].phase == Idle && s.flights[a].outcome == None
      && s.flights[a].interruption == None
    requires s.flights[a].run in s.runs && Runs.AdmitsNewWork(s.runs[s.flights[a].run])
    ensures Inv(Execute(s, a, false), c)
  {
    hide RowsOk, LeasesOk, UsageOk, DeliveredOk, CancelledConverged, CapacityOk;
    assert FlightOk(s.invocations, a, s.flights[a]);
    var f := s.flights[a].(phase := AtProvider);
    DispatchRecorded(s.invocations, s.flights, s.calls, a, s.runs[f.run]);
    FlightUpdateKeeps(s, c, a, f);
    assert Execute(s, a, false) ==
      s.(flights := s.flights[a := f], calls := s.calls + [ProviderCall(a, s.runs[f.run], None)]);
  }

  lemma ExecuteKeeps(s: State, c: Config, a: AttemptId, rejects: bool)
    requires Inv(s, c)
    ensures Inv(Execute(s, a, rejects), c)
  {
    hide RowsOk, LeasesOk, CallsOk, UsageOk, DeliveredOk, CancelledConverged, CapacityOk;
    if a in s.flights && s.flights[a].run in s.runs && s.flights[a].phase == Idle {
      var f, run := s.flights[a], s.runs[s.flights[a].run];
      assert FlightOk(s.invocations, a, f);
      if f.outcome == None && !rejects && f.interruption == None && Runs.AdmitsNewWork(run) {
        DispatchKeeps(s, c, a);
      } else {
        FlightUpdateKeeps(s, c, a, Execute(s, a, rejects).flights[a]);
      }
    }
  }

  lemma ReturnKeeps(s: State, c: Config, a: AttemptId, outcome: Outcome)
    requires Inv(s, c)
    ensures Inv(Return(s, a, outcome), c)
  {
    hide RowsOk, LeasesOk, CallsOk, UsageOk, DeliveredOk, CancelledConverged, CapacityOk;
    if a in s.flights && (s.flights[a].phase == AtProvider || s.flights[a].phase == Withheld) {
      assert FlightOk(s.invocations, a, s.flights[a]);
      FlightUpdateKeeps(s, c, a, Return(s, a, outcome).flights[a]);
    }
  }

  lemma PhaseKeeps(s: State, c: Config, a: AttemptId)
    requires Inv(s, c) && a in s.flights && s.flights[a].phase == Settling
    ensures Inv(s.(flights := s.flights[a := s.flights[a].(phase := Idle)]), c)
  {
    hide RowsOk, LeasesOk, CallsOk, UsageOk, DeliveredOk, CancelledConverged, CapacityOk;
    assert FlightOk(s.invocations, a, s.flights[a]);
    FlightUpdateKeeps(s, c, a, s.flights[a].(phase := Idle));
  }

  /** Flights that keep their identity, stay aborted and stay dispatched satisfy what their tables demand. */
  lemma FlightsFramed(s: State, flights: map<AttemptId, Flight>)
    requires FlightsOk(s.invocations, s.flights) && CallsOk(s.invocations, s.flights, s.calls)
    requires flights.Keys <= s.flights.Keys
    requires forall a :: a in flights ==>
      && ShapeOk(flights[a]) && flights[a].run == s.flights[a].run && flights[a].deadlineAt == s.flights[a].deadlineAt
      && (s.flights[a].aborted ==> flights[a].aborted) && (Dispatched(s.flights[a]) ==> Dispatched(flights[a]))
    ensures FlightsOk(s.invocations, flights) && CallsOk(s.invocations, flights, s.calls)
  {
    assert forall a :: a in flights ==> FlightOk(s.invocations, a, s.flights[a]);
  }

  lemma AbortedFlights(s: State, targets: set<AttemptId>, cause: Cause)
    requires FlightsOk(s.invocations, s.flights) && CallsOk(s.invocations, s.flights, s.calls)
    ensures var s' := InterruptAll(s, targets, cause);
      FlightsOk(s.invocations, s'.flights) && CallsOk(s.invocations, s'.flights, s.calls)
  {
    hide CallsOk, Exists, Row, DeadlineOf;
    var s' := InterruptAll(s, targets, cause);
    forall a | a in s'.flights
      ensures ShapeOk(s'.flights[a]) && s'.flights[a].run == s.flights[a].run
        && s'.flights[a].deadlineAt == s.flights[a].deadlineAt
      ensures s.flights[a].aborted ==> s'.flights[a].aborted
      ensures Dispatched(s.flights[a]) ==> Dispatched(s'.flights[a])
    {
      assert FlightOk(s.invocations, a, s.flights[a]);
      assert s'.flights[a] == s.flights[a] || s'.flights[a] == Abort(s.flights[a], cause);
    }
    FlightsFramed(s, s'.flights);
  }

  lemma InterruptKeeps(s: State, c: Config, targets: set<AttemptId>, cause: Cause)
    requires Inv(s, c)
    ensures Inv(InterruptAll(s, targets, cause), c)
  {
    hide RowsOk, LeasesOk, FlightsOk, CallsOk, UsageOk, DeliveredOk, CancelledConverged, CapacityOk;
    AbortedFlights(s, targets, cause);
    DeliveryRecorded(s, targets, cause);
  }

  lemma DeliveryRecorded(s: State, targets: set<AttemptId>, cause: Cause)
    requires FlightsOk(s.invocations, s.flights) && DeliveredOk(s.invocations, s.flights, s.delivered)
    ensures var s' := InterruptAll(s, targets, cause); DeliveredOk(s.invocations, s'.flights, s'.delivered)
  {
    var s' := InterruptAll(s, targets, cause);
    var hit := Reached(s.flights, targets);
    assert forall a :: a in hit ==> a !in s.delivered && FlightOk(s.invocations, a, s.flights[a]);
    assert forall a :: a in s'.delivered <==> a in s.delivered || a in hit;
  }

  /** An Invocation row may change its status and its Decision, but no Attempt. */
  lemma StatusUpdateKeeps(s: State, c: Config, i: nat, inv: Invocation)
    requires Inv(s, c) && i in s.invocations && InvocationOk(inv)
    requires inv.attempts == s.invocations[i].attempts && inv.run == s.invocations[i].run
      && DeadlineOf(inv) == DeadlineOf(s.invocations[i])
    requires Ended(inv.status) || inv.status == s.invocations[i].status
    ensures Inv(WithInvocation(s, i, inv), c)
  {
    hide LeasesOk, FlightsOk, CallsOk, UsageOk, DeliveredOk, CapacityOk, AttemptsOk;
    var after := s.invocations[i := inv];
    Framed(s.invocations, after);
    TablesFramed(s, after);
    assert RowsOk(s.runs, after);
    assert CancelledConverged(s.runs, after);
  }

  /** Whatever an Invocation consumed, some Usage row of it says so. */
  lemma {:induction false} NamedRow(usage: seq<UsageRow>, i: nat) returns (k: nat)
    requires UsageTotal(usage, i) != ZERO_ALLOCATION
    ensures k < |usage| && usage[k].attempt.invocation == i
  {
    k := |usage| - 1;
    if usage[k].attempt.invocation != i {
      AddSwap(UsageTotal(usage[..k], i), ZERO_ALLOCATION, ZERO_ALLOCATION);
      k := NamedRow(usage[..k], i);
    }
  }

  lemma UnstartedConsumesNothing(invocations: map<nat, Invocation>, usage: seq<UsageRow>, i: nat)
    requires UsageOk(invocations, usage) && i in invocations && invocations[i].attempts == []
    ensures UsageTotal(usage, i) == ZERO_ALLOCATION
  {
    if UsageTotal(usage, i) != ZERO_ALLOCATION {
      var k := NamedRow(usage, i);
    }
  }

  /** What `AttemptsOk` reads is unchanged. */
  lemma SameBody(i: Invocation, i': Invocation)
    requires AttemptsOk(i)
      && i' == i.(status := i'.status, failure := i'.failure, blockedBy := i'.blockedBy, request := i'.request)
    ensures AttemptsOk(i')
  {
    hide AttemptOk;
    forall k | 0 < k < |i.attempts| ensures InTime(i', k) {
      assert InTime(i, k);
    }
  }

  /**
   * Why a refusal that writes was given: the Invocation waits for a Decision it requested, or it
   * can consume no more.
   */
  lemma RefusalReasons(s: State, i: nat, now: nat)
    requires i in s.invocations && s.invocations[i].run in s.runs && NextPermission(s, i, now).MayNot?
    ensures var inv, reason := s.invocations[i], NextPermission(s, i, now).reason;
      && (reason == BlockedByRequest || reason == OutOfAllocation ==>
            !Ended(inv.status) && inv.status != Waiting && !HasActiveAttempt(inv))
      && (reason == BlockedByRequest <==>
          !Ended(inv.status) && inv.status != Waiting && inv.manifest.Some? && !HasActiveAttempt(inv)
                                          && Runs.AdmitsNewWork(s.runs[inv.run]) && inv.request.Some?)
      && (reason == OutOfAllocation ==>
            || DeadlineOf(inv).Some?
            || |inv.attempts| >= inv.allocation.attempts
            || UsageTotal(s.usage, i).costUsd >= inv.allocation.costUsd > 0.0
            || UsageTotal(s.usage, i).tokens >= inv.allocation.tokens > 0)
  {
  }

  /**
   * A refusal that writes found the Invocation running with nothing executing: every transition it
   * asks for is legal.
   */
  lemma RefusalFindsRunning(s: State, i: nat, now: nat)
    requires i in s.invocations && s.invocations[i].run in s.runs && InvocationOk(s.invocations[i])
    requires UsageOk(s.invocations, s.usage)
    requires NextPermission(s, i, now).MayNot?
    requires NextPermission(s, i, now).reason == OutOfAllocation || NextPermission(s, i, now).reason == BlockedByRequest
    ensures NextPermission(s, i, now).reason == OutOfAllocation
    ensures s.invocations[i].status == Running && !LastExecuting(s.invocations[i])
  {
    var inv := s.invocations[i];
    RefusalReasons(s, i, now);
    ActiveIsLast(inv);
    if inv.attempts == [] {
      UnstartedConsumesNothing(s.invocations, s.usage, i);
    }
  }

  lemma EndedOk(inv: Invocation, inv': Invocation)
    requires InvocationOk(inv) && !LastExecuting(inv) && Ended(inv'.status)
      && (inv.attempts == [] ==> inv'.status == Cancelled)
    requires inv' == inv.(status := inv'.status, failure := inv'.failure)
    ensures InvocationOk(inv')
  {
    SameBody(inv, inv');
  }

  lemma RefuseKeeps(s: State, c: Config, i: nat, now: nat)
    requires Inv(s, c) && i in s.invocations && NextPermission(s, i, now).MayNot?
    ensures Inv(RefuseOn(s, i, NextPermission(s, i, now).reason), c)
  {
    hide LeasesOk, FlightsOk, CallsOk, UsageOk, DeliveredOk, CancelledConverged, CapacityOk, AttemptsOk;
    var reason := NextPermission(s, i, now).reason;
    if reason == OutOfAllocation || reason == BlockedByRequest {
      RefusalFindsRunning(s, i, now);
      var inv := s.invocations[i];
      var failed := inv.(status := Failed, failure := Some(FailedAllocation));
      assert InvocationOk(inv);
      EndedOk(inv, failed);
      StatusUpdateKeeps(s, c, i, failed);
    }
  }

  lemma RequestOk(inv: Invocation, number: nat, decision: nat)
    requires InvocationOk(inv) && 1 <= number <= |inv.attempts| && inv.attempts[number - 1].status.Executing?
    ensures InvocationOk(inv.(request := Some(decision)))
  {
    ActiveIsLast(inv);
    SameBody(inv, inv.(request := Some(decision)));
  }

  lemma RequestKeeps(s: State, c: Config, a: AttemptId, decision: nat)
    requires Inv(s, c)
    ensures Inv(RequestDecision(s, a, decision), c)
  {
    hide LeasesOk, FlightsOk, CallsOk, UsageOk, DeliveredOk, CancelledConverged, CapacityOk, AttemptsOk, StatusOk;
    if a in s.flights && Exists(s.invocations, a) && Row(s.invocations, a).status.Executing?
      && s.invocations[a.invocation].request == None {
      var inv := s.invocations[a.invocation];
      assert InvocationOk(inv);
      RequestOk(inv, a.number, decision);
      StatusUpdateKeeps(s, c, a.invocation, inv.(request := Some(decision)));
    }
  }

  // ---------------------------------------------------------------------------
  // Operator control
  // ---------------------------------------------------------------------------

  lemma RunUpdateKeeps(s: State, c: Config, r: nat, run: Runs.Run)
    requires Inv(s, c) && Runs.WellFormed(run)
    requires run.status == Runs.Cancelled ==> r in s.runs && s.runs[r].status == Runs.Cancelled
    ensures Inv(s.(runs := s.runs[r := run]), c)
  {
    hide LeasesOk, FlightsOk, CallsOk, UsageOk, DeliveredOk, CapacityOk, AttemptsOk, StatusOk;
    var runs := s.runs[r := run];
    assert RowsOk(runs, s.invocations);
    assert CancelledConverged(runs, s.invocations);
  }

  lemma PauseKeeps(s: State, c: Config, r: nat, mode: Runs.PauseMode)
    requires Inv(s, c)
    ensures Inv(PauseRun(s, r, mode), c)
  {
    hide LeasesOk, FlightsOk, CallsOk, UsageOk, DeliveredOk, CancelledConverged, CapacityOk, AttemptsOk, StatusOk;
    if r in s.runs && Runs.Pause(s.runs[r], mode).Ok? {
      Runs.OperateKeeps(s.runs[r], Runs.ByPause(mode));
      var run := Runs.Pause(s.runs[r], mode).value;
      RunUpdateKeeps(s, c, r, run);
      InterruptKeeps(s.(runs := s.runs[r := run]), c, FlightsOf(s, r), CausedByPause);
    }
  }

  lemma MoveKeeps(s: State, c: Config, r: nat, op: Runs.Operation)
    requires Inv(s, c)
    ensures Inv(MoveRun(s, r, op), c)
  {
    hide LeasesOk, FlightsOk, CallsOk, UsageOk, DeliveredOk, CancelledConverged, CapacityOk, AttemptsOk, StatusOk;
    if MoveRun(s, r, op) != s {
      Runs.OperateKeeps(s.runs[r], op);
      RunUpdateKeeps(s, c, r, Runs.Operate(s.runs[r], op).value);
    }
  }

  function Converge(inv: Invocation): Invocation {
    if !Ended(inv.status) && !HasActiveAttempt(inv) then inv.(status := Cancelled) else inv
  }

  lemma ConvergeOk(inv: Invocation)
    requires InvocationOk(inv)
    ensures InvocationOk(Converge(inv)) && (Ended(Converge(inv).status) || LastExecuting(Converge(inv)))
    ensures Converge(inv) == inv || Ended(Converge(inv).status)
  {
    ActiveIsLast(inv);
    if !LastExecuting(inv) {
      EndedOk(inv, inv.(status := Cancelled));
    }
  }

  /** Convergence touches only statuses of idle Invocations and leaves none of the Run behind. */
  lemma SettleCancelledOk(invocations: map<nat, Invocation>, r: nat)
    requires forall i :: i in invocations ==> InvocationOk(invocations[i])
    ensures var after := SettleCancelledRun(invocations, r);
      && SameAttempts(invocations, after)
      && (forall i :: i in after ==> InvocationOk(after[i]))
      && (forall i :: i in after && after[i].run == r ==> Ended(after[i].status) || LastExecuting(after[i]))
      && (forall i :: i in after && after[i] != invocations[i] ==> Ended(after[i].status) && invocations[i].run == r)
  {
    hide RowsOk, LeasesOk, FlightsOk, CallsOk, UsageOk, DeliveredOk, CancelledConverged, CapacityOk, AttemptsOk,
      StatusOk;
    var after := SettleCancelledRun(invocations, r);
    forall i | i in invocations
      ensures after[i] == if invocations[i].run == r then Converge(invocations[i]) else invocations[i]
      ensures InvocationOk(after[i])
      ensures after[i].run == r ==> Ended(after[i].status) || LastExecuting(after[i])
      ensures after[i] == invocations[i] || Ended(after[i].status)
    {
      ConvergeOk(invocations[i]);
    }
  }

  lemma CancelCommitKeeps(s: State, c: Config, r: nat, run: Runs.Run)
    requires Inv(s, c) && r in s.runs && Runs.WellFormed(run)
    ensures Inv(s.(runs := s.runs[r := run], invocations := SettleCancelledRun(s.invocations, r)), c)
  {
    hide LeasesOk, FlightsOk, CallsOk, UsageOk, DeliveredOk, CancelledConverged, CapacityOk, AttemptsOk, StatusOk;
    var runs, after := s.runs[r := run], SettleCancelledRun(s.invocations, r);
    assert forall i :: i in s.invocations ==> InvocationOk(s.invocations[i]);
    SettleCancelledOk(s.invocations, r);
    Framed(s.invocations, after);
    TablesFramed(s, after);
    assert RowsOk(runs, after);
    ConvergedAfter(s.runs, runs, s.invocations, r);
  }

  lemma ConvergedAfter(before: map<nat, Runs.Run>, runs: map<nat, Runs.Run>, invocations: map<nat, Invocation>, r: nat)
    requires CancelledConverged(before, invocations) && r in before && r in runs && runs == before[r := runs[r]]
    requires forall i :: i in invocations ==> InvocationOk(invocations[i])
    ensures CancelledConverged(runs, SettleCancelledRun(invocations, r))
  {
    SettleCancelledOk(invocations, r);
  }

  lemma CancelKeeps(s: State, c: Config, r: nat)
    requires Inv(s, c)
    ensures Inv(CancelRun(s, r), c)
  {
    hide LeasesOk, FlightsOk, CallsOk, UsageOk, DeliveredOk, CancelledConverged, CapacityOk, AttemptsOk, StatusOk;
    var t := Runs.Transition(Runs.Cancelled, None, None);
    if r in s.runs && s.runs[r].status == Runs.Cancelled {
      InterruptKeeps(s, c, FlightsOf(s, r), CausedByCancel);
    } else if r in s.runs && Runs.Move(s.runs[r], t).Ok? {
      Runs.OperateKeeps(s.runs[r], Runs.ByTransition(t));
      var run := Runs.Move(s.runs[r], t).value;
      CancelCommitKeeps(s, c, r, run);
      InterruptKeeps(s.(runs := s.runs[r := run], invocations := SettleCancelledRun(s.invocations, r)), c,
                     FlightsOf(s, r), CausedByCancel);
    }
  }

  // ---------------------------------------------------------------------------
  // Prepare
  // ---------------------------------------------------------------------------

  /** What a permission to start read off the rows. */
  lemma PermissionMeans(s: State, i: nat, now: nat)
    requires i in s.invocations && s.invocations[i].run in s.runs && NextPermission(s, i, now) == MayStart
    ensures var inv := s.invocations[i];
      && inv.manifest.Some? && !Ended(inv.status) && inv.status != Waiting && !HasActiveAttempt(inv)
      && inv.request == None
      && Runs.AdmitsNewWork(s.runs[inv.run])
      && (DeadlineOf(inv).Some? ==> now < DeadlineOf(inv).value)
      && |inv.attempts| < inv.allocation.attempts
      && (inv.attempts != [] ==>
            var last := inv.attempts[|inv.attempts| - 1];
            Permitted(last) && (last.retry.value.notBefore.Some? ==> last.retry.value.notBefore.value <= now))
  {
    hide DeadlineOf, HasActiveAttempt, Consumed;
  }

  lemma StartedAttemptsOk(inv: Invocation, now: nat, startNow: nat)
    requires AttemptsOk(inv) && inv.manifest.Some? && !LastExecuting(inv) && |inv.attempts| < inv.allocation.attempts
    requires DeadlineOf(inv).Some? ==> now < DeadlineOf(inv).value
    requires inv.attempts != [] ==>
      var last := inv.attempts[|inv.attempts| - 1];
      Permitted(last) && (last.retry.value.notBefore.Some? ==> last.retry.value.notBefore.value <= now)
    ensures AttemptsOk(Started(inv, now, startNow))
  {
    hide AttemptOk;
    var inv' := Started(inv, now, startNow);
    var n := |inv.attempts|;
    assert AttemptOk(NewAttempt(now)) by { FreshOk(now); }
    assert n > 0 ==> DeadlineOf(inv') == DeadlineOf(inv);
    forall k | 0 < k < |inv'.attempts| ensures InTime(inv', k) {
      if k < n { assert InTime(inv, k); }
    }
  }

  lemma FreshOk(now: nat)
    ensures AttemptOk(NewAttempt(now))
  {
  }

  lemma StartedOk(s: State, i: nat, now: nat, startNow: nat)
    requires RowsOk(s.runs, s.invocations) && i in s.invocations && NextPermission(s, i, now) == MayStart
    ensures InvocationOk(Started(s.invocations[i], now, startNow))
  {
    hide NextPermission, DeadlineOf, AttemptsOk;
    PermissionMeans(s, i, now);
    assert InvocationOk(s.invocations[i]);
    ActiveIsLast(s.invocations[i]);
    StartedAttemptsOk(s.invocations[i], now, startNow);
  }

  /** One more Attempt of Invocation `i`, executing, with everything else as it was. */
  ghost predicate Appended(before: map<nat, Invocation>, after: map<nat, Invocation>, i: nat, a: AttemptId) {
    && i in before && a == AttemptId(i, |before[i].attempts| + 1)
    && i in after && after == before[i := after[i]]
    && after[i].run == before[i].run
    && |after[i].attempts| == a.number && after[i].attempts[..a.number - 1] == before[i].attempts
    && after[i].attempts[a.number - 1].status == Executing
    && (before[i].attempts != [] ==> DeadlineOf(after[i]) == DeadlineOf(before[i]))
  }

  /** `a` is a new row; the old ones are as they were. */
  ghost predicate NewRow(before: map<nat, Invocation>, after: map<nat, Invocation>, a: AttemptId) {
    && !Exists(before, a) && Exists(after, a) && Row(after, a).status == Executing
    && (forall b :: Exists(after, b) <==> Exists(before, b) || b == a)
    && (forall b :: Exists(before, b) ==>
          && Row(after, b) == Row(before, b)
          && after[b.invocation].run == before[b.invocation].run
          && DeadlineOf(after[b.invocation]) == DeadlineOf(before[b.invocation]))
  }

  lemma AppendedRows(before: map<nat, Invocation>, after: map<nat, Invocation>, i: nat, a: AttemptId)
    requires Appended(before, after, i, a)
    ensures NewRow(before, after, a)
  {
    hide DeadlineOf;
    assert forall k :: 0 <= k < |before[i].attempts| ==> after[i].attempts[k] == after[i].attempts[..a.number - 1][k];
  }

  lemma AppendedTables(s: State, after: map<nat, Invocation>, a: AttemptId, lease: Lease, f: Flight)
    requires NewRow(s.invocations, after, a) && lease.active && FlightOk(after, a, f) && !f.aborted
    requires LeasesOk(s.invocations, s.leases) && FlightsOk(s.invocations, s.flights)
      && CallsOk(s.invocations, s.flights, s.calls)
    requires UsageOk(s.invocations, s.usage) && DeliveredOk(s.invocations, s.flights, s.delivered)
    ensures LeasesOk(after, s.leases[a := lease]) && UsageOk(after, s.usage)
    ensures FlightsOk(after, s.flights[a := f]) && CallsOk(after, s.flights[a := f], s.calls)
    ensures DeliveredOk(after, s.flights[a := f], s.delivered)
  {
    hide Exists, Row, DeadlineOf;
    forall b | b in s.flights ensures b != a && FlightOk(after, b, s.flights[b]) {
      assert FlightOk(s.invocations, b, s.flights[b]);
    }
    assert forall k :: 0 <= k < |s.calls| ==> s.calls[k].attempt != a;
  }

  lemma GrantWithinCapacity(s: State, c: Config, a: AttemptId, m: Manifest, available: bool)
    requires CapacityOk(s.leases, c) && a !in s.leases && CapacityGranted(s, c, m, available)
    ensures CapacityOk(s.leases[a := Lease(m.provider, m.writes, true)], c)
  {
    var lease := Lease(m.provider, m.writes, true);
    hide ActiveLeases, ActiveLeasesOf, ActiveWriters;
    GrantCount(s.leases, a, lease, m.provider);
    forall p | p in c.providers ensures |ActiveLeasesOf(s.leases[a := lease], p)| <= c.providers[p] {
      GrantCount(s.leases, a, lease, p);
    }
  }

  lemma GrantCount(leases: map<AttemptId, Lease>, a: AttemptId, lease: Lease, p: nat)
    requires a !in leases && lease.active
    ensures |ActiveLeases(leases[a := lease])| == |ActiveLeases(leases)| + 1
    ensures |ActiveLeasesOf(leases[a := lease], p)| ==
            |ActiveLeasesOf(leases, p)| + if p == lease.provider then 1 else 0
    ensures |ActiveWriters(leases[a := lease])| == |ActiveWriters(leases)| + if lease.writes then 1 else 0
  {
    assert ActiveLeases(leases[a := lease]) == ActiveLeases(leases) + {a};
    GrantOf(leases, a, lease, p);
    GrantWriter(leases, a, lease);
  }

  lemma GrantOf(leases: map<AttemptId, Lease>, a: AttemptId, lease: Lease, p: nat)
    requires a !in leases && lease.active
    ensures |ActiveLeasesOf(leases[a := lease], p)| ==
            |ActiveLeasesOf(leases, p)| + if p == lease.provider then 1 else 0
  {
    var before, after := ActiveLeasesOf(leases, p), ActiveLeasesOf(leases[a := lease], p);
    if p == lease.provider {
      assert after == before + {a};
    } else {
      assert after == before;
    }
  }

  lemma GrantWriter(leases: map<AttemptId, Lease>, a: AttemptId, lease: Lease)
    requires a !in leases && lease.active
    ensures |ActiveWriters(leases[a := lease])| == |ActiveWriters(leases)| + if lease.writes then 1 else 0
  {
    var before, after := ActiveWriters(leases), ActiveWriters(leases[a := lease]);
    if lease.writes {
      assert after == before + {a};
    } else {
      assert after == before;
    }
  }

  lemma PreparedAppends(s: State, i: nat, now: nat, startNow: nat)
    requires RowsOk(s.runs, s.invocations) && i in s.invocations && NextPermission(s, i, now) == MayStart
    ensures s.invocations[i].manifest.Some?
    ensures var after := PreparedOn(s, i, now, startNow); var a := AttemptId(i, |s.invocations[i].attempts| + 1);
      && Appended(s.invocations, after.invocations, i, a)
      && InvocationOk(after.invocations[i]) && after.invocations[i].status == Running
      && LastExecuting(after.invocations[i])
      && FlightOk(after.invocations, a, after.flights[a])
  {
    hide NextPermission, AttemptsOk, StatusOk, DeadlineOf;
    assert InvocationOk(s.invocations[i]);
    PermissionMeans(s, i, now);
    StartedOk(s, i, now, startNow);
    hide RowsOk, InvocationOk;
    StartedAppends(s.invocations, i, now, startNow);
    StartedFlies(s.invocations, i, now, startNow);
    hide FlightOk, Appended;
  }

  lemma StartedFlies(invocations: map<nat, Invocation>, i: nat, now: nat, startNow: nat)
    requires i in invocations
    ensures var inv := Started(invocations[i], now, startNow);
      var f := Flight(inv.run, DeadlineOf(inv), false, None, None, Idle);
      && inv.status == Running && LastExecuting(inv)
      && FlightOk(invocations[i := inv], AttemptId(i, |inv.attempts|), f)
  {
    hide DeadlineOf;
  }

  lemma StartedAppends(invocations: map<nat, Invocation>, i: nat, now: nat, startNow: nat)
    requires i in invocations && AttemptsOk(invocations[i])
    ensures Appended(invocations, invocations[i := Started(invocations[i], now, startNow)], i,
                     AttemptId(i, |invocations[i].attempts| + 1))
  {
    hide AttemptOk, InTime;
    var inv := invocations[i];
    assert Started(inv, now, startNow).attempts[..|inv.attempts|] == inv.attempts;
  }

  lemma LeaseNames(invocations: map<nat, Invocation>, leases: map<AttemptId, Lease>)
    requires LeasesOk(invocations, leases)
    ensures forall a :: a in leases <==> Exists(invocations, a)
  {
  }

  lemma PreparedKeeps(s: State, c: Config, i: nat, now: nat, startNow: nat, available: bool)
    requires Inv(s, c) && i in s.invocations && NextPermission(s, i, now) == MayStart
    requires CapacityGranted(s, c, s.invocations[i].manifest.value, available)
    ensures Inv(PreparedOn(s, i, now, startNow), c)
  {
    hide LeasesOk, FlightsOk, CallsOk, UsageOk, DeliveredOk, CapacityOk, AttemptsOk, StatusOk, LastExecuting,
         NextPermission, CapacityRefusalOf, FlightOk;
    PreparedAppends(s, i, now, startNow);
    var s' := PreparedOn(s, i, now, startNow);
    var a := AttemptId(i, |s.invocations[i].attempts| + 1);
    assert a !in s.leases by { LeaseNames(s.invocations, s.leases); }
    AppendedRows(s.invocations, s'.invocations, i, a);
    AppendedTables(s, s'.invocations, a, s'.leases[a], s'.flights[a]);
    GrantWithinCapacity(s, c, a, s.invocations[i].manifest.value, available);
    assert RowsOk(s.runs, s'.invocations);
    assert CancelledConverged(s.runs, s'.invocations);
  }

  lemma PrepareKeeps(s: State, c: Config, i: nat, now: nat, startNow: nat, available: bool, commits: bool)
    requires Inv(s, c)
    ensures Inv(Prepare(s, c, i, now, startNow, available, commits), c)
  {
    hide LeasesOk, FlightsOk, CallsOk, UsageOk, DeliveredOk, CancelledConverged, CapacityOk, AttemptsOk, StatusOk;
    if i in s.invocations && commits {
      if NextPermission(s, i, now).MayNot? {
        RefuseKeeps(s, c, i, now);
      } else if CapacityGranted(s, c, s.invocations[i].manifest.value, available) {
        PreparedKeeps(s, c, i, now, startNow, available);
      }
    }
  }

  // ---------------------------------------------------------------------------
  // Ending an Attempt
  // ---------------------------------------------------------------------------

  /** What finalization and recovery both guarantee of the Attempt they end. */
  ghost predicate EndingOk(inv: Invocation, number: nat, e: Ending)
    requires 1 <= number <= |inv.attempts|
  {
    && AttemptOk(e.attempt) && AttemptEnded(e.attempt.status)
    && (e.attempt.retry == None <==> e.attempt.status == Completed)
    && e.attempt.admittedAt == inv.attempts[number - 1].admittedAt
    && (e.blocked.Some? ==> !Permitted(e.attempt))
    && (inv.request.Some? ==> e.blocked == inv.request && e.attempt.status != Completed)
    && (Permitted(e.attempt) ==> number < inv.allocation.attempts)
  }

  lemma FinalEndingOk(c: Config, inv: Invocation, number: nat, run: Runs.Run, held: Option<Cause>,
                      completion: Completion, consumed: Allocation, valid: bool, approval: nat, now: nat)
    requires 1 <= number <= |inv.attempts|
    ensures EndingOk(inv, number, EndingOf(c, inv, number, run, held, completion, consumed, valid, approval, now))
  {
    var interruption := EffectiveInterruption(run, held);
    var seen := if completion == ApprovalRequired(false) then ToolFailed else completion;
    var classified := if inv.request.Some? then Classified(Faulted, Some(DecisionRequested), false)
                      else Classify(seen, valid, interruption, consumed, inv.allocation);
    ClassifyProper(seen, valid, interruption, consumed, inv.allocation);
    var approvalRequired := inv.request == None && seen == ApprovalRequired(true) && interruption == None;
    var previous := if number > 1 then inv.attempts[number - 2].failure else None;
    var facts := RetryFacts(number, inv.allocation.attempts, previous, approvalRequired, inv.request.Some?,
                            DeadlineOf(inv), now, c.backoffBaseMs, c.backoffMaxMs);
    RetryPermittedExactly(classified, facts);
  }

  lemma RecoveredEndingOk(c: Config, inv: Invocation, number: nat, run: Runs.Run, now: nat)
    requires 1 <= number <= |inv.attempts|
    ensures EndingOk(inv, number, RecoveredEnding(c, inv, number, run, now))
  {
    var previous := if number > 1 then inv.attempts[number - 2].failure else None;
    var facts := RetryFacts(number, inv.allocation.attempts, previous, false, inv.request.Some?, DeadlineOf(inv), now,
                            c.backoffBaseMs, c.backoffMaxMs);
    RetryPermittedExactly(Classified(Interrupted, Some(ByInterruption), false), facts);
  }

  lemma EndedAttemptsOk(inv: Invocation, inv': Invocation, number: nat, attempt: Attempt)
    requires AttemptsOk(inv) && number == |inv.attempts| && number > 0 && AttemptOk(attempt)
      && AttemptEnded(attempt.status)
    requires attempt.admittedAt == inv.attempts[number - 1].admittedAt
    requires inv'.attempts == inv.attempts[number - 1 := attempt] && inv'.allocation == inv.allocation
    requires inv'.startedAt == inv.startedAt && inv'.manifest == inv.manifest
    ensures AttemptsOk(inv') && DeadlineOf(inv') == DeadlineOf(inv)
  {
    hide AttemptOk;
    forall k | 0 < k < |inv'.attempts| ensures InTime(inv', k) {
      assert InTime(inv, k);
    }
  }

  /**
   * Ending the executing Attempt leaves the Invocation ended, or running with a permitted retry and
   * an Attempt left for it.
   */
  lemma EndAttemptOk(inv: Invocation, number: nat, e: Ending)
    requires InvocationOk(inv) && number == |inv.attempts| && LastExecuting(inv) && EndingOk(inv, number, e)
    ensures var inv' := EndAttempt(inv, number, e);
      && InvocationOk(inv') && !LastExecuting(inv')
      && inv'.run == inv.run && DeadlineOf(inv') == DeadlineOf(inv)
      && inv'.attempts == inv.attempts[number - 1 := e.attempt]
      && (Ended(inv'.status) || (inv'.status == Running && Permitted(e.attempt)))
  {
    hide AttemptsOk, DeadlineOf;
    EndedAttemptsOk(inv, EndAttempt(inv, number, e), number, e.attempt);
  }

  /** Row `a` ended; every other row, owner and deadline is as it was. */
  ghost predicate RowEnded(before: map<nat, Invocation>, after: map<nat, Invocation>, a: AttemptId) {
    && after.Keys == before.Keys && Exists(before, a)
    && (forall i :: i in before ==>
          && |after[i].attempts| == |before[i].attempts|
          && after[i].run == before[i].run && DeadlineOf(after[i]) == DeadlineOf(before[i]))
    && (forall b :: Exists(before, b) && Exists(after, b) && b != a ==> Row(after, b) == Row(before, b))
    && Exists(after, a) && AttemptEnded(Row(after, a).status)
  }

  lemma EndedTables(s: State, after: map<nat, Invocation>, a: AttemptId, rows: seq<UsageRow>)
    requires RowEnded(s.invocations, after, a) && !AttemptEnded(Row(s.invocations, a).status)
    requires forall k :: 0 <= k < |rows| ==> rows[k].attempt == a
    requires LeasesOk(s.invocations, s.leases) && UsageOk(s.invocations, s.usage)
    ensures a in s.leases && LeasesOk(after, s.leases[a := s.leases[a].(active := false)])
      && UsageOk(after, s.usage + rows)
  {
    assert forall b :: Exists(after, b) <==> Exists(s.invocations, b);
  }

  lemma EndedFlights(s: State, after: map<nat, Invocation>, a: AttemptId)
    requires RowEnded(s.invocations, after, a)
    requires FlightsOk(s.invocations, s.flights) && CallsOk(s.invocations, s.flights, s.calls)
      && DeliveredOk(s.invocations, s.flights, s.delivered)
    ensures FlightsOk(after, s.flights - {a}) && CallsOk(after, s.flights - {a}, s.calls)
      && DeliveredOk(after, s.flights - {a}, s.delivered)
  {
    assert forall b :: Exists(after, b) <==> Exists(s.invocations, b);
    forall b | b in s.flights - {a} ensures FlightOk(after, b, s.flights[b]) {
      assert FlightOk(s.invocations, b, s.flights[b]);
    }
  }

  lemma ReleaseWithinCapacity(leases: map<AttemptId, Lease>, c: Config, released: map<AttemptId, Lease>)
    requires CapacityOk(leases, c) && released.Keys == leases.Keys
    requires forall a :: a in leases ==>
      && released[a].provider == leases[a].provider && released[a].writes == leases[a].writes
      && (released[a].active ==> leases[a].active)
    ensures CapacityOk(released, c)
  {
    SubsetCount(ActiveLeases(released), ActiveLeases(leases));
    SubsetCount(ActiveWriters(released), ActiveWriters(leases));
    forall p | p in c.providers ensures |ActiveLeasesOf(released, p)| <= c.providers[p] {
      SubsetCount(ActiveLeasesOf(released, p), ActiveLeasesOf(leases, p));
    }
  }

  lemma SubsetCount(small: set<AttemptId>, large: set<AttemptId>)
    requires small <= large
    ensures |small| <= |large|
  {
    assert large == small + (large - small);
  }

  lemma FinalizedInvocation(s: State, c: Config, a: AttemptId, valid: bool, approval: nat, now: nat)
    requires RowsOk(s.runs, s.invocations) && FlightsOk(s.invocations, s.flights) && CanFinalize(s, a)
    ensures a.number == |s.invocations[a.invocation].attempts| && LastExecuting(s.invocations[a.invocation])
    ensures s.invocations[a.invocation].status == Running
    ensures var inv, e := s.invocations[a.invocation], FinalEnding(s, c, a, valid, approval, now);
      EndingOk(inv, a.number, e) && InvocationOk(EndAttempt(inv, a.number, e))
  {
    hide AttemptsOk, EndAttempt, EndingOk, EndingOf, DeadlineOf;
    var inv := s.invocations[a.invocation];
    assert FlightOk(s.invocations, a, s.flights[a]);
    assert InvocationOk(inv);
    ActiveIsLast(inv);
    assert !AttemptEnded(inv.attempts[a.number - 1].status);
    FinalEndingOk(c, inv, a.number, s.runs[inv.run], s.flights[a].interruption, s.flights[a].outcome.value.completion,
                  Consumed(s.usage + RowsFor(a, s.flights[a].outcome.value.usage), a.invocation, |inv.attempts|),
                    valid, approval, now);
    EndAttemptOk(inv, a.number, FinalEnding(s, c, a, valid, approval, now));
  }

  /** The rows after the Attempt ended, before a cancelled Run's other work converges. */
  function Settled(s: State, c: Config, a: AttemptId, valid: bool, approval: nat, now: nat): map<nat, Invocation>
    requires CanFinalize(s, a)
  {
    s.invocations[a.invocation :=
        EndAttempt(s.invocations[a.invocation], a.number, FinalEnding(s, c, a, valid, approval, now))]
  }

  /** One Invocation replaced by itself with its last Attempt ended. */
  lemma UpdateEndsRow(before: map<nat, Invocation>, a: AttemptId, inv: Invocation, e: Ending)
    requires Exists(before, a) && AttemptEnded(e.attempt.status)
    requires inv.attempts == before[a.invocation].attempts[a.number - 1 := e.attempt]
    requires inv.run == before[a.invocation].run && DeadlineOf(inv) == DeadlineOf(before[a.invocation])
    ensures RowEnded(before, before[a.invocation := inv], a)
  {
    hide DeadlineOf;
  }

  lemma SettledRows(s: State, c: Config, a: AttemptId, valid: bool, approval: nat, now: nat)
    requires RowsOk(s.runs, s.invocations) && FlightsOk(s.invocations, s.flights) && CanFinalize(s, a)
    ensures var after := Settled(s, c, a, valid, approval, now);
      && RowsOk(s.runs, after) && RowEnded(s.invocations, after, a) && !AttemptEnded(Row(s.invocations, a).status)
      && (Ended(after[a.invocation].status) || after[a.invocation].status == s.invocations[a.invocation].status)
      && !LastExecuting(after[a.invocation])
  {
    hide FlightsOk, AttemptsOk, StatusOk, FinalEnding, EndAttempt, RowEnded, Settle, DeadlineOf;
    FinalizedInvocation(s, c, a, valid, approval, now);
    var e := FinalEnding(s, c, a, valid, approval, now);
    var inv := EndAttempt(s.invocations[a.invocation], a.number, e);
    EndAttemptOk(s.invocations[a.invocation], a.number, e);
    UpdateEndsRow(s.invocations, a, inv, e);
  }
}
