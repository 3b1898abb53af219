/**
 * The safety and termination results of durable execution, each over every run of
 * the protocol or every reachable state.
 */
module ExecutorSafety {
  import opened Wrappers
  import opened Budgets
  import Runs
  import opened Invocations
  import opened RetryPolicy
  import opened ExecutorState
  import opened ExecutorInvariants
  import opened ExecutorRuns
  import opened ExecutorHistory

  // ---------------------------------------------------------------------------
  // The Attempts of one Invocation
  // ---------------------------------------------------------------------------

  predicate Running(invocations: map<nat, Invocation>, a: AttemptId) {
    Exists(invocations, a) && !AttemptEnded(Row(invocations, a).status)
  }

  /**
   * In every reachable state an Invocation has at most one Attempt that has not ended,
   * and it is the last; it never has more Attempts than its allocation; and every
   * Attempt after the first was admitted before the Invocation-wide deadline, after a
   * permitted retry and not before that retry's `notBefore`.
   */
  lemma AttemptsBounded(c: Config, steps: seq<Step>, i: nat, k: nat)
    requires i in After(c, steps).invocations && k < |After(c, steps).invocations[i].attempts|
    ensures var inv := After(c, steps).invocations[i];
      && |inv.attempts| <= inv.allocation.attempts
      && (k < |inv.attempts| - 1 ==>
            AttemptEnded(inv.attempts[k].status) && inv.attempts[k].retry.Some?
              && inv.attempts[k].retry.value.permitted)
      && (k > 0 ==>
            var before, attempt := inv.attempts[k - 1], inv.attempts[k];
            && (before.retry.Some? && before.retry.value.notBefore.Some? ==>
                  before.retry.value.notBefore.value <= attempt.admittedAt)
            && (DeadlineOf(inv).Some? ==> attempt.admittedAt < DeadlineOf(inv).value))
  {
    Reachable(c, steps);
    hide LeasesOk, FlightsOk, CallsOk, UsageOk, DeliveredOk, CancelledConverged, CapacityOk, StatusOk, AttemptOk,
      After, DeadlineOf;
    var inv := After(c, steps).invocations[i];
    assert InvocationOk(inv);
    if k > 0 { assert InTime(inv, k); }
    if k < |inv.attempts| - 1 { assert InTime(inv, k + 1); }
  }

  /**
   * The active leases are exactly those of the running Attempts, a flight exists only
   * for one of them, at most one per Invocation, and neither the process limit nor any
   * provider's limit nor the worktree limit is ever exceeded.
   */
  lemma LeasesAreRunningAttempts(c: Config, steps: seq<Step>)
    ensures var s := After(c, steps);
      && (forall a :: a in ActiveLeases(s.leases) <==> Running(s.invocations, a))
      && (forall a :: a in s.flights ==>
            Running(s.invocations, a) && a.number == |s.invocations[a.invocation].attempts|)
      && (forall a, b :: a in s.flights && b in s.flights && a.invocation == b.invocation ==> a == b)
      && |ActiveLeases(s.leases)| <= c.maxProcessConcurrency
      && (forall p :: p in c.providers ==> |ActiveLeasesOf(s.leases, p)| <= c.providers[p])
      && (c.maxWorktrees.Some? ==> |ActiveWriters(s.leases)| <= c.maxWorktrees.value)
  {
    Reachable(c, steps);
    hide CallsOk, UsageOk, DeliveredOk, CancelledConverged, StatusOk, AttemptsOk, After;
    var s := After(c, steps);
    forall a | a in s.flights ensures Running(s.invocations, a) && a.number == |s.invocations[a.invocation].attempts| {
      assert FlightOk(s.invocations, a, s.flights[a]);
      assert InvocationOk(s.invocations[a.invocation]);
      ActiveIsLast(s.invocations[a.invocation]);
    }
  }

  // ---------------------------------------------------------------------------
  // The provider
  // ---------------------------------------------------------------------------

  /**
   * Each Attempt reaches the provider at most once, under a Run neither paused nor ended, with no
   * interruption delivered before.
   */
  lemma ProviderCalledOnce(c: Config, steps: seq<Step>)
    ensures var calls := After(c, steps).calls;
      && (forall j, k :: 0 <= j < k < |calls| ==> calls[j].attempt != calls[k].attempt)
      && (forall k :: 0 <= k < |calls| ==>
            !Runs.IsTerminal(calls[k].run.status) && calls[k].run.pause == None && calls[k].interruption == None)
  {
    Reachable(c, steps);
    hide RowsOk, LeasesOk, FlightsOk, UsageOk, DeliveredOk, CancelledConverged, CapacityOk, After;
  }

  /**
   * An interruption is delivered to an Attempt at most once, and repeating the delivery with any
   * cause changes nothing.
   */
  lemma InterruptedOnce(c: Config, steps: seq<Step>, a: AttemptId, cause: Cause, again: Cause)
    ensures var s := After(c, steps);
      && s.delivered[a] <= 1
      && InterruptAll(InterruptAll(s, {a}, cause), {a}, again) == InterruptAll(s, {a}, cause)
      && (a in s.delivered ==> InterruptAll(s, {a}, cause) == s)
  {
    Reachable(c, steps);
    hide RowsOk, LeasesOk, CallsOk, UsageOk, CancelledConverged, CapacityOk, After;
    var s := After(c, steps);
    if a in s.flights { assert FlightOk(s.invocations, a, s.flights[a]); }
    var s1 := InterruptAll(s, {a}, cause);
    Uninterruptible(s1, a, again);
    if a in s.delivered { Uninterruptible(s, a, cause); }
  }

  lemma Uninterruptible(s: State, a: AttemptId, cause: Cause)
    requires a in s.flights ==> !Interruptible(s.flights[a])
    ensures InterruptAll(s, {a}, cause) == s
  {
    var s' := InterruptAll(s, {a}, cause);
    assert s'.flights == s.flights;
    assert Reached(s.flights, {a}) == {};
  }

  // ---------------------------------------------------------------------------
  // History
  // ---------------------------------------------------------------------------

  lemma {:induction false} UsageOfAppend(before: seq<UsageRow>, after: seq<UsageRow>, a: AttemptId)
    requires before <= after && forall k :: |before| <= k < |after| ==> after[k].attempt != a
    ensures UsageOf(after, a) == UsageOf(before, a)
    decreases |after|
  {
    if |before| < |after| {
      assert before <= after[..|after| - 1];
      UsageOfAppend(before, after[..|after| - 1], a);
    } else {
      assert before == after;
    }
  }

  lemma {:induction false} UsageOfRows(usage: seq<UsageRow>, a: AttemptId, chunks: seq<UsageChunk>)
    ensures UsageOf(usage + RowsFor(a, chunks), a) == UsageOf(usage, a) + chunks
  {
    if chunks == [] {
      assert usage + RowsFor(a, chunks) == usage;
    } else {
      var n := |chunks| - 1;
      UsageOfRows(usage, a, chunks[..n]);
      var all := usage + RowsFor(a, chunks);
      assert all[..|all| - 1] == usage + RowsFor(a, chunks[..n]);
    }
  }

  /** An ended Attempt, what it used and the release of its lease are the same later. */
  ghost predicate AttemptKept(s: State, s': State, a: AttemptId) {
    Exists(s.invocations, a) && AttemptEnded(Row(s.invocations, a).status) ==>
      && Exists(s'.invocations, a) && Row(s'.invocations, a) == Row(s.invocations, a)
      && UsageOf(s'.usage, a) == UsageOf(s.usage, a)
      && (a in s.leases && !s.leases[a].active ==> a in s'.leases && s'.leases[a] == s.leases[a])
  }

  ghost predicate InvocationKept(s: State, s': State, i: nat) {
    i in s.invocations && Ended(s.invocations[i].status) ==>
      i in s'.invocations && s'.invocations[i] == s.invocations[i]
  }

  lemma StepKeepsAttempt(s: State, s': State, a: AttemptId)
    requires Forward(s, s')
    ensures AttemptKept(s, s', a) && InvocationKept(s, s', a.invocation)
  {
    if Exists(s.invocations, a) && AttemptEnded(Row(s.invocations, a).status) {
      assert InvocationForward(s.invocations[a.invocation], s'.invocations[a.invocation]);
      assert AttemptForward(Row(s.invocations, a), Row(s'.invocations, a));
      UsageOfAppend(s.usage, s'.usage, a);
    }
  }

  /**
   * Over any continuation of any run: an ended Attempt keeps its outcome, its Usage and
   * its released lease, and an ended Invocation keeps its whole row.
   */
  lemma {:induction false} HistoryKept(c: Config, steps: seq<Step>, more: seq<Step>, a: AttemptId)
    ensures AttemptKept(After(c, steps), After(c, steps + more), a)
    ensures InvocationKept(After(c, steps), After(c, steps + more), a.invocation)
  {
    if more == [] {
      assert steps + more == steps;
    } else {
      var n := |more| - 1;
      hide Inv, Forward, Apply, AttemptKept, InvocationKept;
      HistoryKept(c, steps, more[..n], a);
      OneMore(c, steps, more);
      hide After;
      Reachable(c, steps + more[..n]);
      var s, s' := After(c, steps + more[..n]), After(c, steps + more);
      StepForward(s, c, more[n]);
      StepKeepsAttempt(s, s', a);
      KeptTransitive(After(c, steps), s, s', a);
    }
  }

  lemma OneMore(c: Config, steps: seq<Step>, more: seq<Step>)
    requires more != []
    ensures After(c, steps + more) == Apply(After(c, steps + more[..|more| - 1]), c, more[|more| - 1])
  {
    hide Apply;
    assert (steps + more)[..|steps + more| - 1] == steps + more[..|more| - 1];
  }

  lemma KeptTransitive(s: State, m: State, s': State, a: AttemptId)
    requires AttemptKept(s, m, a) && AttemptKept(m, s', a) && InvocationKept(s, m, a.invocation)
      && InvocationKept(m, s', a.invocation)
    ensures AttemptKept(s, s', a) && InvocationKept(s, s', a.invocation)
  {
    hide UsageOf;
  }

  /** Attempt `a` ended as `attempt`, used exactly `usage` and holds no lease. */
  ghost predicate FinalizedAs(s: State, a: AttemptId, attempt: Attempt, usage: seq<UsageChunk>) {
    && Exists(s.invocations, a) && Row(s.invocations, a) == attempt && AttemptEnded(attempt.status)
    && UsageOf(s.usage, a) == usage
    && a in s.leases && !s.leases[a].active
  }

  lemma UnendedUsedNothing(s: State, a: AttemptId)
    requires UsageOk(s.invocations, s.usage) && Running(s.invocations, a)
    ensures UsageOf(s.usage, a) == []
  {
    UsageOfAppend([], s.usage, a);
  }

  lemma FinalizedNow(s: State, c: Config, a: AttemptId, valid: bool, approval: nat, now: nat)
    requires Inv(s, c) && CanFinalize(s, a)
    ensures var s' := Finalize(s, c, a, valid, approval, now, true);
      && UsageOf(s.usage, a) == []
      && FinalizedAs(s', a, FinalEnding(s, c, a, valid, approval, now).attempt, s.flights[a].outcome.value.usage)
      && a !in s'.flights
  {
    hide RowsOk, CallsOk, UsageOk, DeliveredOk, CancelledConverged, CapacityOk, FinalEnding, UsageOf, EndAttempt,
      InvocationOk;
    var s', e := Finalize(s, c, a, valid, approval, now, true), FinalEnding(s, c, a, valid, approval, now);
    assert FlightOk(s.invocations, a, s.flights[a]);
    UnendedUsedNothing(s, a);
    FinalizedInvocation(s, c, a, valid, approval, now);
    FinalizedRow(s, c, a, valid, approval, now, a.invocation);
    EndedRow(s.invocations[a.invocation], a.number, e);
    FinalizeShape(s, c, a, valid, approval, now);
    UsageOfRows(s.usage, a, s.flights[a].outcome.value.usage);
    assert a in s'.leases && !s'.leases[a].active by { hide SettleCancelledRun, RowsFor; }
    hide Finalize;
  }

  lemma EndedRow(inv: Invocation, number: nat, e: Ending)
    requires 1 <= number <= |inv.attempts|
    ensures EndAttempt(inv, number, e).attempts == inv.attempts[number - 1 := e.attempt]
    ensures Converge(EndAttempt(inv, number, e)).attempts == inv.attempts[number - 1 := e.attempt]
  {
  }

  /**
   * A committed finalization ends the Attempt, records exactly the Usage its provider
   * returned (nothing was on record before), releases its lease and drops its flight,
   * all in one step; and no later step undoes or repeats any of it.
   */
  lemma FinalizationCommitsTogether(c: Config, steps: seq<Step>, a: AttemptId, valid: bool, approval: nat, now: nat,
                                    more: seq<Step>)
    requires CanFinalize(After(c, steps), a)
    ensures var s, step := After(c, steps), FinalizeStep(a, valid, approval, now, true);
      && UsageOf(s.usage, a) == []
      && a !in After(c, steps + [step]).flights
      && FinalizedAs(After(c, steps + [step] + more), a, FinalEnding(s, c, a, valid, approval, now).attempt,
                     s.flights[a].outcome.value.usage)
  {
    hide Inv, FinalEnding, CanFinalize, Finalize, UsageOf, FinalizedAs, AttemptKept, InvocationKept;
    var step := FinalizeStep(a, valid, approval, now, true);
    Reachable(c, steps);
    OneMore(c, steps, [step]);
    assert steps + [step][..0] == steps;
    HistoryKept(c, steps + [step], more, a);
    hide After;
    FinalizedLater(After(c, steps), c, a, valid, approval, now, After(c, steps + [step] + more));
  }

  lemma FinalizedLater(s: State, c: Config, a: AttemptId, valid: bool, approval: nat, now: nat, later: State)
    requires Inv(s, c) && CanFinalize(s, a) && AttemptKept(Finalize(s, c, a, valid, approval, now, true), later, a)
    ensures UsageOf(s.usage, a) == [] && a !in Finalize(s, c, a, valid, approval, now, true).flights
    ensures FinalizedAs(later, a, FinalEnding(s, c, a, valid, approval, now).attempt, s.flights[a].outcome.value.usage)
  {
    FinalizedNow(s, c, a, valid, approval, now);
    hide Inv, FinalEnding, Finalize, UsageOf, FinalizedAs, AttemptKept;
    StaysFinalized(Finalize(s, c, a, valid, approval, now, true), later, a,
                   FinalEnding(s, c, a, valid, approval, now).attempt, s.flights[a].outcome.value.usage);
  }

  lemma StaysFinalized(s: State, s': State, a: AttemptId, attempt: Attempt, usage: seq<UsageChunk>)
    requires FinalizedAs(s, a, attempt, usage) && AttemptKept(s, s', a)
    ensures FinalizedAs(s', a, attempt, usage)
  {
    hide UsageOf;
  }

  /**
   * A finalization whose transaction fails writes no row; the outcome stays in memory and the next
   * call finalizes it without another provider call.
   */
  lemma FailedCommitRetries(s: State, c: Config, a: AttemptId, valid: bool, approval: nat, now: nat, rejects: bool)
    requires CanFinalize(s, a) && s.flights[a].run in s.runs
    ensures var failed := Finalize(s, c, a, valid, approval, now, false);
      && failed == s.(flights := failed.flights)
      && Execute(failed, a, rejects) == s
  {
    var failed := Finalize(s, c, a, valid, approval, now, false);
    assert Execute(failed, a, rejects).flights == s.flights;
  }

  // ---------------------------------------------------------------------------
  // Usage comes from the provider alone
  // ---------------------------------------------------------------------------

  ghost predicate Called(calls: seq<ProviderCall>, a: AttemptId) {
    exists k :: 0 <= k < |calls| && calls[k].attempt == a
  }

  ghost predicate HasBill(f: Flight) {
    f.phase == AtProvider || (f.outcome.Some? && f.outcome.value.usage != [])
  }

  ghost predicate FlightsBilled(flights: map<AttemptId, Flight>, calls: seq<ProviderCall>) {
    forall a :: a in flights && HasBill(flights[a]) ==> Called(calls, a)
  }

  ghost predicate UsageBilled(usage: seq<UsageRow>, calls: seq<ProviderCall>) {
    forall k :: 0 <= k < |usage| ==> Called(calls, usage[k].attempt)
  }

  lemma CallsGrow(calls: seq<ProviderCall>, call: ProviderCall, a: AttemptId)
    ensures Called(calls, a) ==> Called(calls + [call], a)
    ensures Called(calls + [call], call.attempt)
  {
    assert (calls + [call])[|calls|] == call;
    if Called(calls, a) {
      var k :| 0 <= k < |calls| && calls[k].attempt == a;
      assert (calls + [call])[k].attempt == a;
    }
  }

  lemma ExecuteKeepsBilled(s: State, a: AttemptId, rejects: bool)
    requires FlightsBilled(s.flights, s.calls) && UsageBilled(s.usage, s.calls)
    ensures var s' := Execute(s, a, rejects); FlightsBilled(s'.flights, s'.calls) && UsageBilled(s'.usage, s'.calls)
  {
    var s' := Execute(s, a, rejects);
    hide Called;
    if s'.calls != s.calls {
      var call := ProviderCall(a, s.runs[s.flights[a].run], s.flights[a].interruption);
      forall b ensures Called(s.calls, b) ==> Called(s'.calls, b) { CallsGrow(s.calls, call, b); }
      CallsGrow(s.calls, call, a);
    }
  }

  /** Flights that owe no more than before keep what they owe on record. */
  lemma FlightsKeepBilled(before: map<AttemptId, Flight>, after: map<AttemptId, Flight>, calls: seq<ProviderCall>)
    requires FlightsBilled(before, calls)
    requires forall a :: a in after && HasBill(after[a]) ==> a in before && HasBill(before[a])
    ensures FlightsBilled(after, calls)
  {
    hide HasBill, Called;
  }

  lemma FinalizeKeepsBilled(s: State, c: Config, a: AttemptId, valid: bool, approval: nat, now: nat, commits: bool)
    requires FlightsBilled(s.flights, s.calls) && UsageBilled(s.usage, s.calls)
    ensures var s' := Finalize(s, c, a, valid, approval, now, commits);
      s'.calls == s.calls && FlightsBilled(s'.flights, s.calls) && UsageBilled(s'.usage, s.calls)
  {
    hide Called, FinalEnding, EndAttempt, SettleCancelledRun;
    var s' := Finalize(s, c, a, valid, approval, now, commits);
    FlightsKeepBilled(s.flights, s'.flights, s.calls);
    if CanFinalize(s, a) {
      assert HasBill(s.flights[a]) ==> Called(s.calls, a);
    }
  }

  lemma InterruptKeepsBilled(s: State, targets: set<AttemptId>, cause: Cause)
    requires FlightsBilled(s.flights, s.calls)
    ensures FlightsBilled(InterruptAll(s, targets, cause).flights, s.calls)
  {
    hide Called;
    FlightsKeepBilled(s.flights, InterruptAll(s, targets, cause).flights, s.calls);
  }

  lemma ReturnKeepsBilled(s: State, a: AttemptId, outcome: Outcome)
    requires FlightsBilled(s.flights, s.calls)
    ensures FlightsBilled(Return(s, a, outcome).flights, s.calls)
  {
    hide FlightsBilled;
    FlightsKeepBilled(s.flights, Return(s, a, outcome).flights, s.calls);
  }

  lemma CollectKeepsBilled(s: State, a: AttemptId)
    requires FlightsBilled(s.flights, s.calls)
    ensures FlightsBilled(CollectFails(s, a).flights, s.calls)
  {
    hide FlightsBilled;
    FlightsKeepBilled(s.flights, CollectFails(s, a).flights, s.calls);
  }

  /** The committed half of a control step touches no flight, call or Usage. */
  lemma ControlKeepsBilled(s: State, runs: map<nat, Runs.Run>, invocations: map<nat, Invocation>,
                           targets: set<AttemptId>, cause: Cause)
    requires FlightsBilled(s.flights, s.calls)
    ensures var s' := InterruptAll(s.(runs := runs, invocations := invocations), targets, cause);
      s'.calls == s.calls && s'.usage == s.usage && FlightsBilled(s'.flights, s.calls)
  {
    hide FlightsBilled;
    InterruptKeepsBilled(s, targets, cause);
    assert InterruptAll(s.(runs := runs, invocations := invocations), targets, cause).flights ==
      InterruptAll(s, targets, cause).flights;
  }

  lemma CancelKeepsBilled(s: State, r: nat)
    requires FlightsBilled(s.flights, s.calls)
    ensures var s' := CancelRun(s, r); s'.calls == s.calls && s'.usage == s.usage && FlightsBilled(s'.flights, s.calls)
  {
    hide FlightsBilled, InterruptAll, FlightsOf, Runs.Move;
    ControlKeepsBilled(s, s.runs, s.invocations, FlightsOf(s, r), CausedByCancel);
    var t := Runs.Transition(Runs.Cancelled, None, None);
    if r in s.runs && Runs.Move(s.runs[r], t).Ok? {
      ControlKeepsBilled(s, s.runs[r := Runs.Move(s.runs[r], t).value], SettleCancelledRun(s.invocations, r),
                         FlightsOf(s, r), CausedByCancel);
    }
  }

  lemma PauseKeepsBilled(s: State, r: nat, mode: Runs.PauseMode)
    requires FlightsBilled(s.flights, s.calls)
    ensures var s' := PauseRun(s, r, mode);
      s'.calls == s.calls && s'.usage == s.usage && FlightsBilled(s'.flights, s.calls)
  {
    hide FlightsBilled, InterruptAll, FlightsOf, Runs.Pause;
    if r in s.runs && Runs.Pause(s.runs[r], mode).Ok? {
      ControlKeepsBilled(s, s.runs[r := Runs.Pause(s.runs[r], mode).value], s.invocations, FlightsOf(s, r),
                         CausedByPause);
    }
  }

  lemma PrepareKeepsBilled(s: State, c: Config, i: nat, now: nat, startNow: nat, available: bool, commits: bool)
    requires FlightsBilled(s.flights, s.calls)
    ensures var s' := Prepare(s, c, i, now, startNow, available, commits);
      s'.calls == s.calls && s'.usage == s.usage && FlightsBilled(s'.flights, s.calls)
  {
    hide Called, Consumed, DeadlineOf, HasActiveAttempt;
    FlightsKeepBilled(s.flights, Prepare(s, c, i, now, startNow, available, commits).flights, s.calls);
  }

  lemma StepKeepsBilled(s: State, c: Config, step: Step)
    requires FlightsBilled(s.flights, s.calls) && UsageBilled(s.usage, s.calls)
    ensures var s' := Apply(s, c, step); FlightsBilled(s'.flights, s'.calls) && UsageBilled(s'.usage, s'.calls)
  {
    hide Prepare, Execute, Finalize, CancelRun, PauseRun, Runs.Operate, Called, UsageBilled, HasBill;
    match step
    case PrepareStep(i, now, startNow, available, commits) =>
      PrepareKeepsBilled(s, c, i, now, startNow, available, commits);
    case ExecuteStep(a, rejects) => ExecuteKeepsBilled(s, a, rejects);
    case ReturnStep(a, outcome) => ReturnKeepsBilled(s, a, outcome);
    case CollectFailsStep(a) => CollectKeepsBilled(s, a);
    case FinalizeStep(a, valid, approval, now, commits) => FinalizeKeepsBilled(s, c, a, valid, approval, now, commits);
    case InterruptStep(a, cause) => InterruptKeepsBilled(s, {a}, cause);
    case DeadlinesStep(now) => InterruptKeepsBilled(s, Overdue(s, now), CausedByDeadline);
    case ShutdownStep => InterruptKeepsBilled(s, s.flights.Keys, CausedByShutdown);
    case CancelStep(r) => CancelKeepsBilled(s, r);
    case PauseStep(r, mode) => PauseKeepsBilled(s, r, mode);
    case _ =>
  }

  lemma {:induction false} BilledReachable(c: Config, steps: seq<Step>)
    ensures FlightsBilled(After(c, steps).flights, After(c, steps).calls)
      && UsageBilled(After(c, steps).usage, After(c, steps).calls)
  {
    if steps != [] {
      BilledReachable(c, steps[..|steps| - 1]);
      hide Apply, FlightsBilled, UsageBilled;
      StepKeepsBilled(After(c, steps[..|steps| - 1]), c, steps[|steps| - 1]);
    }
  }

  /**
   * No Usage is ever recorded of an Attempt that did not reach the provider: one that was
   * interrupted before its dispatch costs nothing.
   */
  lemma UsageOnlyFromProvider(c: Config, steps: seq<Step>, k: nat)
    requires k < |After(c, steps).usage|
    ensures Called(After(c, steps).calls, After(c, steps).usage[k].attempt)
  {
    BilledReachable(c, steps);
    hide After;
  }

  // ---------------------------------------------------------------------------
  // Committed operator intents
  // ---------------------------------------------------------------------------

  /**
   * A Run cancelled before finalization overrides whatever interruption the process
   * holds in memory and whatever the provider reported: the Attempt gets no retry and
   * its Invocation ends, blocked on the Decision it had committed or else cancelled
   * with an aborted Attempt; and nothing of the Run is left but executing Attempts.
   */
  lemma CancelledOverrides(s: State, c: Config, a: AttemptId, valid: bool, approval: nat, now: nat)
    requires Inv(s, c) && CanFinalize(s, a) && s.runs[s.invocations[a.invocation].run].status == Runs.Cancelled
    ensures var inv, s' := s.invocations[a.invocation], Finalize(s, c, a, valid, approval, now, true);
      && Exists(s'.invocations, a) && !Permitted(Row(s'.invocations, a))
      && (inv.request == None ==>
            Row(s'.invocations, a).status == Aborted && s'.invocations[a.invocation].status == Cancelled)
      && (inv.request.Some? ==>
            s'.invocations[a.invocation].status == Blocked && s'.invocations[a.invocation].blockedBy == inv.request)
      && (forall i :: i in s'.invocations && s'.invocations[i].run == inv.run ==>
            Ended(s'.invocations[i].status) || LastExecuting(s'.invocations[i]))
  {
    hide LeasesOk, CallsOk, UsageOk, DeliveredOk, CapacityOk, AttemptsOk, StatusOk, Consumed;
    var inv, e := s.invocations[a.invocation], FinalEnding(s, c, a, valid, approval, now);
    assert FlightOk(s.invocations, a, s.flights[a]);
    FinalizedRow(s, c, a, valid, approval, now, a.invocation);
    CancelledEnding(c, inv, a.number, s.runs[inv.run], s.flights[a].interruption, s.flights[a].outcome.value.completion,
                    Consumed(s.usage + RowsFor(a, s.flights[a].outcome.value.usage), a.invocation, |inv.attempts|),
                      valid, approval, now);
    FinalizeKeeps(s, c, a, valid, approval, now, true);
    FinalizeForward(s, c, a, valid, approval, now, true);
    hide Finalize;
    EndedRow(inv, a.number, e);
    var s' := Finalize(s, c, a, valid, approval, now, true);
    assert s'.runs == s.runs by { FinalizeShape(s, c, a, valid, approval, now); }
  }

  lemma CancelledEnding(c: Config, inv: Invocation, number: nat, run: Runs.Run, held: Option<Cause>,
                        completion: Completion, consumed: Allocation, valid: bool, approval: nat, now: nat)
    requires 1 <= number <= |inv.attempts| && run.status == Runs.Cancelled
    ensures var e := EndingOf(c, inv, number, run, held, completion, consumed, valid, approval, now);
      var inv' := EndAttempt(inv, number, e);
      && !Permitted(e.attempt)
      && (inv.request == None ==> e.attempt.status == Aborted && inv'.status == Cancelled)
      && (inv.request.Some? ==> inv'.status == Blocked && inv'.blockedBy == inv.request)
  {
    hide Exhausted, DeadlineOf;
  }

  /** Under a committed cancellation or hard pause nothing the provider reported counts as a result. */
  lemma NoLateSuccess(c: Config, inv: Invocation, number: nat, run: Runs.Run, held: Option<Cause>,
                      completion: Completion, consumed: Allocation, valid: bool, approval: nat, now: nat)
    requires 1 <= number <= |inv.attempts| && Runs.ExecutionInterruptionOf(run) != None
    ensures EndingOf(c, inv, number, run, held, completion, consumed, valid, approval, now).attempt.status != Completed
  {
    hide Exhausted, DecideRetry, DeadlineOf;
  }

  /** A soft pause changes nothing at finalization: the outcome is the one the Run would have had unpaused. */
  lemma SoftPauseFinalizesAlike(s: State, c: Config, a: AttemptId, valid: bool, approval: nat, now: nat, commits: bool)
    requires CanFinalize(s, a) && s.runs[s.invocations[a.invocation].run].pause == Some(Runs.Soft)
    ensures var r := s.invocations[a.invocation].run;
      var resumed := s.runs[r := s.runs[r].(pause := None)];
      Finalize(s.(runs := resumed), c, a, valid, approval, now, commits) ==
        Finalize(s, c, a, valid, approval, now, commits).(runs := resumed)
  {
    hide Classify, DecideRetry, SettleCancelledRun, EndAttempt, RowsFor, Consumed;
  }

  /** A cancelled Run's flights after the operator's cancellation, first or repeated. */
  lemma CancelShape(s: State, r: nat, after: State)
    requires r in s.runs && after == CancelRun(s, r) && r in after.runs && after.runs[r].status == Runs.Cancelled
    ensures after.flights == AbortAll(s.flights, FlightsOf(s, r), CausedByCancel)
  {
    hide SettleCancelledRun, AbortAll, FlightsOf, Runs.Move;
  }

  /**
   * An accepted cancellation leaves no interruptible flight of its Run, touches no other Run's
   * flights, and rewrites no cause already delivered.
   */
  lemma CancellationReaches(s: State, r: nat, after: State, a: AttemptId)
    requires r in s.runs && after == CancelRun(s, r) && r in after.runs && after.runs[r].status == Runs.Cancelled
    requires a in s.flights && ShapeOk(s.flights[a])
    ensures a in after.flights
    ensures s.flights[a].run == r && s.flights[a].outcome == None ==> after.flights[a].aborted
    ensures s.flights[a].run == r && Interruptible(s.flights[a]) ==>
      after.flights[a].interruption == Some(CausedByCancel)
    ensures s.flights[a].run != r || !Interruptible(s.flights[a]) ==> after.flights[a] == s.flights[a]
  {
    CancelShape(s, r, after);
    hide CancelRun;
  }

  /** A soft pause interrupts nothing; a hard one reaches every interruptible flight of its Run. */
  lemma PauseReaches(s: State, r: nat, mode: Runs.PauseMode, a: AttemptId)
    requires r in s.runs && Runs.Pause(s.runs[r], mode).Ok? && a in s.flights
    ensures var before, after := s.flights[a], PauseRun(s, r, mode).flights[a];
      && (mode == Runs.Soft && s.runs[r].pause != Some(Runs.Hard) ==> after == before)
      && (mode == Runs.Hard && before.run == r && Interruptible(before) ==>
            after.interruption == Some(CausedByPause) && after.aborted)
  {
  }

  /**
   * After the boot reconciliation no Attempt is executing and no lease is active, what had ended is
   * unchanged, and no Usage was recorded.
   */
  lemma RecoveryEndsEverything(s: State, c: Config, now: nat, a: AttemptId)
    requires Inv(s, c) && s.flights == map[] && Exists(s.invocations, a)
    ensures var s' := Recover(s, c, now);
      && ActiveLeases(s'.leases) == {} && s'.usage == s.usage
      && Exists(s'.invocations, a) && AttemptEnded(Row(s'.invocations, a).status)
      && (AttemptEnded(Row(s.invocations, a).status) ==> Row(s'.invocations, a) == Row(s.invocations, a))
  {
    RecoveredShape(s, c, now);
    RecoveredRowsOk(s, c, now);
    hide Recover, LeasesOk, FlightsOk, CallsOk, UsageOk, DeliveredOk, CancelledConverged, CapacityOk, RecoveredFrom,
      RowsOk;
    RecoveredFrame(s.invocations, Recover(s, c, now).invocations);
    assert ActiveLeases(AllReleased(s.leases)) == {};
  }

  /**
   * An Attempt the dead process was executing ends aborted exactly when its Run was
   * cancelled and it had committed no Decision, and otherwise interrupted; and a Decision
   * it had committed blocks its Invocation.
   */
  lemma RecoveredAs(c: Config, inv: Invocation, run: Runs.Run, now: nat)
    requires InvocationOk(inv) && LastExecuting(inv)
    ensures var inv' := RecoveredInvocation(c, inv, run, now); var n := |inv.attempts|;
      && |inv'.attempts| == n
      && inv'.attempts[n - 1].status ==
            (if inv.request == None && run.status == Runs.Cancelled then Aborted else Interrupted)
      && (inv.request.Some? ==> inv'.status == Blocked && inv'.blockedBy == inv.request)
      && (inv.request == None && run.status == Runs.Cancelled ==> inv'.status == Cancelled)
      && (inv.request == None && run.status != Runs.Cancelled ==>
            inv'.status == (if Permitted(inv'.attempts[n - 1]) then Invocations.Running else Failed))
  {
    hide AttemptsOk, DeadlineOf, RetryBackoffMs;
    var n := |inv.attempts|;
    EndedRow(inv, n, RecoveredEnding(c, inv, n, run, now));
  }
}
