/**
 * The executor itself: the rows and the in-memory flights it updates in place, method
 * by method. Each method runs between two awaits and moves the state exactly as the
 * protocol's step says; everything proved of the steps therefore holds of it.
 */
module AttemptExecutor {
  import opened Wrappers
  import opened Budgets
  import Runs
  import opened Invocations
  import opened RetryPolicy
  import opened ExecutorState
  import opened ExecutorOutcomes
  import Rows = ExecutorInvariants

  lemma ReachedMore(flights: map<AttemptId, Flight>, done: set<AttemptId>, a: AttemptId)
    requires a !in done
    ensures Reached(flights, done + {a}) == Reached(flights, done) + Reached(flights, {a})
    ensures multiset(Reached(flights, done + {a})) == multiset(Reached(flights, done)) + multiset(Reached(flights, {a}))
  {
    assert Reached(flights, done) !! Reached(flights, {a});
    var all, first, second := Reached(flights, done + {a}), Reached(flights, done), Reached(flights, {a});
    assert all == first + second;
    forall b ensures multiset(all)[b] == (multiset(first) + multiset(second))[b] {}
  }

  lemma AbortMore(flights: map<AttemptId, Flight>, done: set<AttemptId>, a: AttemptId, cause: Cause)
    requires a !in done
    ensures AbortAll(AbortAll(flights, done, cause), {a}, cause) == AbortAll(flights, done + {a}, cause)
    ensures Reached(AbortAll(flights, done, cause), {a}) == Reached(flights, {a})
  {
    var m := AbortAll(flights, done, cause);
    assert a in flights ==> m[a] == flights[a];
    hide Abort, Interruptible;
  }

  /** One interruption delivered after others of the same cause. */
  lemma InterruptMore(s: State, done: set<AttemptId>, a: AttemptId, cause: Cause)
    requires a !in done
    ensures InterruptAll(InterruptAll(s, done, cause), {a}, cause) == InterruptAll(s, done + {a}, cause)
    ensures Reached(InterruptAll(s, done, cause).flights, {a}) == Reached(s.flights, {a})
    ensures Reached(s.flights, done + {a}) == Reached(s.flights, done) + Reached(s.flights, {a})
  {
    hide AbortAll, Reached;
    AbortMore(s.flights, done, a, cause);
    ReachedMore(s.flights, done, a);
  }

  lemma InterruptOne(s: State, a: AttemptId, cause: Cause)
    ensures a in s.flights && Interruptible(s.flights[a]) ==>
      && Reached(s.flights, {a}) == {a}
      && InterruptAll(s, {a}, cause) ==
            s.(flights := s.flights[a := Abort(s.flights[a], cause)], delivered := s.delivered + multiset{a})
    ensures !(a in s.flights && Interruptible(s.flights[a])) ==>
      Reached(s.flights, {a}) == {} && InterruptAll(s, {a}, cause) == s
  {
    if a in s.flights && Interruptible(s.flights[a]) {
      assert Reached(s.flights, {a}) == {a};
      assert AbortAll(s.flights, {a}, cause) == s.flights[a := Abort(s.flights[a], cause)];
    } else {
      assert Reached(s.flights, {a}) == {};
      assert AbortAll(s.flights, {a}, cause) == s.flights;
    }
  }

  lemma InterruptNone(s: State, cause: Cause)
    ensures InterruptAll(s, {}, cause) == s && Reached(s.flights, {}) == {}
  {
    assert InterruptAll(s, {}, cause).flights == s.flights;
  }

  /** Convergence of the Invocations visited so far. */
  function ConvergeSome(invocations: map<nat, Invocation>, r: nat, done: set<nat>): map<nat, Invocation> {
    map i | i in invocations :: if i in done && invocations[i].run == r then Rows.Converge(invocations[i])
      else invocations[i]
  }

  lemma ConvergeMore(invocations: map<nat, Invocation>, r: nat, done: set<nat>, i: nat)
    requires i in invocations && i !in done
    ensures i in ConvergeSome(invocations, r, done) && ConvergeSome(invocations, r, done)[i] == invocations[i]
    ensures ConvergeSome(invocations, r, done + {i}) ==
            ConvergeSome(invocations, r,
                         done)[i := if invocations[i].run == r then Rows.Converge(invocations[i]) else invocations[i]]
  {
  }

  lemma ConvergeAll(invocations: map<nat, Invocation>, r: nat)
    ensures ConvergeSome(invocations, r, invocations.Keys) == SettleCancelledRun(invocations, r)
    ensures ConvergeSome(invocations, r, {}) == invocations
  {
  }

  class AttemptExecutor {
    const config: Config
    var runs: map<nat, Runs.Run>
    var invocations: map<nat, Invocation>
    var leases: map<AttemptId, Lease>
    var usage: seq<UsageRow>
    var flights: map<AttemptId, Flight>
    var calls: seq<ProviderCall>
    var delivered: multiset<AttemptId>

    ghost function View(): State
      reads this
    {
      State(runs, invocations, leases, usage, flights, calls, delivered)
    }

    /** A process starting on an empty database. */
    constructor (config: Config)
      ensures this.config == config && View() == EMPTY
    {
      this.config := config;
      runs, invocations, leases, usage, flights, calls, delivered := map[], map[], map[], [], map[], [], multiset{};
    }

    // -------------------------------------------------------------------------
    // Inspection
    // -------------------------------------------------------------------------

    method ConsumedByInvocation(i: nat, attempts: nat) returns (consumed: Allocation)
      ensures consumed == Consumed(usage, i, attempts)
    {
      var total := ZERO_ALLOCATION;
      for k := 0 to |usage|
        invariant total == UsageTotal(usage[..k], i)
      {
        assert usage[..k + 1][..k] == usage[..k];
        total := AddAllocation(total, Counted(usage[k], i));
      }
      assert usage[..|usage|] == usage;
      consumed := total.(attempts := attempts);
    }

    method HasActive(attempts: seq<Attempt>) returns (active: bool)
      ensures active <==> exists k :: 0 <= k < |attempts| && !AttemptEnded(attempts[k].status)
    {
      for k := 0 to |attempts|
        invariant forall j :: 0 <= j < k ==> AttemptEnded(attempts[j].status)
      {
        if !AttemptEnded(attempts[k].status) { return true; }
      }
      return false;
    }

    method Inspect(i: nat, now: nat) returns (next: Permission)
      requires i in invocations && invocations[i].run in runs
      ensures next == NextPermission(View(), i, now)
    {
      var inv := invocations[i];
      var run := runs[inv.run];
      var deadlineAt := DeadlineOf(inv);
      var active := HasActive(inv.attempts);
      if Ended(inv.status) { return MayNot(InvocationTerminal, None); }
      if inv.status == Waiting { return MayNot(InvocationWaiting, None); }
      if inv.manifest == None { return MayNot(InvocationTerminal, None); }
      if active { return MayNot(AttemptActive, None); }
      if Runs.IsTerminal(run.status) { return MayNot(RunTerminal, None); }
      if run.pause != None { return MayNot(RunPaused, None); }
      if inv.request != None { return MayNot(BlockedByRequest, None); }
      if deadlineAt.Some? && now >= deadlineAt.value { return MayNot(OutOfAllocation, None); }
      if inv.attempts != [] {
        var decision := inv.attempts[|inv.attempts| - 1].retry;
        if decision == None || !decision.value.permitted { return MayNot(RetryRefused, None); }
        if decision.value.notBefore.Some? && decision.value.notBefore.value > now {
          return MayNot(RetryNotYet, decision.value.notBefore);
        }
      }
      if |inv.attempts| >= inv.allocation.attempts { return MayNot(OutOfAllocation, None); }
      var consumed := ConsumedByInvocation(i, |inv.attempts|);
      if inv.allocation.costUsd > 0.0 && consumed.costUsd >= inv.allocation.costUsd {
        return MayNot(OutOfAllocation, None);
      }
      if inv.allocation.tokens > 0 && consumed.tokens >= inv.allocation.tokens { return MayNot(OutOfAllocation, None); }
      return MayStart;
    }

    // -------------------------------------------------------------------------
    // Prepare
    // -------------------------------------------------------------------------

    /** The refusal's transaction; the report of a request that no row holds is a conflict. */
    method Refuse(i: nat, reason: Reason, notBefore: Option<nat>) returns (outcome: PrepareOutcome)
      requires i in invocations
      modifies this`invocations
      ensures View() == RefuseOn(old(View()), i, reason)
      ensures outcome == RefusalReport(old(invocations)[i], reason, notBefore)
    {
      var current := invocations[i];
      if reason == BlockedByRequest {
        if !Ended(current.status) {
          if current.request == None { return PrepareThrew; }
          invocations := invocations[i := current.(status := Blocked, blockedBy := current.request)];
        }
        return NotPermitted(BlockedByRequest, None);
      }
      if reason == OutOfAllocation {
        if !Ended(current.status) {
          invocations := invocations[i := current.(status := Failed, failure := Some(FailedAllocation))];
        }
        return NotPermitted(OutOfAllocation, None);
      }
      return NotPermitted(reason, notBefore);
    }

    /** The governor's check, counting the active lease rows. */
    method CheckCapacity(m: Manifest, available: bool) returns (refusal: Option<CapacityRefusal>)
      ensures refusal == CapacityRefusalOf(View(), config, m, available)
    {
      if m.provider !in config.providers || config.providers[m.provider] == 0 || config.maxProcessConcurrency == 0 {
        return Some(ConfiguredLimit);
      }
      var worktrees := if m.writes then 1 else 0;
      if config.maxWorktrees.Some? && worktrees > config.maxWorktrees.value { return Some(ConfiguredLimit); }
      if !available { return Some(ProviderQuota); }
      var active := set a | a in leases && leases[a].active;
      var ofProvider := set a | a in active && leases[a].provider == m.provider;
      var writers := set a | a in active && leases[a].writes;
      assert ofProvider == ActiveLeasesOf(leases, m.provider) && writers == ActiveWriters(leases);
      if |ofProvider| >= config.providers[m.provider] { return Some(ProviderConcurrency); }
      if |active| >= config.maxProcessConcurrency { return Some(ProcessConcurrency); }
      if config.maxWorktrees.Some? && |writers| + worktrees > config.maxWorktrees.value {
        return Some(ProcessConcurrency);
      }
      return None;
    }

    /** The prepare transaction and, once it committed, the flight it publishes. */
    method PrepareNextAttempt(i: nat, now: nat, startNow: nat, available: bool, commits: bool)
      returns (outcome: PrepareOutcome)
      requires i in invocations && invocations[i].run in runs
      modifies this`invocations, this`leases, this`flights
      ensures View() == Prepare(old(View()), config, i, now, startNow, available, commits)
      ensures outcome == PrepareReport(old(View()), config, i, now, available, commits)
    {
      if !commits { return PrepareThrew; }
      var next := Inspect(i, now);
      if next.MayNot? {
        outcome := Refuse(i, next.reason, next.notBefore);
        return;
      }
      var inv := invocations[i];
      var refusal := CheckCapacity(inv.manifest.value, available);
      if refusal.Some? { return CapacityRefused(refusal.value); }
      var attempts := inv.attempts + [Attempt(AttemptStatus.Executing, None, false, None, now)];
      var startedAt := if inv.startedAt.Some? then inv.startedAt else Some(startNow);
      var running := inv.(attempts := attempts, status := Running, startedAt := startedAt);
      var a := AttemptId(i, |attempts|);
      invocations := invocations[i := running];
      leases := leases[a := Lease(inv.manifest.value.provider, inv.manifest.value.writes, true)];
      flights := flights[a := Flight(inv.run, DeadlineOf(running), false, None, None, Idle)];
      return PreparedAs(a);
    }

    // -------------------------------------------------------------------------
    // Execute
    // -------------------------------------------------------------------------

    /** Without a flight: the persisted outcome of an ended Attempt, and a conflict for any other. */
    method ReportEnded(a: AttemptId) returns (started: ExecuteStart)
      requires a !in flights
      ensures started == ExecuteReport(View(), a, false)
    {
      if a.invocation !in invocations { return NoSuchAttempt; }
      var inv := invocations[a.invocation];
      if !(1 <= a.number <= |inv.attempts|) { return NoSuchAttempt; }
      var attempt := inv.attempts[a.number - 1];
      if !AttemptEnded(attempt.status) { return NotPrepared; }
      if attempt.retry.Some? && attempt.retry.value.permitted && !Ended(inv.status) {
        return AlreadyEnded(Finalized(attempt, RetryPending(attempt.retry.value)));
      }
      return AlreadyEnded(Finalized(attempt, SettledAs(inv.status)));
    }

    /**
     * Up to the first await: a call already executing is joined, a returned outcome goes straight on, anything else
     * is dispatched or withheld; a dispatch that `rejects` before the provider is called leaves the flight idle.
     */
    method ExecutePreparedAttempt(a: AttemptId, rejects: bool) returns (started: ExecuteStart)
      modifies this`flights, this`calls
      ensures View() == Execute(old(View()), a, rejects)
      ensures started == ExecuteReport(old(View()), a, rejects)
    {
      if a !in flights {
        started := ReportEnded(a);
        return;
      }
      var flight := flights[a];
      if flight.phase != Idle { return Underway; }
      if flight.run !in runs { return Rejected; }
      if flight.outcome.Some? {
        flights := flights[a := flight.(phase := Settling)];
        return Underway;
      }
      if rejects { return Rejected; }
      var run := runs[flight.run];
      if flight.interruption == None && Runs.AdmitsNewWork(run) {
        calls := calls + [ProviderCall(a, run, flight.interruption)];
        flights := flights[a := flight.(phase := AtProvider)];
        return Underway;
      }
      var cause := if flight.interruption.Some? then flight.interruption.value
        else if Runs.IsTerminal(run.status) then CausedByCancel else CausedByPause;
      flights := flights[a := flight.(interruption := Some(cause), aborted := true, phase := Withheld)];
      return Underway;
    }

    /** The dispatch promise resolves: the flight keeps the outcome it will be finalized with. */
    method DispatchResolved(a: AttemptId, outcome: Outcome)
      modifies this`flights
      ensures View() == Return(old(View()), a, outcome)
    {
      if a !in flights { return; }
      var flight := flights[a];
      if flight.phase == AtProvider {
        flights := flights[a := flight.(outcome := Some(outcome), phase := Settling)];
      } else if flight.phase == Withheld {
        flights := flights[a :=
            flight.(outcome := Some(Outcome(ProviderInterrupted(flight.interruption), [])), phase := Settling)];
      }
    }

    // -------------------------------------------------------------------------
    // Finalize
    // -------------------------------------------------------------------------

    /** Every Usage row, before the Invocation can end. */
    method RecordUsage(a: AttemptId, chunks: seq<UsageChunk>)
      modifies this`usage
      ensures usage == old(usage) + RowsFor(a, chunks)
    {
      for k := 0 to |chunks|
        invariant usage == old(usage) + RowsFor(a, chunks[..k])
      {
        assert chunks[..k + 1][..k] == chunks[..k];
        usage := usage + [UsageRow(a, chunks[k])];
      }
      assert chunks[..|chunks|] == chunks;
    }

    /** A cancelled Run's Invocations without an executing Attempt end cancelled. */
    method SettleCancelled(r: nat)
      modifies this`invocations
      ensures invocations == SettleCancelledRun(old(invocations), r)
    {
      ghost var before := invocations;
      var todo := invocations.Keys;
      ghost var done: set<nat> := {};
      ConvergeAll(before, r);
      hide ConvergeSome, SettleCancelledRun;
      while todo != {}
        invariant todo !! done && todo + done == before.Keys
        invariant invocations == ConvergeSome(before, r, done)
        decreases |todo|
      {
        var i :| i in todo;
        ConvergeMore(before, r, done, i);
        todo, done := todo - {i}, done + {i};
        var inv := invocations[i];
        var active := HasActive(inv.attempts);
        if inv.run == r && !Ended(inv.status) && !active {
          invocations := invocations[i := inv.(status := Cancelled)];
        }
      }
      assert done == before.Keys;
    }

    /** The terminal rows: the Attempt and its Invocation, the lease, and what a cancelled Run held back. */
    method EndAndRelease(a: AttemptId, ending: Ending)
      requires Exists(invocations, a) && invocations[a.invocation].run in runs
      modifies this`invocations, this`leases
      ensures var inv := old(invocations)[a.invocation];
        var settled := old(invocations)[a.invocation := EndAttempt(inv, a.number, ending)];
        invocations == if runs[inv.run].status == Runs.Cancelled then SettleCancelledRun(settled, inv.run) else settled
      ensures leases == if a in old(leases) then old(leases)[a := old(leases)[a].(active := false)] else old(leases)
    {
      hide EndAttempt, SettleCancelledRun;
      var inv := invocations[a.invocation];
      invocations := invocations[a.invocation := EndAttempt(inv, a.number, ending)];
      if a in leases {
        leases := leases[a := leases[a].(active := false)];
      }
      if runs[inv.run].status == Runs.Cancelled {
        SettleCancelled(inv.run);
      }
    }

    /** The finalization transaction; `commits` is false when it throws and every write is rolled back. */
    method FinalizeAttempt(a: AttemptId, valid: bool, approval: nat, now: nat, commits: bool)
      returns (outcome: ExecutionOutcome)
      requires CanFinalize(View(), a)
      modifies this`usage, this`invocations, this`leases, this`flights
      ensures View() == Finalize(old(View()), config, a, valid, approval, now, commits)
      ensures outcome == FinalizeReport(old(View()), config, a, valid, approval, now, commits)
    {
      var flight := flights[a];
      if !commits {
        flights := flights[a := flight.(phase := Idle)];
        return FinalizeThrew;
      }
      var inv := invocations[a.invocation];
      var attempt := inv.attempts[a.number - 1];
      outcome := Finalized(attempt, SettledAs(inv.status));
      if !AttemptEnded(attempt.status) {
        var run := runs[inv.run];
        RecordUsage(a, flight.outcome.value.usage);
        var consumed := ConsumedByInvocation(a.invocation, |inv.attempts|);
        var ending := Conclude(inv, a.number, run, flight.interruption, flight.outcome.value.completion, consumed,
                               valid, approval, now);
        assert ending == FinalEnding(old(View()), config, a, valid, approval, now);
        hide FinalEnding, EndingOf, EndAttempt, EndingReport, SettleCancelledRun, RowsFor, Consumed;
        outcome := EndingReport(inv, a.number, ending);
        EndAndRelease(a, ending);
      }
      flights := flights - {a};
    }

    /**
     * How the Attempt ends: the interruption read late from the Run row, the classification, and
     * the durable retry decision.
     */
    method Conclude(inv: Invocation, number: nat, run: Runs.Run, held: Option<Cause>, reported: Completion,
                    consumed: Allocation, valid: bool, approval: nat, now: nat)
      returns (ending: Ending)
      requires 1 <= number <= |inv.attempts|
      ensures ending == EndingOf(config, inv, number, run, held, reported, consumed, valid, approval, now)
    {
      var committed := Runs.ExecutionInterruptionOf(run);
      var interruption := held;
      if committed == Some(Runs.ByCancellation) {
        interruption := Some(CausedByCancel);
      } else if held == None && committed == Some(Runs.ByHardPause) {
        interruption := Some(CausedByPause);
      }
      var completion := reported;
      if reported == ApprovalRequired(false) {
        completion := ToolFailed;
      }
      var classified;
      if inv.request.Some? {
        classified := Classified(Faulted, Some(DecisionRequested), false);
      } else {
        classified := Classify(completion, valid, interruption, consumed, inv.allocation);
      }
      var previous := None;
      if number > 1 {
        previous := inv.attempts[number - 2].failure;
      }
      var approvalRequired := inv.request == None && completion == ApprovalRequired(true) && interruption == None;
      var decision := DecideRetry(classified,
                                  RetryFacts(number, inv.allocation.attempts, previous, approvalRequired,
                                             inv.request.Some?, DeadlineOf(inv), now, config.backoffBaseMs,
                                             config.backoffMaxMs));
      var terminal := Attempt(classified.status, classified.failure, classified.cancelled, decision,
                              inv.attempts[number - 1].admittedAt);
      ending := Ending(terminal,
                       if inv.request.Some? then inv.request else if approvalRequired then Some(approval) else None);
    }

    // -------------------------------------------------------------------------
    // Interrupts
    // -------------------------------------------------------------------------

    /** Delivers an interruption to one flight: true exactly when it was delivered now. */
    method Interrupt(a: AttemptId, cause: Cause) returns (now: bool)
      modifies this`flights, this`delivered
      ensures View() == InterruptAll(old(View()), {a}, cause)
      ensures Reached(old(flights), {a}) == if now then {a} else {}
    {
      InterruptOne(View(), a, cause);
      if a !in flights || flights[a].outcome != None || flights[a].aborted { return false; }
      flights := flights[a := flights[a].(interruption := Some(cause), aborted := true)];
      delivered := delivered + multiset{a};
      return true;
    }

    /** Delivers one cause to every flight of `targets`, one after the other; returns those it reached. */
    method InterruptEach(targets: set<AttemptId>, cause: Cause) returns (reached: set<AttemptId>)
      modifies this`flights, this`delivered
      ensures View() == InterruptAll(old(View()), targets, cause)
      ensures reached == Reached(old(flights), targets)
    {
      ghost var s := View();
      var done: set<AttemptId> := {};
      reached := {};
      InterruptNone(s, cause);
      while done != targets
        invariant done <= targets
        invariant View() == InterruptAll(s, done, cause)
        invariant reached == Reached(s.flights, done)
        decreases targets - done
      {
        hide InterruptAll, Reached;
        var a :| a in targets && a !in done;
        InterruptMore(s, done, a, cause);
        var now := Interrupt(a, cause);
        done := done + {a};
        if now {
          reached := reached + {a};
        }
      }
    }

    method InterruptRun(r: nat, cause: Cause) returns (reached: set<AttemptId>)
      modifies this`flights, this`delivered
      ensures reached == Reached(old(flights), FlightsOf(old(View()), r))
      ensures View() == InterruptAll(old(View()), FlightsOf(old(View()), r), cause)
    {
      reached := InterruptEach((set a | a in flights && flights[a].run == r), cause);
    }

    /** Interrupts every flight whose deadline has passed. */
    method EnforceDeadlines(now: nat) returns (expired: set<AttemptId>)
      modifies this`flights, this`delivered
      ensures View() == InterruptAll(old(View()), Overdue(old(View()), now), CausedByDeadline)
      ensures expired == Reached(old(flights), Overdue(old(View()), now))
    {
      expired := InterruptEach((set a | a in flights && flights[a].deadlineAt.Some?
                                && flights[a].deadlineAt.value <= now), CausedByDeadline);
    }

    // -------------------------------------------------------------------------
    // Advance
    // -------------------------------------------------------------------------

    /** The flight of one Invocation, if any. */
    method FlightOf(i: nat) returns (found: Option<AttemptId>)
      ensures found.Some? ==> found.value in flights && found.value.invocation == i
      ensures found == None ==> forall a :: a in flights ==> a.invocation != i
    {
      var todo := flights.Keys;
      while todo != {}
        invariant todo <= flights.Keys
        invariant forall a :: a in flights && a !in todo ==> a.invocation != i
        decreases |todo|
      {
        var a :| a in todo;
        if a.invocation == i { return Some(a); }
        todo := todo - {a};
      }
      return None;
    }

    /**
     * One advance of an Invocation: a flight that only failed to commit is finalized
     * again without a provider call, any other flight is left alone, one whose dispatch
     * rejected included, and only an Invocation without a flight prepares and executes
     * its next Attempt.
     */
    method AdvanceInvocation(i: nat, now: nat, startNow: nat, available: bool, commits: bool, rejects: bool)
      returns (outcome: AdvanceOutcome)
      requires i in invocations && invocations[i].run in runs
      modifies this`invocations, this`leases, this`flights, this`calls
      ensures (forall a :: a in old(flights) ==> a.invocation != i) ==>
                var prepared := Prepare(old(View()), config, i, now, startNow, available, commits);
                var reported := PrepareReport(old(View()), config, i, now, available, commits);
                if reported.PreparedAs? then
                  && View() == Execute(prepared, reported.attempt, rejects)
                  && outcome == Advanced(ExecuteReport(prepared, reported.attempt, rejects))
                else View() == prepared && outcome == NotAdvanced(reported)
      ensures forall a ::
        a in old(flights) && a.invocation == i && (forall b :: b in old(flights) && b.invocation == i ==> b == a) ==>
                if old(flights)[a].outcome.Some? && old(flights)[a].phase == Idle then
                  && View() == Execute(old(View()), a, rejects)
                  && outcome == Advanced(ExecuteReport(old(View()), a, rejects))
                else View() == old(View()) && outcome == InFlight(a)
    {
      var flight := FlightOf(i);
      if flight.Some? {
        if flights[flight.value].outcome.Some? && flights[flight.value].phase == Idle {
          var started := ExecutePreparedAttempt(flight.value, rejects);
          return Advanced(started);
        }
        return InFlight(flight.value);
      }
      var prepared := PrepareNextAttempt(i, now, startNow, available, commits);
      if !prepared.PreparedAs? { return NotAdvanced(prepared); }
      var started := ExecutePreparedAttempt(prepared.attempt, rejects);
      return Advanced(started);
    }
  }
}
