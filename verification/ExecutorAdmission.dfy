/**
 * When work begins, exactly: which preparations make an Attempt, which fail their
 * Invocation and which change nothing, told from the rows; and the reason a refusal gives.
 */
module ExecutorAdmission {
  import opened Wrappers
  import opened Budgets
  import Runs
  import opened Invocations
  import opened RetryPolicy
  import opened ExecutorState
  import opened ExecutorInvariants
  import opened ExecutorRuns
  import opened ExecutorHistory
  import opened ExecutorSafety
  import opened ExecutorOutcomes
  import opened ExecutorFlights

  // ---------------------------------------------------------------------------
  // What was used
  // ---------------------------------------------------------------------------

  /** The cost and tokens of some chunks, together. */
  function Bill(chunks: seq<UsageChunk>): Allocation {
    if chunks == [] then ZERO_ALLOCATION
    else
      var n := |chunks| - 1;
      AddAllocation(Bill(chunks[..n]), Allocation(chunks[n].costUsd, chunks[n].tokens, 0))
  }

  lemma TotalMore(usage: seq<UsageRow>, row: UsageRow, i: nat)
    ensures UsageTotal(usage + [row], i) == AddAllocation(UsageTotal(usage, i), Counted(row, i))
  {
    var all := usage + [row];
    assert all[..|all| - 1] == usage && all[|all| - 1] == row;
    hide Counted, AddAllocation;
  }

  lemma BillMore(chunks: seq<UsageChunk>, n: nat)
    requires n + 1 == |chunks|
    ensures Bill(chunks) == AddAllocation(Bill(chunks[..n]), Allocation(chunks[n].costUsd, chunks[n].tokens, 0))
  {
    hide AddAllocation;
  }

  lemma AddOne(total: Allocation, bill: Allocation, cost: real, tokens: int)
    ensures AddAllocation(AddAllocation(total, bill), Allocation(cost, tokens, 0)) ==
            AddAllocation(total, AddAllocation(bill, Allocation(cost, tokens, 0)))
    ensures AddAllocation(AddAllocation(total, ZERO_ALLOCATION), ZERO_ALLOCATION) ==
            AddAllocation(total, ZERO_ALLOCATION) == total
  {
  }

  /** The Usage of one Attempt adds its bill to its own Invocation's consumption, and nothing to another's. */
  lemma {:induction false} UsageAddsUp(usage: seq<UsageRow>, a: AttemptId, chunks: seq<UsageChunk>, i: nat)
    ensures UsageTotal([], i) == ZERO_ALLOCATION
    ensures UsageTotal(usage + RowsFor(a, chunks), i) ==
            AddAllocation(UsageTotal(usage, i), if a.invocation == i then Bill(chunks) else ZERO_ALLOCATION)
  {
    if chunks == [] {
      assert usage + RowsFor(a, chunks) == usage;
      AddOne(UsageTotal(usage, i), ZERO_ALLOCATION, 0.0, 0);
      hide UsageTotal, AddAllocation;
    } else {
      var n := |chunks| - 1;
      UsageAddsUp(usage, a, chunks[..n], i);
      var front := usage + RowsFor(a, chunks[..n]);
      assert usage + RowsFor(a, chunks) == front + [UsageRow(a, chunks[n])];
      BillMore(chunks, n);
      TotalMore(front, UsageRow(a, chunks[n]), i);
      AddOne(UsageTotal(usage, i), Bill(chunks[..n]), chunks[n].costUsd, chunks[n].tokens);
      hide UsageTotal, AddAllocation, Bill, RowsFor;
    }
  }

  // ---------------------------------------------------------------------------
  // A start
  // ---------------------------------------------------------------------------

  /** The Invocation's wall-clock budget, counted from its first start, is used up. */
  predicate OutOfTime(inv: Invocation, now: nat) {
    inv.startedAt.Some? && inv.manifest.Some? && inv.manifest.value.maxWallClockMs.Some?
      && now >= inv.startedAt.value + inv.manifest.value.maxWallClockMs.value
  }

  /** Of what it was allocated (a zero amount of cost or tokens bounds nothing) something is left, and an Attempt. */
  ghost predicate HasAllocation(s: State, i: nat)
    requires i in s.invocations
  {
    var allocation, used := s.invocations[i].allocation, UsageTotal(s.usage, i);
    && |s.invocations[i].attempts| < allocation.attempts
    && (allocation.costUsd > 0.0 ==> used.costUsd < allocation.costUsd)
    && (allocation.tokens > 0 ==> used.tokens < allocation.tokens)
  }

  /** There is no Attempt yet, or the last one permits a retry, and that from `now` on. */
  predicate RetryDue(inv: Invocation, now: nat) {
    inv.attempts != [] ==>
      var retry := inv.attempts[|inv.attempts| - 1].retry;
      && retry.Some? && retry.value.permitted
      && (retry.value.notBefore.Some? ==> retry.value.notBefore.value <= now)
  }

  /** The Invocation is open, has its manifest and nothing executing, and its Run takes new work. */
  predicate Ready(inv: Invocation, run: Runs.Run) {
    && inv.status in {Pending, Invocations.Running} && inv.manifest.Some? && !Stopped(run)
    && forall k :: 0 <= k < |inv.attempts| ==> inv.attempts[k].status !in {Prepared, Executing}
  }

  /** Nothing speaks against the next Attempt at `now`. */
  ghost predicate MayBegin(s: State, i: nat, now: nat)
    requires i in s.invocations && s.invocations[i].run in s.runs
  {
    var inv := s.invocations[i];
    && Ready(inv, s.runs[inv.run]) && inv.request == None
    && !OutOfTime(inv, now) && RetryDue(inv, now) && HasAllocation(s, i)
  }

  lemma OutOfTimeIsDeadline(inv: Invocation, now: nat)
    requires inv.manifest.Some?
    ensures OutOfTime(inv, now) <==> DeadlineOf(inv).Some? && now >= DeadlineOf(inv).value
  {
  }

  /** The permission to start is given exactly then. */
  lemma PermittedExactly(s: State, i: nat, now: nat)
    requires i in s.invocations && s.invocations[i].run in s.runs
    ensures NextPermission(s, i, now) == MayStart <==> MayBegin(s, i, now)
  {
    var inv := s.invocations[i];
    if inv.manifest.Some? { OutOfTimeIsDeadline(inv, now); }
    assert Runs.AdmitsNewWork(s.runs[inv.run]) <==> !Stopped(s.runs[inv.run]);
    hide DeadlineOf, UsageTotal, OutOfTime;
  }

  // ---------------------------------------------------------------------------
  // A refusal
  // ---------------------------------------------------------------------------

  /** What can refuse a start in a reachable state. */
  ghost predicate Refuses(reason: Reason, s: State, i: nat, now: nat)
    requires i in s.invocations && s.invocations[i].run in s.runs
  {
    var inv := s.invocations[i];
    var run := s.runs[inv.run];
    match reason
    case InvocationTerminal => inv.status in {Blocked, Succeeded, Failed, Cancelled} || inv.manifest == None
    case AttemptActive => LastExecuting(inv)
    case RunTerminal => HasEnded(run)
    case RunPaused => run.pause.Some?
    case OutOfAllocation => OutOfTime(inv, now) || (RetryDue(inv, now) && !HasAllocation(s, i))
    case RetryNotYet => !RetryDue(inv, now)
    case _ => false
  }

  /** The order in which they are reported. */
  function RefusalRank(reason: Reason): nat {
    match reason
    case InvocationTerminal => 0
    case AttemptActive => 1
    case RunTerminal => 2
    case RunPaused => 3
    case OutOfAllocation => 4
    case RetryNotYet => 5
    case _ => 6
  }

  /** The reason given is one that refuses, none before it does, and a later start is named only by a retry's own. */
  ghost predicate NamesReason(s: State, i: nat, now: nat, answer: Permission)
    requires i in s.invocations && s.invocations[i].run in s.runs && answer.MayNot?
  {
    var inv := s.invocations[i];
    && Refuses(answer.reason, s, i, now)
    && (forall r :: Refuses(r, s, i, now) ==> RefusalRank(answer.reason) <= RefusalRank(r))
    && (if answer.reason == RetryNotYet then
          && inv.attempts != [] && inv.attempts[|inv.attempts| - 1].retry.Some?
          && answer.notBefore == inv.attempts[|inv.attempts| - 1].retry.value.notBefore
          && answer.notBefore.Some? && answer.notBefore.value > now
        else answer.notBefore == None)
  }

  /**
   * In a reachable state a refusal names the first of the six things that can refuse; a waiting Invocation, a refused
   * retry and an unanswered request are never what it names.
   */
  lemma RefusedExactly(s: State, c: Config, i: nat, now: nat)
    requires Inv(s, c) && i in s.invocations && s.invocations[i].run in s.runs && !MayBegin(s, i, now)
    ensures NextPermission(s, i, now).MayNot? && NamesReason(s, i, now, NextPermission(s, i, now))
  {
    PermittedExactly(s, i, now);
    IdleRow(s, c, i);
    hide Inv, NextPermission, MayBegin, NamesReason;
    RefusedByRows(s, i, now);
  }

  lemma RefusedByRows(s: State, i: nat, now: nat)
    requires i in s.invocations && s.invocations[i].run in s.runs && NextPermission(s, i, now).MayNot?
    requires var inv := s.invocations[i];
      && inv.status != Waiting
      && (HasActiveAttempt(inv) <==> LastExecuting(inv))
      && (!Ended(inv.status) && !LastExecuting(inv) ==>
            && inv.request == None && (inv.attempts != [] ==> Permitted(inv.attempts[|inv.attempts| - 1])))
    ensures NamesReason(s, i, now, NextPermission(s, i, now))
  {
    var inv, answer := s.invocations[i], NextPermission(s, i, now);
    var run := s.runs[inv.run];
    assert HasEnded(run) <==> Runs.IsTerminal(run.status);
    if inv.manifest.Some? { OutOfTimeIsDeadline(inv, now); }
    hide DeadlineOf, UsageTotal, OutOfTime, HasActiveAttempt, LastExecuting;
    assert Refuses(InvocationTerminal, s, i, now) ==> answer.reason == InvocationTerminal;
    assert Refuses(AttemptActive, s, i, now) ==> RefusalRank(answer.reason) <= 1;
    assert Refuses(RunTerminal, s, i, now) ==> RefusalRank(answer.reason) <= 2;
    assert Refuses(RunPaused, s, i, now) ==> RefusalRank(answer.reason) <= 3;
    assert Refuses(answer.reason, s, i, now);
  }

  /** What the invariant says of an open Invocation with nothing executing. */
  lemma IdleRow(s: State, c: Config, i: nat)
    requires Inv(s, c) && i in s.invocations
    ensures var inv := s.invocations[i];
      && inv.status != Waiting
      && (HasActiveAttempt(inv) <==> LastExecuting(inv))
      && (!Ended(inv.status) && !LastExecuting(inv) ==>
            && inv.request == None && (inv.attempts != [] ==> Permitted(inv.attempts[|inv.attempts| - 1])))
  {
    hide LeasesOk, FlightsOk, CallsOk, UsageOk, DeliveredOk, CancelledConverged, CapacityOk;
    assert InvocationOk(s.invocations[i]);
    ActiveIsLast(s.invocations[i]);
  }

  /**
   * The reasons no reachable state gives, for the rows that would give them: a waiting Invocation, and one that could
   * start but for the retry its last Attempt was refused.
   */
  lemma RefusedOtherwise(s: State, i: nat, now: nat)
    requires i in s.invocations && s.invocations[i].run in s.runs
    ensures var inv, answer := s.invocations[i], NextPermission(s, i, now);
      && (answer == MayNot(InvocationWaiting, None) <==> inv.status == Waiting)
      && (answer == MayNot(RetryRefused, None) <==>
          && Ready(inv, s.runs[inv.run]) && inv.request == None && !OutOfTime(inv, now)
          && inv.attempts != [] && !Permitted(inv.attempts[|inv.attempts| - 1]))
  {
    var inv := s.invocations[i];
    if inv.manifest.Some? { OutOfTimeIsDeadline(inv, now); }
    assert Runs.AdmitsNewWork(s.runs[inv.run]) <==> !Stopped(s.runs[inv.run]);
    hide DeadlineOf, Consumed, OutOfTime;
  }

  /**
   * What the refusal's own transaction writes, whatever the rows: an open Invocation fails for its allocation, or ends
   * blocked on the request it committed; and nothing else changes.
   */
  lemma RefusalRecorded(s: State, i: nat, reason: Reason)
    requires i in s.invocations
    ensures var s', inv := RefuseOn(s, i, reason), s.invocations[i];
      var open := inv.status in {Pending, Invocations.Running, Waiting};
      && s' == s.(invocations := s'.invocations) && s'.invocations == s.invocations[i := s'.invocations[i]]
      && s'.invocations[i] ==
            if open && reason == OutOfAllocation then inv.(status := Failed, failure := Some(FailedAllocation))
            else if open && reason == BlockedByRequest && inv.request.Some? then
              inv.(status := Blocked, blockedBy := inv.request)
            else inv
  {
    assert s.invocations == s.invocations[i := s.invocations[i]];
  }

  // ---------------------------------------------------------------------------
  // A preparation
  // ---------------------------------------------------------------------------

  /** A lease more fits: the provider is configured and available, and it, the process and the worktrees have room. */
  ghost predicate RoomFor(s: State, c: Config, m: Manifest, available: bool) {
    && available && m.provider in c.providers
    && |set a | a in s.leases && s.leases[a].active && s.leases[a].provider == m.provider| < c.providers[m.provider]
    && |set a | a in s.leases && s.leases[a].active| < c.maxProcessConcurrency
    && (m.writes && c.maxWorktrees.Some? ==>
          |set a | a in s.leases && s.leases[a].active && s.leases[a].writes| < c.maxWorktrees.value)
  }

  lemma GrantedExactly(s: State, c: Config, m: Manifest, available: bool)
    requires CapacityOk(s.leases, c)
    ensures CapacityGranted(s, c, m, available) <==> RoomFor(s, c, m, available)
  {
    assert ActiveLeasesOf(s.leases, m.provider) ==
      set a | a in s.leases && s.leases[a].active && s.leases[a].provider == m.provider;
    assert ActiveLeases(s.leases) == set a | a in s.leases && s.leases[a].active;
    assert ActiveWriters(s.leases) == set a | a in s.leases && s.leases[a].active && s.leases[a].writes;
    hide ActiveLeasesOf, ActiveLeases, ActiveWriters;
  }

  /** The configuration alone refuses the lease: an unknown provider, or a limit that not even a first lease fits. */
  predicate Unconfigured(c: Config, m: Manifest) {
    || m.provider !in c.providers || c.providers[m.provider] == 0 || c.maxProcessConcurrency == 0
    || (m.writes && c.maxWorktrees == Some(0))
  }

  /** Which limit refuses a lease: the configured one, the provider's quota, the provider's own, the process's. */
  lemma CapacityRefusedExactly(s: State, c: Config, m: Manifest, available: bool)
    requires CapacityOk(s.leases, c)
    ensures var refusal := CapacityRefusalOf(s, c, m, available);
      && (refusal == None <==> RoomFor(s, c, m, available))
      && (refusal == Some(ConfiguredLimit) <==> Unconfigured(c, m))
      && (refusal == Some(ProviderQuota) <==> !Unconfigured(c, m) && !available)
      && (refusal == Some(ProviderConcurrency) <==>
          !Unconfigured(c, m) && available
            && |set a | a in s.leases && s.leases[a].active && s.leases[a].provider == m.provider| >=
            c.providers[m.provider])
  {
    GrantedExactly(s, c, m, available);
    assert ActiveLeasesOf(s.leases, m.provider) ==
      set a | a in s.leases && s.leases[a].active && s.leases[a].provider == m.provider;
    hide ActiveLeasesOf, ActiveLeases, ActiveWriters, RoomFor;
  }

  /** One Attempt more, admitted now and executing, with its lease and its flight; and nothing else. */
  ghost predicate Began(s: State, s': State, i: nat, now: nat, startNow: nat)
    requires i in s.invocations && s.invocations[i].manifest.Some?
  {
    var inv, m := s.invocations[i], s.invocations[i].manifest.value;
    var started := if inv.startedAt.Some? then inv.startedAt.value else startNow;
    var deadline := if m.maxWallClockMs.Some? then Some(started + m.maxWallClockMs.value) else None;
    var a := AttemptId(i, |inv.attempts| + 1);
    s' == s.(
      invocations := s.invocations[i := inv.(
          attempts := inv.attempts + [Attempt(Executing, None, false, None, now)],
          status := Invocations.Running, startedAt := Some(started))],
      leases := s.leases[a := Lease(m.provider, m.writes, true)],
      flights := s.flights[a := Flight(inv.run, deadline, false, None, None, Idle)])
  }

  /** Open and idle under a Run that takes new work, but out of time or, its retry due, out of allocation. */
  ghost predicate Spent(s: State, i: nat, now: nat)
    requires i in s.invocations && s.invocations[i].run in s.runs
  {
    && Ready(s.invocations[i], s.runs[s.invocations[i].run])
    && (OutOfTime(s.invocations[i], now) || (RetryDue(s.invocations[i], now) && !HasAllocation(s, i)))
  }

  /** What a preparation must do, by the rows. */
  ghost predicate PreparesAs(s: State, c: Config, i: nat, now: nat, startNow: nat, available: bool, s': State)
    requires i in s.invocations && s.invocations[i].run in s.runs
  {
    if MayBegin(s, i, now) then
      if RoomFor(s, c, s.invocations[i].manifest.value, available) then Began(s, s', i, now, startNow) else s' == s
    else if Spent(s, i, now) then
      s' == s.(invocations := s.invocations[
        i := s.invocations[i].(status := Failed, failure := Some(FailedAllocation))])
    else s' == s
  }

  /**
   * A preparation in a reachable state, exactly: it makes one Attempt if and only if nothing speaks against it and
   * there is room for its lease; it fails the Invocation if and only if that is out of time or allocation; and
   * otherwise, or when its transaction does not commit, it changes nothing.
   */
  lemma PreparedExactly(s: State, c: Config, i: nat, now: nat, startNow: nat, available: bool)
    requires Inv(s, c) && i in s.invocations
    ensures s.invocations[i].run in s.runs
    ensures PreparesAs(s, c, i, now, startNow, available, Prepare(s, c, i, now, startNow, available, true))
    ensures Prepare(s, c, i, now, startNow, available, false) == s
  {
    OwnRun(s, c, i);
    PermittedExactly(s, i, now);
    hide Inv, NextPermission, MayBegin, Spent, RoomFor, CapacityRefusalOf;
    if MayBegin(s, i, now) {
      ManifestThere(s, i, now);
      assert CapacityOk(s.leases, c) by { WithinCapacity(s, c); }
      GrantedExactly(s, c, s.invocations[i].manifest.value, available);
      BeganNow(s, i, now, startNow);
      hide PreparedOn, Began, CapacityGranted;
    } else {
      RefusedExactly(s, c, i, now);
      RefusalWrites(s, c, i, now);
      hide RefuseOn, NamesReason;
    }
  }

  ghost predicate Reports(s: State, c: Config, i: nat, now: nat, available: bool, r: PrepareOutcome)
    requires i in s.invocations && s.invocations[i].run in s.runs
  {
    if !MayBegin(s, i, now) then r.NotPermitted? && NamesReason(s, i, now, MayNot(r.reason, r.notBefore))
    else if RoomFor(s, c, s.invocations[i].manifest.value, available) then
      r == PreparedAs(AttemptId(i, |s.invocations[i].attempts| + 1))
    else r.CapacityRefused? && Some(r.refusal) == CapacityRefusalOf(s, c, s.invocations[i].manifest.value, available)
  }

  /** What a preparation reports: the Attempt it made, the limit without room for it, or the reason that refuses it. */
  lemma PreparationReportsExactly(s: State, c: Config, i: nat, now: nat, available: bool)
    requires Inv(s, c) && i in s.invocations && s.invocations[i].run in s.runs
    ensures Reports(s, c, i, now, available, PrepareReport(s, c, i, now, available, true))
    ensures PrepareReport(s, c, i, now, available, false) == PrepareThrew
  {
    hide Inv, NextPermission, MayBegin, RoomFor, NamesReason, CapacityRefusalOf;
    PermittedExactly(s, i, now);
    if MayBegin(s, i, now) {
      ManifestThere(s, i, now);
      WithinCapacity(s, c);
      GrantedExactly(s, c, s.invocations[i].manifest.value, available);
    } else {
      RefusedExactly(s, c, i, now);
      NamesNoRequest(s, i, now);
    }
  }

  /** A refusal for a request is never what a refusal names, and only a retry not yet due names a time. */
  lemma NamesNoRequest(s: State, i: nat, now: nat)
    requires i in s.invocations && s.invocations[i].run in s.runs && NextPermission(s, i, now).MayNot?
    requires NamesReason(s, i, now, NextPermission(s, i, now))
    ensures NextPermission(s, i, now).reason != BlockedByRequest
    ensures NextPermission(s, i, now).reason != RetryNotYet ==> NextPermission(s, i, now).notBefore == None
  {
    hide NextPermission, HasAllocation, OutOfTime, RetryDue, LastExecuting;
  }

  lemma OwnRun(s: State, c: Config, i: nat)
    requires Inv(s, c) && i in s.invocations
    ensures s.invocations[i].run in s.runs
  {
  }

  lemma WithinCapacity(s: State, c: Config)
    requires Inv(s, c)
    ensures CapacityOk(s.leases, c)
  {
  }

  lemma ManifestThere(s: State, i: nat, now: nat)
    requires i in s.invocations && s.invocations[i].run in s.runs && MayBegin(s, i, now)
    ensures s.invocations[i].manifest.Some?
  {
  }

  lemma BeganNow(s: State, i: nat, now: nat, startNow: nat)
    requires i in s.invocations && s.invocations[i].manifest.Some?
    ensures Began(s, PreparedOn(s, i, now, startNow), i, now, startNow)
  {
  }

  lemma RefusalWrites(s: State, c: Config, i: nat, now: nat)
    requires Inv(s, c) && i in s.invocations && s.invocations[i].run in s.runs && !MayBegin(s, i, now)
    requires NextPermission(s, i, now).MayNot? && NamesReason(s, i, now, NextPermission(s, i, now))
    ensures RefuseOn(s, i, NextPermission(s, i, now).reason) ==
      if Spent(s, i, now) then
        s.(invocations := s.invocations[
          i := s.invocations[i].(status := Failed, failure := Some(FailedAllocation))])
      else s
  {
    hide Inv, NextPermission, NamesReason, Spent, MayBegin;
    SpentIsReason(s, c, i, now);
    NamesNoRequest(s, i, now);
    if Spent(s, i, now) { SpentIsOpen(s, i, now); }
  }

  lemma SpentIsOpen(s: State, i: nat, now: nat)
    requires i in s.invocations && s.invocations[i].run in s.runs && Spent(s, i, now)
    ensures !Ended(s.invocations[i].status)
  {
  }

  /** Of what refuses, only the time and the allocation leave the Invocation ready. */
  lemma SpentIsReason(s: State, c: Config, i: nat, now: nat)
    requires Inv(s, c) && i in s.invocations && s.invocations[i].run in s.runs
    requires NextPermission(s, i, now).MayNot? && NamesReason(s, i, now, NextPermission(s, i, now))
    ensures NextPermission(s, i, now).reason == OutOfAllocation <==> Spent(s, i, now)
  {
    hide Inv, NextPermission, Refuses, NamesReason, Ready, OutOfTime, RetryDue, HasAllocation;
    ReadyExactly(s, c, i, now);
    Ranked(s, i, now, NextPermission(s, i, now));
    SpentExactly(s, i, now);
  }

  lemma SpentExactly(s: State, i: nat, now: nat)
    requires i in s.invocations && s.invocations[i].run in s.runs
    ensures Spent(s, i, now) <==>
      Ready(s.invocations[i], s.runs[s.invocations[i].run]) && Refuses(OutOfAllocation, s, i, now)
  {
    hide OutOfTime, RetryDue, HasAllocation, Ready;
  }

  /** The reason refuses, and it is none behind one that does. */
  lemma Ranked(s: State, i: nat, now: nat, answer: Permission)
    requires i in s.invocations && s.invocations[i].run in s.runs && answer.MayNot?
    requires NamesReason(s, i, now, answer)
    ensures Refuses(answer.reason, s, i, now)
    ensures Refuses(InvocationTerminal, s, i, now) ==> answer.reason == InvocationTerminal
    ensures Refuses(OutOfAllocation, s, i, now) ==>
      answer.reason in {InvocationTerminal, AttemptActive, RunTerminal, RunPaused, OutOfAllocation}
    ensures Refuses(AttemptActive, s, i, now) || Refuses(RunTerminal, s, i, now) || Refuses(RunPaused, s, i, now) ==>
      answer.reason in {InvocationTerminal, AttemptActive, RunTerminal, RunPaused}
  {
    hide Refuses;
    assert forall r :: Refuses(r, s, i, now) ==> RefusalRank(answer.reason) <= RefusalRank(r);
    assert RefusalRank(InvocationTerminal) == 0 && RefusalRank(OutOfAllocation) == 4 && RefusalRank(RunPaused) == 3;
  }

  lemma ReadyExactly(s: State, c: Config, i: nat, now: nat)
    requires Inv(s, c) && i in s.invocations && s.invocations[i].run in s.runs
    ensures Ready(s.invocations[i], s.runs[s.invocations[i].run]) <==>
      && !Refuses(InvocationTerminal, s, i, now) && !Refuses(AttemptActive, s, i, now)
      && !Refuses(RunTerminal, s, i, now) && !Refuses(RunPaused, s, i, now)
  {
    hide Inv, HasAllocation, OutOfTime, RetryDue, LastExecuting;
    IdleRow(s, c, i);
    var inv := s.invocations[i];
    assert HasActiveAttempt(inv) <==>
      exists k :: 0 <= k < |inv.attempts| && inv.attempts[k].status in {Prepared, Executing};
  }
}
