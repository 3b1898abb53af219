/**
 * The Budget Increase boundary: one open increase Decision per Run, one append-only
 * increase per approved Decision, and effective limits that are exactly the base
 * plus what the operator approved, over every interleaving of requests, answers and
 * Run transitions.
 */
module BudgetIncreases {
  import opened Wrappers
  import opened Budgets
  import opened Runs

  datatype IncreaseOption = Approve | Deny

  /** The immutable typed subject of an increase Decision. */
  datatype Subject = Subject(run: nat, partition: Partition, added: Allocation)

  datatype DecisionStatus = Open | Resolved(chosen: IncreaseOption) | Superseded

  /** A Decision row; `subject` is present exactly on a `budget_increase` Decision. */
  datatype Decision = Decision(increase: bool, run: nat, conversation: nat, operatorRequired: bool,
                               subject: Option<Subject>, status: DecisionStatus)

  /** A recorded increase. */
  datatype Increase = Increase(run: nat, decision: nat, partition: Partition, added: Allocation)

  /** The rows the service reads and writes; a Decision's id is its index. */
  datatype Store = Store(runs: map<nat, Run>, decisions: seq<Decision>, increases: seq<Increase>)

  datatype Refusal =
    | InvalidIncrease | RunNotFound | RunEnded | PartitionNotIncreasable | DecisionOpen(decision: nat)
    | DecisionMismatch | BoundaryInconsistent | ConflictingResolution | TwoOpenDecisions

  datatype Requested = Requested(decision: nat, replayed: bool)

  datatype Answered = Denied(replayed: bool) | Approved(increase: nat, replayed: bool)

  predicate ValidAdded(added: Allocation) {
    NonNegative(added) && HasPositive(added)
  }

  predicate OpenFor(d: Decision, run: nat) {
    d.increase && d.run == run && d.status == Open
  }

  function OpenIncreases(decisions: seq<Decision>, run: nat): (open: seq<nat>)
    ensures forall k: nat :: k in open <==> k < |decisions| && OpenFor(decisions[k], run)
    ensures forall i, j :: 0 <= i < j < |open| ==> open[i] < open[j]
  {
    if decisions == [] then []
    else
      var n := |decisions| - 1;
      var earlier := OpenIncreases(decisions[..n], run);
      assert forall i :: 0 <= i < |earlier| ==> earlier[i] in earlier;
      if OpenFor(decisions[n], run) then earlier + [n] else earlier
  }

  function Increasable(s: Store, run: nat, partition: Partition): Option<Refusal> {
    if run !in s.runs then Some(RunNotFound)
    else if IsTerminal(s.runs[run].status) then Some(RunEnded)
    else if !IncreasePermitted(s.runs[run].status, partition) then Some(PartitionNotIncreasable)
    else None
  }

  /** What `request` replies and writes. */
  function Request(s: Store, run: nat, partition: Partition, added: Allocation): (Store, Result<Requested, Refusal>) {
    if !ValidAdded(added) then (s, Err(InvalidIncrease))
    else
      var refusal := Increasable(s, run, partition);
      if refusal.Some? then (s, Err(refusal.value))
      else
        var open := OpenIncreases(s.decisions, run);
        if |open| > 1 then (s, Err(TwoOpenDecisions))
        else if |open| == 1 then
          assert open[0] in open;
          if s.decisions[open[0]].subject == None then (s, Err(BoundaryInconsistent))
          else
            var subject := s.decisions[open[0]].subject.value;
            if subject.partition == partition && subject.added == added then (s, Ok(Requested(open[0], true)))
            else (s, Err(DecisionOpen(open[0])))
        else
          var decision :=
            Decision(true, run, s.runs[run].conversation, true, Some(Subject(run, partition, added)), Open);
          (s.(decisions := s.decisions + [decision]), Ok(Requested(|s.decisions|, false)))
  }

  /** The recorded increase of a Decision, if any. */
  function IncreaseOf(increases: seq<Increase>, decision: nat): (found: Option<nat>)
    ensures found.Some? ==> found.value < |increases| && increases[found.value].decision == decision
    ensures found.None? <==> forall i :: 0 <= i < |increases| ==> increases[i].decision != decision
  {
    if increases == [] then None
    else if increases[|increases| - 1].decision == decision then Some(|increases| - 1)
    else IncreaseOf(increases[..|increases| - 1], decision)
  }

  /** What `resolve` replies and writes: the answer and, for an approval, exactly one increase, together. */
  function Resolve(s: Store, run: nat, decision: nat, option: IncreaseOption): (Store, Result<Answered, Refusal>) {
    if run !in s.runs then (s, Err(RunNotFound))
    else if decision >= |s.decisions| then (s, Err(DecisionMismatch))
    else
      var d := s.decisions[decision];
      if !d.increase || d.run != run || d.conversation != s.runs[run].conversation || !d.operatorRequired then
        (s, Err(DecisionMismatch))
      else if d.subject == None || d.subject.value.run != run then (s, Err(BoundaryInconsistent))
      else if d.status != Open then
        if d.status != Resolved(option) then (s, Err(ConflictingResolution))
        else if option == Deny then (s, Ok(Denied(true)))
        else match IncreaseOf(s.increases, decision)
          case None => (s, Err(BoundaryInconsistent))
          case Some(i) => (s, Ok(Approved(i, true)))
      else
        var answered := s.decisions[decision := d.(status := Resolved(option))];
        if option == Deny then (s.(decisions := answered), Ok(Denied(false)))
        else
          var subject := d.subject.value;
          var refusal := Increasable(s, run, subject.partition);
          if refusal.Some? then (s, Err(refusal.value))
          else
            var increase := Increase(run, decision, subject.partition, subject.added);
            (s.(decisions := answered, increases := s.increases + [increase]), Ok(Approved(|s.increases|, false)))
  }

  // ---------------------------------------------------------------------------
  // Effective limits
  // ---------------------------------------------------------------------------

  function Added(x: Increase, run: nat, partition: Partition): Allocation {
    if x.run == run && x.partition == partition then x.added else ZERO_ALLOCATION
  }

  /** The recorded increases of one Run and partition, summed in creation order. */
  function Total(increases: seq<Increase>, run: nat, partition: Partition): Allocation {
    if increases == [] then ZERO_ALLOCATION
    else
      AddAllocation(Total(increases[..|increases| - 1], run, partition),
                    Added(increases[|increases| - 1], run, partition))
  }

  predicate ApprovedFor(d: Decision, run: nat, partition: Partition) {
    d.increase && d.status == Resolved(Approve) && d.subject.Some? && d.run == run
      && d.subject.value.partition == partition
  }

  function ApprovedAmount(d: Decision, run: nat, partition: Partition): Allocation {
    if ApprovedFor(d, run, partition) then d.subject.value.added else ZERO_ALLOCATION
  }

  /** The subjects the operator approved for one Run and partition, summed over the Decision table. */
  function ApprovedTotal(decisions: seq<Decision>, run: nat, partition: Partition): Allocation {
    if decisions == [] then ZERO_ALLOCATION
    else
      AddAllocation(ApprovedTotal(decisions[..|decisions| - 1], run, partition),
                    ApprovedAmount(decisions[|decisions| - 1], run, partition))
  }

  function Limits(s: Store, run: nat, baseLimit: Allocation, baseFinalReserve: Allocation): RunLimits {
    RunLimits(baseLimit, baseFinalReserve, Total(s.increases, run, Ordinary), Total(s.increases, run, FinalReserve))
  }

  lemma {:induction false} ApprovedTotalUpdate(decisions: seq<Decision>, k: nat, d: Decision, run: nat,
                                               partition: Partition)
    requires k < |decisions| && !ApprovedFor(decisions[k], run, partition)
    ensures ApprovedTotal(decisions[k := d], run, partition) ==
            AddAllocation(ApprovedTotal(decisions, run, partition), ApprovedAmount(d, run, partition))
  {
    var n := |decisions| - 1;
    var front := ApprovedTotal(decisions[..n], run, partition);
    if k == n {
      assert decisions[k := d][..n] == decisions[..n];
      AddSwap(front, ZERO_ALLOCATION, ApprovedAmount(d, run, partition));
    } else {
      assert decisions[k := d][..n] == decisions[..n][k := d];
      ApprovedTotalUpdate(decisions[..n], k, d, run, partition);
      AddSwap(front, ApprovedAmount(decisions[n], run, partition), ApprovedAmount(d, run, partition));
    }
  }

  // ---------------------------------------------------------------------------
  // Every interleaving
  // ---------------------------------------------------------------------------

  datatype Event =
    | CreateRun(run: nat, conversation: nat)
    | OperateRun(run: nat, op: Operation)
    | RequestIncrease(run: nat, partition: Partition, added: Allocation)
    | ResolveIncrease(run: nat, decision: nat, option: IncreaseOption)
    | OtherDecision(run: nat, conversation: nat)
    | SupersedeDecision(decision: nat)

  function Apply(s: Store, e: Event): Store {
    match e
    case CreateRun(run, conversation) =>
      if run in s.runs then s else s.(runs := s.runs[run := Run(conversation, Created, None, None)])
    case OperateRun(run, op) =>
      if run !in s.runs then s
      else (match Operate(s.runs[run], op) case Ok(after) => s.(runs := s.runs[run := after]) case Err(_) => s)
    case RequestIncrease(run, partition, added) => Request(s, run, partition, added).0
    case ResolveIncrease(run, decision, option) => Resolve(s, run, decision, option).0
    case OtherDecision(run, conversation) =>
      s.(decisions := s.decisions + [Decision(false, run, conversation, false, None, Open)])
    case SupersedeDecision(k) =>
      if k < |s.decisions| && s.decisions[k].status == Open then
        s.(decisions := s.decisions[k := s.decisions[k].(status := Superseded)])
      else s
  }

  function After(events: seq<Event>): Store {
    if events == [] then Store(map[], [], []) else Apply(After(events[..|events| - 1]), events[|events| - 1])
  }

  ghost predicate IsApproved(s: Store, k: nat) {
    k < |s.decisions| && s.decisions[k].increase && s.decisions[k].status == Resolved(Approve)
  }

  ghost predicate DecisionOk(runs: map<nat, Run>, d: Decision) {
    d.increase ==>
      && d.run in runs && d.conversation == runs[d.run].conversation && d.operatorRequired
      && d.subject.Some? && d.subject.value.run == d.run && ValidAdded(d.subject.value.added)
  }

  ghost predicate DecisionsOk(s: Store) {
    && (forall r :: r in s.runs ==> WellFormed(s.runs[r]))
    && (forall k :: 0 <= k < |s.decisions| ==> DecisionOk(s.runs, s.decisions[k]))
  }

  /** At most one open increase Decision per Run. */
  ghost predicate OneOpen(s: Store) {
    forall j, k, r {:trigger OpenFor(s.decisions[j], r), OpenFor(s.decisions[k], r)} ::
      (0 <= j < |s.decisions| && OpenFor(s.decisions[j], r)) && (0 <= k < |s.decisions| && OpenFor(s.decisions[k], r))
      ==> j == k
  }

  /** Increases and approved Decisions are in bijection, each increase carrying its Decision's exact subject. */
  ghost predicate Bijection(s: Store) {
    && (forall i :: 0 <= i < |s.increases| ==>
          var x := s.increases[i];
          IsApproved(s, x.decision) && s.decisions[x.decision].subject == Some(Subject(x.run, x.partition, x.added)))
    && (forall i, j :: 0 <= i < j < |s.increases| ==> s.increases[i].decision != s.increases[j].decision)
    && (forall k :: IsApproved(s, k) ==> IncreaseOf(s.increases, k).Some?)
  }

  ghost predicate TotalsAgree(s: Store) {
    forall run, partition :: Total(s.increases, run, partition) == ApprovedTotal(s.decisions, run, partition)
  }

  ghost predicate Inv(s: Store) {
    DecisionsOk(s) && OneOpen(s) && Bijection(s) && TotalsAgree(s)
  }

  /** An appended open Decision keeps the invariant when no open increase of its Run exists. */
  lemma AppendKeeps(s: Store, d: Decision)
    requires Inv(s) && DecisionOk(s.runs, d) && d.status == Open
    requires d.increase ==> OpenIncreases(s.decisions, d.run) == []
    ensures Inv(s.(decisions := s.decisions + [d]))
  {
    var s' := s.(decisions := s.decisions + [d]);
    assert s'.decisions[..|s.decisions|] == s.decisions;
    assert OneOpen(s') by {
      assert d.increase ==> forall k: nat :: k < |s.decisions| && OpenFor(s.decisions[k], d.run) ==>
        k in OpenIncreases(s.decisions, d.run);
    }
    assert TotalsAgree(s') by {
      forall r, p ensures Total(s.increases, r, p) == ApprovedTotal(s'.decisions, r, p) {
        AddSwap(ApprovedTotal(s.decisions, r, p), ZERO_ALLOCATION, ZERO_ALLOCATION);
      }
    }
  }

  /** Closing an open Decision without approving it keeps the invariant. */
  lemma CloseKeeps(s: Store, k: nat, status: DecisionStatus)
    requires Inv(s) && k < |s.decisions| && s.decisions[k].status == Open && status !in {Open, Resolved(Approve)}
    ensures Inv(s.(decisions := s.decisions[k := s.decisions[k].(status := status)]))
  {
    var d := s.decisions[k].(status := status);
    var s' := s.(decisions := s.decisions[k := d]);
    assert forall j, r :: 0 <= j < |s.decisions| && OpenFor(s'.decisions[j], r) ==> OpenFor(s.decisions[j], r);
    assert forall j :: IsApproved(s', j) <==> IsApproved(s, j);
    assert TotalsAgree(s') by {
      forall r, p ensures Total(s.increases, r, p) == ApprovedTotal(s'.decisions, r, p) {
        ApprovedTotalUpdate(s.decisions, k, d, r, p);
        AddSwap(ApprovedTotal(s.decisions, r, p), ZERO_ALLOCATION, ZERO_ALLOCATION);
      }
    }
  }

  /** Approving an open increase Decision together with its one increase keeps the invariant. */
  lemma ApproveKeeps(s: Store, k: nat, x: Increase)
    requires Inv(s) && k < |s.decisions| && s.decisions[k].increase && s.decisions[k].status == Open
    requires x.decision == k && s.decisions[k].subject == Some(Subject(x.run, x.partition, x.added))
    ensures Inv(s.(decisions := s.decisions[k := s.decisions[k].(status := Resolved(Approve))],
                   increases := s.increases + [x]))
  {
    var d := s.decisions[k].(status := Resolved(Approve));
    var s' := s.(decisions := s.decisions[k := d], increases := s.increases + [x]);
    assert DecisionOk(s.runs, s.decisions[k]);
    ApproveTotals(s, k, x);
    ApproveMatches(s, k, x);
    hide Total, ApprovedTotal, IncreaseOf, Bijection, TotalsAgree;
    assert forall j, r :: 0 <= j < |s.decisions| && OpenFor(s'.decisions[j], r) ==> OpenFor(s.decisions[j], r);
    assert DecisionsOk(s');
  }

  lemma ApproveTotals(s: Store, k: nat, x: Increase)
    requires TotalsAgree(s) && k < |s.decisions| && DecisionOk(s.runs, s.decisions[k]) && s.decisions[k].increase
    requires s.decisions[k].status == Open && s.decisions[k].subject == Some(Subject(x.run, x.partition, x.added))
    ensures TotalsAgree(s.(decisions := s.decisions[k := s.decisions[k].(status := Resolved(Approve))],
                           increases := s.increases + [x]))
  {
    var d := s.decisions[k].(status := Resolved(Approve));
    var increases := s.increases + [x];
    assert increases[..|s.increases|] == s.increases;
    forall r, p ensures Total(increases, r, p) == ApprovedTotal(s.decisions[k := d], r, p) {
      ApprovedTotalUpdate(s.decisions, k, d, r, p);
      assert ApprovedAmount(d, r, p) == Added(x, r, p);
    }
  }

  lemma ApproveMatches(s: Store, k: nat, x: Increase)
    requires Bijection(s) && k < |s.decisions| && s.decisions[k].increase && s.decisions[k].status == Open
    requires x.decision == k && s.decisions[k].subject == Some(Subject(x.run, x.partition, x.added))
    ensures Bijection(s.(decisions := s.decisions[k := s.decisions[k].(status := Resolved(Approve))],
                         increases := s.increases + [x]))
  {
    var s' := s.(decisions := s.decisions[k := s.decisions[k].(status := Resolved(Approve))],
                 increases := s.increases + [x]);
    assert !IsApproved(s, k);
    assert s'.increases[..|s.increases|] == s.increases;
    forall j ensures IsApproved(s', j) ==> IncreaseOf(s'.increases, j).Some? {
      assert IsApproved(s', j) <==> IsApproved(s, j) || j == k;
    }
  }

  lemma RequestKeeps(s: Store, run: nat, partition: Partition, added: Allocation)
    requires Inv(s)
    ensures Inv(Request(s, run, partition, added).0)
  {
    if Request(s, run, partition, added).0 != s {
      AppendKeeps(s, Decision(true, run, s.runs[run].conversation, true, Some(Subject(run, partition, added)), Open));
    }
  }

  lemma ResolveKeeps(s: Store, run: nat, decision: nat, option: IncreaseOption)
    requires Inv(s)
    ensures Inv(Resolve(s, run, decision, option).0)
  {
    var after := Resolve(s, run, decision, option).0;
    if after != s {
      if option == Approve {
        ApproveKeeps(s, decision, after.increases[|s.increases|]);
      } else {
        CloseKeeps(s, decision, Resolved(Deny));
      }
    }
  }

  lemma RunsKeep(s: Store, run: nat, after: Run)
    requires Inv(s) && WellFormed(after) && (run in s.runs ==> after.conversation == s.runs[run].conversation)
    ensures Inv(s.(runs := s.runs[run := after]))
  {
    var s' := s.(runs := s.runs[run := after]);
    assert forall k :: 0 <= k < |s.decisions| ==> DecisionOk(s.runs, s.decisions[k]);
    assert forall k :: IsApproved(s', k) <==> IsApproved(s, k);
  }

  lemma EventKeeps(s: Store, e: Event)
    requires Inv(s)
    ensures Inv(Apply(s, e))
  {
    match e
    case CreateRun(run, conversation) =>
      if run !in s.runs { RunsKeep(s, run, Run(conversation, Created, None, None)); }
    case OperateRun(run, op) =>
      if run in s.runs && Operate(s.runs[run], op).Ok? {
        OperateKeeps(s.runs[run], op);
        RunsKeep(s, run, Operate(s.runs[run], op).value);
      }
    case RequestIncrease(run, partition, added) => RequestKeeps(s, run, partition, added);
    case ResolveIncrease(run, decision, option) => ResolveKeeps(s, run, decision, option);
    case OtherDecision(run, conversation) => AppendKeeps(s, Decision(false, run, conversation, false, None, Open));
    case SupersedeDecision(k) =>
      if k < |s.decisions| && s.decisions[k].status == Open { CloseKeeps(s, k, Superseded); }
  }

  lemma {:induction false} Reachable(events: seq<Event>)
    ensures Inv(After(events))
  {
    if events != [] {
      Reachable(events[..|events| - 1]);
      EventKeeps(After(events[..|events| - 1]), events[|events| - 1]);
    }
  }

  // ---------------------------------------------------------------------------
  // Consequences
  // ---------------------------------------------------------------------------

  lemma SameOpen(s: Store, run: nat, i: nat, j: nat)
    requires OneOpen(s) && i < |OpenIncreases(s.decisions, run)| && j < |OpenIncreases(s.decisions, run)|
    ensures i == j
  {
    var open := OpenIncreases(s.decisions, run);
    assert open[i] in open && open[j] in open;
    assert OpenFor(s.decisions[open[i]], run) && OpenFor(s.decisions[open[j]], run);
  }

  lemma OpenIsUnique(s: Store, run: nat)
    requires OneOpen(s)
    ensures |OpenIncreases(s.decisions, run)| <= 1
  {
    if |OpenIncreases(s.decisions, run)| > 1 {
      SameOpen(s, run, 0, 1);
    }
  }

  /** In every reachable state neither call finds rows that disagree. */
  lemma RequestNeverInconsistent(events: seq<Event>, run: nat, partition: Partition, added: Allocation)
    ensures var reply := Request(After(events), run, partition, added).1;
      reply != Err(BoundaryInconsistent) && reply != Err(TwoOpenDecisions)
  {
    Reachable(events);
    hide After, Bijection, TotalsAgree;
    var s := After(events);
    OpenIsUnique(s, run);
    hide OneOpen, OpenIncreases, ValidAdded, IncreasePermitted;
    var open := OpenIncreases(s.decisions, run);
    if |open| == 1 {
      assert open[0] in open;
      assert DecisionOk(s.runs, s.decisions[open[0]]);
    }
  }

  lemma ResolveNeverInconsistent(events: seq<Event>, run: nat, decision: nat, option: IncreaseOption)
    ensures Resolve(After(events), run, decision, option).1 != Err(BoundaryInconsistent)
  {
    Reachable(events);
    hide After, OneOpen, TotalsAgree, IncreasePermitted;
    var s := After(events);
    if decision < |s.decisions| {
      assert DecisionOk(s.runs, s.decisions[decision]);
      assert s.decisions[decision].increase && s.decisions[decision].status == Resolved(Approve) ==>
        IsApproved(s, decision);
    }
  }

  /**
   * A second identical request writes nothing and replies with the first one's Decision, marked as
   * a replay; whatever the rows were.
   */
  lemma RequestReplays(before: Store, run: nat, partition: Partition, added: Allocation)
    ensures var (s, first) := Request(before, run, partition, added);
      first.Ok? ==> Request(s, run, partition, added) == (s, Ok(Requested(first.value.decision, true)))
  {
    var (s, first) := Request(before, run, partition, added);
    hide OpenIncreases, ValidAdded, IncreasePermitted, IsTerminal;
    if first.Ok? && !first.value.replayed {
      OpenedNow(before.decisions, s.decisions[|before.decisions|], run);
    }
  }

  lemma OpenedNow(decisions: seq<Decision>, d: Decision, run: nat)
    requires OpenIncreases(decisions, run) == [] && OpenFor(d, run)
    ensures OpenIncreases(decisions + [d], run) == [|decisions|]
  {
    assert (decisions + [d])[..|decisions|] == decisions;
  }

  /**
   * A second identical answer writes nothing and replies with the first one's increase, marked as a
   * replay; whatever the rows were.
   */
  lemma ResolveReplays(before: Store, run: nat, decision: nat, option: IncreaseOption)
    ensures var (s, first) := Resolve(before, run, decision, option);
      first.Ok? ==> Resolve(s, run, decision, option) == (s, Ok(first.value.(replayed := true)))
  {
  }

  lemma {:induction false} TotalsGrow(before: seq<Increase>, after: seq<Increase>, run: nat, partition: Partition)
    requires before <= after && forall i :: 0 <= i < |after| ==> NonNegative(after[i].added)
    ensures Covered(Total(before, run, partition), Total(after, run, partition))
    decreases |after| - |before|
  {
    if |before| < |after| {
      var longer := after[..|before| + 1];
      assert longer[..|before|] == before;
      TotalsGrow(longer, after, run, partition);
    } else {
      assert before == after;
    }
  }

  /** `e` records `x`: it approves the Decision of `x` while the Run's row permits an increase of its partition. */
  ghost predicate Records(s: Store, e: Event, x: Increase) {
    && e == ResolveIncrease(x.run, x.decision, Approve)
    && x.run in s.runs && !IsTerminal(s.runs[x.run].status) && IncreasePermitted(s.runs[x.run].status, x.partition)
  }

  /** An event records one increase or none. */
  lemma StepRecords(s: Store, e: Event)
    ensures var after := Apply(s, e).increases;
      && (after == s.increases || after == s.increases + [after[|s.increases|]])
      && (after != s.increases ==> Records(s, e, after[|s.increases|]))
  {
    hide OpenIncreases, IncreaseOf, Operate;
  }

  lemma {:induction false} Appends(events: seq<Event>, more: seq<Event>)
    ensures After(events).increases <= After(events + more).increases
  {
    hide Apply;
    if more == [] {
      assert events + more == events;
    } else {
      var all := events + more;
      assert all[..|all| - 1] == events + more[..|more| - 1];
      Appends(events, more[..|more| - 1]);
      OneMore(all);
    }
  }

  lemma OneMore(events: seq<Event>)
    requires events != []
    ensures After(events[..|events| - 1]).increases <= After(events).increases
  {
    hide Apply;
    StepRecords(After(events[..|events| - 1]), events[|events| - 1]);
  }

  /**
   * Effective limits are the base plus the approved subjects of each partition, and
   * over any continuation of the run no limit ever shrinks.
   */
  lemma EffectiveLimitsGrow(events: seq<Event>, more: seq<Event>, run: nat, baseLimit: Allocation,
                            baseFinalReserve: Allocation)
    ensures var now, later := Limits(After(events), run, baseLimit, baseFinalReserve),
      Limits(After(events + more), run, baseLimit, baseFinalReserve);
      && now.ordinary == ApprovedTotal(After(events).decisions, run, Ordinary)
      && now.finalReserve == ApprovedTotal(After(events).decisions, run, FinalReserve)
      && Covered(EffectiveLimit(now), EffectiveLimit(later))
      && Covered(PartitionLimit(now, Ordinary), PartitionLimit(later, Ordinary))
      && Covered(PartitionLimit(now, FinalReserve), PartitionLimit(later, FinalReserve))
  {
    Reachable(events);
    Reachable(events + more);
    Appends(events, more);
    var s, s' := After(events), After(events + more);
    assert forall i :: 0 <= i < |s'.increases| ==> IsApproved(s', s'.increases[i].decision);
    TotalsGrow(s.increases, s'.increases, run, Ordinary);
    TotalsGrow(s.increases, s'.increases, run, FinalReserve);
  }

  /** Event `n` of the run recorded increase `i`, appending it to those on record. */
  ghost predicate RecordedAt(events: seq<Event>, n: nat, i: nat) {
    && n < |events| && i < |After(events).increases|
    && |After(events[..n]).increases| == i
    && After(events[..n + 1]).increases == After(events[..n]).increases + [After(events).increases[i]]
    && Records(After(events[..n]), events[n], After(events).increases[i])
  }

  lemma RecordedEarlier(events: seq<Event>, n: nat, i: nat)
    requires events != [] && RecordedAt(events[..|events| - 1], n, i)
    ensures RecordedAt(events, n, i)
  {
    hide After, Records;
    var front := events[..|events| - 1];
    assert front[..n] == events[..n] && front[..n + 1] == events[..n + 1];
    OneMore(events);
  }

  lemma RecordedLast(events: seq<Event>, i: nat)
    requires events != [] && |After(events[..|events| - 1]).increases| <= i < |After(events).increases|
    ensures RecordedAt(events, |events| - 1, i)
  {
    var n := |events| - 1;
    hide Apply, Records;
    StepRecords(After(events[..n]), events[n]);
    assert events[..n + 1] == events;
  }

  lemma {:induction false} Recorded(events: seq<Event>, i: nat) returns (n: nat)
    requires i < |After(events).increases|
    ensures RecordedAt(events, n, i)
  {
    hide Apply, RecordedAt;
    n := |events| - 1;
    if i < |After(events[..n]).increases| {
      n := Recorded(events[..n], i);
      RecordedEarlier(events, n, i);
    } else {
      RecordedLast(events, i);
    }
  }

  /**
   * Every increase on record was appended by the approval of its Decision, at a moment
   * when the row of its Run had not ended and was not verifying, nor awaiting signoff if
   * the increase is of the final reserve.
   */
  lemma NoLateIncrease(events: seq<Event>, i: nat) returns (n: nat)
    requires i < |After(events).increases|
    ensures n < |events|
    ensures var x, before := After(events).increases[i], After(events[..n]);
      && After(events[..n + 1]).increases == before.increases + [x]
      && events[n] == ResolveIncrease(x.run, x.decision, Approve)
      && x.run in before.runs && !IsTerminal(before.runs[x.run].status) && before.runs[x.run].status != Verifying
      && (x.partition == FinalReserve ==> before.runs[x.run].status != AwaitingSignoff)
  {
    n := Recorded(events, i);
    hide After;
  }

  // ---------------------------------------------------------------------------
  // When a request and an answer must be accepted
  // ---------------------------------------------------------------------------

  /** By its row: the Run exists, has not ended, is not verifying and, for the final reserve, awaits no signoff. */
  predicate MayGrow(s: Store, run: nat, partition: Partition) {
    && run in s.runs && s.runs[run].status !in {Completed, Failed, Cancelled, Verifying}
    && (partition == FinalReserve ==> s.runs[run].status != AwaitingSignoff)
  }

  /** No component is negative and one is positive. */
  predicate Grows(added: Allocation) {
    && added.costUsd >= 0.0 && added.tokens >= 0 && added.attempts >= 0
    && (added.costUsd > 0.0 || added.tokens > 0 || added.attempts > 0)
  }

  /** Decision `k` is an increase Decision of the Run that nobody answered or superseded yet. */
  predicate Awaits(s: Store, run: nat, k: nat) {
    k < |s.decisions| && s.decisions[k].increase && s.decisions[k].run == run && s.decisions[k].status == Open
  }

  lemma IncreasableExactly(s: Store, run: nat, partition: Partition)
    ensures Increasable(s, run, partition) == None <==> MayGrow(s, run, partition)
    ensures MayGrow(s, run, partition) ==> run in s.runs
    ensures !MayGrow(s, run, partition) ==>
      Increasable(s, run, partition) ==
      Some(if run !in s.runs then RunNotFound
           else if s.runs[run].status in {Completed, Failed, Cancelled} then RunEnded
           else PartitionNotIncreasable)
  {
    if run in s.runs { TablesExactly(s.runs[run].status, Cancelled); }
  }

  /** What a request must do, by the amount, the Run's row and the open increase Decisions. */
  ghost predicate RequestMeans(s: Store, run: nat, partition: Partition, added: Allocation, s': Store,
                               reply: Result<Requested, Refusal>) {
    var conversation := if run in s.runs then s.runs[run].conversation else 0;
    var subject := Subject(run, partition, added);
    && (if Grows(added) && MayGrow(s, run, partition) && (forall k: nat :: !Awaits(s, run, k)) then
          && s' == s.(decisions := s.decisions + [Decision(true, run, conversation, true, Some(subject), Open)])
          && reply == Ok(Requested(|s.decisions|, false))
        else s' == s)
    && (reply == Err(InvalidIncrease) <==> !Grows(added))
    && (Grows(added) && !MayGrow(s, run, partition) ==>
          reply == Err(if run !in s.runs then RunNotFound
                       else if s.runs[run].status in {Completed, Failed, Cancelled} then RunEnded
                       else PartitionNotIncreasable))
    && (forall k: nat :: Grows(added) && MayGrow(s, run, partition) && Awaits(s, run, k) ==>
          reply == if s.decisions[k].subject == Some(subject) then Ok(Requested(k, true)) else Err(DecisionOpen(k)))
  }

  /** The one Decision that awaits an answer is the one the scan finds. */
  lemma AwaitsIsOpen(s: Store, run: nat)
    requires OneOpen(s)
    ensures forall k: nat :: Awaits(s, run, k) <==> k in OpenIncreases(s.decisions, run)
    ensures |OpenIncreases(s.decisions, run)| <= 1
  {
    OpenIsUnique(s, run);
  }

  /**
   * In every reachable state a request of a valid amount opens exactly one Decision, with that subject, if and only
   * if the Run exists, has not ended, is not verifying, awaits no signoff when it is for the final reserve, and has no
   * increase Decision open; with one open it replays or names that one; and nothing else writes.
   */
  lemma RequestAnswered(events: seq<Event>, run: nat, partition: Partition, added: Allocation)
    ensures var (s', reply) := Request(After(events), run, partition, added);
      RequestMeans(After(events), run, partition, added, s', reply)
  {
    hide After, Inv, RequestMeans;
    Reachable(events);
    RequestDone(After(events), run, partition, added);
  }

  lemma RequestDone(s: Store, run: nat, partition: Partition, added: Allocation)
    requires Inv(s)
    ensures RequestMeans(s, run, partition, added, Request(s, run, partition, added).0,
                         Request(s, run, partition, added).1)
  {
    hide Increasable, OpenIncreases, MayGrow, Awaits, Bijection, TotalsAgree, OneOpen, DecisionsOk;
    AwaitsIsOpen(s, run);
    IncreasableExactly(s, run, partition);
    var open := OpenIncreases(s.decisions, run);
    if |open| == 1 {
      AwaitsOk(s, run, open[0]);
      assert forall k: nat :: Awaits(s, run, k) ==> k == open[0];
    } else {
      assert forall k: nat :: !Awaits(s, run, k);
    }
  }

  lemma AwaitsOk(s: Store, run: nat, k: nat)
    requires DecisionsOk(s) && Awaits(s, run, k)
    ensures s.decisions[k].subject.Some? && s.decisions[k].subject.value.run == run
  {
    assert DecisionOk(s.runs, s.decisions[k]);
  }

  /** What an answer must do, by the Decision and, for an approval, the Run's row. */
  ghost predicate ResolveMeans(s: Store, run: nat, k: nat, option: IncreaseOption, s': Store,
                               reply: Result<Answered, Refusal>) {
    if run !in s.runs then s' == s && reply == Err(RunNotFound)
    else if k >= |s.decisions| || !s.decisions[k].increase || s.decisions[k].run != run then
      s' == s && reply == Err(DecisionMismatch)
    else
      var d := s.decisions[k];
      var answered := s.decisions[k := d.(status := Resolved(option))];
      var replayed := d.status == Resolved(option);
      && d.subject.Some?
      && (if d.status == Open && option == Deny then s' == s.(decisions := answered) && reply == Ok(Denied(false))
          else if d.status == Open && MayGrow(s, run, d.subject.value.partition) then
            && s' == s.(decisions := answered,
                        increases := s.increases + [Increase(run, k, d.subject.value.partition, d.subject.value.added)])
            && reply == Ok(Approved(|s.increases|, false))
          else
            && s' == s
            && (d.status == Open ==>
                  reply == Err(if s.runs[run].status in {Completed, Failed, Cancelled} then RunEnded
                               else PartitionNotIncreasable))
            && (d.status != Open && !replayed ==> reply == Err(ConflictingResolution))
            && (replayed && option == Deny ==> reply == Ok(Denied(true)))
            && (replayed && option == Approve ==> ReplaysIncrease(s, k, reply)))
  }

  /** The reply names the increase that the Decision authorized, as a replay. */
  ghost predicate ReplaysIncrease(s: Store, k: nat, reply: Result<Answered, Refusal>) {
    exists i: nat :: i < |s.increases| && s.increases[i].decision == k && reply == Ok(Approved(i, true))
  }

  /**
   * In every reachable state the approval of an open increase Decision records its one increase if and only if the
   * Run has not ended, is not verifying and, for the final reserve, awaits no signoff; a denial always resolves it;
   * a repeated answer replays, the opposite one conflicts, and nothing else writes.
   */
  lemma ResolveAnswered(events: seq<Event>, run: nat, k: nat, option: IncreaseOption)
    ensures var (s', reply) := Resolve(After(events), run, k, option);
      ResolveMeans(After(events), run, k, option, s', reply)
  {
    Reachable(events);
    hide After;
    var s := After(events);
    if k < |s.decisions| {
      assert DecisionOk(s.runs, s.decisions[k]);
      assert s.decisions[k].increase && s.decisions[k].status == Resolved(Approve) ==> IsApproved(s, k);
      if s.decisions[k].subject.Some? { IncreasableExactly(s, run, s.decisions[k].subject.value.partition); }
    }
    hide Increasable, OneOpen, TotalsAgree, MayGrow;
  }

  /** The Decision is an increase Decision that the operator decides for this Run of this Conversation. */
  predicate Belongs(s: Store, run: nat, k: nat) {
    && run in s.runs && k < |s.decisions| && s.decisions[k].increase && s.decisions[k].run == run
    && s.decisions[k].conversation == s.runs[run].conversation && s.decisions[k].operatorRequired
  }

  /**
   * Rows that disagree are refused for what is wrong with them, whatever the store holds: a Decision that does not
   * belong, one whose subject is missing or names another Run, an approved one without its increase, and, for a
   * request, two open Decisions or an open one without a subject.
   */
  lemma DisagreementRefused(s: Store, run: nat, partition: Partition, added: Allocation, k: nat, option: IncreaseOption)
    ensures Resolve(s, run, k, option).1 == Err(DecisionMismatch) <==> run in s.runs && !Belongs(s, run, k)
    ensures Resolve(s, run, k, option).1 == Err(BoundaryInconsistent) <==>
      && Belongs(s, run, k)
      && (s.decisions[k].subject == None || s.decisions[k].subject.value.run != run
          || (s.decisions[k].status == Resolved(Approve) && option == Approve
              && forall i :: 0 <= i < |s.increases| ==> s.increases[i].decision != k))
    ensures Request(s, run, partition, added).1 == Err(TwoOpenDecisions) <==>
      Grows(added) && MayGrow(s, run, partition) && |OpenIncreases(s.decisions, run)| > 1
    ensures Request(s, run, partition, added).1 == Err(BoundaryInconsistent) <==>
      && Grows(added) && MayGrow(s, run, partition) && |OpenIncreases(s.decisions, run)| == 1
      && s.decisions[OpenIncreases(s.decisions, run)[0]].subject == None
  {
    IncreasableExactly(s, run, partition);
    if k < |s.decisions| && s.decisions[k].subject.Some? {
      IncreasableExactly(s, run, s.decisions[k].subject.value.partition);
    }
    hide Increasable, MayGrow;
  }

  lemma Next(events: seq<Event>, e: Event)
    ensures After(events + [e]) == Apply(After(events), e)
  {
    hide Apply;
    assert (events + [e])[..|events|] == events;
  }

  /**
   * A superseded increase Decision gives way: whatever it was about, the next request for its Run opens a new one, and
   * the superseded one can no longer be approved.
   */
  lemma SupersededGivesWay(events: seq<Event>, k: nat, run: nat, partition: Partition, added: Allocation)
    requires Awaits(After(events), run, k) && Grows(added) && MayGrow(After(events), run, partition)
    ensures var later := events + [SupersedeDecision(k)];
      && Request(After(later), run, partition, added).1 == Ok(Requested(|After(events).decisions|, false))
      && Resolve(After(later), run, k, Approve) == (After(later), Err(ConflictingResolution))
  {
    var s, later := After(events), events + [SupersedeDecision(k)];
    Reachable(events);
    Next(events, SupersedeDecision(k));
    var s' := After(later);
    RequestAnswered(later, run, partition, added);
    ResolveAnswered(later, run, k, Approve);
    hide After, Request, Resolve, Grows, MayGrow;
    assert s' == s.(decisions := s.decisions[k := s.decisions[k].(status := Superseded)]);
    assert MayGrow(s', run, partition) by { SameRuns(s, s', run, partition); }
    forall j: nat ensures !Awaits(s', run, j) {
      assert Awaits(s', run, j) ==> OpenFor(s.decisions[j], run) && OpenFor(s.decisions[k], run);
    }
  }

  lemma SameRuns(s: Store, s': Store, run: nat, partition: Partition)
    requires s'.runs == s.runs
    ensures MayGrow(s', run, partition) == MayGrow(s, run, partition)
  {
  }

  const STARTED := ByTransition(Transition(Running, None, None))

  const OUT_OF_BUDGET := ByTransition(Transition(Waiting, Some(OnBudget), None))

  /** A new Run starts and comes to wait on its budget. */
  function WaitsOnBudget(run: nat, conversation: nat): seq<Event> {
    [CreateRun(run, conversation)] + [OperateRun(run, STARTED)] + [OperateRun(run, OUT_OF_BUDGET)]
  }

  lemma BudgetAwaited(run: nat, conversation: nat)
    ensures After(WaitsOnBudget(run, conversation)) ==
            Store(map[run := Run(conversation, Waiting, Some(OnBudget), None)], [], [])
  {
    var one, two := [CreateRun(run, conversation)], [CreateRun(run, conversation)] + [OperateRun(run, STARTED)];
    assert one[..0] == [] && After([]) == Store(map[], [], []);
    assert After(one).runs == map[run := Run(conversation, Created, None, None)];
    Next(one, OperateRun(run, STARTED));
    Next(two, OperateRun(run, OUT_OF_BUDGET));
    hide After;
    assert After(two).runs == map[run := Run(conversation, Running, None, None)];
  }

  /**
   * The case the boundary exists for: a Run that waits on its budget is asked for and granted any valid amount in
   * either partition, and its limit grows by exactly that.
   */
  lemma WaitingRunGrows(run: nat, conversation: nat, partition: Partition, added: Allocation)
    requires Grows(added)
    ensures var asked := WaitsOnBudget(run, conversation) + [RequestIncrease(run, partition, added)];
      var granted := asked + [ResolveIncrease(run, 0, Approve)];
      && Awaits(After(asked), run, 0)
      && After(granted).increases == [Increase(run, 0, partition, added)]
      && Total(After(granted).increases, run, partition) == added
  {
    var waiting := WaitsOnBudget(run, conversation);
    var asked := waiting + [RequestIncrease(run, partition, added)];
    BudgetAwaited(run, conversation);
    Next(waiting, RequestIncrease(run, partition, added));
    Next(asked, ResolveIncrease(run, 0, Approve));
    RequestAnswered(waiting, run, partition, added);
    ResolveAnswered(asked, run, 0, Approve);
    hide After, Request, Resolve, WaitsOnBudget, Grows;
    assert After(asked) == After(waiting).(decisions := After(asked).decisions);
    OneIncrease(Increase(run, 0, partition, added));
  }

  lemma OneIncrease(x: Increase)
    ensures Total([x], x.run, x.partition) == x.added
  {
    var one := [x];
    assert one[..0] == [];
    assert Total(one, x.run, x.partition) == AddAllocation(Total([], x.run, x.partition), x.added);
  }

  // ---------------------------------------------------------------------------
  // The service
  // ---------------------------------------------------------------------------

  class BudgetIncreaseService {
    var runs: map<nat, Run>
    var decisions: seq<Decision>
    var increases: seq<Increase>

    ghost function View(): Store
      reads this
    {
      Store(runs, decisions, increases)
    }

    /** The Run's open increase Decisions, scanned in creation order. */
    method OpenIncreaseOf(run: nat) returns (open: seq<nat>)
      ensures open == OpenIncreases(decisions, run)
    {
      open := [];
      for k := 0 to |decisions|
        invariant open == OpenIncreases(decisions[..k], run)
      {
        assert decisions[..k + 1][..k] == decisions[..k];
        if decisions[k].increase && decisions[k].run == run && decisions[k].status == Open {
          open := open + [k];
        }
      }
      assert decisions[..|decisions|] == decisions;
    }

    method ByDecision(decision: nat) returns (found: Option<nat>)
      ensures found == IncreaseOf(increases, decision)
    {
      found := None;
      for i := 0 to |increases|
        invariant found == IncreaseOf(increases[..i], decision)
      {
        assert increases[..i + 1][..i] == increases[..i];
        if increases[i].decision == decision {
          found := Some(i);
        }
      }
      assert increases[..|increases|] == increases;
    }

    method TotalsByRun(run: nat) returns (ordinary: Allocation, finalReserve: Allocation)
      ensures ordinary == Total(increases, run, Ordinary) && finalReserve == Total(increases, run, FinalReserve)
    {
      ordinary, finalReserve := ZERO_ALLOCATION, ZERO_ALLOCATION;
      for i := 0 to |increases|
        invariant ordinary == Total(increases[..i], run, Ordinary)
          && finalReserve == Total(increases[..i], run, FinalReserve)
      {
        assert increases[..i + 1][..i] == increases[..i];
        if increases[i].run == run {
          if increases[i].partition == Ordinary {
            ordinary := AddAllocation(ordinary, increases[i].added);
          } else {
            finalReserve := AddAllocation(finalReserve, increases[i].added);
          }
        }
      }
      assert increases[..|increases|] == increases;
    }

    method IncreasableRun(run: nat, partition: Partition) returns (refusal: Option<Refusal>)
      ensures refusal == Increasable(View(), run, partition)
    {
      if run !in runs { return Some(RunNotFound); }
      if IsTerminal(runs[run].status) { return Some(RunEnded); }
      if !IncreasePermitted(runs[run].status, partition) { return Some(PartitionNotIncreasable); }
      return None;
    }

    method RequestIncrease(run: nat, partition: Partition, added: Allocation)
      returns (reply: Result<Requested, Refusal>)
      modifies this`decisions
      ensures (View(), reply) == Request(old(View()), run, partition, added)
    {
      if !NonNegative(added) || !HasPositive(added) { return Err(InvalidIncrease); }
      var refusal := IncreasableRun(run, partition);
      if refusal.Some? { return Err(refusal.value); }
      var open := OpenIncreaseOf(run);
      if |open| > 1 { return Err(TwoOpenDecisions); }
      if |open| == 1 {
        assert open[0] in open;
        if decisions[open[0]].subject == None { return Err(BoundaryInconsistent); }
        var subject := decisions[open[0]].subject.value;
        if subject.partition == partition && subject.added == added { return Ok(Requested(open[0], true)); }
        return Err(DecisionOpen(open[0]));
      }
      reply := Ok(Requested(|decisions|, false));
      decisions :=
        decisions + [Decision(true, run, runs[run].conversation, true, Some(Subject(run, partition, added)), Open)];
    }

    method ResolveIncrease(run: nat, decision: nat, option: IncreaseOption) returns (reply: Result<Answered, Refusal>)
      modifies this`decisions, this`increases
      ensures (View(), reply) == Resolve(old(View()), run, decision, option)
    {
      if run !in runs { return Err(RunNotFound); }
      if decision >= |decisions| { return Err(DecisionMismatch); }
      var d := decisions[decision];
      if !d.increase || d.run != run || d.conversation != runs[run].conversation || !d.operatorRequired {
        return Err(DecisionMismatch);
      }
      if d.subject == None || d.subject.value.run != run { return Err(BoundaryInconsistent); }
      if d.status != Open {
        if d.status == Resolved(option) {
          if option == Deny { return Ok(Denied(true)); }
          var existing := ByDecision(decision);
          if existing == None { return Err(BoundaryInconsistent); }
          return Ok(Approved(existing.value, true));
        }
        return Err(ConflictingResolution);
      }
      if option == Deny {
        decisions := decisions[decision := d.(status := Resolved(Deny))];
        return Ok(Denied(false));
      }
      var refusal := IncreasableRun(run, d.subject.value.partition);
      if refusal.Some? { return Err(refusal.value); }
      decisions := decisions[decision := d.(status := Resolved(Approve))];
      reply := Ok(Approved(|increases|, false));
      increases := increases + [Increase(run, decision, d.subject.value.partition, d.subject.value.added)];
    }
  }
}
