/**
 * One Run's reservations over time: reserve, extend, consume, release and
 * increase, each admitted exactly as the stores admit it, and what every run of
 * them keeps. The tolerance of a fit test is spent at most once per Run, however
 * many reservations were admitted; overruns are the only other excess.
 */
module BudgetLedger {
  import opened Wrappers
  import opened Budgets

  /** A Run-level reservation: its immutable original amounts, the sum of its Allocation Extensions, its consumption. */
  datatype Holding = Holding(partition: Partition, status: ReservationStatus, original: Allocation,
                             extended: Allocation, actual: Allocation)

  datatype Ledger = Ledger(limits: RunLimits, holdings: seq<Holding>)

  function EffectiveReserved(h: Holding): Allocation {
    AddAllocation(h.original, h.extended)
  }

  function ChargeOf(h: Holding): Charge {
    Charge(h.status, EffectiveReserved(h), h.actual)
  }

  /** The charges of one partition, in row order: what the accounts are computed from. */
  function Charges(hs: seq<Holding>, p: Partition): seq<Charge> {
    if hs == [] then []
    else
      var last := hs[|hs| - 1];
      Charges(hs[..|hs| - 1], p) + (if last.partition == p then [ChargeOf(last)] else [])
  }

  /** What a child consumed beyond its effective reservation. */
  function Overrun(h: Holding): Allocation {
    MaxAllocation(ZERO_ALLOCATION, SubtractAllocation(h.actual, EffectiveReserved(h)))
  }

  /** The part of a charge that an admission vouched for: all of it unless the child overran. */
  function Secured(h: Holding): Allocation {
    if h.status == Active then EffectiveReserved(h) else MinAllocation(h.actual, EffectiveReserved(h))
  }

  datatype Totals = Totals(committed: Allocation, secured: Allocation, overrun: Allocation)

  function Plus(t: Totals, h: Holding): Totals {
    Totals(AddAllocation(t.committed, ReservationCharge(ChargeOf(h))),
           AddAllocation(t.secured, Secured(h)),
           AddAllocation(t.overrun, Overrun(h)))
  }

  function Sums(hs: seq<Holding>, p: Partition): Totals {
    if hs == [] then Totals(ZERO_ALLOCATION, ZERO_ALLOCATION, ZERO_ALLOCATION)
    else
      var last, rest := hs[|hs| - 1], Sums(hs[..|hs| - 1], p);
      if last.partition == p then Plus(rest, last) else rest
  }

  function Committed(l: Ledger, p: Partition): Allocation {
    Sums(l.holdings, p).committed
  }

  function GlobalCommitted(l: Ledger): Allocation {
    AddAllocation(Committed(l, Ordinary), Committed(l, FinalReserve))
  }

  /** `min(own available, global available)`: what the partition may still reserve beside the two committed amounts. */
  function AvailableOf(limits: RunLimits, ordinary: Allocation, final: Allocation, p: Partition): Allocation {
    MinAllocation(SubtractAllocation(PartitionLimit(limits, p), if p == Ordinary then ordinary else final),
                  SubtractAllocation(EffectiveLimit(limits), AddAllocation(ordinary, final)))
  }

  function EffectiveAvailable(l: Ledger, p: Partition): Allocation {
    AvailableOf(l.limits, Committed(l, Ordinary), Committed(l, FinalReserve), p)
  }

  // ---------------------------------------------------------------------------
  // Steps
  // ---------------------------------------------------------------------------

  datatype Step =
    | Reserve(partition: Partition, amount: Allocation)
    | Extend(index: nat, added: Allocation)
    | Consume(index: nat, actual: Allocation)
    | Release(index: nat, consumed: Allocation)
    | Increase(partition: Partition, added: Allocation)

  datatype Refusal = InvalidAmount | InsufficientCapacity | NotActive | NotExtendable

  function Apply(l: Ledger, step: Step): Result<Ledger, Refusal> {
    match step
    case Reserve(p, amount) =>
      if !NonNegative(amount) || (p == FinalReserve && amount.attempts < 1) then Err(InvalidAmount)
      else if !AllocationFits(amount, EffectiveAvailable(l, p)) then Err(InsufficientCapacity)
      else Ok(l.(holdings := l.holdings + [Holding(p, Active, amount, ZERO_ALLOCATION, ZERO_ALLOCATION)]))
    case Extend(k, added) =>
      if !NonNegative(added) || !HasPositive(added) then Err(InvalidAmount)
      else if k >= |l.holdings| || l.holdings[k].status != Active then Err(NotActive)
      else if l.holdings[k].partition != Ordinary then Err(NotExtendable)
      else if !AllocationFits(added, EffectiveAvailable(l, Ordinary)) then Err(InsufficientCapacity)
      else Ok(l.(holdings := l.holdings[k := l.holdings[k].(extended := AddAllocation(l.holdings[k].extended, added))]))
    case Consume(k, actual) =>
      // Usage is recorded, never refused: a reservation gates a start, it does not cap what follows.
      if k >= |l.holdings| || l.holdings[k].status != Active then Err(NotActive)
      else if !NonNegative(actual) then Err(InvalidAmount)
      else Ok(l.(holdings := l.holdings[k := l.holdings[k].(actual := actual)]))
    case Release(k, consumed) =>
      if !NonNegative(consumed) then Err(InvalidAmount)
      else if k >= |l.holdings| || l.holdings[k].status != Active then Err(NotActive)
      else Ok(l.(holdings := l.holdings[k := l.holdings[k].(status := Released, actual := consumed)]))
    case Increase(p, added) =>
      if !NonNegative(added) || !HasPositive(added) then Err(InvalidAmount)
      else if p == Ordinary then Ok(l.(limits := l.limits.(ordinary := AddAllocation(l.limits.ordinary, added))))
      else Ok(l.(limits := l.limits.(finalReserve := AddAllocation(l.limits.finalReserve, added))))
  }

  /** A run of steps; a refused one writes nothing. */
  function Run(l: Ledger, steps: seq<Step>): Ledger {
    if steps == [] then l
    else
      var before := Run(l, steps[..|steps| - 1]);
      match Apply(before, steps[|steps| - 1])
      case Ok(after) => after
      case Err(_) => before
  }

  /** A Run as created: no reservation, no increase, and a final reserve that passed the fit test against the Budget. */
  predicate Created(l: Ledger) {
    && l.holdings == []
    && l.limits.ordinary == ZERO_ALLOCATION && l.limits.finalReserve == ZERO_ALLOCATION
    && NonNegative(l.limits.baseLimit) && NonNegative(l.limits.baseFinalReserve)
    && AllocationFits(l.limits.baseFinalReserve, l.limits.baseLimit)
  }

  // ---------------------------------------------------------------------------
  // Sums
  // ---------------------------------------------------------------------------

  lemma {:induction false} ChargesTotal(hs: seq<Holding>, p: Partition)
    ensures TotalCharge(Charges(hs, p)) == Sums(hs, p).committed
  {
    if hs != [] {
      var front, last := hs[..|hs| - 1], hs[|hs| - 1];
      ChargesTotal(front, p);
      if last.partition == p {
        assert Charges(hs, p)[..|Charges(front, p)|] == Charges(front, p);
      } else {
        assert Charges(hs, p) == Charges(front, p);
      }
    }
  }

  /** A charge is what was secured plus what overran. */
  ghost predicate Split(t: Totals) {
    t.committed == AddAllocation(t.secured, t.overrun) && NonNegative(t.overrun)
  }

  lemma SplitPlus(t: Totals, h: Holding)
    requires Split(t)
    ensures Split(Plus(t, h))
  {
    var charge, secured, overrun := ReservationCharge(ChargeOf(h)), Secured(h), Overrun(h);
    assert charge.costUsd == secured.costUsd + overrun.costUsd && overrun.costUsd >= 0.0;
    assert charge.tokens == secured.tokens + overrun.tokens && overrun.tokens >= 0;
    assert charge.attempts == secured.attempts + overrun.attempts && overrun.attempts >= 0;
  }

  lemma {:induction false} CommittedSplits(hs: seq<Holding>, p: Partition)
    ensures Split(Sums(hs, p))
  {
    if hs != [] {
      var front, last := hs[..|hs| - 1], hs[|hs| - 1];
      CommittedSplits(front, p);
      SplitPlus(Sums(front, p), last);
    }
  }

  ghost function Replace(total: Allocation, was: Allocation, now: Allocation): Allocation {
    AddAllocation(SubtractAllocation(total, was), now)
  }

  lemma {:induction false} SumsUpdate(hs: seq<Holding>, k: nat, h: Holding, p: Partition)
    requires k < |hs| && h.partition == hs[k].partition
    ensures h.partition != p ==> Sums(hs[k := h], p) == Sums(hs, p)
    ensures h.partition == p ==>
      var before, after := Sums(hs, p), Sums(hs[k := h], p);
      && after.committed ==
            Replace(before.committed, ReservationCharge(ChargeOf(hs[k])), ReservationCharge(ChargeOf(h)))
      && after.secured == Replace(before.secured, Secured(hs[k]), Secured(h))
      && after.overrun == Replace(before.overrun, Overrun(hs[k]), Overrun(h))
  {
    var n := |hs| - 1;
    if k == n {
      assert hs[k := h][..n] == hs[..n];
    } else {
      assert hs[k := h][..n] == hs[..n][k := h];
      SumsUpdate(hs[..n], k, h, p);
    }
  }

  /** The capacity the stores read from rows is exactly what every admission above consults. */
  method CapacityOf(l: Ledger) returns (c: RunCapacity)
    ensures c.ordinary.committed == Committed(l, Ordinary) && c.final.committed == Committed(l, FinalReserve)
    ensures c.global.committed == GlobalCommitted(l) && c.global.limit == EffectiveLimit(l.limits)
    ensures c.ordinaryEffective == EffectiveAvailable(l, Ordinary)
      && c.finalEffective == EffectiveAvailable(l, FinalReserve)
  {
    c := RunCapacityAccount(l.limits, Charges(l.holdings, Ordinary), Charges(l.holdings, FinalReserve));
    ChargesTotal(l.holdings, Ordinary);
    ChargesTotal(l.holdings, FinalReserve);
    hide Sums, Charges, TotalCharge;
  }

  // ---------------------------------------------------------------------------
  // What every run keeps
  // ---------------------------------------------------------------------------

  /** What was secured fits each partition and the whole Budget, with the tolerance spent once for each of the three. */
  ghost predicate TotalsFit(limits: RunLimits, ordinary: Totals, final: Totals) {
    && AllocationFits(ordinary.secured, PartitionLimit(limits, Ordinary))
    && AllocationFits(final.secured, PartitionLimit(limits, FinalReserve))
    && AllocationFits(AddAllocation(ordinary.secured, final.secured), EffectiveLimit(limits))
  }

  ghost predicate SecuredFits(l: Ledger) {
    TotalsFit(l.limits, Sums(l.holdings, Ordinary), Sums(l.holdings, FinalReserve))
  }

  lemma {:induction false} SumsAppend(hs: seq<Holding>, h: Holding, p: Partition)
    ensures Sums(hs + [h], p) == if h.partition == p then Plus(Sums(hs, p), h) else Sums(hs, p)
  {
    assert (hs + [h])[..|hs|] == hs;
    hide Plus;
  }

  /** Secured amounts grow by what is still available to their partition: the limits then hold for them. */
  lemma GrowthFits(limits: RunLimits, ordinary: Totals, final: Totals, p: Partition, now: Allocation,
                   growth: Allocation)
    requires TotalsFit(limits, ordinary, final) && Split(ordinary) && Split(final)
    requires growth == ZERO_ALLOCATION
      || AllocationFits(growth, AvailableOf(limits, ordinary.committed, final.committed, p))
    requires Covered(now, AddAllocation(if p == Ordinary then ordinary.secured else final.secured, growth))
    ensures p == Ordinary ==> forall t: Totals :: t.secured == now ==> TotalsFit(limits, t, final)
    ensures p == FinalReserve ==> forall t: Totals :: t.secured == now ==> TotalsFit(limits, ordinary, t)
  {
  }

  /**
   * Growing or shrinking one holding's secured part keeps the invariant when the growth is covered
   * by what is still available.
   */
  lemma UpdateKeepsSecuredFits(l: Ledger, k: nat, h: Holding, growth: Allocation)
    requires SecuredFits(l) && k < |l.holdings| && h.partition == l.holdings[k].partition
    requires Covered(Secured(h), AddAllocation(Secured(l.holdings[k]), growth))
    requires growth == ZERO_ALLOCATION || AllocationFits(growth, EffectiveAvailable(l, h.partition))
    ensures SecuredFits(l.(holdings := l.holdings[k := h]))
  {
    var p, hs := h.partition, l.holdings;
    CommittedSplits(hs, Ordinary);
    CommittedSplits(hs, FinalReserve);
    SumsUpdate(hs, k, h, Ordinary);
    SumsUpdate(hs, k, h, FinalReserve);
    hide Sums, Secured, ReservationCharge, ChargeOf, Overrun;
    assert Covered(Sums(hs[k := h], p).secured, AddAllocation(Sums(hs, p).secured, growth));
    hide Replace, Covered, AddAllocation, Split, TotalsFit, AllocationFits;
    GrowthFits(l.limits, Sums(hs, Ordinary), Sums(hs, FinalReserve), p, Sums(hs[k := h], p).secured, growth);
  }

  lemma ReserveKeepsSecuredFits(l: Ledger, h: Holding)
    requires SecuredFits(l) && h.status == Active && AllocationFits(Secured(h), EffectiveAvailable(l, h.partition))
    ensures SecuredFits(l.(holdings := l.holdings + [h]))
  {
    var p, hs := h.partition, l.holdings;
    CommittedSplits(hs, Ordinary);
    CommittedSplits(hs, FinalReserve);
    SumsAppend(hs, h, Ordinary);
    SumsAppend(hs, h, FinalReserve);
    hide Sums, Secured, ReservationCharge, ChargeOf, Overrun, Split, TotalsFit, AllocationFits;
    assert Covered(Sums(hs + [h], p).secured, AddAllocation(Sums(hs, p).secured, Secured(h)));
    GrowthFits(l.limits, Sums(hs, Ordinary), Sums(hs, FinalReserve), p, Sums(hs + [h], p).secured, Secured(h));
  }

  lemma IncreaseKeepsSecuredFits(l: Ledger, p: Partition, added: Allocation)
    requires SecuredFits(l) && Apply(l, Increase(p, added)).Ok?
    ensures SecuredFits(Apply(l, Increase(p, added)).value)
  {
    hide Sums;
  }

  lemma ExtendKeepsSecuredFits(l: Ledger, k: nat, added: Allocation)
    requires SecuredFits(l) && Apply(l, Extend(k, added)).Ok?
    ensures SecuredFits(Apply(l, Extend(k, added)).value)
  {
    hide Sums, SecuredFits, EffectiveAvailable, AllocationFits;
    UpdateKeepsSecuredFits(l, k, Apply(l, Extend(k, added)).value.holdings[k], added);
  }

  /** Consumption, recorded or final, secures no more than was reserved. */
  lemma ConsumptionKeepsSecuredFits(l: Ledger, k: nat, status: ReservationStatus, actual: Allocation)
    requires SecuredFits(l) && k < |l.holdings| && l.holdings[k].status == Active
    ensures SecuredFits(l.(holdings := l.holdings[k := l.holdings[k].(status := status, actual := actual)]))
  {
    hide Sums, SecuredFits, EffectiveAvailable, AllocationFits;
    UpdateKeepsSecuredFits(l, k, l.holdings[k].(status := status, actual := actual), ZERO_ALLOCATION);
  }

  lemma StepKeepsSecuredFits(l: Ledger, step: Step)
    requires SecuredFits(l) && Apply(l, step).Ok?
    ensures SecuredFits(Apply(l, step).value)
  {
    hide SecuredFits, EffectiveAvailable, AllocationFits;
    match step
    case Reserve(p, amount) =>
      var h := Holding(p, Active, amount, ZERO_ALLOCATION, ZERO_ALLOCATION);
      assert Secured(h) == amount;
      ReserveKeepsSecuredFits(l, h);
    case Increase(p, added) => IncreaseKeepsSecuredFits(l, p, added);
    case Extend(k, added) => ExtendKeepsSecuredFits(l, k, added);
    case Consume(k, actual) => ConsumptionKeepsSecuredFits(l, k, Active, actual);
    case Release(k, consumed) => ConsumptionKeepsSecuredFits(l, k, Released, consumed);
  }

  lemma {:induction false} RunKeepsSecuredFits(l: Ledger, steps: seq<Step>)
    requires Created(l)
    ensures SecuredFits(Run(l, steps))
  {
    if steps != [] {
      RunKeepsSecuredFits(l, steps[..|steps| - 1]);
      var before := Run(l, steps[..|steps| - 1]);
      if Apply(before, steps[|steps| - 1]).Ok? {
        StepKeepsSecuredFits(before, steps[|steps| - 1]);
      }
    }
  }

  lemma SecuredBounds(l: Ledger, p: Partition)
    requires SecuredFits(l)
    ensures AllocationFits(Committed(l, p), AddAllocation(PartitionLimit(l.limits, p), Sums(l.holdings, p).overrun))
    ensures AllocationFits(GlobalCommitted(l),
                           AddAllocation(EffectiveLimit(l.limits),
                                         AddAllocation(Sums(l.holdings, Ordinary).overrun,
                                                       Sums(l.holdings, FinalReserve).overrun)))
  {
    CommittedSplits(l.holdings, Ordinary);
    CommittedSplits(l.holdings, FinalReserve);
    hide Sums;
  }

  /**
   * Over every run, each partition and the Run exceed their limit by at most one
   * tolerance plus exactly what children overran: the tolerance does not grow with
   * the number of reservations or extensions.
   */
  lemma CommittedBound(l: Ledger, steps: seq<Step>, p: Partition)
    requires Created(l)
    ensures var after := Run(l, steps);
      && AllocationFits(Committed(after, p),
                        AddAllocation(PartitionLimit(after.limits, p), Sums(after.holdings, p).overrun))
      && AllocationFits(GlobalCommitted(after),
                        AddAllocation(EffectiveLimit(after.limits),
                                      AddAllocation(Sums(after.holdings, Ordinary).overrun,
                                                    Sums(after.holdings, FinalReserve).overrun)))
  {
    RunKeepsSecuredFits(l, steps);
    hide Run, Created;
    SecuredBounds(Run(l, steps), p);
  }

  ghost predicate NoOverrun(hs: seq<Holding>) {
    forall k :: 0 <= k < |hs| ==> Covered(hs[k].actual, EffectiveReserved(hs[k]))
  }

  lemma {:induction false} NoOverrunSum(hs: seq<Holding>, p: Partition)
    requires NoOverrun(hs)
    ensures Sums(hs, p).overrun == ZERO_ALLOCATION
  {
    if hs != [] {
      NoOverrunSum(hs[..|hs| - 1], p);
    }
  }

  /**
   * With no child beyond its reservation, committed tokens and Attempts never exceed a limit and
   * cost never by more than 1e-9 in total.
   */
  lemma CommittedWithinLimits(l: Ledger, steps: seq<Step>, p: Partition)
    requires Created(l) && NoOverrun(Run(l, steps).holdings)
    ensures var after := Run(l, steps);
      && AllocationFits(Committed(after, p), PartitionLimit(after.limits, p))
      && AllocationFits(GlobalCommitted(after), EffectiveLimit(after.limits))
  {
    CommittedBound(l, steps, p);
    NoOverrunSum(Run(l, steps).holdings, Ordinary);
    NoOverrunSum(Run(l, steps).holdings, FinalReserve);
  }

  /**
   * A partition whose committed amount grew by no more than was available, and the Run with it, is
   * within its limit.
   */
  lemma GrowthCommits(limits: RunLimits, ordinary: Allocation, final: Allocation, p: Partition, now: Allocation,
                      growth: Allocation)
    requires AllocationFits(growth, AvailableOf(limits, ordinary, final, p))
    requires Covered(now, AddAllocation(if p == Ordinary then ordinary else final, growth))
    ensures AllocationFits(now, PartitionLimit(limits, p))
    ensures AllocationFits(if p == Ordinary then AddAllocation(now, final) else AddAllocation(ordinary, now),
                           EffectiveLimit(limits))
  {
  }

  /** An extension raises a holding's charge by at most what it adds. */
  lemma ExtensionCharges(h: Holding, added: Allocation)
    requires h.status == Active && NonNegative(added)
    ensures var after := h.(extended := AddAllocation(h.extended, added));
      Covered(ReservationCharge(ChargeOf(after)), AddAllocation(ReservationCharge(ChargeOf(h)), added))
  {
  }

  lemma ExtendCommits(l: Ledger, k: nat, added: Allocation)
    requires Apply(l, Extend(k, added)).Ok?
    ensures var after := Apply(l, Extend(k, added)).value;
      && Covered(Committed(after, Ordinary), AddAllocation(Committed(l, Ordinary), added))
      && Committed(after, FinalReserve) == Committed(l, FinalReserve)
  {
    var h := Apply(l, Extend(k, added)).value.holdings[k];
    SumsUpdate(l.holdings, k, h, Ordinary);
    SumsUpdate(l.holdings, k, h, FinalReserve);
    hide Sums, EffectiveAvailable, AllocationFits;
    ExtensionCharges(l.holdings[k], added);
    hide ReservationCharge, ChargeOf, Secured, Overrun;
  }

  lemma ReserveCommits(l: Ledger, p: Partition, amount: Allocation)
    requires Apply(l, Reserve(p, amount)).Ok?
    ensures var after := Apply(l, Reserve(p, amount)).value;
      && Committed(after, p) == AddAllocation(Committed(l, p), amount)
      && forall other :: other != p ==> Committed(after, other) == Committed(l, other)
  {
    var h := Holding(p, Active, amount, ZERO_ALLOCATION, ZERO_ALLOCATION);
    SumsAppend(l.holdings, h, Ordinary);
    SumsAppend(l.holdings, h, FinalReserve);
    hide Sums, EffectiveAvailable, AllocationFits, Secured, Overrun;
    assert ReservationCharge(ChargeOf(h)) == amount;
  }

  /**
   * Whatever overran earlier, right after an admitted reservation or extension the Run and the
   * partition are within their limits.
   */
  lemma AdmissionRestoresLimits(l: Ledger, step: Step)
    requires Apply(l, step).Ok? && (step.Reserve? || step.Extend?)
    ensures var p := if step.Reserve? then step.partition else Ordinary; var after := Apply(l, step).value;
      && AllocationFits(Committed(after, p), PartitionLimit(after.limits, p))
      && AllocationFits(GlobalCommitted(after), EffectiveLimit(after.limits))
  {
    var after := Apply(l, step).value;
    var p, growth :=
      if step.Reserve? then step.partition else Ordinary, if step.Reserve? then step.amount else step.added;
    if step.Reserve? {
      ReserveCommits(l, p, growth);
    } else {
      ExtendCommits(l, step.index, growth);
    }
    hide Committed, AvailableOf, AllocationFits, PartitionLimit, EffectiveLimit;
    GrowthCommits(l.limits, Committed(l, Ordinary), Committed(l, FinalReserve), p, Committed(after, p), growth);
  }

  // ---------------------------------------------------------------------------
  // What is admitted, and what it writes
  // ---------------------------------------------------------------------------

  /** With `x` more the partition and the Run are within their limits, each by its own committed amounts. */
  ghost predicate StillFits(l: Ledger, p: Partition, x: Allocation) {
    && AllocationFits(AddAllocation(Committed(l, p), x), PartitionLimit(l.limits, p))
    && AllocationFits(AddAllocation(GlobalCommitted(l), x), EffectiveLimit(l.limits))
  }

  /** Reservation `k` exists and was not released. */
  predicate IsActive(l: Ledger, k: nat) {
    k < |l.holdings| && l.holdings[k].status == Active
  }

  /** A proper amount for the step: never negative, one Attempt at least in the final reserve, some growth to add. */
  predicate ProperAmount(step: Step) {
    match step
    case Reserve(p, x) => NonNegative(x) && (p == FinalReserve ==> x.attempts >= 1)
    case Extend(_, x) => NonNegative(x) && x != ZERO_ALLOCATION
    case Increase(_, x) => NonNegative(x) && x != ZERO_ALLOCATION
    case Consume(_, x) => NonNegative(x)
    case Release(_, x) => NonNegative(x)
  }

  /** What admits a step. */
  ghost predicate Admitted(l: Ledger, step: Step) {
    ProperAmount(step) && match step
      case Reserve(p, x) => StillFits(l, p, x)
      case Extend(k, x) => IsActive(l, k) && l.holdings[k].partition == Ordinary && StillFits(l, Ordinary, x)
      case Consume(k, _) => IsActive(l, k)
      case Release(k, _) => IsActive(l, k)
      case Increase(_, _) => true
  }

  /** All an admitted step writes: one row, or the one partition's limit. */
  ghost predicate Written(l: Ledger, step: Step, after: Ledger) {
    match step
    case Reserve(p, x) =>
      after == Ledger(l.limits, l.holdings + [Holding(p, Active, x, ZERO_ALLOCATION, ZERO_ALLOCATION)])
    case Increase(p, x) =>
      && after.holdings == l.holdings
      && PartitionLimit(after.limits, p) == AddAllocation(PartitionLimit(l.limits, p), x)
      && EffectiveLimit(after.limits) == AddAllocation(EffectiveLimit(l.limits), x)
      && (forall q :: q != p ==> PartitionLimit(after.limits, q) == PartitionLimit(l.limits, q))
    case _ =>
      && after.limits == l.limits && step.index < |l.holdings| == |after.holdings|
      && (forall j :: 0 <= j < |l.holdings| && j != step.index ==> after.holdings[j] == l.holdings[j])
      && var was, now := l.holdings[step.index], after.holdings[step.index];
        && now.partition == was.partition && now.original == was.original
        && match step
           case Extend(_, x) =>
             && EffectiveReserved(now) == AddAllocation(EffectiveReserved(was), x)
             && now.actual == was.actual && now.status == Active
           case Consume(_, x) => now.actual == x && now.status == Active && now.extended == was.extended
           case Release(_, x) => now.actual == x && now.status == Released && now.extended == was.extended
           case _ => false
  }

  /** The reason a step is refused for, by what it lacks. */
  ghost function ReasonFor(l: Ledger, step: Step): Refusal {
    var needsRow := step.Extend? || step.Consume? || step.Release?;
    if needsRow && !IsActive(l, step.index) && (step.Consume? || ProperAmount(step)) then NotActive
    else if !ProperAmount(step) then InvalidAmount
    else if step.Extend? && l.holdings[step.index].partition != Ordinary then NotExtendable
    else InsufficientCapacity
  }

  lemma FitsBoth(l: Ledger, p: Partition, x: Allocation)
    ensures AllocationFits(x, EffectiveAvailable(l, p)) <==> StillFits(l, p, x)
  {
    hide Sums;
    EffectiveFits(x, PartitionLimit(l.limits, p), Committed(l, p), EffectiveLimit(l.limits), GlobalCommitted(l));
  }

  ghost predicate StepAnswers(l: Ledger, step: Step) {
    && (Apply(l, step).Ok? <==> Admitted(l, step))
    && (Apply(l, step).Ok? ==> Written(l, step, Apply(l, step).value))
    && (Apply(l, step).Err? ==> Apply(l, step) == Err(ReasonFor(l, step)))
  }

  lemma ReserveMeans(l: Ledger, p: Partition, x: Allocation)
    ensures StepAnswers(l, Reserve(p, x))
  {
    hide EffectiveAvailable, StillFits, AllocationFits;
    FitsBoth(l, p, x);
  }

  lemma ExtendMeans(l: Ledger, k: nat, x: Allocation)
    ensures StepAnswers(l, Extend(k, x))
  {
    hide EffectiveAvailable, StillFits, AllocationFits, PartitionLimit, EffectiveLimit, AddAllocation, NonNegative,
      HasPositive, EffectiveReserved;
    FitsBoth(l, Ordinary, x);
    if NonNegative(x) { SomeGrowth(x); }
    if IsActive(l, k) { ExtendsBy(l.holdings[k], x); }
  }

  lemma SomeGrowth(x: Allocation)
    requires NonNegative(x)
    ensures HasPositive(x) <==> x != ZERO_ALLOCATION
  {
  }

  lemma ExtendsBy(h: Holding, x: Allocation)
    ensures EffectiveReserved(h.(extended := AddAllocation(h.extended, x))) == AddAllocation(EffectiveReserved(h), x)
  {
  }

  lemma ConsumptionMeans(l: Ledger, step: Step)
    requires step.Consume? || step.Release?
    ensures StepAnswers(l, step)
  {
    hide EffectiveAvailable, StillFits, AllocationFits, PartitionLimit, EffectiveLimit, AddAllocation;
  }

  lemma IncreaseMeans(l: Ledger, p: Partition, x: Allocation)
    ensures StepAnswers(l, Increase(p, x))
  {
    if Apply(l, Increase(p, x)).Ok? {
      LimitsMean(l.limits);
      LimitsMean(Apply(l, Increase(p, x)).value.limits);
    }
    hide PartitionLimit, EffectiveLimit, StillFits;
  }

  lemma StepMeans(l: Ledger, step: Step)
    ensures StepAnswers(l, step)
  {
    hide StepAnswers;
    match step
    case Reserve(p, x) => ReserveMeans(l, p, x);
    case Extend(k, x) => ExtendMeans(l, k, x);
    case Increase(p, x) => IncreaseMeans(l, p, x);
    case _ => ConsumptionMeans(l, step);
  }

  /**
   * In every run of the ledger a step is admitted if and only if its amount is proper, its reservation active where it
   * names one, and with it the partition and the Run still fit their limits; then it writes its one row or limit and
   * nothing else. A refused step writes nothing, and consumption of an active reservation is never refused for want of
   * capacity.
   */
  lemma AdmittedExactly(l: Ledger, steps: seq<Step>, step: Step)
    ensures var before, after := Run(l, steps), Run(l, steps + [step]);
      && (if Admitted(before, step) then Apply(before, step) == Ok(after) && Written(before, step, after)
          else Apply(before, step) == Err(ReasonFor(before, step)) && after == before)
      && (step.Consume? && IsActive(before, step.index) && ProperAmount(step) ==> Admitted(before, step))
  {
    assert (steps + [step])[..|steps|] == steps;
    StepMeans(Run(l, steps), step);
    hide Admitted, Written, ReasonFor, Apply;
    assert step.Consume? && IsActive(Run(l, steps), step.index) && ProperAmount(step) ==> Admitted(Run(l, steps), step)
      by { ConsumptionAdmitted(Run(l, steps), step); }
  }

  lemma ConsumptionAdmitted(l: Ledger, step: Step)
    ensures step.Consume? && IsActive(l, step.index) && ProperAmount(step) ==> Admitted(l, step)
  {
  }

  // ---------------------------------------------------------------------------
  // Shortfalls and extensions
  // ---------------------------------------------------------------------------

  /** Zero exactly when the requirement fits; enough; and no exact cover is smaller in any component. */
  lemma ShortfallExact(required: Allocation, available: Allocation)
    ensures AllocationShortfall(required, available) == ZERO_ALLOCATION <==> AllocationFits(required, available)
    ensures AllocationFits(required, AddAllocation(available, AllocationShortfall(required, available)))
    ensures forall cover :: NonNegative(cover) && Covered(required, AddAllocation(available, cover)) ==>
                            Covered(AllocationShortfall(required, available), cover)
  {
  }

  /** Why only exact covers are dominated: an amount short by the tolerance still fits. */
  lemma ToleranceAdmitsLess()
    ensures exists required, available, less ::
      && AllocationFits(required, AddAllocation(available, less))
      && less.costUsd < AllocationShortfall(required, available).costUsd
  {
    var required, less := Allocation(1.0, 0, 0), Allocation(1.0 - COST_TOLERANCE, 0, 0);
    assert AllocationFits(required, AddAllocation(ZERO_ALLOCATION, less))
      && less.costUsd < AllocationShortfall(required, ZERO_ALLOCATION).costUsd;
  }

  /**
   * An extension raises the Run's committed amount by at most what it adds, and by
   * exactly that in a component if and only if it adds nothing there or the node has
   * not consumed beyond its reservation there.
   */
  lemma ExtensionRaisesCommitted(l: Ledger, k: nat, added: Allocation, after: Ledger)
    requires k < |l.holdings| && Apply(l, Extend(k, added)) == Ok(after)
    ensures var raise := SubtractAllocation(GlobalCommitted(after), GlobalCommitted(l));
      var reserved, actual := EffectiveReserved(l.holdings[k]), l.holdings[k].actual;
      && NonNegative(raise) && Covered(raise, added)
      && (raise.costUsd == added.costUsd <==> added.costUsd == 0.0 || actual.costUsd <= reserved.costUsd)
      && (raise.tokens == added.tokens <==> added.tokens == 0 || actual.tokens <= reserved.tokens)
      && (raise.attempts == added.attempts <==> added.attempts == 0 || actual.attempts <= reserved.attempts)
  {
    SumsUpdate(l.holdings, k, after.holdings[k], Ordinary);
    SumsUpdate(l.holdings, k, after.holdings[k], FinalReserve);
  }

  // ---------------------------------------------------------------------------
  // Funding one child of a Plan Node
  // ---------------------------------------------------------------------------

  datatype Exhaustion = Fail | Wait | ExtendNode

  datatype NodeStatus = NodePending | NodeReady | NodeRunning | NodeWaiting | NodeSucceeded | NodeFailed
    | NodeCancelled | NodeSkipped

  /** A Plan Node's row: its Run, whether it is a `pattern` node or a join, its status, and its exhaustion policy. */
  datatype PlanNode = PlanNode(run: nat, pattern: bool, status: NodeStatus, policy: Exhaustion)

  datatype Ineligibility = ForeignRun(run: nat) | JoinNode | NodeNotActive(status: NodeStatus)

  /** Ownership, kind and lifecycle of the node, in that order, before any arithmetic. */
  function Eligibility(node: PlanNode, claimed: nat): Option<Ineligibility> {
    if node.run != claimed then Some(ForeignRun(node.run))
    else if !node.pattern then Some(JoinNode)
    else if node.status !in {NodeReady, NodeRunning, NodeWaiting} then Some(NodeNotActive(node.status))
    else None
  }

  datatype Funding = Funded(ledger: Ledger) | Refused(policy: Exhaustion) | Ineligible(reason: Ineligibility)

  /** What the node may still reserve for its own children: its effective allocation less their charges. */
  function NodeAvailable(l: Ledger, k: nat, children: Allocation): Allocation
    requires k < |l.holdings|
  {
    SubtractAllocation(EffectiveReserved(l.holdings[k]), children)
  }

  /** An eligible node holds an active ordinary reservation. */
  predicate Holds(l: Ledger, k: nat) {
    k < |l.holdings| && l.holdings[k].status == Active && l.holdings[k].partition == Ordinary
  }

  /**
   * Funds `required` for the node that holds reservation `k` and that its caller claims
   * for a Run: directly, or by exactly the minimum extension its policy and the Run
   * permit, and not at all for a node that may not fund a child.
   */
  function Ensure(l: Ledger, node: PlanNode, claimed: nat, k: nat, children: Allocation, required: Allocation): Funding
    requires Eligibility(node, claimed) == None ==> Holds(l, k)
  {
    match Eligibility(node, claimed)
    case Some(reason) => Ineligible(reason)
    case None =>
      var shortfall := AllocationShortfall(required, NodeAvailable(l, k, children));
      if !HasPositive(shortfall) then Funded(l)
      else match node.policy
        case Fail => Refused(Fail)
        case Wait => Refused(Wait)
        case ExtendNode =>
          match Apply(l, Extend(k, shortfall))
          case Ok(extended) => Funded(extended)
          case Err(_) => Refused(Wait)
  }

  /**
   * A funded child fits its node, so the reservation that follows in the same
   * transaction is admitted; only an `extend` node ever grows, by the shortfall
   * alone; the Run's own invariant survives; a refusal means that the node is short
   * and either its policy forbids growth or the Run cannot cover the shortfall; and a
   * node of another Run, a join, or one that is not ready, running or waiting neither
   * funds nor refuses, however much it holds.
   */
  lemma EnsureFunds(l: Ledger, node: PlanNode, claimed: nat, k: nat, children: Allocation, required: Allocation)
    requires Eligibility(node, claimed) == None ==> Holds(l, k)
    requires SecuredFits(l)
    ensures var outcome := Ensure(l, node, claimed, k, children, required);
      && (outcome.Ineligible? <==>
          node.run != claimed || !node.pattern || node.status !in {NodeReady, NodeRunning, NodeWaiting})
      && (outcome == Ineligible(ForeignRun(node.run)) <==> node.run != claimed)
      && (outcome == Ineligible(JoinNode) <==> node.run == claimed && !node.pattern)
      && (outcome.Ineligible? && outcome.reason.NodeNotActive? ==> outcome.reason.status == node.status)
      && (!outcome.Ineligible? ==>
            var short := !AllocationFits(required, NodeAvailable(l, k, children));
            var shortfall := AllocationShortfall(required, NodeAvailable(l, k, children));
            && (outcome.Refused? <==>
                short && (node.policy != ExtendNode || !AllocationFits(shortfall, EffectiveAvailable(l, Ordinary))))
            && (outcome.Refused? ==> outcome.policy == if node.policy == Fail then Fail else Wait)
            && (outcome.Funded? ==>
                  && SecuredFits(outcome.ledger)
                  && |outcome.ledger.holdings| == |l.holdings|
                  && AllocationFits(required, NodeAvailable(outcome.ledger, k, children))
                  && (outcome.ledger != l ==> node.policy == ExtendNode && short)
                  && outcome.ledger.limits == l.limits
                  && EffectiveReserved(outcome.ledger.holdings[k]) ==
                        AddAllocation(EffectiveReserved(l.holdings[k]), shortfall)
                  && (forall j :: 0 <= j < |l.holdings| && j != k ==> outcome.ledger.holdings[j] == l.holdings[j])))
  {
    if Eligibility(node, claimed) == None {
      var available := NodeAvailable(l, k, children);
      var shortfall := AllocationShortfall(required, available);
      ShortfallExact(required, available);
      hide SecuredFits, EffectiveAvailable;
      var step := Extend(k, shortfall);
      if HasPositive(shortfall) && Apply(l, step).Ok? {
        StepKeepsSecuredFits(l, step);
      }
    }
  }
}
