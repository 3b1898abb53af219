/**
 * Budget accounting: component-wise Allocation arithmetic, the signed capacity
 * accounts of a Run's two partitions, and what every run of reserve, consume,
 * extend, release and increase keeps. Cost is a real; tokens and Attempts are
 * integers, and nothing is clamped.
 */
module Budgets {
  import opened Wrappers

  datatype Allocation = Allocation(costUsd: real, tokens: int, attempts: int)

  const ZERO_ALLOCATION := Allocation(0.0, 0, 0)

  /** The one cost tolerance, used by the fit test and by the shortfall. */
  const COST_TOLERANCE := 0.000000001

  function AddAllocation(a: Allocation, b: Allocation): Allocation {
    Allocation(a.costUsd + b.costUsd, a.tokens + b.tokens, a.attempts + b.attempts)
  }

  function SubtractAllocation(a: Allocation, b: Allocation): Allocation {
    Allocation(a.costUsd - b.costUsd, a.tokens - b.tokens, a.attempts - b.attempts)
  }

  lemma AddSwap(a: Allocation, b: Allocation, c: Allocation)
    ensures AddAllocation(AddAllocation(a, b), c) == AddAllocation(AddAllocation(a, c), b)
    ensures AddAllocation(a, ZERO_ALLOCATION) == a
  {
  }

  function MaxAllocation(a: Allocation, b: Allocation): Allocation {
    Allocation(if a.costUsd >= b.costUsd then a.costUsd else b.costUsd,
               if a.tokens >= b.tokens then a.tokens else b.tokens,
               if a.attempts >= b.attempts then a.attempts else b.attempts)
  }

  function MinAllocation(a: Allocation, b: Allocation): Allocation {
    Allocation(if a.costUsd <= b.costUsd then a.costUsd else b.costUsd,
               if a.tokens <= b.tokens then a.tokens else b.tokens,
               if a.attempts <= b.attempts then a.attempts else b.attempts)
  }

  predicate AllocationFits(needed: Allocation, available: Allocation) {
    && needed.costUsd <= available.costUsd + COST_TOLERANCE
    && needed.tokens <= available.tokens
    && needed.attempts <= available.attempts
  }

  predicate NonNegative(a: Allocation) {
    a.costUsd >= 0.0 && a.tokens >= 0 && a.attempts >= 0
  }

  predicate HasPositive(a: Allocation) {
    a.costUsd > 0.0 || a.tokens > 0 || a.attempts > 0
  }

  function AllocationShortfall(required: Allocation, available: Allocation): Allocation {
    var cost := required.costUsd - available.costUsd;
    Allocation(if cost > COST_TOLERANCE then cost else 0.0,
               if required.tokens - available.tokens > 0 then required.tokens - available.tokens else 0,
               if required.attempts - available.attempts > 0 then required.attempts - available.attempts else 0)
  }

  /** Exact component-wise order, without the tolerance of `AllocationFits`. */
  predicate Covered(a: Allocation, b: Allocation) {
    a.costUsd <= b.costUsd && a.tokens <= b.tokens && a.attempts <= b.attempts
  }

  // ---------------------------------------------------------------------------
  // Accounts
  // ---------------------------------------------------------------------------

  datatype ReservationStatus = Active | Released

  /** One child as accounting sees it: its effective reserved amounts and what it consumed. */
  datatype Charge = Charge(status: ReservationStatus, reserved: Allocation, actual: Allocation)

  function ReservationCharge(c: Charge): Allocation {
    if c.status == Active then MaxAllocation(c.reserved, c.actual) else c.actual
  }

  datatype Account = Account(limit: Allocation, reserved: Allocation, consumed: Allocation, active: Allocation,
                             committed: Allocation, available: Allocation)

  /** What all children together count for. */
  ghost function TotalCharge(charges: seq<Charge>): Allocation {
    if charges == [] then ZERO_ALLOCATION
    else AddAllocation(TotalCharge(charges[..|charges| - 1]), ReservationCharge(charges[|charges| - 1]))
  }

  ghost function ReservedSum(charges: seq<Charge>): Allocation {
    if charges == [] then ZERO_ALLOCATION
    else
      var last := charges[|charges| - 1];
      AddAllocation(ReservedSum(charges[..|charges| - 1]),
                    if last.status == Active then last.reserved else ZERO_ALLOCATION)
  }

  ghost function ReleasedSum(charges: seq<Charge>): Allocation {
    if charges == [] then ZERO_ALLOCATION
    else
      var last := charges[|charges| - 1];
      AddAllocation(ReleasedSum(charges[..|charges| - 1]),
                    if last.status == Active then ZERO_ALLOCATION else last.actual)
  }

  /** The accumulation loop: the five running sums, and the signed availability left of the limit. */
  method CapacityAccount(limit: Allocation, charges: seq<Charge>, direct: Allocation) returns (account: Account)
    ensures account.limit == limit
    ensures account.reserved == ReservedSum(charges)
    ensures account.consumed == AddAllocation(direct, ReleasedSum(charges))
    ensures account.committed == AddAllocation(account.active, account.consumed)
    ensures account.committed == AddAllocation(direct, TotalCharge(charges))
    ensures account.available == SubtractAllocation(limit, account.committed)
  {
    var reserved, consumed, active := ZERO_ALLOCATION, direct, ZERO_ALLOCATION;
    for i := 0 to |charges|
      invariant reserved == ReservedSum(charges[..i])
      invariant consumed == AddAllocation(direct, ReleasedSum(charges[..i]))
      invariant AddAllocation(active, consumed) == AddAllocation(direct, TotalCharge(charges[..i]))
    {
      assert charges[..i + 1][..i] == charges[..i];
      if charges[i].status == Active {
        reserved := AddAllocation(reserved, charges[i].reserved);
        active := AddAllocation(active, ReservationCharge(charges[i]));
      } else {
        consumed := AddAllocation(consumed, charges[i].actual);
      }
    }
    assert charges[..|charges|] == charges;
    var committed := AddAllocation(active, consumed);
    account := Account(limit, reserved, consumed, active, committed, SubtractAllocation(limit, committed));
  }

  lemma {:induction false} TotalChargeAppend(left: seq<Charge>, right: seq<Charge>)
    ensures TotalCharge(left + right) == AddAllocation(TotalCharge(left), TotalCharge(right))
  {
    if right == [] {
      assert left + right == left;
    } else {
      TotalChargeAppend(left, right[..|right| - 1]);
      assert (left + right)[..|left + right| - 1] == left + right[..|right| - 1];
    }
  }

  // ---------------------------------------------------------------------------
  // The two partitions of one Run Budget
  // ---------------------------------------------------------------------------

  datatype Partition = Ordinary | FinalReserve

  /** The immutable base limits and the approved increases, summed per partition. */
  datatype RunLimits = RunLimits(baseLimit: Allocation, baseFinalReserve: Allocation, ordinary: Allocation,
                                 finalReserve: Allocation)

  function EffectiveLimit(b: RunLimits): Allocation {
    AddAllocation(AddAllocation(b.baseLimit, b.ordinary), b.finalReserve)
  }

  function PartitionLimit(b: RunLimits, p: Partition): Allocation {
    var final := AddAllocation(b.baseFinalReserve, b.finalReserve);
    if p == FinalReserve then final else SubtractAllocation(EffectiveLimit(b), final)
  }

  /**
   * The final reserve's limit is its own base and increases; the ordinary one is what the base Budget leaves beside the
   * base reserve, and its own increases; so an increase of one partition moves no limit of the other.
   */
  lemma LimitsMean(b: RunLimits)
    ensures PartitionLimit(b, FinalReserve) == AddAllocation(b.baseFinalReserve, b.finalReserve)
    ensures PartitionLimit(b, Ordinary) ==
            AddAllocation(SubtractAllocation(b.baseLimit, b.baseFinalReserve), b.ordinary)
    ensures EffectiveLimit(b) == AddAllocation(b.baseLimit, AddAllocation(b.ordinary, b.finalReserve))
  {
  }

  /** The Run's accounts: the whole Budget, both partitions, and what each partition may still reserve. */
  datatype RunCapacity = RunCapacity(global: Account, ordinary: Account, final: Account,
                                     ordinaryEffective: Allocation, finalEffective: Allocation)

  /** `own` less whatever the other partition has overrun. */
  ghost function LessOverrun(own: Allocation, other: Allocation): Allocation {
    AddAllocation(own, MinAllocation(ZERO_ALLOCATION, other))
  }

  /** The partitions' limits add up to the Run's, so their availabilities do too, whatever is charged to either. */
  lemma PartitionsAddUp(b: RunLimits, ordinary: Allocation, final: Allocation)
    ensures SubtractAllocation(EffectiveLimit(b), AddAllocation(ordinary, final)) ==
            AddAllocation(SubtractAllocation(PartitionLimit(b, Ordinary), ordinary),
                          SubtractAllocation(PartitionLimit(b, FinalReserve), final))
  {
  }

  lemma BoundedByGlobal(own: Allocation, other: Allocation)
    ensures MinAllocation(own, AddAllocation(own, other)) == LessOverrun(own, other)
    ensures MinAllocation(own, AddAllocation(other, own)) == LessOverrun(own, other)
  {
  }

  /**
   * For all charges, overrun or not, the global availability is exactly the sum of
   * the two partitions' availabilities, and each partition may therefore reserve its
   * own availability less exactly the other's overrun.
   */
  method RunCapacityAccount(b: RunLimits, ordinary: seq<Charge>, final: seq<Charge>) returns (c: RunCapacity)
    ensures c.global.limit == EffectiveLimit(b)
    ensures c.ordinary.limit == PartitionLimit(b, Ordinary) && c.final.limit == PartitionLimit(b, FinalReserve)
    ensures c.ordinary.committed == TotalCharge(ordinary) && c.final.committed == TotalCharge(final)
    ensures c.global.committed == AddAllocation(c.ordinary.committed, c.final.committed)
    ensures c.ordinary.available == SubtractAllocation(c.ordinary.limit, c.ordinary.committed)
    ensures c.final.available == SubtractAllocation(c.final.limit, c.final.committed)
    ensures c.global.available == AddAllocation(c.ordinary.available, c.final.available)
    ensures c.ordinaryEffective == LessOverrun(c.ordinary.available, c.final.available)
    ensures c.finalEffective == LessOverrun(c.final.available, c.ordinary.available)
  {
    hide TotalCharge, ReservedSum, ReleasedSum, EffectiveLimit, PartitionLimit, LessOverrun, MinAllocation,
      SubtractAllocation;
    var global := CapacityAccount(EffectiveLimit(b), ordinary + final, ZERO_ALLOCATION);
    var own := CapacityAccount(PartitionLimit(b, Ordinary), ordinary, ZERO_ALLOCATION);
    var reserve := CapacityAccount(PartitionLimit(b, FinalReserve), final, ZERO_ALLOCATION);
    TotalChargeAppend(ordinary, final);
    PartitionsAddUp(b, TotalCharge(ordinary), TotalCharge(final));
    BoundedByGlobal(own.available, reserve.available);
    BoundedByGlobal(reserve.available, own.available);
    c := RunCapacity(global, own, reserve, MinAllocation(own.available, global.available),
                     MinAllocation(reserve.available, global.available));
  }

  /**
   * What a partition may still reserve is admitted exactly when it keeps both the partition and the
   * whole Run within their limits.
   */
  lemma EffectiveFits(x: Allocation, limit: Allocation, committed: Allocation, globalLimit: Allocation,
                      globalCommitted: Allocation)
    ensures AllocationFits(x,
                           MinAllocation(SubtractAllocation(limit, committed),
                                         SubtractAllocation(globalLimit, globalCommitted))) <==>
            AllocationFits(AddAllocation(committed, x), limit)
              && AllocationFits(AddAllocation(globalCommitted, x), globalLimit)
  {
  }
}
