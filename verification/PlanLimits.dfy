/**
 * The limits of a parsed plan source: how deep its Patterns nest and how many rounds any
 * of them unrolls, checked after the object graph and the schema.
 */
module PlanLimits {
  import opened Wrappers
  import PlanSource

  datatype Expression =
    | Single | CoordinatorWorker
    | Chain(steps: seq<Expression>) | Parallel(items: seq<Expression>) | Route(branches: seq<Expression>)
    | EvaluatorOptimizer(producer: Expression, maxRounds: nat)

  function Parts(e: Expression): seq<Expression> {
    match e
    case Chain(steps) => steps
    case Parallel(items) => items
    case Route(branches) => branches
    case EvaluatorOptimizer(producer, _) => [producer]
    case _ => []
  }

  /** A leaf is 1 and nesting adds 1 per level; the schema admits no Pattern without parts. */
  function PlanExpressionDepth(e: Expression): nat {
    match e
    case Chain(steps) => 1 + MaxDepth(steps)
    case Parallel(items) => 1 + MaxDepth(items)
    case Route(branches) => 1 + MaxDepth(branches)
    case EvaluatorOptimizer(producer, _) => 1 + PlanExpressionDepth(producer)
    case _ => 1
  }

  function MaxDepth(es: seq<Expression>): nat {
    if es == [] then 0
    else
      var first, rest := PlanExpressionDepth(es[0]), MaxDepth(es[1..]);
      if first >= rest then first else rest
  }

  /** The round limits of every evaluator-optimizer, in the order a walk meets them. */
  function Rounds(e: Expression): seq<nat> {
    match e
    case Chain(steps) => AllRounds(steps)
    case Parallel(items) => AllRounds(items)
    case Route(branches) => AllRounds(branches)
    case EvaluatorOptimizer(producer, maxRounds) => [maxRounds] + Rounds(producer)
    case _ => []
  }

  function AllRounds(es: seq<Expression>): seq<nat> {
    if es == [] then [] else Rounds(es[0]) + AllRounds(es[1..])
  }

  /** The walk that pushes every round limit it meets onto `out`. */
  method CollectRounds(e: Expression, out: seq<nat>) returns (r: seq<nat>)
    ensures r == out + Rounds(e)
    decreases e
  {
    match e
    case Chain(steps) => r := CollectAll(steps, out);
    case Parallel(items) => r := CollectAll(items, out);
    case Route(branches) => r := CollectAll(branches, out);
    case EvaluatorOptimizer(producer, maxRounds) => r := CollectRounds(producer, out + [maxRounds]);
    case _ => r := out;
  }

  method CollectAll(es: seq<Expression>, out: seq<nat>) returns (r: seq<nat>)
    ensures r == out + AllRounds(es)
    decreases es
  {
    r := out;
    for k := 0 to |es|
      invariant r + AllRounds(es[k..]) == out + AllRounds(es)
    {
      assert es[k..][0] == es[k] && es[k..][1..] == es[k + 1..];
      ghost var before := r;
      r := CollectRounds(es[k], r);
      assert before + (Rounds(es[k]) + AllRounds(es[k + 1..])) == r + AllRounds(es[k + 1..]);
    }
  }

  // ---------------------------------------------------------------------------
  // Nesting
  // ---------------------------------------------------------------------------

  /** A chain of Patterns, each a part of the one before it, from `e` inwards. */
  ghost predicate Nesting(e: Expression, p: seq<Expression>) {
    p != [] && p[0] == e && forall k :: 0 < k < |p| ==> p[k] in Parts(p[k - 1])
  }

  lemma {:induction false} DeepestPart(es: seq<Expression>, part: Expression)
    requires part in es
    ensures PlanExpressionDepth(part) <= MaxDepth(es)
  {
    if part != es[0] {
      assert es == [es[0]] + es[1..];
      DeepestPart(es[1..], part);
    }
  }

  lemma {:induction false} SomeDeepest(es: seq<Expression>) returns (part: Expression)
    requires es != []
    ensures part in es && PlanExpressionDepth(part) == MaxDepth(es)
  {
    part := es[0];
    if MaxDepth(es[1..]) > PlanExpressionDepth(es[0]) {
      part := SomeDeepest(es[1..]);
    }
  }

  lemma DepthOverParts(e: Expression)
    ensures PlanExpressionDepth(e) == 1 + MaxDepth(Parts(e))
  {
    if e.EvaluatorOptimizer? { assert [e.producer][1..] == []; }
  }

  lemma {:induction false} NoDeeper(e: Expression, p: seq<Expression>)
    requires Nesting(e, p)
    ensures |p| <= PlanExpressionDepth(e)
    decreases |p|
  {
    DepthOverParts(e);
    if |p| > 1 {
      assert p[1] in Parts(p[0]);
      DeepestPart(Parts(e), p[1]);
      NoDeeper(p[1], p[1..]);
    }
  }

  lemma {:induction false} AsDeep(e: Expression) returns (p: seq<Expression>)
    ensures Nesting(e, p) && |p| == PlanExpressionDepth(e)
    decreases PlanExpressionDepth(e)
  {
    DepthOverParts(e);
    p := [e];
    if Parts(e) != [] {
      var part := SomeDeepest(Parts(e));
      var inner := AsDeep(part);
      p := [e] + inner;
    }
  }

  /** Every evaluator-optimizer nested anywhere in the expression has its rounds collected, and nothing else has. */
  ghost predicate Unrolls(e: Expression, rounds: nat) {
    exists p: seq<Expression> :: Nesting(e, p) && p[|p| - 1].EvaluatorOptimizer? && p[|p| - 1].maxRounds == rounds
  }

  lemma UnrollsInside(e: Expression, part: Expression, rounds: nat)
    requires part in Parts(e) && Unrolls(part, rounds)
    ensures Unrolls(e, rounds)
  {
    var p: seq<Expression> :| Nesting(part, p) && p[|p| - 1].EvaluatorOptimizer? && p[|p| - 1].maxRounds == rounds;
    var q := [e] + p;
    assert Nesting(e, q) && q[|q| - 1] == p[|p| - 1];
  }

  lemma UnrollsFrom(e: Expression, rounds: nat)
    requires Unrolls(e, rounds)
    ensures (e.EvaluatorOptimizer? && e.maxRounds == rounds) || exists part :: part in Parts(e) && Unrolls(part, rounds)
  {
    var p: seq<Expression> :| Nesting(e, p) && p[|p| - 1].EvaluatorOptimizer? && p[|p| - 1].maxRounds == rounds;
    if |p| > 1 {
      assert p[1] in Parts(p[0]);
      assert Nesting(p[1], p[1..]) && p[1..][|p| - 2] == p[|p| - 1];
      assert Unrolls(p[1], rounds);
    }
  }

  lemma RoundsOverParts(e: Expression)
    ensures Rounds(e) == (if e.EvaluatorOptimizer? then [e.maxRounds] else []) + AllRounds(Parts(e))
  {
    if e.EvaluatorOptimizer? { assert [e.producer][1..] == []; }
  }

  lemma {:induction false} RoundsAreUnrolled(e: Expression, rounds: nat)
    ensures rounds in Rounds(e) <==> Unrolls(e, rounds)
    decreases PlanExpressionDepth(e), 0
  {
    RoundsOverParts(e);
    DepthOverParts(e);
    AllRoundsAreUnrolled(Parts(e), rounds);
    if Unrolls(e, rounds) { UnrollsFrom(e, rounds); }
    if e.EvaluatorOptimizer? && e.maxRounds == rounds { assert Nesting(e, [e]) && [e][0] == e; }
    if part :| part in Parts(e) && Unrolls(part, rounds) { UnrollsInside(e, part, rounds); }
  }

  lemma {:induction false} AllRoundsAreUnrolled(es: seq<Expression>, rounds: nat)
    ensures rounds in AllRounds(es) <==> exists part :: part in es && Unrolls(part, rounds)
    decreases MaxDepth(es), |es| + 1
  {
    hide Unrolls;
    if es != [] {
      assert es == [es[0]] + es[1..];
      RoundsAreUnrolled(es[0], rounds);
      AllRoundsAreUnrolled(es[1..], rounds);
    }
  }

  // ---------------------------------------------------------------------------
  // Validation
  // ---------------------------------------------------------------------------

  datatype Limits = Limits(maxPlanDepth: nat, maxUnrolledRounds: nat)

  const MAX_SOURCE_OBJECT_DEPTH := 64

  datatype Defect = SourceObject(defect: PlanSource.Defect) | Unparsable | ExcessiveDepth(index: nat)
    | ExcessiveRounds(index: nat)

  /** No Patterns nested deeper, and no evaluator-optimizer unrolled further, than the limits allow. */
  ghost predicate WithinLimits(e: Expression, limits: Limits) {
    && (forall p :: Nesting(e, p) ==> |p| <= limits.maxPlanDepth)
    && (forall rounds: nat :: Unrolls(e, rounds) ==> rounds <= limits.maxUnrolledRounds)
  }

  /** No unrolling in the list exceeds the limit. */
  predicate NoneAbove(rounds: seq<nat>, limit: nat) {
    forall k :: 0 <= k < |rounds| ==> rounds[k] <= limit
  }

  lemma WithinExactly(e: Expression, limits: Limits)
    ensures WithinLimits(e, limits) <==>
      PlanExpressionDepth(e) <= limits.maxPlanDepth && NoneAbove(Rounds(e), limits.maxUnrolledRounds)
  {
    var p := AsDeep(e);
    forall p | Nesting(e, p) ensures |p| <= PlanExpressionDepth(e) { NoDeeper(e, p); }
    forall n: nat ensures n in Rounds(e) <==> Unrolls(e, n) { RoundsAreUnrolled(e, n); }
    assert forall k :: 0 <= k < |Rounds(e)| ==> Rounds(e)[k] in Rounds(e);
    hide Unrolls, PlanExpressionDepth, Rounds;
  }

  method CheckExpression(e: Expression, limits: Limits, index: nat) returns (defect: Option<Defect>)
    ensures defect == None <==> WithinLimits(e, limits)
    ensures defect.Some? ==> defect.value == if PlanExpressionDepth(e) > limits.maxPlanDepth then ExcessiveDepth(index)
      else ExcessiveRounds(index)
  {
    WithinExactly(e, limits);
    hide WithinLimits, PlanExpressionDepth, Rounds;
    if PlanExpressionDepth(e) > limits.maxPlanDepth { return Some(ExcessiveDepth(index)); }
    var rounds := CollectRounds(e, []);
    assert rounds == Rounds(e) by { assert [] + Rounds(e) == Rounds(e); }
    for k := 0 to |rounds|
      invariant NoneAbove(rounds[..k], limits.maxUnrolledRounds)
    {
      if rounds[k] > limits.maxUnrolledRounds { return Some(ExcessiveRounds(index)); }
    }
    assert rounds[..|rounds|] == rounds;
    return None;
  }

  /**
   * A source revision is accepted if and only if its object graph nests at most 64
   * objects on any path, the schema parses it, and every expression stays within the
   * limits; `parsed` is what the schema makes of the value.
   */
  method ValidateExecutionPlanSource(g: PlanSource.Graph, value: Option<nat>, parsed: Option<seq<Expression>>,
                                     limits: Limits)
    returns (r: Result<seq<Expression>, Defect>)
    ensures r.Ok? <==>
      && (value.Some? ==> PlanSource.Shallow(g, value.value, MAX_SOURCE_OBJECT_DEPTH))
      && parsed.Some? && forall k :: 0 <= k < |parsed.value| ==> WithinLimits(parsed.value[k], limits)
    ensures r.Ok? ==> r.value == parsed.value
    ensures r.Err? && (r.error.ExcessiveDepth? || r.error.ExcessiveRounds?) ==>
      && parsed.Some? && r.error.index < |parsed.value| && !WithinLimits(parsed.value[r.error.index], limits)
      && forall k :: 0 <= k < r.error.index ==> WithinLimits(parsed.value[k], limits)
  {
    hide WithinLimits;
    var defect := PlanSource.AssertSourceObjectAcyclic(g, value, MAX_SOURCE_OBJECT_DEPTH);
    if defect.Some? { return Err(SourceObject(defect.value)); }
    if parsed == None { return Err(Unparsable); }
    for k := 0 to |parsed.value|
      invariant forall j :: 0 <= j < k ==> WithinLimits(parsed.value[j], limits)
    {
      var own := CheckExpression(parsed.value[k], limits, k);
      if own.Some? { return Err(own.value); }
    }
    return Ok(parsed.value);
  }
}
