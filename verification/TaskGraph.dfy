/**
 * Task dependencies: the worklist that decides whether one more edge would close a
 * cycle, and the acyclic graph that inserting only unflagged edges keeps.
 */
module TaskGraph {
  /** `task` depends on `on`. */
  datatype Edge = Edge(task: nat, on: nat)

  /** A chain of dependencies, each entry depending on the next. */
  ghost predicate IsChain(edges: seq<Edge>, p: seq<nat>) {
    p != [] && forall k :: 0 < k < |p| ==> Edge(p[k - 1], p[k]) in edges
  }

  ghost predicate Chain(edges: seq<Edge>, p: seq<nat>, from: nat, to: nat) {
    IsChain(edges, p) && p[0] == from && p[|p| - 1] == to
  }

  /** `to` is `from` or something `from` transitively depends on. */
  ghost predicate Reaches(edges: seq<Edge>, from: nat, to: nat) {
    exists p :: Chain(edges, p, from, to)
  }

  /** No Task transitively depends on itself. */
  ghost predicate Acyclic(edges: seq<Edge>) {
    forall p :: IsChain(edges, p) && |p| >= 2 ==> p[0] != p[|p| - 1]
  }

  // ---------------------------------------------------------------------------
  // Reachability
  // ---------------------------------------------------------------------------

  lemma ReachesSelf(edges: seq<Edge>, a: nat)
    ensures Reaches(edges, a, a)
  {
    assert Chain(edges, [a], a, a);
  }

  lemma ReachesStep(edges: seq<Edge>, from: nat, at: nat, next: nat)
    requires Reaches(edges, from, at) && Edge(at, next) in edges
    ensures Reaches(edges, from, next)
  {
    var p :| Chain(edges, p, from, at);
    assert Chain(edges, p + [next], from, next);
  }

  /** A set closed under the edges holds every Task reachable from its members. */
  lemma {:induction false} ClosedHolds(edges: seq<Edge>, closed: set<nat>, p: seq<nat>)
    requires IsChain(edges, p) && p[0] in closed
    requires forall e :: e in edges && e.task in closed ==> e.on in closed
    ensures p[|p| - 1] in closed
  {
    if |p| > 1 {
      assert Edge(p[0], p[1]) in edges;
      ClosedHolds(edges, closed, p[1..]);
    }
  }

  function Successors(edges: seq<Edge>, task: nat): (next: seq<nat>)
    ensures forall n :: n in next <==> Edge(task, n) in edges
  {
    if edges == [] then []
    else
      var last := edges[|edges| - 1];
      Successors(edges[..|edges| - 1], task) + (if last.task == task then [last.on] else [])
  }

  /** The adjacency lists, one per Task that depends on anything, in insertion order. */
  method Adjacency(edges: seq<Edge>) returns (adjacency: map<nat, seq<nat>>)
    ensures forall t :: (if t in adjacency then adjacency[t] else []) == Successors(edges, t)
  {
    adjacency := map[];
    for k := 0 to |edges|
      invariant forall t :: (if t in adjacency then adjacency[t] else []) == Successors(edges[..k], t)
    {
      assert edges[..k + 1][..k] == edges[..k];
      var list := if edges[k].task in adjacency then adjacency[edges[k].task] else [];
      adjacency := adjacency[edges[k].task := list + [edges[k].on]];
    }
    assert edges[..|edges|] == edges;
  }

  /** Every Task the walk can meet. */
  ghost function Nodes(edges: seq<Edge>, start: nat): set<nat> {
    {start} + (set e | e in edges :: e.on)
  }

  /** What was visited is closed but for what is still on the stack. */
  ghost predicate ClosedUpTo(edges: seq<Edge>, seen: set<nat>, stack: seq<nat>) {
    forall e :: e in edges && e.task in seen ==> e.on in seen || e.on in stack
  }

  /** Where the walk stands: everything met is reachable from its start, and the start has been met. */
  ghost predicate Walk(edges: seq<Edge>, start: nat, seen: set<nat>, stack: seq<nat>) {
    && (forall n :: n in stack ==> n in Nodes(edges, start) && Reaches(edges, start, n))
    && seen <= Nodes(edges, start)
    && ClosedUpTo(edges, seen, stack)
    && (start in seen || start in stack)
  }

  lemma SkipKeeps(edges: seq<Edge>, start: nat, seen: set<nat>, rest: seq<nat>, current: nat)
    requires Walk(edges, start, seen, rest + [current])
    ensures Reaches(edges, start, current) && current in Nodes(edges, start)
    ensures current in seen ==> Walk(edges, start, seen, rest)
  {
    hide Reaches, Nodes;
    assert current in rest + [current];
  }

  lemma VisitKeeps(edges: seq<Edge>, start: nat, seen: set<nat>, rest: seq<nat>, current: nat)
    requires Walk(edges, start, seen, rest + [current])
    ensures Walk(edges, start, seen + {current}, rest + Successors(edges, current))
  {
    assert current in rest + [current];
    forall n | n in Successors(edges, current) ensures n in Nodes(edges, start) && Reaches(edges, start, n) {
      ReachesStep(edges, start, current, n);
    }
    hide Reaches, Nodes, Successors;
  }

  lemma SeenGrows(nodes: set<nat>, seen: set<nat>, current: nat)
    requires current in nodes && current !in seen
    ensures |nodes - (seen + {current})| < |nodes - seen|
  {
    assert nodes - (seen + {current}) == (nodes - seen) - {current};
  }

  /**
   * The check answers true if and only if the Task is the proposed dependency or
   * reachable from it, so that the edge would close a cycle; and it always terminates.
   */
  method WouldCreateDependencyCycle(edges: seq<Edge>, task: nat, dependsOn: nat) returns (cycle: bool)
    ensures cycle <==> Reaches(edges, dependsOn, task)
  {
    ReachesSelf(edges, dependsOn);
    if task == dependsOn { return true; }
    var adjacency := Adjacency(edges);
    var stack := [dependsOn];
    var seen: set<nat> := {};
    while stack != []
      invariant Walk(edges, dependsOn, seen, stack) && task !in seen
      decreases |Nodes(edges, dependsOn) - seen|, |stack|
    {
      hide Walk, Reaches, Nodes, Successors;
      var current, rest := stack[|stack| - 1], stack[..|stack| - 1];
      assert stack == rest + [current];
      SkipKeeps(edges, dependsOn, seen, rest, current);
      if current == task { return true; }
      stack := rest;
      if current in seen { continue; }
      VisitKeeps(edges, dependsOn, seen, rest, current);
      SeenGrows(Nodes(edges, dependsOn), seen, current);
      seen := seen + {current};
      stack := rest + if current in adjacency then adjacency[current] else [];
    }
    Unreachable(edges, seen, dependsOn, task);
    return false;
  }

  lemma Unreachable(edges: seq<Edge>, seen: set<nat>, from: nat, to: nat)
    requires ClosedUpTo(edges, seen, []) && from in seen && to !in seen
    ensures !Reaches(edges, from, to)
  {
    forall p | Chain(edges, p, from, to) ensures false {
      ClosedHolds(edges, seen, p);
    }
  }

  // ---------------------------------------------------------------------------
  // Insertions
  // ---------------------------------------------------------------------------

  /** The position of the first step of a chain that is no step of `edges`, or its end. */
  lemma {:induction false} FirstOutside(edges: seq<Edge>, p: seq<nat>) returns (k: nat)
    requires p != []
    ensures k < |p| && IsChain(edges, p[..k + 1])
    ensures if k < |p| - 1 then Edge(p[k], p[k + 1]) !in edges else IsChain(edges, p)
  {
    k := 0;
    while k < |p| - 1 && Edge(p[k], p[k + 1]) in edges
      invariant k < |p| && IsChain(edges, p[..k + 1])
    {
      k := k + 1;
    }
    assert p[..|p|] == p;
  }

  /** The position after the last step of a chain that is no step of `edges`, or its start. */
  lemma {:induction false} LastOutside(edges: seq<Edge>, p: seq<nat>) returns (k: nat)
    requires p != []
    ensures k < |p| && IsChain(edges, p[k..])
    ensures if k > 0 then Edge(p[k - 1], p[k]) !in edges else IsChain(edges, p)
  {
    k := |p| - 1;
    while k > 0 && Edge(p[k - 1], p[k]) in edges
      invariant k < |p| && IsChain(edges, p[k..])
    {
      k := k - 1;
    }
    assert p[0..] == p;
  }

  lemma Join(edges: seq<Edge>, p: seq<nat>, q: seq<nat>)
    requires IsChain(edges, p) && IsChain(edges, q) && p[|p| - 1] == q[0]
    ensures Chain(edges, p + q[1..], p[0], q[|q| - 1])
  {
  }

  /** A cycle through the new edge runs, from its last use on and round to its first, along old edges only. */
  lemma InsertKeepsAcyclic(edges: seq<Edge>, task: nat, on: nat)
    requires Acyclic(edges) && !Reaches(edges, on, task)
    ensures Acyclic(edges + [Edge(task, on)])
  {
    var after := edges + [Edge(task, on)];
    forall p | IsChain(after, p) && |p| >= 2 ensures p[0] != p[|p| - 1] {
      if p[0] == p[|p| - 1] {
        var first := FirstOutside(edges, p);
        var last := LastOutside(edges, p);
        if first < |p| - 1 && last > 0 {
          assert Edge(p[first], p[first + 1]) in after && Edge(p[last - 1], p[last]) in after;
          Join(edges, p[last..], p[..first + 1]);
        }
      }
    }
  }

  /** A dependency is inserted only when the check does not flag it. */
  ghost function Insert(edges: seq<Edge>, e: Edge): seq<Edge> {
    if Reaches(edges, e.on, e.task) then edges else edges + [e]
  }

  ghost function InsertAll(proposed: seq<Edge>): seq<Edge> {
    if proposed == [] then [] else Insert(InsertAll(proposed[..|proposed| - 1]), proposed[|proposed| - 1])
  }

  lemma ChainNeedsEdges(edges: seq<Edge>, p: seq<nat>)
    ensures IsChain(edges, p) && edges == [] ==> |p| < 2
  {
    if IsChain(edges, p) && |p| >= 2 {
      assert Edge(p[0], p[1]) in edges;
    }
  }

  lemma NoEdges()
    ensures Acyclic([])
  {
    forall p ensures IsChain([], p) ==> |p| < 2 {
      ChainNeedsEdges([], p);
    }
  }

  /**
   * Over every sequence of proposals the Task graph stays acyclic, and exactly the edges that would
   * close a cycle were refused.
   */
  lemma {:induction false} AlwaysAcyclic(proposed: seq<Edge>)
    ensures Acyclic(InsertAll(proposed))
    ensures proposed != [] ==>
      var before, e := InsertAll(proposed[..|proposed| - 1]), proposed[|proposed| - 1];
      InsertAll(proposed) == before <==> !Acyclic(before + [e])
  {
    if proposed == [] {
      NoEdges();
    } else {
      var before, e := InsertAll(proposed[..|proposed| - 1]), proposed[|proposed| - 1];
      AlwaysAcyclic(proposed[..|proposed| - 1]);
      assert InsertAll(proposed) == Insert(before, e);
      if Reaches(before, e.on, e.task) {
        FlaggedCloses(before, e);
      } else {
        InsertKeepsAcyclic(before, e.task, e.on);
        assert |before + [e]| != |before|;
      }
    }
  }

  /** A flagged edge really would close a cycle. */
  lemma FlaggedCloses(edges: seq<Edge>, e: Edge)
    requires Reaches(edges, e.on, e.task)
    ensures !Acyclic(edges + [e])
  {
    var p :| Chain(edges, p, e.on, e.task);
    var cycle := [e.task] + p;
    assert forall k :: 0 < k < |p| ==> cycle[k] == p[k - 1] && cycle[k + 1] == p[k];
    assert IsChain(edges + [e], cycle) by {
      forall k | 0 < k < |cycle| ensures Edge(cycle[k - 1], cycle[k]) in edges + [e] {
        if k > 1 { assert Edge(p[k - 2], p[k - 1]) in edges; }
      }
    }
  }
}
