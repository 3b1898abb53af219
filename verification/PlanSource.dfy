/**
 * The structural check of a raw plan source: an iterative walk over an object graph that
 * may share objects and may be cyclic. It accepts exactly the graphs in which every
 * reference path from the root visits at most `maxDepth` objects.
 */
module PlanSource {
  import opened Wrappers

  /** Objects and the objects among their members, in entry order; members that are no objects are left out. */
  type Graph = map<nat, seq<nat>>

  ghost function Members(g: Graph, o: nat): seq<nat> {
    if o in g then g[o] else []
  }

  /** A reference path: each object is a member of the one before it. */
  ghost predicate IsPath(g: Graph, p: seq<nat>) {
    p != [] && forall k :: 0 < k < |p| ==> p[k] in Members(g, p[k - 1])
  }

  ghost predicate PathFrom(g: Graph, root: nat, p: seq<nat>) {
    IsPath(g, p) && p[0] == root
  }

  /** Every reference path from the root visits at most `maxDepth` objects. */
  ghost predicate Shallow(g: Graph, root: nat, maxDepth: nat) {
    forall p :: PathFrom(g, root, p) ==> |p| <= maxDepth
  }

  /** The last object of the path is one of its own ancestors. */
  ghost predicate ClosesCycle(p: seq<nat>) {
    p != [] && p[|p| - 1] in p[..|p| - 1]
  }

  /** No object reachable from the root is its own ancestor. */
  ghost predicate Acyclic(g: Graph, root: nat) {
    forall p :: PathFrom(g, root, p) ==> !ClosesCycle(p)
  }

  // ---------------------------------------------------------------------------
  // Cycles make paths as long as one likes
  // ---------------------------------------------------------------------------

  lemma Prefix(g: Graph, p: seq<nat>, n: nat)
    requires IsPath(g, p) && 0 < n <= |p|
    ensures IsPath(g, p[..n])
  {
  }

  lemma Extend(g: Graph, p: seq<nat>, o: nat)
    requires IsPath(g, p) && o in Members(g, p[|p| - 1])
    ensures IsPath(g, p + [o])
  {
  }

  /** Walking on along the cycle keeps closing it. */
  lemma {:induction false} CycleExtends(g: Graph, p: seq<nat>, n: nat) returns (longer: seq<nat>)
    requires IsPath(g, p) && ClosesCycle(p) && n >= |p|
    ensures IsPath(g, longer) && |longer| == n && longer[0] == p[0]
    decreases n - |p|
  {
    longer := p;
    if n > |p| {
      var last := |p| - 1;
      var i :| 0 <= i < last && p[i] == p[last];
      Extend(g, p, p[i + 1]);
      var next := p + [p[i + 1]];
      assert next[..|p|][i + 1] == next[|p|];
      longer := CycleExtends(g, next, n);
    }
  }

  /** A graph whose paths are bounded is acyclic from its root; a cyclic one has no bound. */
  lemma ShallowIsAcyclic(g: Graph, root: nat, maxDepth: nat)
    requires Shallow(g, root, maxDepth)
    ensures Acyclic(g, root)
  {
    forall p | PathFrom(g, root, p) ensures !ClosesCycle(p) {
      if ClosesCycle(p) {
        var longer := CycleExtends(g, p, |p| + maxDepth);
        assert PathFrom(g, root, longer);
      }
    }
  }

  /** One path that is too long, or one that closes a cycle, refutes the bound. */
  lemma TooDeepRefutes(g: Graph, root: nat, p: seq<nat>, maxDepth: nat)
    requires PathFrom(g, root, p) && (|p| > maxDepth || ClosesCycle(p))
    ensures !Shallow(g, root, maxDepth)
  {
    if |p| <= maxDepth {
      ShallowCycle(g, root, p, maxDepth);
    }
  }

  lemma ShallowCycle(g: Graph, root: nat, p: seq<nat>, maxDepth: nat)
    requires PathFrom(g, root, p) && ClosesCycle(p)
    ensures !Shallow(g, root, maxDepth)
  {
    var longer := CycleExtends(g, p, |p| + maxDepth);
    assert PathFrom(g, root, longer);
  }

  // ---------------------------------------------------------------------------
  // The walk
  // ---------------------------------------------------------------------------

  /** A frame of the explicit stack; `trail` names its source path by the objects on it. */
  datatype Frame = Frame(value: nat, trail: seq<nat>, depth: nat, ancestors: set<nat>)

  datatype Defect = ExcessiveDepth(trail: seq<nat>) | CyclicObject(trail: seq<nat>)

  ghost predicate FrameOk(g: Graph, root: nat, maxDepth: nat, f: Frame) {
    && PathFrom(g, root, f.trail) && |f.trail| == f.depth <= maxDepth + 1
    && f.trail[f.depth - 1] == f.value
    && (forall o :: o in f.ancestors <==> o in f.trail[..f.depth - 1])
  }

  ghost predicate OnPath(f: Frame, p: seq<nat>) {
    f.depth <= |p| && f.trail == p[..f.depth]
  }

  /** Some frame still to be visited lies on the path. */
  ghost predicate Pending(stack: seq<Frame>, p: seq<nat>) {
    exists k :: 0 <= k < |stack| && OnPath(stack[k], p)
  }

  /** Every path that is too long is still ahead of the walk. */
  ghost predicate Covers(g: Graph, root: nat, maxDepth: nat, stack: seq<Frame>) {
    forall p :: PathFrom(g, root, p) && |p| == maxDepth + 1 ==> Pending(stack, p)
  }

  /** What a frame with `remaining` levels below it costs at most, itself included. */
  ghost function Weight(remaining: nat, branching: nat): nat {
    if remaining == 0 then 1 else 1 + branching * Weight(remaining - 1, branching)
  }

  ghost function Cost(stack: seq<Frame>, maxDepth: nat, branching: nat): nat {
    if stack == [] then 0
    else
      var f := stack[|stack| - 1];
      Cost(stack[..|stack| - 1], maxDepth, branching)
        + Weight(if f.depth <= maxDepth then maxDepth + 1 - f.depth else 0, branching)
  }

  lemma CostPush(stack: seq<Frame>, f: Frame, maxDepth: nat, branching: nat)
    ensures Cost(stack + [f], maxDepth, branching) ==
            Cost(stack, maxDepth, branching)
              + Weight(if f.depth <= maxDepth then maxDepth + 1 - f.depth else 0, branching)
  {
    assert (stack + [f])[..|stack|] == stack;
  }

  /** Some bound on the number of members of any object. */
  lemma {:induction false} Branching(g: Graph) returns (branching: nat)
    ensures forall o :: |Members(g, o)| <= branching
    decreases |g|
  {
    if g == map[] {
      branching := 0;
    } else {
      var o :| o in g;
      var rest := g - {o};
      assert |rest.Keys| < |g.Keys| by { assert rest.Keys == g.Keys - {o}; }
      var b := Branching(rest);
      branching := b + |g[o]|;
      forall x ensures |Members(g, x)| <= branching {
        assert x != o ==> Members(rest, x) == Members(g, x);
        assert |Members(rest, x)| <= b;
      }
    }
  }

  /** The member frames of one popped frame, in entry order. */
  function Children(f: Frame, members: seq<nat>): (frames: seq<Frame>)
    ensures |frames| == |members|
    ensures forall k :: 0 <= k < |frames| ==>
      frames[k] == Frame(members[k], f.trail + [members[k]], f.depth + 1, f.ancestors + {f.value})
  {
    seq(|members|, k requires 0 <= k < |members| =>
        Frame(members[k], f.trail + [members[k]], f.depth + 1, f.ancestors + {f.value}))
  }

  lemma ChildOk(g: Graph, root: nat, maxDepth: nat, f: Frame, o: nat)
    requires FrameOk(g, root, maxDepth, f) && f.depth <= maxDepth && o in Members(g, f.value)
    ensures FrameOk(g, root, maxDepth, Frame(o, f.trail + [o], f.depth + 1, f.ancestors + {f.value}))
  {
    Extend(g, f.trail, o);
    assert (f.trail + [o])[..f.depth] == f.trail == f.trail[..f.depth - 1] + [f.value];
  }

  /** A path through a frame goes on through one of its children. */
  lemma NextOnPath(g: Graph, root: nat, maxDepth: nat, f: Frame, p: seq<nat>) returns (m: nat)
    requires FrameOk(g, root, maxDepth, f) && IsPath(g, p) && f.depth < |p| && OnPath(f, p)
    ensures m < |Members(g, f.value)| && OnPath(Children(f, Members(g, f.value))[m], p)
  {
    assert p[f.depth - 1] == f.trail[f.depth - 1] == f.value;
    assert p[f.depth] in Members(g, p[f.depth - 1]);
    m :| 0 <= m < |Members(g, f.value)| && Members(g, f.value)[m] == p[f.depth];
    assert p[..f.depth + 1] == p[..f.depth] + [p[f.depth]];
  }

  /** Replacing a frame by its children loses no path that is too long. */
  lemma ChildrenCover(g: Graph, root: nat, maxDepth: nat, rest: seq<Frame>, f: Frame)
    requires FrameOk(g, root, maxDepth, f) && f.depth <= maxDepth && Covers(g, root, maxDepth, rest + [f])
    ensures Covers(g, root, maxDepth, rest + Children(f, Members(g, f.value)))
  {
    var before, after := rest + [f], rest + Children(f, Members(g, f.value));
    forall p | PathFrom(g, root, p) && |p| == maxDepth + 1 ensures Pending(after, p) {
      hide FrameOk, OnPath, IsPath, Children;
      assert Pending(before, p);
      var k :| 0 <= k < |before| && OnPath(before[k], p);
      if k < |rest| {
        assert after[k] == before[k];
      } else {
        var m := NextOnPath(g, root, maxDepth, f, p);
        assert after[|rest| + m] == Children(f, Members(g, f.value))[m];
      }
    }
  }

  lemma OneMore(n: nat, w: nat)
    ensures (n + 1) * w == n * w + w
  {
  }

  lemma {:induction false} CostChildren(rest: seq<Frame>, children: seq<Frame>, depth: nat, maxDepth: nat,
                                        branching: nat)
    requires depth <= maxDepth && forall k :: 0 <= k < |children| ==> children[k].depth == depth + 1
    ensures Cost(rest + children, maxDepth, branching) ==
      Cost(rest, maxDepth, branching) + |children| * Weight(maxDepth - depth, branching)
  {
    if children == [] {
      assert rest + children == rest;
    } else {
      hide Cost, Weight;
      var n, w := |children| - 1, Weight(maxDepth - depth, branching);
      CostChildren(rest, children[..n], depth, maxDepth, branching);
      assert rest + children == (rest + children[..n]) + [children[n]];
      CostPush(rest + children[..n], children[n], maxDepth, branching);
      OneMore(n, w);
    }
  }

  lemma WeightDominates(count: nat, branching: nat, remaining: nat)
    requires count <= branching && remaining > 0
    ensures count * Weight(remaining - 1, branching) < Weight(remaining, branching)
  {
    var w := Weight(remaining - 1, branching);
    assert count * w <= branching * w;
  }

  /** Popping a frame and pushing its children makes the stack cheaper: the walk ends even on a cyclic graph. */
  lemma VisitShrinks(rest: seq<Frame>, f: Frame, children: seq<Frame>, maxDepth: nat, branching: nat)
    requires f.depth <= maxDepth && |children| <= branching
      && forall k :: 0 <= k < |children| ==> children[k].depth == f.depth + 1
    ensures Cost(rest + children, maxDepth, branching) < Cost(rest + [f], maxDepth, branching)
  {
    CostPush(rest, f, maxDepth, branching);
    CostChildren(rest, children, f.depth, maxDepth, branching);
    WeightDominates(|children|, branching, maxDepth + 1 - f.depth);
  }

  /**
   * The check accepts if and only if every reference path from the root visits at most
   * `maxDepth` objects; a refusal names a path from the root that is one too long, or
   * one that ends in its own ancestor. A root that is no object is accepted.
   */
  method AssertSourceObjectAcyclic(g: Graph, value: Option<nat>, maxDepth: nat) returns (defect: Option<Defect>)
    ensures defect == None <==> (value.Some? ==> Shallow(g, value.value, maxDepth))
    ensures defect == None && value.Some? ==> Acyclic(g, value.value)
    ensures defect.Some? ==> value.Some? && PathFrom(g, value.value, defect.value.trail)
    ensures defect.Some? && defect.value.ExcessiveDepth? ==> |defect.value.trail| == maxDepth + 1
    ensures defect.Some? && defect.value.CyclicObject? ==>
      ClosesCycle(defect.value.trail) && |defect.value.trail| <= maxDepth
  {
    if value == None { return None; }
    var root := value.value;
    ghost var branching := Branching(g);
    var stack := [Frame(root, [root], 1, {})];
    RootCovers(g, root, maxDepth);
    while stack != []
      invariant FramesOk(g, root, maxDepth, stack) && Covers(g, root, maxDepth, stack)
      decreases Cost(stack, maxDepth, branching)
    {
      hide Covers, Shallow, PathFrom, ClosesCycle, Cost;
      var frame, rest := stack[|stack| - 1], stack[..|stack| - 1];
      assert stack == rest + [frame];
      Popped(g, root, maxDepth, rest, frame);
      if frame.depth > maxDepth {
        TooDeepRefutes(g, root, frame.trail, maxDepth);
        return Some(ExcessiveDepth(frame.trail));
      }
      if frame.value in frame.ancestors {
        TooDeepRefutes(g, root, frame.trail, maxDepth);
        return Some(CyclicObject(frame.trail));
      }
      var members := if frame.value in g then g[frame.value] else [];
      assert members == Members(g, frame.value);
      hide Members;
      ChildrenCover(g, root, maxDepth, rest, frame);
      ChildrenOk(g, root, maxDepth, rest, frame);
      VisitShrinks(rest, frame, Children(frame, members), maxDepth, branching);
      stack := Push(rest, frame, members);
    }
    NothingPending(g, root, maxDepth);
    ShallowIsAcyclic(g, root, maxDepth);
    return None;
  }

  ghost predicate FramesOk(g: Graph, root: nat, maxDepth: nat, stack: seq<Frame>) {
    forall k :: 0 <= k < |stack| ==> FrameOk(g, root, maxDepth, stack[k])
  }

  lemma RootCovers(g: Graph, root: nat, maxDepth: nat)
    ensures var stack := [Frame(root, [root], 1, {})];
      FramesOk(g, root, maxDepth, stack) && Covers(g, root, maxDepth, stack)
  {
    var stack := [Frame(root, [root], 1, {})];
    forall p | PathFrom(g, root, p) && |p| == maxDepth + 1 ensures Pending(stack, p) {
      assert OnPath(stack[0], p);
    }
  }

  /** What the two tests read off the popped frame. */
  lemma Popped(g: Graph, root: nat, maxDepth: nat, rest: seq<Frame>, frame: Frame)
    requires FramesOk(g, root, maxDepth, rest + [frame])
    ensures FramesOk(g, root, maxDepth, rest) && FrameOk(g, root, maxDepth, frame)
    ensures PathFrom(g, root, frame.trail) && |frame.trail| == frame.depth <= maxDepth + 1
    ensures frame.value in frame.ancestors <==> ClosesCycle(frame.trail)
  {
    var stack := rest + [frame];
    assert stack[|rest|] == frame && forall k :: 0 <= k < |rest| ==> stack[k] == rest[k];
  }

  lemma ChildrenOk(g: Graph, root: nat, maxDepth: nat, rest: seq<Frame>, f: Frame)
    requires FramesOk(g, root, maxDepth, rest) && FrameOk(g, root, maxDepth, f) && f.depth <= maxDepth
    ensures FramesOk(g, root, maxDepth, rest + Children(f, Members(g, f.value)))
  {
    var members := Members(g, f.value);
    forall k | 0 <= k < |members| ensures FrameOk(g, root, maxDepth, Children(f, members)[k]) {
      ChildOk(g, root, maxDepth, f, members[k]);
    }
    hide FrameOk;
  }

  /** Pushes one frame per member object. */
  method Push(rest: seq<Frame>, frame: Frame, members: seq<nat>) returns (stack: seq<Frame>)
    ensures stack == rest + Children(frame, members)
  {
    var ancestors := frame.ancestors + {frame.value};
    stack := rest;
    for k := 0 to |members|
      invariant stack == rest + Children(frame, members)[..k]
    {
      stack := stack + [Frame(members[k], frame.trail + [members[k]], frame.depth + 1, ancestors)];
    }
  }

  /** An empty stack that covers every path that is too long leaves none. */
  lemma NothingPending(g: Graph, root: nat, maxDepth: nat)
    requires Covers(g, root, maxDepth, [])
    ensures Shallow(g, root, maxDepth)
  {
    forall p | PathFrom(g, root, p) ensures |p| <= maxDepth {
      if |p| > maxDepth {
        Prefix(g, p, maxDepth + 1);
        assert PathFrom(g, root, p[..maxDepth + 1]);
      }
    }
  }
}
