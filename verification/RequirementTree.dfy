/**
 * Requirement trees as flat lists of entries that name their parent: the check that
 * accepts exactly the forests, and the defects of a proposed tree addressed by keys.
 */
module RequirementTree {
  import opened Wrappers
  import opened TaskGraph

  datatype Composition = All | Any

  datatype Entry = Entry(id: nat, parent: Option<nat>, composition: Option<Composition>, position: nat)

  /** One edge from every entry that has a parent to that parent. */
  function ParentEdges(t: seq<Entry>): (edges: seq<Edge>)
    ensures forall e :: e in edges <==> exists k :: 0 <= k < |t| && t[k].id == e.task && t[k].parent == Some(e.on)
  {
    if t == [] then []
    else
      var last := t[|t| - 1];
      var front := ParentEdges(t[..|t| - 1]);
      assert forall e :: e in front ==> exists k :: 0 <= k < |t| - 1 && t[k].id == e.task && t[k].parent == Some(e.on);
      if last.parent.Some? then
        assert t[|t| - 1].id == last.id && t[|t| - 1].parent == Some(last.parent.value);
        front + [Edge(last.id, last.parent.value)]
      else front
  }

  ghost predicate UniqueIds(t: seq<Entry>) {
    forall i, k :: 0 <= i < k < |t| ==> t[i].id != t[k].id
  }

  predicate HasId(t: seq<Entry>, id: nat) {
    exists k :: 0 <= k < |t| && t[k].id == id
  }

  predicate HasChild(t: seq<Entry>, id: nat) {
    exists k :: 0 <= k < |t| && t[k].parent == Some(id)
  }

  ghost predicate ParentsExist(t: seq<Entry>) {
    forall k :: 0 <= k < |t| && t[k].parent.Some? ==> HasId(t, t[k].parent.value)
  }

  /** A composition on precisely the parents. */
  ghost predicate Composed(t: seq<Entry>) {
    forall k :: 0 <= k < |t| ==> (t[k].composition.Some? <==> HasChild(t, t[k].id))
  }

  ghost predicate Forest(t: seq<Entry>) {
    UniqueIds(t) && ParentsExist(t) && Composed(t) && Acyclic(ParentEdges(t))
  }

  // ---------------------------------------------------------------------------
  // Walking to the root
  // ---------------------------------------------------------------------------

  /** No node has two outgoing edges. */
  ghost predicate Deterministic(edges: seq<Edge>) {
    forall e, f :: e in edges && f in edges && e.task == f.task ==> e.on == f.on
  }

  lemma SamePosition(t: seq<Entry>, i: nat, k: nat)
    requires UniqueIds(t) && i < |t| && k < |t|
    ensures t[i].id == t[k].id ==> i == k
  {
  }

  lemma UniqueIsDeterministic(t: seq<Entry>)
    requires UniqueIds(t)
    ensures Deterministic(ParentEdges(t))
  {
    forall e, f | e in ParentEdges(t) && f in ParentEdges(t) && e.task == f.task ensures e.on == f.on {
      var i :| 0 <= i < |t| && t[i].id == e.task && t[i].parent == Some(e.on);
      var k :| 0 <= k < |t| && t[k].id == f.task && t[k].parent == Some(f.on);
      SamePosition(t, i, k);
    }
  }

  /** A node without an outgoing edge. */
  ghost predicate IsRoot(edges: seq<Edge>, n: nat) {
    forall e :: e in edges ==> e.task != n
  }

  /** Where every step is forced, a walk that ends at a root meets no cycle. */
  lemma {:induction false} RootedMeetsNoCycle(edges: seq<Edge>, walk: seq<nat>, cycle: seq<nat>)
    requires Deterministic(edges) && IsChain(edges, walk) && IsRoot(edges, walk[|walk| - 1])
    requires IsChain(edges, cycle) && |cycle| >= 2 && cycle[0] == walk[0]
    ensures cycle[|cycle| - 1] != cycle[0]
  {
    assert Edge(cycle[0], cycle[1]) in edges;
    if cycle[|cycle| - 1] == cycle[0] && |walk| > 1 {
      assert Edge(walk[0], walk[1]) in edges;
      var turned := cycle[1..] + [cycle[1]];
      assert forall k :: 0 < k < |turned| ==> turned[k - 1] == cycle[k];
      RootedMeetsNoCycle(edges, walk[1..], turned);
    }
  }

  /** A chain that ends at a node it has already met, at position `j`. */
  ghost predicate Returns(edges: seq<Edge>, p: seq<nat>, j: nat) {
    IsChain(edges, p) && j < |p| - 1 && p[j] == p[|p| - 1]
  }

  /** The edges followed from `n` come back to a node already met. */
  ghost predicate MeetsCycle(edges: seq<Edge>, n: nat) {
    exists p: seq<nat>, j: nat :: Returns(edges, p, j) && p[0] == n
  }

  lemma ComesBack(edges: seq<Edge>, walk: seq<nat>, next: nat)
    requires IsChain(edges, walk) && Edge(walk[|walk| - 1], next) in edges && next in walk
    ensures MeetsCycle(edges, walk[0])
  {
    var j: nat :| j < |walk| && walk[j] == next;
    assert Returns(edges, walk + [next], j);
  }

  lemma MetIsCycle(edges: seq<Edge>, n: nat)
    requires MeetsCycle(edges, n)
    ensures !Acyclic(edges)
  {
    var p: seq<nat>, j: nat :| Returns(edges, p, j) && p[0] == n;
    assert IsChain(edges, p[j..]);
  }

  /** Every entry's walk ends at a root. */
  ghost predicate AllRooted(t: seq<Entry>, n: nat)
    requires n <= |t|
  {
    forall k :: 0 <= k < n ==> RootReached(ParentEdges(t), t[k].id)
  }

  ghost predicate RootReached(edges: seq<Edge>, from: nat) {
    exists walk :: IsChain(edges, walk) && walk[0] == from && IsRoot(edges, walk[|walk| - 1])
  }

  lemma RootedIsAcyclic(t: seq<Entry>)
    requires UniqueIds(t) && AllRooted(t, |t|)
    ensures Acyclic(ParentEdges(t))
  {
    var edges := ParentEdges(t);
    UniqueIsDeterministic(t);
    forall p | IsChain(edges, p) && |p| >= 2 ensures p[0] != p[|p| - 1] {
      assert Edge(p[0], p[1]) in edges;
      var k :| 0 <= k < |t| && t[k].id == p[0];
      assert RootReached(edges, t[k].id);
      var walk :| IsChain(edges, walk) && walk[0] == p[0] && IsRoot(edges, walk[|walk| - 1]);
      RootedMeetsNoCycle(edges, walk, p);
    }
  }

  // ---------------------------------------------------------------------------
  // Validation
  // ---------------------------------------------------------------------------

  datatype TreeError = DuplicateId(id: nat) | UnknownParent(id: nat) | MissingComposition(id: nat)
    | LeafComposition(id: nat) | ParentCycle(id: nat)

  /** The refusal names an entry that violates the rule it reports. */
  ghost predicate Violates(t: seq<Entry>, e: TreeError) {
    match e
    case DuplicateId(id) => exists i, k :: 0 <= i < k < |t| && t[i].id == id && t[k].id == id
    case UnknownParent(id) =>
      exists k :: 0 <= k < |t| && t[k].id == id && t[k].parent.Some? && !HasId(t, t[k].parent.value)
    case MissingComposition(id) =>
      exists k :: 0 <= k < |t| && t[k].id == id && t[k].composition == None && HasChild(t, id)
    case LeafComposition(id) => exists k :: 0 <= k < |t| && t[k].id == id && t[k].composition.Some? && !HasChild(t, id)
    case ParentCycle(id) => HasId(t, id) && MeetsCycle(ParentEdges(t), id)
  }

  /** The id index of the entries visited so far. */
  ghost predicate Indexed(t: seq<Entry>, n: nat, byId: map<nat, Entry>)
    requires n <= |t|
  {
    && (forall k :: 0 <= k < n ==> t[k].id in byId && byId[t[k].id] == t[k])
    && (forall id :: id in byId ==> exists k :: 0 <= k < n && t[k].id == id)
  }

  method IndexById(t: seq<Entry>) returns (byId: map<nat, Entry>, duplicate: Option<nat>)
    ensures duplicate.Some? ==> Violates(t, DuplicateId(duplicate.value))
    ensures duplicate == None ==> UniqueIds(t) && Indexed(t, |t|, byId)
  {
    byId := map[];
    for k := 0 to |t|
      invariant UniqueIds(t[..k]) && Indexed(t, k, byId)
    {
      if t[k].id in byId { return byId, Some(t[k].id); }
      byId := byId[t[k].id := t[k]];
    }
    assert t[..|t|] == t;
    return byId, None;
  }

  method CountChildren(t: seq<Entry>, byId: map<nat, Entry>) returns (childCount: map<nat, nat>, orphan: Option<nat>)
    requires Indexed(t, |t|, byId)
    ensures orphan.Some? ==> Violates(t, UnknownParent(orphan.value))
    ensures orphan == None ==> ParentsExist(t)
    ensures orphan == None ==> forall id :: id in childCount && childCount[id] > 0 <==> HasChild(t, id)
  {
    childCount := map[];
    for k := 0 to |t|
      invariant forall i :: 0 <= i < k && t[i].parent.Some? ==> HasId(t, t[i].parent.value)
      invariant forall id :: id in childCount && childCount[id] > 0 <==> HasChild(t[..k], id)
    {
      assert t[..k + 1] == t[..k] + [t[k]];
      ghost var before := t[..k];
      if t[k].parent.Some? {
        var parent := t[k].parent.value;
        if parent !in byId { return childCount, Some(t[k].id); }
        assert HasId(t, parent);
        childCount := childCount[parent := (if parent in childCount then childCount[parent] else 0) + 1];
        assert t[..k + 1][k].parent == Some(parent);
      }
      forall id: nat ensures HasChild(t[..k + 1], id) <==> HasChild(before, id) || t[k].parent == Some(id) {
        ChildOfPrefix(t, k, id);
      }
    }
    assert t[..|t|] == t;
    return childCount, None;
  }

  lemma ChildOfPrefix(t: seq<Entry>, k: nat, id: nat)
    requires k < |t|
    ensures HasChild(t[..k + 1], id) <==> HasChild(t[..k], id) || t[k].parent == Some(id)
  {
    if HasChild(t[..k], id) {
      var i :| 0 <= i < k && t[..k][i].parent == Some(id);
      assert t[..k + 1][i].parent == Some(id);
    }
    if t[k].parent == Some(id) {
      assert t[..k + 1][k].parent == Some(id);
    }
  }

  /** The walk so far, and what has been seen on it. */
  ghost predicate Walking(t: seq<Entry>, start: Entry, walk: seq<nat>, at: Entry, seen: set<nat>) {
    && IsChain(ParentEdges(t), walk) && walk[0] == start.id && walk[|walk| - 1] == at.id
    && at in t && (forall n :: n in seen <==> n in walk)
  }

  lemma {:induction false} WalkOn(t: seq<Entry>, byId: map<nat, Entry>, start: Entry, walk: seq<nat>, at: Entry,
                                  seen: set<nat>, next: nat)
    requires ParentsExist(t) && Indexed(t, |t|, byId) && Walking(t, start, walk, at, seen) && at.parent == Some(next)
    ensures next in byId
    ensures next in seen ==> MeetsCycle(ParentEdges(t), start.id)
    ensures next !in seen ==> Walking(t, start, walk + [next], byId[next], seen + {next})
  {
    hide MeetsCycle, ParentEdges;
    StepUp(t, at, next);
    var k :| 0 <= k < |t| && t[k].id == next;
    assert byId[t[k].id] == t[k];
    if next in seen {
      ComesBack(ParentEdges(t), walk, next);
    } else {
      Extends(ParentEdges(t), walk, next);
      assert byId[next] in t && byId[next].id == next;
      forall n ensures n in seen + {next} <==> n in walk + [next] {
        assert n in walk + [next] <==> n in walk || n == next;
      }
    }
  }

  lemma WalkEnds(t: seq<Entry>, start: Entry, walk: seq<nat>, at: Entry, seen: set<nat>)
    requires UniqueIds(t) && Walking(t, start, walk, at, seen) && at.parent == None
    ensures RootReached(ParentEdges(t), start.id)
  {
    NoStepUp(t, at);
  }

  /** Walks to the root: false when it comes back to an entry it has seen. It ends because every step sees a new one. */
  method WalksToRoot(t: seq<Entry>, byId: map<nat, Entry>, start: Entry) returns (ends: bool)
    requires UniqueIds(t) && ParentsExist(t) && Indexed(t, |t|, byId) && start in t
    ensures ends ==> RootReached(ParentEdges(t), start.id)
    ensures !ends ==> MeetsCycle(ParentEdges(t), start.id)
  {
    var seen := {start.id};
    var cursor := start.parent;
    ghost var walk, at := [start.id], start;
    while cursor.Some?
      invariant Walking(t, start, walk, at, seen) && cursor == at.parent && seen <= byId.Keys
      decreases |byId.Keys - seen|
    {
      hide Walking, Indexed, ParentsExist, MeetsCycle, RootReached, ParentEdges, UniqueIds;
      var next := cursor.value;
      WalkOn(t, byId, start, walk, at, seen, next);
      if next in seen { return false; }
      SeenGrows(byId.Keys, seen, next);
      seen := seen + {next};
      walk, at := walk + [next], byId[next];
      cursor := byId[next].parent;
    }
    WalkEnds(t, start, walk, at, seen);
    return true;
  }

  lemma Extends(edges: seq<Edge>, walk: seq<nat>, next: nat)
    requires IsChain(edges, walk) && Edge(walk[|walk| - 1], next) in edges
    ensures IsChain(edges, walk + [next])
  {
  }

  lemma StepUp(t: seq<Entry>, at: Entry, next: nat)
    requires at in t && at.parent == Some(next) && ParentsExist(t)
    ensures Edge(at.id, next) in ParentEdges(t) && HasId(t, next)
  {
    var k :| 0 <= k < |t| && t[k] == at;
    assert t[k].id == Edge(at.id, next).task && t[k].parent == Some(Edge(at.id, next).on);
  }

  lemma NoStepUp(t: seq<Entry>, at: Entry)
    requires UniqueIds(t) && at in t && at.parent == None
    ensures IsRoot(ParentEdges(t), at.id)
  {
    var i :| 0 <= i < |t| && t[i] == at;
    forall e | e in ParentEdges(t) ensures e.task != at.id {
      var k :| 0 <= k < |t| && t[k].id == e.task && t[k].parent == Some(e.on);
      SamePosition(t, i, k);
    }
  }

  /** What the loop asks of one entry. */
  ghost predicate EntryOk(t: seq<Entry>, k: nat)
    requires k < |t|
  {
    (t[k].composition.Some? <==> HasChild(t, t[k].id)) && RootReached(ParentEdges(t), t[k].id)
  }

  method CheckEntry(t: seq<Entry>, byId: map<nat, Entry>, childCount: map<nat, nat>, k: nat)
    returns (error: Option<TreeError>)
    requires k < |t| && UniqueIds(t) && ParentsExist(t) && Indexed(t, |t|, byId)
    requires forall id :: id in childCount && childCount[id] > 0 <==> HasChild(t, id)
    ensures error == None ==> EntryOk(t, k)
    ensures error.Some? ==> Violates(t, error.value)
  {
    hide MeetsCycle, RootReached, ParentEdges, Indexed, UniqueIds, ParentsExist;
    var children := if t[k].id in childCount then childCount[t[k].id] else 0;
    if children > 0 && t[k].composition == None { return Some(MissingComposition(t[k].id)); }
    if children == 0 && t[k].composition.Some? { return Some(LeafComposition(t[k].id)); }
    var ends := WalksToRoot(t, byId, t[k]);
    return if ends then None else Some(ParentCycle(t[k].id));
  }

  lemma ViolationRefutes(t: seq<Entry>, e: TreeError)
    requires Violates(t, e)
    ensures !Forest(t)
  {
    hide Acyclic, MeetsCycle, ParentEdges, HasChild, HasId;
    if e.ParentCycle? { MetIsCycle(ParentEdges(t), e.id); }
  }

  lemma AllEntriesOk(t: seq<Entry>)
    requires UniqueIds(t) && ParentsExist(t) && forall k :: 0 <= k < |t| ==> EntryOk(t, k)
    ensures Forest(t)
  {
    hide Acyclic, RootReached, ParentEdges, HasChild, HasId;
    assert forall k :: 0 <= k < |t| ==> EntryOk(t, k) && RootReached(ParentEdges(t), t[k].id);
    RootedIsAcyclic(t);
  }

  /**
   * Accepts exactly the forests: unique ids, existing parents, a composition on precisely the
   * parents, and no parent cycle.
   */
  method ValidateRequirementTree(t: seq<Entry>) returns (r: Result<seq<Entry>, TreeError>)
    ensures r.Ok? <==> Forest(t)
    ensures r.Ok? ==> r.value == t
    ensures r.Err? ==> Violates(t, r.error)
  {
    hide Violates, Forest, EntryOk, HasChild, HasId, Indexed, UniqueIds, ParentsExist;
    var byId, duplicate := IndexById(t);
    if duplicate.Some? {
      ViolationRefutes(t, DuplicateId(duplicate.value));
      return Err(DuplicateId(duplicate.value));
    }
    var childCount, orphan := CountChildren(t, byId);
    if orphan.Some? {
      ViolationRefutes(t, UnknownParent(orphan.value));
      return Err(UnknownParent(orphan.value));
    }
    for k := 0 to |t|
      invariant forall i :: 0 <= i < k ==> EntryOk(t, i)
    {
      var error := CheckEntry(t, byId, childCount, k);
      if error.Some? {
        ViolationRefutes(t, error.value);
        return Err(error.value);
      }
    }
    AllEntriesOk(t);
    return Ok(t);
  }
}
