/**
 * Root expansion on a validated tree: the leaves at or below the given roots, without
 * duplicates, in the order a depth-first visit by position first meets them.
 */
module RequirementRoots {
  import opened Wrappers
  import opened TaskGraph
  import opened RequirementTree

  /** `x` is `root` or below it. */
  ghost predicate Below(t: seq<Entry>, x: nat, root: nat) {
    Reaches(ParentEdges(t), x, root)
  }

  ghost predicate IsLeaf(t: seq<Entry>, id: nat) {
    HasId(t, id) && !HasChild(t, id)
  }

  /** `x` is a proper ancestor of itself. */
  ghost predicate OnCycle(edges: seq<Edge>, x: nat) {
    exists p :: IsChain(edges, p) && |p| >= 2 && p[0] == x && p[|p| - 1] == x
  }

  /** No entry at or below `id` is its own ancestor: all a visit from `id` needs to end. */
  ghost predicate NoCycleBelow(t: seq<Entry>, id: nat) {
    forall x :: Below(t, x, id) ==> !OnCycle(ParentEdges(t), x)
  }

  lemma ForestHasNoCycle(t: seq<Entry>, id: nat)
    requires Acyclic(ParentEdges(t))
    ensures NoCycleBelow(t, id)
  {
  }

  ghost predicate Distinct<T>(s: seq<T>) {
    forall i, k :: 0 <= i < k < |s| ==> s[i] != s[k]
  }

  // ---------------------------------------------------------------------------
  // Children by position
  // ---------------------------------------------------------------------------

  function ChildrenOf(t: seq<Entry>, id: nat): (kids: seq<Entry>)
    ensures forall e :: e in kids <==> e in t && e.parent == Some(id)
  {
    if t == [] then []
    else
      var last := t[|t| - 1];
      ChildrenOf(t[..|t| - 1], id) + (if last.parent == Some(id) then [last] else [])
  }

  /** Stable insertion: behind every entry of the same or a smaller position. */
  function InsertByPosition(sorted: seq<Entry>, e: Entry): (r: seq<Entry>)
    ensures multiset(r) == multiset(sorted) + multiset{e}
  {
    if sorted == [] || sorted[|sorted| - 1].position <= e.position then sorted + [e]
    else
      assert sorted == sorted[..|sorted| - 1] + [sorted[|sorted| - 1]];
      InsertByPosition(sorted[..|sorted| - 1], e) + [sorted[|sorted| - 1]]
  }

  function SortByPosition(kids: seq<Entry>): (r: seq<Entry>)
    ensures multiset(r) == multiset(kids)
  {
    if kids == [] then []
    else
      assert kids == kids[..|kids| - 1] + [kids[|kids| - 1]];
      InsertByPosition(SortByPosition(kids[..|kids| - 1]), kids[|kids| - 1])
  }

  function Kids(t: seq<Entry>, id: nat): seq<Entry> {
    SortByPosition(ChildrenOf(t, id))
  }

  ghost predicate ByPosition(s: seq<Entry>) {
    forall i, k :: 0 <= i < k < |s| ==> s[i].position <= s[k].position
  }

  lemma {:induction false} InsertOrders(sorted: seq<Entry>, e: Entry)
    requires ByPosition(sorted)
    ensures ByPosition(InsertByPosition(sorted, e))
    decreases |sorted|
  {
    if sorted != [] && sorted[|sorted| - 1].position > e.position {
      var front, last := sorted[..|sorted| - 1], sorted[|sorted| - 1];
      InsertOrders(front, e);
      var r := InsertByPosition(front, e);
      forall i | 0 <= i < |r| ensures r[i].position <= last.position {
        assert r[i] in multiset(r);
        assert r[i] == e || r[i] in front;
      }
    }
  }

  /** The children in position order, and nothing else: the order is the only thing the sort changes. */
  lemma {:induction false} SortOrders(kids: seq<Entry>)
    ensures ByPosition(SortByPosition(kids)) && multiset(SortByPosition(kids)) == multiset(kids)
  {
    if kids != [] {
      SortOrders(kids[..|kids| - 1]);
      InsertOrders(SortByPosition(kids[..|kids| - 1]), kids[|kids| - 1]);
    }
  }

  lemma KidsAre(t: seq<Entry>, id: nat, e: Entry)
    ensures e in Kids(t, id) <==> e in t && e.parent == Some(id)
    ensures Kids(t, id) == [] <==> !HasChild(t, id)
  {
    assert e in Kids(t, id) <==> e in multiset(Kids(t, id));
    assert e in ChildrenOf(t, id) <==> e in multiset(ChildrenOf(t, id));
    assert |Kids(t, id)| == |multiset(Kids(t, id))| == |multiset(ChildrenOf(t, id))| == |ChildrenOf(t, id)|;
    if ChildrenOf(t, id) != [] {
      assert ChildrenOf(t, id)[0] in ChildrenOf(t, id);
    }
    if HasChild(t, id) {
      var k :| 0 <= k < |t| && t[k].parent == Some(id);
      assert t[k] in ChildrenOf(t, id);
    }
  }

  lemma {:induction false} ChildrenDistinct(t: seq<Entry>, id: nat)
    requires UniqueIds(t)
    ensures multiset(ChildrenOf(t, id)) <= multiset(t)
    ensures Distinct(t)
  {
    if t != [] {
      var front := t[..|t| - 1];
      assert t == front + [t[|t| - 1]];
      ChildrenDistinct(front, id);
    }
  }

  lemma MultisetDistinct(s: seq<Entry>, t: seq<Entry>)
    requires Distinct(t) && multiset(s) <= multiset(t)
    ensures Distinct(s)
  {
    forall i, k | 0 <= i < k < |s| ensures s[i] != s[k] {
      if s[i] == s[k] {
        assert s == s[..i] + [s[i]] + s[i + 1..k] + [s[k]] + s[k + 1..];
        assert multiset(s)[s[i]] >= 2;
        OnceInDistinct(t, s[i]);
      }
    }
  }

  lemma {:induction false} OnceInDistinct(t: seq<Entry>, e: Entry)
    requires Distinct(t)
    ensures multiset(t)[e] <= 1
  {
    if t != [] {
      var front := t[..|t| - 1];
      assert t == front + [t[|t| - 1]];
      OnceInDistinct(front, e);
      assert e in front <==> multiset(front)[e] > 0;
    }
  }

  lemma KidsDistinct(t: seq<Entry>, id: nat)
    requires UniqueIds(t)
    ensures Distinct(Kids(t, id))
  {
    ChildrenDistinct(t, id);
    MultisetDistinct(Kids(t, id), t);
  }

  // ---------------------------------------------------------------------------
  // The visit
  // ---------------------------------------------------------------------------

  function Ids(t: seq<Entry>): set<nat> {
    set e | e in t :: e.id
  }

  /** The leaves met below `id`, in order; `above` are the entries on the way down. */
  ghost function Visit(t: seq<Entry>, id: nat, above: set<nat>): seq<nat>
    decreases |Ids(t) - above|, 0
  {
    if id in above || id !in Ids(t) then []
    else if Kids(t, id) == [] then [id]
    else
      SeenGrows(Ids(t), above, id);
      VisitAll(t, Kids(t, id), above + {id})
  }

  ghost function VisitAll(t: seq<Entry>, kids: seq<Entry>, above: set<nat>): seq<nat>
    decreases |Ids(t) - above|, |kids| + 1
  {
    if kids == [] then [] else Visit(t, kids[0].id, above) + VisitAll(t, kids[1..], above)
  }

  /** Every entry of `above` is a proper ancestor of `id`. */
  ghost predicate OnTheWay(t: seq<Entry>, id: nat, above: set<nat>) {
    forall a :: a in above ==> exists parent :: Edge(id, parent) in ParentEdges(t) && Reaches(ParentEdges(t), parent, a)
  }

  lemma Prepended(edges: seq<Edge>, a: nat, b: nat, c: nat)
    requires Edge(a, b) in edges && Reaches(edges, b, c)
    ensures Reaches(edges, a, c)
    ensures a == c ==> OnCycle(edges, a)
  {
    var p :| Chain(edges, p, b, c);
    var q := [a] + p;
    forall k | 0 < k < |q| ensures Edge(q[k - 1], q[k]) in edges {
      if k > 1 { assert Edge(p[k - 2], p[k - 1]) in edges; }
    }
    assert Chain(edges, q, a, c);
  }

  lemma NotAbove(t: seq<Entry>, id: nat, above: set<nat>)
    requires NoCycleBelow(t, id) && OnTheWay(t, id, above)
    ensures id !in above
  {
    ReachesSelf(ParentEdges(t), id);
    if id in above {
      var parent :| Edge(id, parent) in ParentEdges(t) && Reaches(ParentEdges(t), parent, id);
      Prepended(ParentEdges(t), id, parent, id);
    }
  }

  /** One level down, the entry itself joins the ancestors. */
  lemma KidOnTheWay(t: seq<Entry>, id: nat, above: set<nat>, kid: Entry)
    requires OnTheWay(t, id, above) && kid in t && kid.parent == Some(id)
    ensures OnTheWay(t, kid.id, above + {id}) && Edge(kid.id, id) in ParentEdges(t) && kid.id in Ids(t)
  {
    hide Reaches;
    var e := Edge(kid.id, id);
    var k :| 0 <= k < |t| && t[k] == kid;
    assert t[k].id == e.task && t[k].parent == Some(e.on);
    ReachesSelf(ParentEdges(t), id);
    forall a | a in above ensures Reaches(ParentEdges(t), id, a) {
      var parent :| Edge(id, parent) in ParentEdges(t) && Reaches(ParentEdges(t), parent, a);
      Prepended(ParentEdges(t), id, parent, a);
    }
  }

  /** Whatever is strictly below an entry is at or below one of its children. */
  lemma BelowKid(t: seq<Entry>, id: nat, x: nat) returns (kid: Entry)
    requires Below(t, x, id) && x != id
    ensures kid in t && kid.parent == Some(id) && Below(t, x, kid.id)
  {
    var p :| Chain(ParentEdges(t), p, x, id);
    var last := |p| - 2;
    var e := Edge(p[last], p[last + 1]);
    assert e in ParentEdges(t);
    var k :| 0 <= k < |t| && t[k].id == e.task && t[k].parent == Some(e.on);
    kid := t[k];
    assert Chain(ParentEdges(t), p[..last + 1], x, kid.id);
  }

  lemma AboveKid(t: seq<Entry>, id: nat, x: nat, kid: Entry)
    requires Below(t, x, kid.id) && kid in t && kid.parent == Some(id)
    ensures Below(t, x, id)
  {
    var k :| 0 <= k < |t| && t[k] == kid;
    var e := Edge(kid.id, id);
    assert t[k].id == e.task && t[k].parent == Some(e.on);
    ReachesStep(ParentEdges(t), x, kid.id, id);
  }

  /** A leaf has nothing below it but itself. */
  lemma OnlyItself(t: seq<Entry>, id: nat, x: nat)
    requires !HasChild(t, id) && Below(t, x, id)
    ensures x == id
  {
    if x != id {
      var kid := BelowKid(t, id, x);
    }
  }

  lemma IdsAre(t: seq<Entry>, id: nat)
    ensures id in Ids(t) <==> HasId(t, id)
  {
    if id in Ids(t) {
      var e :| e in t && e.id == id;
      var k :| 0 <= k < |t| && t[k] == e;
    }
    if HasId(t, id) {
      var k :| 0 <= k < |t| && t[k].id == id;
      assert t[k] in t;
    }
  }

  /** Kids that all lie on the way down, with no cycle below them. */
  ghost predicate KidsOnTheWay(t: seq<Entry>, kids: seq<Entry>, above: set<nat>) {
    forall kid :: kid in kids ==> HasId(t, kid.id) && OnTheWay(t, kid.id, above) && NoCycleBelow(t, kid.id)
  }

  ghost predicate BelowSome(t: seq<Entry>, x: nat, kids: seq<Entry>) {
    exists kid :: kid in kids && Below(t, x, kid.id)
  }

  lemma KidsFollow(t: seq<Entry>, id: nat, above: set<nat>)
    requires OnTheWay(t, id, above) && NoCycleBelow(t, id)
    ensures KidsOnTheWay(t, Kids(t, id), above + {id})
  {
    forall kid | kid in Kids(t, id)
      ensures HasId(t, kid.id) && OnTheWay(t, kid.id, above + {id}) && NoCycleBelow(t, kid.id)
    {
      KidsAre(t, id, kid);
      KidOnTheWay(t, id, above, kid);
      IdsAre(t, kid.id);
      NoCycleBelowKid(t, id, kid);
    }
  }

  lemma NoCycleBelowKid(t: seq<Entry>, id: nat, kid: Entry)
    requires NoCycleBelow(t, id) && kid in t && kid.parent == Some(id)
    ensures NoCycleBelow(t, kid.id)
  {
    hide OnCycle;
    forall x | Below(t, x, kid.id) ensures !OnCycle(ParentEdges(t), x) {
      AboveKid(t, id, x, kid);
    }
  }

  /** Strictly below an entry means below one of its children. */
  lemma BelowThroughKids(t: seq<Entry>, id: nat, x: nat)
    ensures BelowSome(t, x, Kids(t, id)) ==> Below(t, x, id)
    ensures Below(t, x, id) && x != id ==> BelowSome(t, x, Kids(t, id))
  {
    if BelowSome(t, x, Kids(t, id)) {
      var kid :| kid in Kids(t, id) && Below(t, x, kid.id);
      KidsAre(t, id, kid);
      AboveKid(t, id, x, kid);
    }
    if Below(t, x, id) && x != id {
      var kid := BelowKid(t, id, x);
      KidsAre(t, id, kid);
    }
  }

  /** The visit meets exactly the leaves at or below its root. */
  lemma {:induction false} VisitMeets(t: seq<Entry>, id: nat, above: set<nat>, x: nat)
    requires NoCycleBelow(t, id) && HasId(t, id) && OnTheWay(t, id, above)
    ensures x in Visit(t, id, above) <==> IsLeaf(t, x) && Below(t, x, id)
    decreases |Ids(t) - above|, 0
  {
    NotAbove(t, id, above);
    IdsAre(t, id);
    hide NoCycleBelow, OnTheWay, HasId, HasChild, Kids, Ids, Below;
    if Kids(t, id) == [] {
      LeafVisit(t, id, x);
    } else {
      SeenGrows(Ids(t), above, id);
      KidsFollow(t, id, above);
      VisitAllMeets(t, Kids(t, id), above + {id}, x);
      BelowThroughKids(t, id, x);
      NoLeafVisit(t, id, x);
    }
  }

  lemma LeafVisit(t: seq<Entry>, id: nat, x: nat)
    requires HasId(t, id) && Kids(t, id) == []
    ensures x == id <==> IsLeaf(t, x) && Below(t, x, id)
  {
    KidsAre(t, id, Entry(0, None, None, 0));
    ReachesSelf(ParentEdges(t), id);
    if Below(t, x, id) { OnlyItself(t, id, x); }
  }

  lemma NoLeafVisit(t: seq<Entry>, id: nat, x: nat)
    requires Kids(t, id) != []
    ensures IsLeaf(t, x) ==> x != id
  {
    KidsAre(t, id, Entry(0, None, None, 0));
  }

  lemma {:induction false} VisitAllMeets(t: seq<Entry>, kids: seq<Entry>, above: set<nat>, x: nat)
    requires KidsOnTheWay(t, kids, above)
    ensures x in VisitAll(t, kids, above) <==> IsLeaf(t, x) && BelowSome(t, x, kids)
    decreases |Ids(t) - above|, |kids| + 1
  {
    if kids != [] {
      assert kids == [kids[0]] + kids[1..];
      VisitMeets(t, kids[0].id, above, x);
      VisitAllMeets(t, kids[1..], above, x);
      hide Below, IsLeaf;
    }
  }

  // ---------------------------------------------------------------------------
  // No duplicates
  // ---------------------------------------------------------------------------

  /** Where parents are unique, two ancestors of the same entry are one above the other. */
  lemma {:induction false} Comparable(edges: seq<Edge>, p: seq<nat>, q: seq<nat>)
    requires Deterministic(edges) && IsChain(edges, p) && IsChain(edges, q) && p[0] == q[0]
    ensures Reaches(edges, p[|p| - 1], q[|q| - 1]) || Reaches(edges, q[|q| - 1], p[|p| - 1])
  {
    if |p| == 1 {
      assert Chain(edges, q, p[0], q[|q| - 1]);
    } else if |q| == 1 {
      assert Chain(edges, p, q[0], p[|p| - 1]);
    } else {
      assert Edge(p[0], p[1]) in edges && Edge(q[0], q[1]) in edges;
      Comparable(edges, p[1..], q[1..]);
    }
  }

  lemma CommonBelow(t: seq<Entry>, x: nat, a: nat, b: nat)
    requires UniqueIds(t) && Below(t, x, a) && Below(t, x, b)
    ensures Below(t, a, b) || Below(t, b, a)
  {
    UniqueIsDeterministic(t);
    var p :| Chain(ParentEdges(t), p, x, a);
    var q :| Chain(ParentEdges(t), q, x, b);
    Comparable(ParentEdges(t), p, q);
  }

  /** No child is above a sibling. */
  lemma SiblingsApart(t: seq<Entry>, id: nat, a: Entry, b: Entry)
    requires UniqueIds(t) && Acyclic(ParentEdges(t)) && a in t && b in t && a.parent == Some(id)
      && b.parent == Some(id) && a.id != b.id
    ensures !Below(t, a.id, b.id)
  {
    if Below(t, a.id, b.id) {
      var edges := ParentEdges(t);
      UniqueIsDeterministic(t);
      var p :| Chain(edges, p, a.id, b.id);
      assert Edge(p[0], p[1]) in edges;
      KidOnTheWay(t, id, {}, a);
      KidOnTheWay(t, id, {}, b);
      assert p[1] == id;
      assert Chain(edges, p[1..], id, b.id);
      Prepended(edges, b.id, id, b.id);
    }
  }

  /** Entries none of which lies below another one of them. */
  ghost predicate Apart(t: seq<Entry>, kids: seq<Entry>) {
    forall i, k :: 0 <= i < |kids| && 0 <= k < |kids| && i != k ==> !Below(t, kids[i].id, kids[k].id)
  }

  lemma KidsApart(t: seq<Entry>, id: nat)
    requires UniqueIds(t) && Acyclic(ParentEdges(t))
    ensures Apart(t, Kids(t, id))
  {
    var kids := Kids(t, id);
    KidsDistinct(t, id);
    forall i, k | 0 <= i < |kids| && 0 <= k < |kids| && i != k ensures !Below(t, kids[i].id, kids[k].id) {
      KidsAre(t, id, kids[i]);
      KidsAre(t, id, kids[k]);
      assert kids[i] != kids[k] by { if i < k {} else { assert kids[k] != kids[i]; } }
      SameEntry(t, kids[i], kids[k]);
      SiblingsApart(t, id, kids[i], kids[k]);
    }
  }

  lemma SameEntry(t: seq<Entry>, a: Entry, b: Entry)
    requires UniqueIds(t) && a in t && b in t && a != b
    ensures a.id != b.id
  {
    var i :| 0 <= i < |t| && t[i] == a;
    var k :| 0 <= k < |t| && t[k] == b;
    SamePosition(t, i, k);
  }

  lemma {:induction false} VisitDistinct(t: seq<Entry>, id: nat, above: set<nat>)
    requires Forest(t) && HasId(t, id) && OnTheWay(t, id, above)
    ensures Distinct(Visit(t, id, above))
    decreases |Ids(t) - above|, 0
  {
    ForestHasNoCycle(t, id);
    NotAbove(t, id, above);
    IdsAre(t, id);
    KidsApart(t, id);
    hide Forest, NoCycleBelow, OnTheWay, HasId, HasChild, Kids, Ids, Below, Apart;
    if Kids(t, id) != [] {
      SeenGrows(Ids(t), above, id);
      KidsFollow(t, id, above);
      VisitAllDistinct(t, Kids(t, id), above + {id});
    }
  }

  lemma {:induction false} VisitAllDistinct(t: seq<Entry>, kids: seq<Entry>, above: set<nat>)
    requires Forest(t) && KidsOnTheWay(t, kids, above) && Apart(t, kids)
    ensures Distinct(VisitAll(t, kids, above))
    decreases |Ids(t) - above|, |kids| + 1
  {
    if kids != [] {
      var first, rest := kids[0], kids[1..];
      assert kids == [first] + rest;
      VisitDistinct(t, first.id, above);
      VisitAllDistinct(t, rest, above);
      forall x | x in Visit(t, first.id, above) ensures x !in VisitAll(t, rest, above) {
        VisitMeets(t, first.id, above, x);
        VisitAllMeets(t, rest, above, x);
        NotBelowBoth(t, kids, x);
      }
      JoinDistinct(Visit(t, first.id, above), VisitAll(t, rest, above));
    }
  }

  lemma NotBelowBoth(t: seq<Entry>, kids: seq<Entry>, x: nat)
    requires UniqueIds(t) && Apart(t, kids) && kids != [] && Below(t, x, kids[0].id)
    ensures !BelowSome(t, x, kids[1..])
  {
    if BelowSome(t, x, kids[1..]) {
      var kid :| kid in kids[1..] && Below(t, x, kid.id);
      var k :| 0 < k < |kids| && kids[k] == kid;
      CommonBelow(t, x, kids[0].id, kid.id);
    }
  }

  lemma JoinDistinct<T>(a: seq<T>, b: seq<T>)
    requires Distinct(a) && Distinct(b) && forall x :: x in a ==> x !in b
    ensures Distinct(a + b)
  {
    forall i, k | 0 <= i < k < |a + b| ensures (a + b)[i] != (a + b)[k] {
      if i < |a| && k >= |a| {
        assert a[i] in a && b[k - |a|] in b;
      }
    }
  }

  // ---------------------------------------------------------------------------
  // Expansion
  // ---------------------------------------------------------------------------

  /** Adds what is not there yet, at the end: the insertion-ordered set of leaves. */
  function AddNew(leaves: seq<nat>, more: seq<nat>): seq<nat> {
    if more == [] then leaves
    else
      var front, last := AddNew(leaves, more[..|more| - 1]), more[|more| - 1];
      if last in front then front else front + [last]
  }

  lemma {:induction false} AddNewHolds(leaves: seq<nat>, more: seq<nat>, x: nat)
    ensures x in AddNew(leaves, more) <==> x in leaves || x in more
  {
    if more != [] {
      assert more == more[..|more| - 1] + [more[|more| - 1]];
      AddNewHolds(leaves, more[..|more| - 1], x);
    }
  }

  lemma {:induction false} AddNewDistinct(leaves: seq<nat>, more: seq<nat>)
    requires Distinct(leaves)
    ensures Distinct(AddNew(leaves, more))
  {
    if more != [] {
      AddNewDistinct(leaves, more[..|more| - 1]);
    }
  }

  lemma {:induction false} AddNewTwice(leaves: seq<nat>, a: seq<nat>, b: seq<nat>)
    ensures AddNew(AddNew(leaves, a), b) == AddNew(leaves, a + b)
  {
    if b == [] {
      assert a + b == a;
    } else {
      AddNewTwice(leaves, a, b[..|b| - 1]);
      assert (a + b)[..|a + b| - 1] == a + b[..|b| - 1];
    }
  }

  lemma LastIsNew(s: seq<nat>)
    requires Distinct(s) && s != []
    ensures s[|s| - 1] !in s[..|s| - 1]
  {
  }

  lemma {:induction false} AddNewFresh(leaves: seq<nat>, more: seq<nat>)
    requires Distinct(leaves + more)
    ensures AddNew(leaves, more) == leaves + more
  {
    if more != [] {
      var front, last := more[..|more| - 1], more[|more| - 1];
      assert leaves + more == (leaves + front) + [last];
      forall i, k | 0 <= i < k < |leaves + front| ensures (leaves + front)[i] != (leaves + front)[k] {
        assert (leaves + front)[i] == (leaves + more)[i] && (leaves + front)[k] == (leaves + more)[k];
      }
      AddNewFresh(leaves, front);
      LastIsNew(leaves + more);
      assert (leaves + more)[..|leaves + more| - 1] == leaves + front;
    }
  }

  /** The visits of all roots, one after the other. */
  ghost function VisitRoots(t: seq<Entry>, roots: seq<nat>): seq<nat> {
    if roots == [] then [] else VisitRoots(t, roots[..|roots| - 1]) + Visit(t, roots[|roots| - 1], {})
  }

  ghost function Expand(t: seq<Entry>, roots: seq<nat>): seq<nat> {
    AddNew([], VisitRoots(t, roots))
  }

  /** The children of every parent, in entry order. */
  ghost predicate ChildLists(t: seq<Entry>, children: map<nat, seq<Entry>>) {
    forall id :: (if id in children then children[id] else []) == ChildrenOf(t, id)
  }

  method GroupChildren(t: seq<Entry>) returns (children: map<nat, seq<Entry>>)
    ensures ChildLists(t, children)
  {
    children := map[];
    for k := 0 to |t|
      invariant ChildLists(t[..k], children)
    {
      assert t[..k + 1][..k] == t[..k];
      if t[k].parent.Some? {
        var parent := t[k].parent.value;
        children := children[parent := (if parent in children then children[parent] else []) + [t[k]]];
      }
    }
    assert t[..|t|] == t;
  }

  lemma VisitUnrolls(t: seq<Entry>, id: nat, above: set<nat>)
    requires NoCycleBelow(t, id) && HasId(t, id) && OnTheWay(t, id, above)
    ensures ChildrenOf(t, id) == [] ==> Visit(t, id, above) == [id]
    ensures ChildrenOf(t, id) != [] ==> Visit(t, id, above) == VisitAll(t, Kids(t, id), above + {id})
    ensures KidsOnTheWay(t, Kids(t, id), above + {id}) && |Ids(t) - (above + {id})| < |Ids(t) - above|
  {
    NotAbove(t, id, above);
    IdsAre(t, id);
    KidsFollow(t, id, above);
    SeenGrows(Ids(t), above, id);
    assert |Kids(t, id)| == |multiset(Kids(t, id))| == |multiset(ChildrenOf(t, id))| == |ChildrenOf(t, id)|;
  }

  lemma VisitAllStep(t: seq<Entry>, kids: seq<Entry>, k: nat, above: set<nat>)
    requires k <= |kids|
    ensures k < |kids| ==>
      VisitAll(t, kids[k..], above) == Visit(t, kids[k].id, above) + VisitAll(t, kids[k + 1..], above)
    ensures k == |kids| ==> VisitAll(t, kids[k..], above) == []
    ensures kids[0..] == kids
  {
    hide Visit;
    if k < |kids| { assert kids[k..][0] == kids[k] && kids[k..][1..] == kids[k + 1..]; }
  }

  /**
   * One visit: it adds its leaves to those already found, and ends because every level has one more
   * proper ancestor.
   */
  method VisitFrom(t: seq<Entry>, children: map<nat, seq<Entry>>, id: nat, found: seq<nat>, ghost above: set<nat>)
    returns (leaves: seq<nat>)
    requires NoCycleBelow(t, id) && ChildLists(t, children) && HasId(t, id) && OnTheWay(t, id, above)
    ensures leaves == AddNew(found, Visit(t, id, above))
    decreases |Ids(t) - above|, 0
  {
    VisitUnrolls(t, id, above);
    assert (if id in children then children[id] else []) == ChildrenOf(t, id);
    hide NoCycleBelow, OnTheWay, HasId, Ids, ChildLists, ChildrenOf, AddNew, Visit, VisitAll, SortByPosition,
      KidsOnTheWay;
    var kids := if id in children then children[id] else [];
    if |kids| == 0 {
      AddOne(found, id);
      return if id in found then found else found + [id];
    }
    leaves := VisitEach(t, children, SortByPosition(kids), found, above + {id});
  }

  method VisitEach(t: seq<Entry>, children: map<nat, seq<Entry>>, kids: seq<Entry>, found: seq<nat>,
                   ghost above: set<nat>) returns (leaves: seq<nat>)
    requires ChildLists(t, children) && KidsOnTheWay(t, kids, above)
    ensures leaves == AddNew(found, VisitAll(t, kids, above))
    decreases |Ids(t) - above|, 1
  {
    leaves := found;
    VisitAllStep(t, kids, 0, above);
    for k := 0 to |kids|
      invariant AddNew(leaves, VisitAll(t, kids[k..], above)) == AddNew(found, VisitAll(t, kids, above))
    {
      hide NoCycleBelow, OnTheWay, HasId, Ids, ChildLists, AddNew, Visit, VisitAll;
      assert kids[k] in kids;
      VisitAllStep(t, kids, k, above);
      AddNewTwice(leaves, Visit(t, kids[k].id, above), VisitAll(t, kids[k + 1..], above));
      leaves := VisitFrom(t, children, kids[k].id, leaves, above);
    }
    VisitAllStep(t, kids, |kids|, above);
    AddNothing(leaves);
  }

  lemma AddOne(leaves: seq<nat>, id: nat)
    ensures AddNew(leaves, [id]) == if id in leaves then leaves else leaves + [id]
  {
    assert [id][..0] == [];
  }

  lemma AddNothing(leaves: seq<nat>)
    ensures AddNew(leaves, []) == leaves
  {
  }

  lemma ExpandStep(t: seq<Entry>, roots: seq<nat>, k: nat)
    requires k <= |roots|
    ensures k < |roots| ==> Expand(t, roots[..k + 1]) == AddNew(Expand(t, roots[..k]), Visit(t, roots[k], {}))
    ensures Expand(t, roots[..0]) == [] && roots[..|roots|] == roots
      && OnTheWay(t, if k < |roots| then roots[k] else 0, {})
  {
    hide Visit, AddNew;
    if k < |roots| {
      assert roots[..k + 1][..k] == roots[..k];
      AddNewTwice([], VisitRoots(t, roots[..k]), Visit(t, roots[k], {}));
    }
    AddNothing([]);
  }

  ghost predicate Known(t: seq<Entry>, roots: seq<nat>) {
    forall root :: root in roots ==> HasId(t, root)
  }

  /** `root` is the first of the roots that names no entry. */
  ghost predicate FirstUnknown(t: seq<Entry>, roots: seq<nat>, root: nat) {
    exists k :: 0 <= k < |roots| && roots[k] == root && !HasId(t, root) && Known(t, roots[..k])
  }

  /** No parent cycle lies below a root that is visited. */
  ghost predicate Ends(t: seq<Entry>, roots: seq<nat>) {
    forall k :: 0 <= k < |roots| && Known(t, roots[..k + 1]) ==> NoCycleBelow(t, roots[k])
  }

  lemma KnownStep(t: seq<Entry>, roots: seq<nat>, k: nat)
    requires k < |roots| && Known(t, roots[..k])
    ensures if HasId(t, roots[k]) then Known(t, roots[..k + 1])
      else FirstUnknown(t, roots, roots[k]) && !Known(t, roots)
  {
    hide HasId;
    assert roots[..k + 1] == roots[..k] + [roots[k]];
  }

  /** Expands the roots in turn; a root that names no entry is refused, the first one first. */
  method ExpandRequirementRoots(t: seq<Entry>, roots: seq<nat>) returns (r: Result<seq<nat>, nat>)
    requires Ends(t, roots)
    ensures r.Ok? <==> Known(t, roots)
    ensures r.Ok? ==> r.value == Expand(t, roots)
    ensures r.Err? ==> FirstUnknown(t, roots, r.error)
  {
    var children := GroupChildren(t);
    var leaves: seq<nat> := [];
    var ids := Ids(t);
    ExpandStep(t, roots, 0);
    hide NoCycleBelow, Visit, HasId, Ids, AddNew, ChildLists, OnTheWay, Expand, Known, FirstUnknown;
    assert Known(t, roots[..0]) by { KnownNone(t, roots); }
    for k := 0 to |roots|
      invariant Known(t, roots[..k])
      invariant leaves == Expand(t, roots[..k])
    {
      IdsAre(t, roots[k]);
      KnownStep(t, roots, k);
      if roots[k] !in ids { return Err(roots[k]); }
      ExpandStep(t, roots, k);
      leaves := VisitFrom(t, children, roots[k], leaves, {});
    }
    ExpandStep(t, roots, |roots|);
    return Ok(leaves);
  }

  lemma KnownNone(t: seq<Entry>, roots: seq<nat>)
    ensures Known(t, roots[..0])
  {
  }

  ghost predicate BelowRoot(t: seq<Entry>, x: nat, roots: seq<nat>) {
    exists root :: root in roots && Below(t, x, root)
  }

  lemma RootsOnTheWay(t: seq<Entry>, root: nat)
    ensures OnTheWay(t, root, {})
  {
  }

  ghost predicate CycleFree(t: seq<Entry>, roots: seq<nat>) {
    forall root :: root in roots ==> NoCycleBelow(t, root)
  }

  lemma ForestIsCycleFree(t: seq<Entry>, roots: seq<nat>)
    requires Forest(t)
    ensures CycleFree(t, roots)
  {
    forall root | root in roots ensures NoCycleBelow(t, root) {
      ForestHasNoCycle(t, root);
    }
  }

  lemma {:induction false} VisitRootsMeet(t: seq<Entry>, roots: seq<nat>, x: nat)
    requires CycleFree(t, roots) && Known(t, roots)
    ensures x in VisitRoots(t, roots) <==> IsLeaf(t, x) && BelowRoot(t, x, roots)
  {
    if roots != [] {
      var front, last := roots[..|roots| - 1], roots[|roots| - 1];
      assert roots == front + [last];
      VisitRootsMeet(t, front, x);
      RootsOnTheWay(t, last);
      VisitMeets(t, last, {}, x);
      hide Below, IsLeaf, NoCycleBelow, Visit;
    }
  }

  /** The expansion holds, without duplicates, exactly the leaves at or below one of the roots. */
  lemma ExpansionExact(t: seq<Entry>, roots: seq<nat>, x: nat)
    requires CycleFree(t, roots) && Known(t, roots)
    ensures Distinct(Expand(t, roots))
    ensures x in Expand(t, roots) <==> IsLeaf(t, x) && BelowRoot(t, x, roots)
  {
    AddNewDistinct([], VisitRoots(t, roots));
    AddNewHolds([], VisitRoots(t, roots), x);
    VisitRootsMeet(t, roots, x);
  }

  /** The expansions of each root by itself, one after the other. */
  ghost function Concatenated(t: seq<Entry>, roots: seq<nat>): seq<nat> {
    if roots == [] then [] else Concatenated(t, roots[..|roots| - 1]) + Expand(t, [roots[|roots| - 1]])
  }

  /** No root lies at or below another one. */
  ghost predicate RootsApart(t: seq<Entry>, roots: seq<nat>) {
    forall i, k :: 0 <= i < |roots| && 0 <= k < |roots| && i != k ==> !Below(t, roots[i], roots[k])
  }

  lemma {:induction false} VisitRootsDistinct(t: seq<Entry>, roots: seq<nat>)
    requires Forest(t) && RootsApart(t, roots) && Known(t, roots)
    ensures Distinct(VisitRoots(t, roots))
  {
    if roots != [] {
      var front, last := roots[..|roots| - 1], roots[|roots| - 1];
      assert roots == front + [last];
      assert RootsApart(t, front) by { hide Below; }
      VisitRootsDistinct(t, front);
      RootsOnTheWay(t, last);
      VisitDistinct(t, last, {});
      ForestIsCycleFree(t, roots);
      forall x | x in VisitRoots(t, front) ensures x !in Visit(t, last, {}) {
        VisitRootsMeet(t, front, x);
        VisitMeets(t, last, {}, x);
        LastApart(t, roots, x);
      }
      JoinDistinct(VisitRoots(t, front), Visit(t, last, {}));
    }
  }

  lemma LastApart(t: seq<Entry>, roots: seq<nat>, x: nat)
    requires UniqueIds(t) && RootsApart(t, roots) && roots != [] && BelowRoot(t, x, roots[..|roots| - 1])
    ensures !Below(t, x, roots[|roots| - 1])
  {
    hide Below;
    var root :| root in roots[..|roots| - 1] && Below(t, x, root);
    var k :| 0 <= k < |roots| - 1 && roots[k] == root;
    if Below(t, x, roots[|roots| - 1]) {
      CommonBelow(t, x, roots[k], roots[|roots| - 1]);
    }
  }

  lemma {:induction false} ConcatenatedVisits(t: seq<Entry>, roots: seq<nat>)
    requires Forest(t) && Known(t, roots)
    ensures Concatenated(t, roots) == VisitRoots(t, roots)
  {
    if roots != [] {
      var front, last := roots[..|roots| - 1], roots[|roots| - 1];
      assert roots == front + [last];
      ConcatenatedVisits(t, front);
      RootsOnTheWay(t, last);
      VisitDistinct(t, last, {});
      ExpandStep(t, [last], 0);
      assert [last][..1] == [last];
      hide Visit;
      assert [] + Visit(t, last, {}) == Visit(t, last, {});
      AddNewFresh([], Visit(t, last, {}));
    }
  }

  /** For roots none of which lies at or below another, the expansion is the concatenation of the expansions of each. */
  lemma IndependentRootsConcatenate(t: seq<Entry>, roots: seq<nat>)
    requires Forest(t) && RootsApart(t, roots) && Known(t, roots)
    ensures Expand(t, roots) == Concatenated(t, roots)
  {
    VisitRootsDistinct(t, roots);
    ConcatenatedVisits(t, roots);
    assert [] + VisitRoots(t, roots) == VisitRoots(t, roots);
    AddNewFresh([], VisitRoots(t, roots));
  }
}
