/**
 * The order and the end of a root expansion, stated without its recursion: two leaves
 * stand in the order of the first roots that cover them, and below the same root in the
 * order of the positions at which their ancestors part; and the recursion ends exactly
 * when no parent cycle lies below its root.
 */
module RequirementOrder {
  import opened Wrappers
  import opened TaskGraph
  import opened RequirementTree
  import opened RequirementRoots

  /** `x` stands somewhere before `y`. */
  ghost predicate Precedes<T>(s: seq<T>, x: T, y: T) {
    exists a, b :: 0 <= a < b < |s| && s[a] == x && s[b] == y
  }

  lemma PrecedesIn<T>(left: seq<T>, s: seq<T>, right: seq<T>, x: T, y: T)
    requires Precedes(s, x, y)
    ensures Precedes(left + s + right, x, y)
  {
    var a, b :| 0 <= a < b < |s| && s[a] == x && s[b] == y;
    var all := left + s + right;
    assert all[|left| + a] == x && all[|left| + b] == y;
  }

  lemma PrecedesAcross<T>(left: seq<T>, right: seq<T>, x: T, y: T)
    requires x in left && y in right
    ensures Precedes(left + right, x, y)
  {
    var a :| 0 <= a < |left| && left[a] == x;
    var b :| 0 <= b < |right| && right[b] == y;
    assert (left + right)[a] == x && (left + right)[|left| + b] == y;
  }

  lemma NotBothWays<T>(s: seq<T>, x: T, y: T)
    requires Distinct(s) && Precedes(s, x, y)
    ensures !Precedes(s, y, x)
  {
  }

  // ---------------------------------------------------------------------------
  // The sort is stable
  // ---------------------------------------------------------------------------

  /** An entry goes behind those of the same or a smaller position and before the others, which keep their order. */
  lemma {:induction false} InsertPlaces(sorted: seq<Entry>, e: Entry, a: nat)
    requires ByPosition(sorted) && a < |sorted|
    ensures sorted[a].position <= e.position ==> Precedes(InsertByPosition(sorted, e), sorted[a], e)
    ensures sorted[a].position > e.position ==> Precedes(InsertByPosition(sorted, e), e, sorted[a])
    decreases |sorted|
  {
    var n := |sorted| - 1;
    if sorted[n].position <= e.position {
      PrecedesAcross(sorted, [e], sorted[a], e);
    } else {
      var front, last := sorted[..n], sorted[n];
      var r := InsertByPosition(front, e);
      assert e in multiset(r);
      if a < n {
        InsertPlaces(front, e, a);
        if front[a].position <= e.position {
          PrecedesIn([], r, [last], front[a], e);
        } else {
          PrecedesIn([], r, [last], e, front[a]);
        }
        assert [] + r + [last] == r + [last];
      } else {
        PrecedesAcross(r, [last], e, last);
      }
    }
  }

  lemma {:induction false} InsertKeeps(sorted: seq<Entry>, e: Entry, x: Entry, y: Entry)
    requires Precedes(sorted, x, y)
    ensures Precedes(InsertByPosition(sorted, e), x, y)
    decreases |sorted|
  {
    var a, b :| 0 <= a < b < |sorted| && sorted[a] == x && sorted[b] == y;
    var n := |sorted| - 1;
    if sorted[n].position <= e.position {
      assert (sorted + [e])[a] == x && (sorted + [e])[b] == y;
    } else {
      var front, last := sorted[..n], sorted[n];
      var r := InsertByPosition(front, e);
      if b < n {
        assert front[a] == x && front[b] == y;
        InsertKeeps(front, e, x, y);
        PrecedesIn([], r, [last], x, y);
        assert [] + r + [last] == r + [last];
      } else {
        assert front[a] in multiset(r);
        PrecedesAcross(r, [last], x, last);
      }
    }
  }

  lemma Somewhere(sorted: seq<Entry>, kids: seq<Entry>, a: nat) returns (at: nat)
    requires multiset(sorted) == multiset(kids) && a < |kids|
    ensures at < |sorted| && sorted[at] == kids[a]
  {
    assert kids[a] in multiset(sorted);
    at :| at < |sorted| && sorted[at] == kids[a];
  }

  lemma SortKeeps(kids: seq<Entry>, x: Entry, y: Entry)
    requires kids != [] && Precedes(SortByPosition(kids[..|kids| - 1]), x, y)
    ensures Precedes(SortByPosition(kids), x, y)
  {
    hide InsertByPosition, Precedes;
    InsertKeeps(SortByPosition(kids[..|kids| - 1]), kids[|kids| - 1], x, y);
  }

  lemma SortPlacesLast(kids: seq<Entry>, a: nat)
    requires a < |kids| - 1
    ensures var last := kids[|kids| - 1];
      && (kids[a].position <= last.position ==> Precedes(SortByPosition(kids), kids[a], last))
      && (kids[a].position > last.position ==> Precedes(SortByPosition(kids), last, kids[a]))
  {
    hide InsertByPosition, Precedes, ByPosition;
    var front, last := kids[..|kids| - 1], kids[|kids| - 1];
    SortOrders(front);
    var at := Somewhere(SortByPosition(front), front, a);
    InsertPlaces(SortByPosition(front), last, at);
  }

  /**
   * Of two entries the one with the smaller position comes first, and of two with the same position
   * the earlier one.
   */
  lemma {:induction false} SortIsStable(kids: seq<Entry>, a: nat, b: nat)
    requires a < b < |kids|
    ensures kids[a].position <= kids[b].position ==> Precedes(SortByPosition(kids), kids[a], kids[b])
    ensures kids[a].position > kids[b].position ==> Precedes(SortByPosition(kids), kids[b], kids[a])
  {
    hide SortByPosition, Precedes;
    if b < |kids| - 1 {
      SortIsStable(kids[..|kids| - 1], a, b);
      if kids[a].position <= kids[b].position {
        SortKeeps(kids, kids[a], kids[b]);
      } else {
        SortKeeps(kids, kids[b], kids[a]);
      }
    } else {
      SortPlacesLast(kids, a);
    }
  }

  /** Entry `i` is visited before entry `k`, a sibling: by position, then by the order of the entries. */
  predicate ChildFirst(t: seq<Entry>, i: nat, k: nat)
    requires i < |t| && k < |t|
  {
    t[i].position < t[k].position || (t[i].position == t[k].position && i < k)
  }

  lemma {:induction false} ChildrenInOrder(t: seq<Entry>, id: nat, i: nat, k: nat)
    requires i < k < |t| && t[i].parent == Some(id) && t[k].parent == Some(id)
    ensures Precedes(ChildrenOf(t, id), t[i], t[k])
  {
    var n := |t| - 1;
    var front, rest := t[..n], ChildrenOf(t[..n], id);
    if k < n {
      ChildrenInOrder(front, id, i, k);
      var tail := if t[n].parent == Some(id) then [t[n]] else [];
      PrecedesIn([], rest, tail, t[i], t[k]);
      assert [] + rest + tail == rest + tail;
    } else {
      assert front[i] in front;
      PrecedesAcross(rest, [t[n]], t[i], t[n]);
    }
  }

  lemma KidsInOrder(t: seq<Entry>, id: nat, i: nat, k: nat)
    requires i < |t| && k < |t| && i != k && t[i].parent == Some(id) && t[k].parent == Some(id) && ChildFirst(t, i, k)
    ensures Precedes(Kids(t, id), t[i], t[k])
  {
    var kids := ChildrenOf(t, id);
    var lo, hi := if i < k then i else k, if i < k then k else i;
    ChildrenInOrder(t, id, lo, hi);
    var a: nat, b: nat :| a < b < |kids| && kids[a] == t[lo] && kids[b] == t[hi];
    SortIsStable(kids, a, b);
  }

  // ---------------------------------------------------------------------------
  // Leaves below one root
  // ---------------------------------------------------------------------------

  lemma {:induction false} KidsKeepOrder(t: seq<Entry>, kids: seq<Entry>, above: set<nat>, u: Entry, v: Entry, x: nat,
                                         y: nat)
    requires Precedes(kids, u, v) && x in Visit(t, u.id, above) && y in Visit(t, v.id, above)
    ensures Precedes(VisitAll(t, kids, above), x, y)
    decreases |kids|
  {
    hide Visit;
    var first, rest := Visit(t, kids[0].id, above), VisitAll(t, kids[1..], above);
    var a, b :| 0 <= a < b < |kids| && kids[a] == u && kids[b] == v;
    if a == 0 {
      assert kids[1..][b - 1] == v;
      KidIsVisited(t, kids[1..], above, v, y);
      PrecedesAcross(first, rest, x, y);
    } else {
      assert kids[1..][a - 1] == u && kids[1..][b - 1] == v;
      KidsKeepOrder(t, kids[1..], above, u, v, x, y);
      PrecedesIn(first, rest, [], x, y);
      assert first + rest + [] == first + rest;
    }
  }

  lemma {:induction false} KidIsVisited(t: seq<Entry>, kids: seq<Entry>, above: set<nat>, v: Entry, y: nat)
    requires v in kids && y in Visit(t, v.id, above)
    ensures y in VisitAll(t, kids, above)
    decreases |kids|
  {
    hide Visit;
    if kids[0] != v {
      assert kids == [kids[0]] + kids[1..];
      KidIsVisited(t, kids[1..], above, v, y);
    }
  }

  lemma {:induction false} KidOrderStays(t: seq<Entry>, kids: seq<Entry>, above: set<nat>, u: Entry, x: nat, y: nat)
    requires u in kids && Precedes(Visit(t, u.id, above), x, y)
    ensures Precedes(VisitAll(t, kids, above), x, y)
    decreases |kids|
  {
    hide Visit;
    var first, rest := Visit(t, kids[0].id, above), VisitAll(t, kids[1..], above);
    if kids[0] == u {
      PrecedesIn([], first, rest, x, y);
      assert [] + first + rest == first + rest;
    } else {
      assert kids == [kids[0]] + kids[1..];
      KidOrderStays(t, kids[1..], above, u, x, y);
      PrecedesIn(first, rest, [], x, y);
      assert first + rest + [] == first + rest;
    }
  }

  /** `x` lies at or below entry `i` and `y` at or below its sibling `k`. */
  ghost predicate Part(t: seq<Entry>, i: nat, k: nat, x: nat, y: nat) {
    && i < |t| && k < |t| && i != k && t[i].parent.Some? && t[k].parent == t[i].parent
    && Below(t, x, t[i].id) && Below(t, y, t[k].id)
  }

  /** The visit meets two leaves in the order of the siblings at which their ancestors part. */
  lemma {:induction false} VisitInOrder(t: seq<Entry>, id: nat, above: set<nat>, i: nat, k: nat, x: nat, y: nat)
    requires Forest(t) && HasId(t, id) && OnTheWay(t, id, above) && NoCycleBelow(t, id)
    requires IsLeaf(t, x) && IsLeaf(t, y) && Part(t, i, k, x, y) && ChildFirst(t, i, k)
      && Below(t, t[i].parent.value, id)
    ensures Precedes(Visit(t, id, above), x, y)
    decreases |Ids(t) - above|
  {
    var kids, parent := Kids(t, id), t[i].parent.value;
    var u := t[i];
    if parent != id { u := BelowKid(t, id, parent); }
    KidsAre(t, id, u);
    KidsAre(t, id, t[k]);
    VisitUnrolls(t, id, above);
    KidsKnown(t, id);
    hide Forest, OnTheWay, NoCycleBelow, HasId, IsLeaf, Below, Kids, Visit, VisitAll, Ids, ChildFirst;
    if parent == id {
      KidsInOrder(t, id, i, k);
      VisitMeets(t, u.id, above + {id}, x);
      VisitMeets(t, t[k].id, above + {id}, y);
      KidsKeepOrder(t, kids, above + {id}, u, t[k], x, y);
    } else {
      VisitInOrder(t, u.id, above + {id}, i, k, x, y);
      KidOrderStays(t, kids, above + {id}, u, x, y);
    }
  }

  lemma KidsKnown(t: seq<Entry>, id: nat)
    ensures Kids(t, id) != [] <==> ChildrenOf(t, id) != []
  {
    KidsAre(t, id, Entry(0, None, None, 0));
    assert |Kids(t, id)| == |multiset(Kids(t, id))| == |multiset(ChildrenOf(t, id))| == |ChildrenOf(t, id)|;
  }

  // ---------------------------------------------------------------------------
  // Where two leaves part
  // ---------------------------------------------------------------------------

  lemma BelowTrans(t: seq<Entry>, x: nat, y: nat, z: nat)
    requires Below(t, x, y) && Below(t, y, z)
    ensures Below(t, x, z)
  {
    var p :| Chain(ParentEdges(t), p, x, y);
    var q :| Chain(ParentEdges(t), q, y, z);
    Join(ParentEdges(t), p, q);
  }

  /** Entries that part lie, with the parent they share, below whatever covers both leaves. */
  lemma PartsBelow(t: seq<Entry>, i: nat, k: nat, x: nat, y: nat, root: nat)
    requires Forest(t) && Part(t, i, k, x, y) && Below(t, x, root) && Below(t, y, root)
    ensures Below(t, t[i].parent.value, root)
  {
    var id := t[i].parent.value;
    CommonBelow(t, x, t[i].id, root);
    if Below(t, root, t[i].id) {
      BelowTrans(t, y, root, t[i].id);
      CommonBelow(t, y, t[i].id, t[k].id);
      assert t[i].id != t[k].id by { if i < k {} else { assert t[k].id != t[i].id; } }
      SiblingsApart(t, id, t[i], t[k]);
      SiblingsApart(t, id, t[k], t[i]);
    } else {
      var p :| Chain(ParentEdges(t), p, t[i].id, root);
      ReachesSelf(ParentEdges(t), root);
      assert Edge(p[0], p[1]) in ParentEdges(t);
      ParentStep(t, i, p[1]);
      assert Chain(ParentEdges(t), p[1..], id, root);
    }
  }

  lemma ParentStep(t: seq<Entry>, i: nat, next: nat)
    requires UniqueIds(t) && i < |t| && t[i].parent.Some? && Edge(t[i].id, next) in ParentEdges(t)
    ensures next == t[i].parent.value
  {
    var e := Edge(t[i].id, next);
    var k :| 0 <= k < |t| && t[k].id == e.task && t[k].parent == Some(e.on);
    SamePosition(t, i, k);
  }

  /** Two different leaves below one entry always part somewhere. */
  lemma {:induction false} LeavesPart(t: seq<Entry>, id: nat, above: set<nat>, x: nat, y: nat) returns (i: nat, k: nat)
    requires Forest(t) && HasId(t, id) && OnTheWay(t, id, above) && x != y
    requires IsLeaf(t, x) && IsLeaf(t, y) && Below(t, x, id) && Below(t, y, id)
    ensures Part(t, i, k, x, y)
    decreases |Ids(t) - above|
  {
    LeafIsLowest(t, x, y, id);
    LeafIsLowest(t, y, x, id);
    var a := BelowKid(t, id, x);
    var b := BelowKid(t, id, y);
    i := IndexOf(t, a);
    k := IndexOf(t, b);
    if i == k {
      ForestHasNoCycle(t, id);
      VisitUnrolls(t, id, above);
      KidOnTheWay(t, id, above, a);
      IdsAre(t, a.id);
      i, k := LeavesPart(t, a.id, above + {id}, x, y);
    }
  }

  lemma IndexOf(t: seq<Entry>, e: Entry) returns (i: nat)
    requires e in t
    ensures i < |t| && t[i] == e
  {
    i :| i < |t| && t[i] == e;
  }

  /** A leaf is not the entry that covers another one. */
  lemma LeafIsLowest(t: seq<Entry>, x: nat, y: nat, id: nat)
    requires IsLeaf(t, x) && x != y && Below(t, y, id)
    ensures x != id
  {
    if x == id { OnlyItself(t, id, y); }
  }

  // ---------------------------------------------------------------------------
  // The whole expansion
  // ---------------------------------------------------------------------------

  /** Some number of the first roots covers `x` and not `y`. */
  ghost predicate EarlierRoot(t: seq<Entry>, roots: seq<nat>, x: nat, y: nat) {
    exists n: nat :: n <= |roots| && BelowRoot(t, x, roots[..n]) && !BelowRoot(t, y, roots[..n])
  }

  /** The ancestors of `x` and `y` part, and those of `x` come first. */
  ghost predicate EarlierBranch(t: seq<Entry>, x: nat, y: nat) {
    exists i, k :: Part(t, i, k, x, y) && ChildFirst(t, i, k)
  }

  /** The order of the leaves: by the first root that covers them, then by position where their ancestors part. */
  ghost predicate ComesFirst(t: seq<Entry>, roots: seq<nat>, x: nat, y: nat) {
    EarlierRoot(t, roots, x, y) || (!EarlierRoot(t, roots, y, x) && EarlierBranch(t, x, y))
  }

  lemma {:induction false} AddNewExtends(leaves: seq<nat>, more: seq<nat>)
    ensures leaves <= AddNew(leaves, more)
  {
    if more != [] {
      AddNewExtends(leaves, more[..|more| - 1]);
    }
  }

  /** What is there already comes before what is added. */
  lemma AddedBehind(leaves: seq<nat>, more: seq<nat>, x: nat, y: nat)
    requires x in leaves && y !in leaves && y in more
    ensures Precedes(AddNew(leaves, more), x, y)
  {
    AddNewExtends(leaves, more);
    AddNewHolds(leaves, more, y);
    var all := AddNew(leaves, more);
    assert all == leaves + all[|leaves|..];
    PrecedesAcross(leaves, all[|leaves|..], x, y);
  }

  /** New leaves are added in their order. */
  lemma AddedInOrder(leaves: seq<nat>, more: seq<nat>, x: nat, y: nat)
    requires x !in leaves && y !in leaves && Distinct(more) && Precedes(more, x, y)
    ensures Precedes(AddNew(leaves, more), x, y)
  {
    var a, b :| 0 <= a < b < |more| && more[a] == x && more[b] == y;
    var front, back := more[..b], more[b..];
    assert front[a] == x && back[0] == y && more == front + back;
    AddNewTwice(leaves, front, back);
    AddNewHolds(leaves, front, x);
    AddNewHolds(leaves, front, y);
    AddedBehind(AddNew(leaves, front), back, x, y);
  }

  lemma {:induction false} VisitRootsFrom(t: seq<Entry>, roots: seq<nat>, n: nat) returns (rest: seq<nat>)
    requires n <= |roots|
    ensures VisitRoots(t, roots) == VisitRoots(t, roots[..n]) + rest
    decreases |roots|
  {
    hide Visit;
    if n == |roots| {
      assert roots[..n] == roots;
      rest := [];
    } else {
      var front := roots[..|roots| - 1];
      rest := VisitRootsFrom(t, front, n);
      assert front[..n] == roots[..n];
      rest := rest + Visit(t, roots[|roots| - 1], {});
    }
  }

  /** Further roots add their leaves behind those of the first ones. */
  lemma ExpandFrom(t: seq<Entry>, roots: seq<nat>, n: nat) returns (rest: seq<nat>)
    requires n <= |roots|
    ensures Expand(t, roots) == AddNew(Expand(t, roots[..n]), rest)
  {
    rest := VisitRootsFrom(t, roots, n);
    AddNewTwice([], VisitRoots(t, roots[..n]), rest);
  }

  lemma KnownFront(t: seq<Entry>, roots: seq<nat>, n: nat)
    requires Forest(t) && Known(t, roots) && n <= |roots|
    ensures Known(t, roots[..n]) && CycleFree(t, roots[..n]) && CycleFree(t, roots)
  {
    ForestIsCycleFree(t, roots);
    hide HasId, NoCycleBelow;
  }

  lemma EarlierRootFirst(t: seq<Entry>, roots: seq<nat>, x: nat, y: nat)
    requires Forest(t) && Known(t, roots) && IsLeaf(t, x) && IsLeaf(t, y)
    requires EarlierRoot(t, roots, x, y) && BelowRoot(t, y, roots)
    ensures Precedes(Expand(t, roots), x, y)
  {
    var n: nat :| n <= |roots| && BelowRoot(t, x, roots[..n]) && !BelowRoot(t, y, roots[..n]);
    KnownFront(t, roots, n);
    hide BelowRoot, IsLeaf, Forest, CycleFree, Known, Expand;
    ExpansionExact(t, roots[..n], x);
    ExpansionExact(t, roots[..n], y);
    ExpansionExact(t, roots, y);
    var rest := ExpandFrom(t, roots, n);
    AddNewHolds(Expand(t, roots[..n]), rest, y);
    AddedBehind(Expand(t, roots[..n]), rest, x, y);
  }

  /** The first root that covers `x`. */
  lemma FirstCover(t: seq<Entry>, roots: seq<nat>, x: nat) returns (n: nat)
    requires BelowRoot(t, x, roots)
    ensures n < |roots| && !BelowRoot(t, x, roots[..n]) && Below(t, x, roots[n]) && BelowRoot(t, x, roots[..n + 1])
  {
    hide Below;
    n := 0;
    while !Below(t, x, roots[n])
      invariant n < |roots| && !BelowRoot(t, x, roots[..n])
      decreases |roots| - n
    {
      assert roots[..n + 1] == roots[..n] + [roots[n]];
      assert roots[..|roots|] == roots;
      n := n + 1;
    }
    assert roots[..n + 1][n] == roots[n];
  }

  lemma CoverStep(t: seq<Entry>, roots: seq<nat>, n: nat, x: nat)
    requires n < |roots|
    ensures BelowRoot(t, x, roots[..n + 1]) <==> BelowRoot(t, x, roots[..n]) || Below(t, x, roots[n])
  {
    hide Below;
    assert roots[..n + 1] == roots[..n] + [roots[n]];
  }

  /** Leaves that no root separates have the same first root. */
  lemma SameFirstRoot(t: seq<Entry>, roots: seq<nat>, x: nat, y: nat) returns (n: nat)
    requires BelowRoot(t, x, roots) && BelowRoot(t, y, roots)
    requires !EarlierRoot(t, roots, x, y) && !EarlierRoot(t, roots, y, x)
    ensures n < |roots| && Below(t, x, roots[n]) && Below(t, y, roots[n])
    ensures !BelowRoot(t, x, roots[..n]) && !BelowRoot(t, y, roots[..n])
  {
    n := FirstCover(t, roots, x);
    hide BelowRoot, Below;
    CoverStep(t, roots, n, y);
  }

  /** What one more root puts in order stays in that order. */
  lemma OrderStays(t: seq<Entry>, roots: seq<nat>, n: nat, x: nat, y: nat)
    requires n < |roots| && Distinct(Visit(t, roots[n], {})) && Precedes(Visit(t, roots[n], {}), x, y)
    requires x !in Expand(t, roots[..n]) && y !in Expand(t, roots[..n])
    ensures Precedes(Expand(t, roots), x, y)
  {
    hide Expand, Visit, AddNew, Precedes, Distinct, OnTheWay;
    AddedInOrder(Expand(t, roots[..n]), Visit(t, roots[n], {}), x, y);
    ExpandStep(t, roots, n);
    var shown, all := Expand(t, roots[..n + 1]), Expand(t, roots);
    var rest := ExpandFrom(t, roots, n + 1);
    AddNewExtends(shown, rest);
    PrecedesIn([], shown, all[|shown|..], x, y);
    assert all == [] + shown + all[|shown|..];
  }

  lemma SameRootByPosition(t: seq<Entry>, roots: seq<nat>, n: nat, x: nat, y: nat)
    requires Forest(t) && Known(t, roots) && IsLeaf(t, x) && IsLeaf(t, y) && EarlierBranch(t, x, y)
    requires n < |roots| && Below(t, x, roots[n]) && Below(t, y, roots[n])
    requires !BelowRoot(t, x, roots[..n]) && !BelowRoot(t, y, roots[..n])
    ensures Precedes(Expand(t, roots), x, y)
  {
    hide BelowRoot, Below, IsLeaf, Forest, CycleFree, OnTheWay, NoCycleBelow, HasId, Expand, Visit, Precedes, Distinct;
    var i: nat, k: nat :| Part(t, i, k, x, y) && ChildFirst(t, i, k);
    KnownFront(t, roots, n);
    ExpansionExact(t, roots[..n], x);
    ExpansionExact(t, roots[..n], y);
    PartsBelow(t, i, k, x, y, roots[n]);
    ForestHasNoCycle(t, roots[n]) by { NoCycleOf(t); }
    RootsOnTheWay(t, roots[n]);
    VisitDistinct(t, roots[n], {});
    VisitInOrder(t, roots[n], {}, i, k, x, y);
    OrderStays(t, roots, n, x, y);
  }

  lemma NoCycleOf(t: seq<Entry>)
    requires Forest(t)
    ensures Acyclic(ParentEdges(t))
  {
  }

  lemma FirstPrecedes(t: seq<Entry>, roots: seq<nat>, x: nat, y: nat)
    requires Forest(t) && Known(t, roots) && IsLeaf(t, x) && IsLeaf(t, y)
    requires BelowRoot(t, x, roots) && BelowRoot(t, y, roots) && ComesFirst(t, roots, x, y)
    ensures Precedes(Expand(t, roots), x, y)
  {
    hide BelowRoot, Below, IsLeaf, Forest, Known, Expand, EarlierBranch, EarlierRoot;
    if EarlierRoot(t, roots, x, y) {
      EarlierRootFirst(t, roots, x, y);
    } else {
      var n := SameFirstRoot(t, roots, x, y);
      SameRootByPosition(t, roots, n, x, y);
    }
  }

  /** Of two different leaves one comes first. */
  lemma OneComesFirst(t: seq<Entry>, roots: seq<nat>, x: nat, y: nat)
    requires Forest(t) && Known(t, roots) && IsLeaf(t, x) && IsLeaf(t, y) && x != y
    requires BelowRoot(t, x, roots) && BelowRoot(t, y, roots)
    ensures ComesFirst(t, roots, x, y) || ComesFirst(t, roots, y, x)
  {
    if !EarlierRoot(t, roots, x, y) && !EarlierRoot(t, roots, y, x) {
      var n := SameFirstRoot(t, roots, x, y);
      RootsOnTheWay(t, roots[n]);
      hide BelowRoot, IsLeaf, Forest, EarlierRoot, OnTheWay, HasId, Below;
      var i, k := LeavesPart(t, roots[n], {}, x, y);
      assert Part(t, k, i, y, x);
      assert ChildFirst(t, i, k) || ChildFirst(t, k, i);
    }
  }

  /**
   * Two leaves stand in the expansion in the order of the first roots that cover them;
   * under the same first root, in the order of the siblings, by position and then by
   * entry, at which their ancestors part.
   */
  lemma ExpansionOrder(t: seq<Entry>, roots: seq<nat>, x: nat, y: nat)
    requires Forest(t) && Known(t, roots) && x != y
    requires x in Expand(t, roots) && y in Expand(t, roots)
    ensures Precedes(Expand(t, roots), x, y) <==> ComesFirst(t, roots, x, y)
  {
    KnownFront(t, roots, |roots|);
    hide BelowRoot, IsLeaf, Forest, Known, CycleFree, Expand, ComesFirst, Precedes;
    ExpansionExact(t, roots, x);
    ExpansionExact(t, roots, y);
    OneComesFirst(t, roots, x, y);
    if ComesFirst(t, roots, x, y) {
      FirstPrecedes(t, roots, x, y);
    } else {
      FirstPrecedes(t, roots, y, x);
      NotBothWays(Expand(t, roots), y, x);
    }
  }

  // ---------------------------------------------------------------------------
  // When the recursion ends
  // ---------------------------------------------------------------------------

  /** Some visit from `root` is `n` levels deep. */
  ghost predicate Nests(t: seq<Entry>, root: nat, n: nat) {
    exists p :: IsChain(ParentEdges(t), p) && p[|p| - 1] == root && |p| == n
  }

  lemma {:induction false} DistinctInside(s: seq<nat>, all: set<nat>)
    requires Distinct(s) && forall k :: 0 <= k < |s| ==> s[k] in all
    ensures |s| <= |all|
  {
    if s != [] {
      var n := |s| - 1;
      DistinctInside(s[..n], all - {s[n]});
    }
  }

  lemma RepeatIsCycle(edges: seq<Edge>, p: seq<nat>, i: nat, k: nat)
    requires IsChain(edges, p) && i < k < |p|
    ensures p[i] == p[k] ==> OnCycle(edges, p[i])
  {
    var cycle := p[i..k + 1];
    assert IsChain(edges, cycle) && |cycle| >= 2 && cycle[0] == p[i] && cycle[|cycle| - 1] == p[k];
  }

  lemma NoCycleIsDistinct(t: seq<Entry>, root: nat, p: seq<nat>)
    requires NoCycleBelow(t, root) && IsChain(ParentEdges(t), p) && p[|p| - 1] == root
    ensures Distinct(p)
  {
    forall i, k | 0 <= i < k < |p| ensures p[i] != p[k] {
      assert Chain(ParentEdges(t), p[i..], p[i], root);
      RepeatIsCycle(ParentEdges(t), p, i, k);
      assert Below(t, p[i], root);
    }
  }

  lemma ChildrenAreEntries(t: seq<Entry>, p: seq<nat>, k: nat)
    requires IsChain(ParentEdges(t), p) && k < |p| - 1
    ensures p[k] in Ids(t)
  {
    var e := Edge(p[k], p[k + 1]);
    assert e in ParentEdges(t);
    var i :| 0 <= i < |t| && t[i].id == e.task && t[i].parent == Some(e.on);
    assert t[i] in t;
  }

  /** Going round the cycle once more makes the way down longer. */
  lemma {:induction false} LongerWay(edges: seq<Edge>, cycle: seq<nat>, p: seq<nat>, n: nat) returns (q: seq<nat>)
    requires IsChain(edges, cycle) && |cycle| >= 2 && cycle[0] == cycle[|cycle| - 1]
    requires IsChain(edges, p) && p[0] == cycle[0]
    ensures IsChain(edges, q) && q[0] == cycle[0] && q[|q| - 1] == p[|p| - 1] && |q| >= n
    decreases n
  {
    if n == 0 {
      q := p;
    } else {
      var shorter := LongerWay(edges, cycle, p, n - 1);
      Join(edges, cycle, shorter);
      q := cycle + shorter[1..];
    }
  }

  /**
   * The recursion is never deeper than one level per entry and the root, if and only if no parent
   * cycle lies below the root.
   */
  lemma RecursionEnds(t: seq<Entry>, root: nat)
    ensures (forall n: nat :: Nests(t, root, n) ==> n <= |Ids(t)| + 1) <==> NoCycleBelow(t, root)
  {
    if NoCycleBelow(t, root) {
      forall p | IsChain(ParentEdges(t), p) && p[|p| - 1] == root ensures |p| <= |Ids(t)| + 1 {
        NoCycleIsDistinct(t, root, p);
        forall k | 0 <= k < |p| - 1 ensures p[k] in Ids(t) {
          ChildrenAreEntries(t, p, k);
        }
        DistinctInside(p[..|p| - 1], Ids(t));
      }
    } else {
      hide Ids;
      var n, x :| n == |Ids(t)| + 2 && Below(t, x, root) && OnCycle(ParentEdges(t), x);
      var cycle :| IsChain(ParentEdges(t), cycle) && |cycle| >= 2 && cycle[0] == x && cycle[|cycle| - 1] == x;
      var p :| Chain(ParentEdges(t), p, x, root);
      var q := LongerWay(ParentEdges(t), cycle, p, n);
      assert IsChain(ParentEdges(t), q[|q| - n..]);
      assert Nests(t, root, n);
    }
  }
}
