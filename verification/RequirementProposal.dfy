/**
 * Proposed Requirement trees, addressed by proposal-local keys: the list of structural
 * defects is empty for exactly the proper proposals, and a proper proposal is a forest
 * under every injective assignment of ids to its keys.
 */
module RequirementProposal {
  import opened Wrappers
  import opened TaskGraph
  import opened RequirementTree

  /** `kept` is the existing Requirement the entry continues, if any. */
  datatype Proposed = Proposed(key: nat, parentKey: Option<nat>, composition: Option<Composition>, kept: Option<nat>)

  /** The proposal as a tree over its keys. */
  function OverKeys(entries: seq<Proposed>): (t: seq<Entry>)
    ensures |t| == |entries|
    ensures forall k :: 0 <= k < |t| ==> t[k] == Entry(entries[k].key, entries[k].parentKey, entries[k].composition, k)
  {
    seq(|entries|, k requires 0 <= k < |entries| =>
        Entry(entries[k].key, entries[k].parentKey, entries[k].composition, k))
  }

  ghost predicate KeptOnce(entries: seq<Proposed>) {
    forall i, k :: 0 <= i < k < |entries| && entries[i].kept.Some? ==> entries[i].kept != entries[k].kept
  }

  ghost predicate Proper(entries: seq<Proposed>) {
    Forest(OverKeys(entries)) && KeptOnce(entries)
  }

  datatype Kind = KeyUsedTwice | KeptTwice | SelfParent | UnknownParentKey | NeedsComposition | NoChildren
    | InParentCycle

  datatype Defect = Defect(index: nat, kind: Kind)

  /** The entry the key index keeps for a key: the first one that carries it. */
  ghost predicate FirstWith(entries: seq<Proposed>, key: nat, n: nat) {
    n < |entries| && entries[n].key == key && forall m :: 0 <= m < n ==> entries[m].key != key
  }

  ghost predicate ParentOf(entries: seq<Proposed>, i: nat, n: nat) {
    i < |entries| && entries[i].parentKey.Some? && FirstWith(entries, entries[i].parentKey.value, n)
  }

  /** Entries, each the parent of the one before it. */
  ghost predicate ParentWalk(entries: seq<Proposed>, w: seq<nat>) {
    && w != [] && w[0] < |entries|
    && forall k :: 0 < k < |w| ==> ParentOf(entries, w[k - 1], w[k])
  }

  lemma WalkInside(entries: seq<Proposed>, w: seq<nat>)
    requires ParentWalk(entries, w)
    ensures forall k :: 0 <= k < |w| ==> w[k] < |entries|
  {
    forall k | 0 <= k < |w| ensures w[k] < |entries| {
      if k > 0 { assert ParentOf(entries, w[k - 1], w[k]); }
    }
  }

  /** The walk ends at a key it has already met, at position `j`. */
  ghost predicate ReturnsTo(entries: seq<Proposed>, w: seq<nat>, j: nat) {
    && ParentWalk(entries, w) && j < |w| - 1
    && w[j] < |entries| && w[|w| - 1] < |entries| && entries[w[j]].key == entries[w[|w| - 1]].key
  }

  /** The parents of entry `i`, followed one by one, come back to a key already met. */
  ghost predicate MeetsParentCycle(entries: seq<Proposed>, i: nat) {
    exists w: seq<nat>, j: nat :: ReturnsTo(entries, w, j) && w[0] == i
  }

  /** What makes a defect of each kind, at the entry it names. */
  ghost predicate Justified(entries: seq<Proposed>, d: Defect) {
    && d.index < |entries|
    && var e, t := entries[d.index], OverKeys(entries);
       match d.kind
       case KeyUsedTwice => exists k :: 0 <= k < d.index && entries[k].key == e.key
       case KeptTwice => e.kept.Some? && exists k :: 0 <= k < d.index && entries[k].kept == e.kept
       case SelfParent => e.parentKey == Some(e.key)
       case UnknownParentKey => e.parentKey.Some? && !HasId(t, e.parentKey.value)
       case NeedsComposition => e.composition == None && HasChild(t, e.key)
       case NoChildren => e.composition.Some? && !HasChild(t, e.key)
       case InParentCycle => MeetsParentCycle(entries, d.index)
  }

  // ---------------------------------------------------------------------------
  // Proper means free of defects
  // ---------------------------------------------------------------------------

  lemma JustifiedRefutes(entries: seq<Proposed>, d: Defect)
    requires Justified(entries, d)
    ensures !Proper(entries)
  {
    hide HasId, HasChild, MeetsParentCycle;
    var t, e := OverKeys(entries), entries[d.index];
    assert t[d.index].id == e.key;
    if d.kind == SelfParent {
      SelfIsCycle(t, d.index);
    }
    if d.kind == InParentCycle {
      MetClosesCycle(entries, d.index);
    }
    hide Acyclic, ParentEdges;
  }

  lemma SelfIsCycle(t: seq<Entry>, k: nat)
    requires k < |t| && t[k].parent == Some(t[k].id)
    ensures !Acyclic(ParentEdges(t))
  {
    var id := t[k].id;
    assert Edge(id, id) in ParentEdges(t);
    assert IsChain(ParentEdges(t), [id, id]);
  }

  lemma MetClosesCycle(entries: seq<Proposed>, i: nat)
    requires MeetsParentCycle(entries, i)
    ensures !Acyclic(ParentEdges(OverKeys(entries)))
  {
    var w: seq<nat>, j: nat :| ReturnsTo(entries, w, j) && w[0] == i;
    WalkInside(entries, w);
    var n := |w| - j;
    var cycle := seq<nat>(n, k requires 0 <= k < n => entries[w[j + k]].key);
    forall k | 0 < k < n ensures Edge(cycle[k - 1], cycle[k]) in ParentEdges(OverKeys(entries)) {
      ParentEdge(entries, w[j + k - 1], w[j + k]);
    }
    hide ParentEdges;
    assert IsChain(ParentEdges(OverKeys(entries)), cycle) && cycle[0] == cycle[n - 1];
  }

  lemma ParentEdge(entries: seq<Proposed>, i: nat, n: nat)
    requires ParentOf(entries, i, n)
    ensures n < |entries| && Edge(entries[i].key, entries[n].key) in ParentEdges(OverKeys(entries))
  {
    KeyEdge(entries, i, entries[n].key);
  }

  lemma KeyEdge(entries: seq<Proposed>, at: nat, next: nat)
    requires at < |entries| && entries[at].parentKey == Some(next)
    ensures Edge(entries[at].key, next) in ParentEdges(OverKeys(entries))
  {
    var t, e := OverKeys(entries), Edge(entries[at].key, next);
    assert t[at].id == e.task && t[at].parent == Some(e.on);
  }

  lemma OwnKey(entries: seq<Proposed>, i: nat)
    requires i < |entries|
    ensures HasId(OverKeys(entries), entries[i].key)
  {
    assert OverKeys(entries)[i].id == entries[i].key;
  }

  /** The entry an edge between keys comes from. */
  lemma EntryOfEdge(entries: seq<Proposed>, a: nat, b: nat) returns (at: nat)
    requires Edge(a, b) in ParentEdges(OverKeys(entries))
    ensures at < |entries| && entries[at].key == a && entries[at].parentKey == Some(b)
  {
    var t, e := OverKeys(entries), Edge(a, b);
    at :| at < |t| && t[at].id == e.task && t[at].parent == Some(e.on);
  }

  /** With unique keys, the entry that carries a key is the first one. */
  lemma EntryOfKey(entries: seq<Proposed>, key: nat) returns (at: nat)
    requires UniqueIds(OverKeys(entries)) && HasId(OverKeys(entries), key)
    ensures FirstWith(entries, key, at)
  {
    at :| at < |entries| && OverKeys(entries)[at].id == key;
    Alone(entries, at);
  }

  /** With unique keys, a chain of keys is the walk of the entries that carry them. */
  lemma {:induction false} WalkOfKeys(entries: seq<Proposed>, p: seq<nat>) returns (w: seq<nat>)
    requires UniqueIds(OverKeys(entries)) && IsChain(ParentEdges(OverKeys(entries)), p)
    requires HasId(OverKeys(entries), p[|p| - 1])
    ensures |w| == |p| && ParentWalk(entries, w)
    ensures forall k :: 0 <= k < |w| ==> FirstWith(entries, p[k], w[k])
  {
    hide ParentEdges, UniqueIds, HasId;
    var m := |p| - 1;
    var last := EntryOfKey(entries, p[m]);
    if m == 0 {
      w := [last];
    } else {
      assert Edge(p[m - 1], p[m]) in ParentEdges(OverKeys(entries));
      var at := EntryOfEdge(entries, p[m - 1], p[m]);
      OwnKey(entries, at);
      Alone(entries, at);
      var front := WalkOfKeys(entries, p[..m]);
      assert FirstWith(entries, p[m - 1], front[m - 1]);
      assert ParentOf(entries, front[m - 1], last);
      w := front + [last];
      hide FirstWith, ParentOf;
    }
  }

  lemma Alone(entries: seq<Proposed>, n: nat)
    requires UniqueIds(OverKeys(entries)) && n < |entries|
    ensures FirstWith(entries, entries[n].key, n)
  {
    forall m | 0 <= m < n ensures entries[m].key != entries[n].key {
      assert OverKeys(entries)[m].id != OverKeys(entries)[n].id;
    }
  }

  /** With unique keys, a cycle of keys is met by the entry it starts from. */
  lemma CycleIsMet(entries: seq<Proposed>, p: seq<nat>) returns (i: nat)
    requires UniqueIds(OverKeys(entries)) && IsChain(ParentEdges(OverKeys(entries)), p)
    requires |p| >= 2 && p[0] == p[|p| - 1]
    ensures i < |entries| && MeetsParentCycle(entries, i)
  {
    hide ParentEdges, UniqueIds, HasId, ParentWalk;
    assert Edge(p[0], p[1]) in ParentEdges(OverKeys(entries));
    var at := EntryOfEdge(entries, p[0], p[1]);
    OwnKey(entries, at);
    var w := WalkOfKeys(entries, p);
    assert FirstWith(entries, p[0], w[0]) && FirstWith(entries, p[|p| - 1], w[|w| - 1]);
    i := w[0];
    assert ReturnsTo(entries, w, 0);
  }

  lemma UnmetIsAcyclic(entries: seq<Proposed>)
    requires UniqueIds(OverKeys(entries)) && forall i :: 0 <= i < |entries| ==> !MeetsParentCycle(entries, i)
    ensures Acyclic(ParentEdges(OverKeys(entries)))
  {
    if p :| IsChain(ParentEdges(OverKeys(entries)), p) && |p| >= 2 && p[0] == p[|p| - 1] {
      var i := CycleIsMet(entries, p);
    }
  }

  ghost predicate Faultless(entries: seq<Proposed>) {
    forall d :: !Justified(entries, d)
  }

  lemma FaultlessKeys(entries: seq<Proposed>)
    requires Faultless(entries)
    ensures UniqueIds(OverKeys(entries)) && KeptOnce(entries)
  {
    forall i, k | 0 <= i < k < |entries| ensures entries[i].key != entries[k].key {
      assert !Justified(entries, Defect(k, KeyUsedTwice));
    }
    forall i, k | 0 <= i < k < |entries| && entries[i].kept.Some? ensures entries[i].kept != entries[k].kept {
      assert !Justified(entries, Defect(k, KeptTwice));
    }
  }

  lemma FaultlessShape(entries: seq<Proposed>)
    requires Faultless(entries)
    ensures ParentsExist(OverKeys(entries)) && Composed(OverKeys(entries))
  {
    hide HasId, HasChild;
    var t := OverKeys(entries);
    forall k | 0 <= k < |t|
      ensures t[k].parent.Some? ==> HasId(t, t[k].parent.value)
      ensures t[k].composition.Some? <==> HasChild(t, t[k].id)
    {
      assert !Justified(entries, Defect(k, UnknownParentKey));
      assert !Justified(entries, Defect(k, NeedsComposition));
      assert !Justified(entries, Defect(k, NoChildren));
    }
  }

  /** The proposal is a forest over its keys, with kept Requirements unique, exactly when nothing justifies a defect. */
  lemma ProperExactly(entries: seq<Proposed>)
    ensures Proper(entries) <==> Faultless(entries)
  {
    if Faultless(entries) {
      FaultlessKeys(entries);
      FaultlessShape(entries);
      forall i | 0 <= i < |entries| ensures !MeetsParentCycle(entries, i) {
        assert !Justified(entries, Defect(i, InParentCycle));
      }
      UnmetIsAcyclic(entries);
    } else {
      var d :| Justified(entries, d);
      JustifiedRefutes(entries, d);
    }
  }

  // ---------------------------------------------------------------------------
  // The four passes
  // ---------------------------------------------------------------------------

  /** Every justified defect of these kinds at these entries is listed, once, and nothing else is. */
  ghost predicate Listed(entries: seq<Proposed>, defects: seq<Defect>, kinds: set<Kind>, from: nat, to: nat) {
    && (forall d :: d in defects <==> d.kind in kinds && from <= d.index < to && Justified(entries, d))
    && (forall j, k :: 0 <= j < k < |defects| ==> defects[j] != defects[k])
  }

  lemma ListedOne(entries: seq<Proposed>, kind: Kind, i: nat)
    ensures Listed(entries, if Justified(entries, Defect(i, kind)) then [Defect(i, kind)] else [], {kind}, i, i + 1)
  {
    hide Justified;
  }

  lemma ListedNext(entries: seq<Proposed>, a: seq<Defect>, b: seq<Defect>, kinds: set<Kind>, from: nat, mid: nat,
                   to: nat)
    requires from <= mid <= to && Listed(entries, a, kinds, from, mid) && Listed(entries, b, kinds, mid, to)
    ensures Listed(entries, a + b, kinds, from, to)
  {
    hide Justified;
    DistinctJoin(a, b);
  }

  lemma ListedKinds(entries: seq<Proposed>, a: seq<Defect>, b: seq<Defect>, kindsA: set<Kind>, kindsB: set<Kind>,
                    from: nat, to: nat)
    requires kindsA !! kindsB && Listed(entries, a, kindsA, from, to) && Listed(entries, b, kindsB, from, to)
    ensures Listed(entries, a + b, kindsA + kindsB, from, to)
  {
    hide Justified;
    DistinctJoin(a, b);
  }

  lemma DistinctJoin(a: seq<Defect>, b: seq<Defect>)
    requires forall j, k :: 0 <= j < k < |a| ==> a[j] != a[k]
    requires forall j, k :: 0 <= j < k < |b| ==> b[j] != b[k]
    requires forall d :: d in a ==> d !in b
    ensures forall j, k :: 0 <= j < k < |a + b| ==> (a + b)[j] != (a + b)[k]
  {
    forall j, k | 0 <= j < k < |a + b| ensures (a + b)[j] != (a + b)[k] {
      if j < |a| <= k {
        assert a[j] in a && b[k - |a|] in b;
      }
    }
  }

  /** The first entry of each key among the first `n`. */
  ghost predicate Keyed(entries: seq<Proposed>, n: nat, byKey: map<nat, nat>)
    requires n <= |entries|
  {
    && (forall key :: key in byKey ==> byKey[key] < n && FirstWith(entries, key, byKey[key]))
    && (forall k :: 0 <= k < n ==> entries[k].key in byKey)
  }

  method KeyPass(entries: seq<Proposed>) returns (byKey: map<nat, nat>, defects: seq<Defect>)
    ensures Keyed(entries, |entries|, byKey) && Listed(entries, defects, {KeyUsedTwice}, 0, |entries|)
  {
    byKey, defects := map[], [];
    for i := 0 to |entries|
      invariant Keyed(entries, i, byKey) && Listed(entries, defects, {KeyUsedTwice}, 0, i)
    {
      ListedOne(entries, KeyUsedTwice, i);
      hide Listed;
      KeyedTwice(entries, byKey, i);
      var own := [];
      if entries[i].key in byKey {
        own := [Defect(i, KeyUsedTwice)];
      } else {
        byKey := byKey[entries[i].key := i];
      }
      ListedNext(entries, defects, own, {KeyUsedTwice}, 0, i, i + 1);
      defects := defects + own;
    }
  }

  lemma KeyedTwice(entries: seq<Proposed>, byKey: map<nat, nat>, i: nat)
    requires i < |entries| && Keyed(entries, i, byKey)
    ensures entries[i].key in byKey <==> Justified(entries, Defect(i, KeyUsedTwice))
    ensures entries[i].key !in byKey ==> FirstWith(entries, entries[i].key, i)
  {
  }

  ghost predicate KeptIndexed(entries: seq<Proposed>, n: nat, kept: map<nat, nat>)
    requires n <= |entries|
  {
    && (forall id :: id in kept ==> kept[id] < n && entries[kept[id]].kept == Some(id))
    && (forall k :: 0 <= k < n && entries[k].kept.Some? ==> entries[k].kept.value in kept)
  }

  method KeptPass(entries: seq<Proposed>) returns (defects: seq<Defect>)
    ensures Listed(entries, defects, {KeptTwice}, 0, |entries|)
  {
    var kept: map<nat, nat> := map[];
    defects := [];
    for i := 0 to |entries|
      invariant KeptIndexed(entries, i, kept) && Listed(entries, defects, {KeptTwice}, 0, i)
    {
      ListedOne(entries, KeptTwice, i);
      hide Listed;
      KeptAgain(entries, kept, i);
      var own := [];
      if entries[i].kept.Some? {
        if entries[i].kept.value in kept {
          own := [Defect(i, KeptTwice)];
        } else {
          kept := kept[entries[i].kept.value := i];
        }
      }
      ListedNext(entries, defects, own, {KeptTwice}, 0, i, i + 1);
      defects := defects + own;
    }
  }

  lemma KeptAgain(entries: seq<Proposed>, kept: map<nat, nat>, i: nat)
    requires i < |entries| && KeptIndexed(entries, i, kept)
    ensures entries[i].kept.Some? && entries[i].kept.value in kept <==> Justified(entries, Defect(i, KeptTwice))
  {
  }

  method Parents(entries: seq<Proposed>) returns (parents: set<nat>)
    ensures forall key :: key in parents <==> HasChild(OverKeys(entries), key)
  {
    parents := {};
    for i := 0 to |entries|
      invariant forall key :: key in parents <==> HasChild(OverKeys(entries)[..i], key)
    {
      forall key: nat
        ensures HasChild(OverKeys(entries)[..i + 1], key) <==>
          HasChild(OverKeys(entries)[..i], key) || entries[i].parentKey == Some(key)
      {
        ChildOfPrefix(OverKeys(entries), i, key);
      }
      if entries[i].parentKey.Some? {
        parents := parents + {entries[i].parentKey.value};
      }
    }
    assert OverKeys(entries)[..|entries|] == OverKeys(entries);
  }

  const SHAPES := {SelfParent, UnknownParentKey, NeedsComposition, NoChildren}

  method ShapeOf(entries: seq<Proposed>, byKey: map<nat, nat>, parents: set<nat>, i: nat) returns (defects: seq<Defect>)
    requires i < |entries| && Keyed(entries, |entries|, byKey)
    requires forall key :: key in parents <==> HasChild(OverKeys(entries), key)
    ensures Listed(entries, defects, SHAPES, i, i + 1)
  {
    hide HasChild, Listed, Keyed;
    var e := entries[i];
    var self, unknown, needs, none := [], [], [], [];
    if e.parentKey.Some? {
      KeyNamesEntry(entries, byKey, e.parentKey.value);
      if e.parentKey.value == e.key {
        OwnKey(entries, i);
        self := [Defect(i, SelfParent)];
      } else if e.parentKey.value !in byKey {
        unknown := [Defect(i, UnknownParentKey)];
      }
    }
    if e.key in parents && e.composition == None {
      needs := [Defect(i, NeedsComposition)];
    }
    if e.key !in parents && e.composition.Some? {
      none := [Defect(i, NoChildren)];
    }
    ListedOne(entries, SelfParent, i);
    ListedOne(entries, UnknownParentKey, i);
    ListedOne(entries, NeedsComposition, i);
    ListedOne(entries, NoChildren, i);
    ListedKinds(entries, self, unknown, {SelfParent}, {UnknownParentKey}, i, i + 1);
    ListedKinds(entries, needs, none, {NeedsComposition}, {NoChildren}, i, i + 1);
    ListedKinds(entries, self + unknown, needs + none, {SelfParent} + {UnknownParentKey},
                {NeedsComposition} + {NoChildren}, i, i + 1);
    assert {SelfParent} + {UnknownParentKey} + ({NeedsComposition} + {NoChildren}) == SHAPES;
    defects := self + unknown + (needs + none);
  }

  lemma KeyNamesEntry(entries: seq<Proposed>, byKey: map<nat, nat>, key: nat)
    requires Keyed(entries, |entries|, byKey)
    ensures key in byKey <==> HasId(OverKeys(entries), key)
  {
    var t := OverKeys(entries);
    if key in byKey { assert t[byKey[key]].id == key; }
    if HasId(t, key) {
      var k :| 0 <= k < |t| && t[k].id == key;
      assert entries[k].key in byKey;
    }
  }

  /** Follows the parents of entry `i` through the key index: true exactly when they come back to a key already met. */
  method MeetsCycle(entries: seq<Proposed>, byKey: map<nat, nat>, i: nat) returns (cycle: bool)
    requires i < |entries| && Keyed(entries, |entries|, byKey)
    ensures cycle <==> MeetsParentCycle(entries, i)
  {
    var seen: set<nat> := {};
    var cursor := entries[i].parentKey;
    ghost var w: seq<nat>, at: nat := [i], i;
    while cursor.Some? && cursor.value in byKey
      invariant at < |entries| && cursor == entries[at].parentKey
      invariant Walking(entries, i, w, at, seen) && seen <= byKey.Keys
      decreases |byKey.Keys - seen|
    {
      hide Walking, Keyed, MeetsParentCycle;
      var next := cursor.value;
      WalkOn(entries, byKey, i, w, at, seen, next);
      if next == entries[i].key || next in seen { return true; }
      SeenGrows(byKey.Keys, seen, next);
      seen := seen + {next};
      w, at := w + [byKey[next]], byKey[next];
      cursor := entries[byKey[next]].parentKey;
    }
    WalkEnds(entries, byKey, i, w, at, seen);
    return false;
  }

  ghost predicate Met(entries: seq<Proposed>, w: seq<nat>, key: nat) {
    exists k :: 0 <= k < |w| && w[k] < |entries| && entries[w[k]].key == key
  }

  /** The walk from entry `i` to entry `at` has met each of the keys in `seen` and its own, once. */
  ghost predicate Walking(entries: seq<Proposed>, i: nat, w: seq<nat>, at: nat, seen: set<nat>)
    requires i < |entries| && at < |entries|
  {
    && ParentWalk(entries, w) && w[0] == i && w[|w| - 1] == at
    && (forall k :: 0 <= k < |w| ==>
          w[k] < |entries| && (entries[w[k]].key in seen || entries[w[k]].key == entries[i].key))
    && (forall n :: n in seen || n == entries[i].key ==> Met(entries, w, n))
    && (forall j, k :: 0 <= j < k < |w| ==> entries[w[j]].key != entries[w[k]].key)
  }

  lemma WalkOn(entries: seq<Proposed>, byKey: map<nat, nat>, i: nat, w: seq<nat>, at: nat, seen: set<nat>, next: nat)
    requires i < |entries| && at < |entries| && Keyed(entries, |entries|, byKey) && Walking(entries, i, w, at, seen)
    requires entries[at].parentKey == Some(next) && next in byKey
    ensures byKey[next] < |entries|
    ensures next == entries[i].key || next in seen ==> MeetsParentCycle(entries, i)
    ensures next != entries[i].key && next !in seen ==>
      Walking(entries, i, w + [byKey[next]], byKey[next], seen + {next})
  {
    var v := w + [byKey[next]];
    assert ParentWalk(entries, v) by { StepsOn(entries, w, byKey[next]); }
    hide ParentWalk, FirstWith, ParentOf;
    if next == entries[i].key || next in seen {
      MetAgain(entries, w, byKey[next]);
    } else {
      forall n ensures Met(entries, v, n) <==> Met(entries, w, n) || n == next {
        MetOn(entries, w, byKey[next], n);
      }
      hide Met;
    }
  }

  lemma MetOn(entries: seq<Proposed>, w: seq<nat>, next: nat, n: nat)
    requires next < |entries|
    ensures Met(entries, w + [next], n) <==> Met(entries, w, n) || n == entries[next].key
  {
    var v := w + [next];
    assert v[|w|] == next && forall k :: 0 <= k < |w| ==> v[k] == w[k];
    if Met(entries, w, n) {
      var k :| 0 <= k < |w| && w[k] < |entries| && entries[w[k]].key == n;
      assert v[k] == w[k];
    }
  }

  lemma MetAgain(entries: seq<Proposed>, w: seq<nat>, next: nat)
    requires ParentWalk(entries, w + [next]) && w != [] && next < |entries| && Met(entries, w, entries[next].key)
    ensures MeetsParentCycle(entries, w[0])
  {
    hide ParentWalk;
    var j: nat :| j < |w| && w[j] < |entries| && entries[w[j]].key == entries[next].key;
    assert ReturnsTo(entries, w + [next], j) && (w + [next])[0] == w[0];
  }

  lemma StepsOn(entries: seq<Proposed>, w: seq<nat>, n: nat)
    requires ParentWalk(entries, w) && ParentOf(entries, w[|w| - 1], n)
    ensures ParentWalk(entries, w + [n])
  {
  }

  /** No entry carries the key that entry `i` names as its parent. */
  ghost predicate Ended(entries: seq<Proposed>, i: nat) {
    i < |entries| && forall k :: 0 <= k < |entries| ==> entries[i].parentKey != Some(entries[k].key)
  }

  /** Every step of a walk is forced, so no walk goes beyond one that has ended. */
  lemma {:induction false} EndedIsLongest(entries: seq<Proposed>, w: seq<nat>, v: seq<nat>)
    requires ParentWalk(entries, w) && ParentWalk(entries, v) && v[0] == w[0]
    requires Ended(entries, w[|w| - 1])
    ensures v <= w
  {
    var m := |v| - 1;
    if m > 0 {
      assert ParentWalk(entries, v[..m]);
      EndedIsLongest(entries, w, v[..m]);
      assert ParentOf(entries, v[m - 1], v[m]) && v[m - 1] == w[m - 1];
      assert m < |w| && ParentOf(entries, w[m - 1], w[m]);
    }
  }

  lemma WalkEnds(entries: seq<Proposed>, byKey: map<nat, nat>, i: nat, w: seq<nat>, at: nat, seen: set<nat>)
    requires i < |entries| && at < |entries| && Keyed(entries, |entries|, byKey) && Walking(entries, i, w, at, seen)
    requires entries[at].parentKey == None || entries[at].parentKey.value !in byKey
    ensures !MeetsParentCycle(entries, i)
  {
    if v: seq<nat>, j: nat :| ReturnsTo(entries, v, j) && v[0] == i {
      EndedIsLongest(entries, w, v);
    }
  }

  method CyclePass(entries: seq<Proposed>, byKey: map<nat, nat>) returns (defects: seq<Defect>)
    requires Keyed(entries, |entries|, byKey)
    ensures Listed(entries, defects, {InParentCycle}, 0, |entries|)
  {
    defects := [];
    for i := 0 to |entries|
      invariant Listed(entries, defects, {InParentCycle}, 0, i)
    {
      hide Listed, Keyed, MeetsParentCycle;
      var cycle := MeetsCycle(entries, byKey, i);
      var own := if cycle then [Defect(i, InParentCycle)] else [];
      ListedOne(entries, InParentCycle, i);
      ListedNext(entries, defects, own, {InParentCycle}, 0, i, i + 1);
      defects := defects + own;
    }
  }

  method ShapePass(entries: seq<Proposed>, byKey: map<nat, nat>, parents: set<nat>) returns (defects: seq<Defect>)
    requires Keyed(entries, |entries|, byKey)
    requires forall key :: key in parents <==> HasChild(OverKeys(entries), key)
    ensures Listed(entries, defects, SHAPES, 0, |entries|)
  {
    defects := [];
    for i := 0 to |entries|
      invariant Listed(entries, defects, SHAPES, 0, i)
    {
      hide Listed, Keyed, HasChild;
      var own := ShapeOf(entries, byKey, parents, i);
      ListedNext(entries, defects, own, SHAPES, 0, i, i + 1);
      defects := defects + own;
    }
  }

  /**
   * Every kind of defect is listed, once, for exactly the entries that have it, so that
   * the list is empty if and only if the proposal is proper.
   */
  method ProposedRequirementTreeDefects(entries: seq<Proposed>) returns (defects: seq<Defect>)
    ensures forall d :: d in defects <==> Justified(entries, d)
    ensures forall j, k :: 0 <= j < k < |defects| ==> defects[j] != defects[k]
    ensures defects == [] <==> Proper(entries)
  {
    var byKey, keys := KeyPass(entries);
    var kept := KeptPass(entries);
    var parents := Parents(entries);
    var shapes := ShapePass(entries, byKey, parents);
    var cycles := CyclePass(entries, byKey);
    hide Justified, Proper, Keyed, Listed, HasChild;
    defects := keys + kept + shapes + cycles;
    AllListed(entries, keys, kept, shapes, cycles);
    ProperExactly(entries);
    if defects != [] { assert defects[0] in defects; }
  }

  lemma AllListed(entries: seq<Proposed>, keys: seq<Defect>, kept: seq<Defect>, shapes: seq<Defect>,
                  cycles: seq<Defect>)
    requires Listed(entries, keys, {KeyUsedTwice}, 0, |entries|) && Listed(entries, kept, {KeptTwice}, 0, |entries|)
    requires Listed(entries, shapes, SHAPES, 0, |entries|) && Listed(entries, cycles, {InParentCycle}, 0, |entries|)
    ensures var defects := keys + kept + shapes + cycles;
      && (forall d :: d in defects <==> Justified(entries, d))
      && (forall j, k :: 0 <= j < k < |defects| ==> defects[j] != defects[k])
  {
    var n, two := |entries|, {KeyUsedTwice} + {KeptTwice};
    ListedKinds(entries, keys, kept, {KeyUsedTwice}, {KeptTwice}, 0, n);
    ListedKinds(entries, keys + kept, shapes, two, SHAPES, 0, n);
    ListedKinds(entries, keys + kept + shapes, cycles, two + SHAPES, {InParentCycle}, 0, n);
    forall d: Defect ensures d.kind in two + SHAPES + {InParentCycle} {
      KindIsListed(d.kind);
    }
    forall d: Defect ensures Justified(entries, d) ==> d.index < n {
    }
    hide Justified;
  }

  lemma KindIsListed(kind: Kind)
    ensures kind in {KeyUsedTwice} + {KeptTwice} + SHAPES + {InParentCycle}
  {
  }

  // ---------------------------------------------------------------------------
  // Approval: keys become ids
  // ---------------------------------------------------------------------------

  /** Different keys of the proposal get different ids. */
  ghost predicate Injective(entries: seq<Proposed>, ids: map<nat, nat>) {
    && (forall k :: 0 <= k < |entries| ==> entries[k].key in ids)
    && (forall k :: 0 <= k < |entries| && entries[k].parentKey.Some? ==> entries[k].parentKey.value in ids)
    && (forall a, b :: a in ids && b in ids && ids[a] == ids[b] ==> a == b)
  }

  /** The tree the approval writes. */
  function Realize(entries: seq<Proposed>, ids: map<nat, nat>): (t: seq<Entry>)
    requires forall k :: 0 <= k < |entries| ==> entries[k].key in ids
    requires forall k :: 0 <= k < |entries| && entries[k].parentKey.Some? ==> entries[k].parentKey.value in ids
    ensures |t| == |entries|
    ensures forall k :: 0 <= k < |t| ==>
      t[k] == Entry(ids[entries[k].key],
                    if entries[k].parentKey.Some? then Some(ids[entries[k].parentKey.value])
                    else None, entries[k].composition, k)
  {
    seq(|entries|, k requires 0 <= k < |entries| =>
      Entry(ids[entries[k].key], if entries[k].parentKey.Some? then Some(ids[entries[k].parentKey.value]) else None,
            entries[k].composition, k))
  }

  /** An edge between ids comes from an edge between keys. */
  lemma EdgeOfKeys(entries: seq<Proposed>, ids: map<nat, nat>, a: nat, b: nat) returns (key: nat, parent: nat)
    requires Injective(entries, ids) && Edge(a, b) in ParentEdges(Realize(entries, ids))
    ensures Edge(key, parent) in ParentEdges(OverKeys(entries)) && key in ids && parent in ids && ids[key] == a
      && ids[parent] == b
  {
    var t, e := Realize(entries, ids), Edge(a, b);
    var k :| 0 <= k < |t| && t[k].id == e.task && t[k].parent == Some(e.on);
    key, parent := entries[k].key, entries[k].parentKey.value;
    KeyEdge(entries, k, parent);
  }

  lemma Prepend(edges: seq<Edge>, n: nat, p: seq<nat>)
    requires IsChain(edges, p) && Edge(n, p[0]) in edges
    ensures IsChain(edges, [n] + p)
  {
    var q := [n] + p;
    forall j | 0 < j < |q| ensures Edge(q[j - 1], q[j]) in edges {
      if j > 1 { assert Edge(p[j - 2], p[j - 1]) in edges; }
    }
  }

  /** A chain of ids comes from a chain of keys. */
  lemma {:induction false} ChainOfKeys(entries: seq<Proposed>, ids: map<nat, nat>, p: seq<nat>) returns (q: seq<nat>)
    requires Injective(entries, ids) && IsChain(ParentEdges(Realize(entries, ids)), p) && |p| >= 2
    ensures IsChain(ParentEdges(OverKeys(entries)), q) && |q| == |p|
    ensures forall k :: 0 <= k < |q| ==> q[k] in ids && ids[q[k]] == p[k]
  {
    hide ParentEdges;
    assert Edge(p[0], p[1]) in ParentEdges(Realize(entries, ids));
    var key, parent := EdgeOfKeys(entries, ids, p[0], p[1]);
    if |p| == 2 {
      q := [key, parent];
    } else {
      assert IsChain(ParentEdges(Realize(entries, ids)), p[1..]);
      var rest := ChainOfKeys(entries, ids, p[1..]);
      assert rest[0] == parent;
      Prepend(ParentEdges(OverKeys(entries)), key, rest);
      q := [key] + rest;
    }
  }

  lemma RealizedAcyclic(entries: seq<Proposed>, ids: map<nat, nat>)
    requires Injective(entries, ids) && Acyclic(ParentEdges(OverKeys(entries)))
    ensures Acyclic(ParentEdges(Realize(entries, ids)))
  {
    forall p | IsChain(ParentEdges(Realize(entries, ids)), p) && |p| >= 2 ensures p[0] != p[|p| - 1] {
      var q := ChainOfKeys(entries, ids, p);
      assert q[0] != q[|q| - 1];
    }
  }

  lemma RealizedShape(entries: seq<Proposed>, ids: map<nat, nat>)
    requires Injective(entries, ids) && UniqueIds(OverKeys(entries)) && ParentsExist(OverKeys(entries))
      && Composed(OverKeys(entries))
    ensures var t := Realize(entries, ids); UniqueIds(t) && ParentsExist(t) && Composed(t)
  {
    var keys, t := OverKeys(entries), Realize(entries, ids);
    forall i, k | 0 <= i < k < |t| ensures t[i].id != t[k].id {
      assert keys[i].id != keys[k].id;
    }
    forall k | 0 <= k < |t| ensures t[k].parent.Some? ==> HasId(t, t[k].parent.value) {
      if t[k].parent.Some? {
        assert HasId(keys, keys[k].parent.value);
        var i :| 0 <= i < |keys| && keys[i].id == keys[k].parent.value;
        assert t[i].id == t[k].parent.value;
      }
    }
    forall k | 0 <= k < |t| ensures t[k].composition.Some? <==> HasChild(t, t[k].id) {
      ChildrenRealized(entries, ids, k);
    }
  }

  lemma ChildrenRealized(entries: seq<Proposed>, ids: map<nat, nat>, k: nat)
    requires Injective(entries, ids) && k < |entries|
    ensures HasChild(Realize(entries, ids), ids[entries[k].key]) <==> HasChild(OverKeys(entries), entries[k].key)
  {
    var keys, t := OverKeys(entries), Realize(entries, ids);
    if HasChild(keys, entries[k].key) {
      var i :| 0 <= i < |keys| && keys[i].parent == Some(entries[k].key);
      assert t[i].parent == Some(ids[entries[k].key]);
    }
    if HasChild(t, ids[entries[k].key]) {
      var i :| 0 <= i < |t| && t[i].parent == Some(ids[entries[k].key]);
      assert keys[i].parent == Some(entries[k].key);
    }
  }

  /** A proposal without defects is accepted as a tree under every injective assignment of ids to its keys. */
  lemma ProperIsForest(entries: seq<Proposed>, ids: map<nat, nat>)
    requires Proper(entries) && Injective(entries, ids)
    ensures Forest(Realize(entries, ids))
  {
    RealizedShape(entries, ids);
    RealizedAcyclic(entries, ids);
  }
}
