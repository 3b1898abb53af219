/**
 * A parent Requirement's status from its children's: a retired child counts for
 * nothing, a waived one as satisfied, and the derivation composes group by group.
 */
module RequirementStatus {
  import opened RequirementTree

  datatype Status = Open | Satisfied | Violated | Infeasible | Waived | Retired

  /** The children that are not retired, in order. */
  function Live(children: seq<Status>): (live: seq<Status>)
    ensures forall s :: s in live <==> s in children && s != Retired
  {
    if children == [] then []
    else
      var last := children[|children| - 1];
      Live(children[..|children| - 1]) + (if last != Retired then [last] else [])
  }

  predicate Met(s: Status) {
    s == Satisfied || s == Waived
  }

  function DeriveComposedStatus(composition: Composition, children: seq<Status>): Status {
    var live := Live(children);
    if |live| == 0 then (if |children| == 0 then Open else Retired)
    else if composition == All then
      if exists k :: 0 <= k < |live| && live[k] == Violated then Violated
      else if exists k :: 0 <= k < |live| && live[k] == Infeasible then Infeasible
      else if forall k :: 0 <= k < |live| ==> Met(live[k]) then Satisfied
      else Open
    else
      if exists k :: 0 <= k < |live| && Met(live[k]) then Satisfied
      else if forall k :: 0 <= k < |live| ==> live[k] == Violated || live[k] == Infeasible then
        if exists k :: 0 <= k < |live| && live[k] == Violated then Violated else Infeasible
      else Open
  }

  /** The status read off the set of live statuses alone: how often and where they occur does not matter. */
  function FromSet(composition: Composition, live: set<Status>): Status {
    if live == {} then Retired
    else if composition == All then
      if Violated in live then Violated
      else if Infeasible in live then Infeasible
      else if Open !in live then Satisfied
      else Open
    else
      if Satisfied in live || Waived in live then Satisfied
      else if Open in live then Open
      else if Violated in live then Violated
      else Infeasible
  }

  function LiveSet(children: seq<Status>): set<Status> {
    set s | s in children && s != Retired
  }

  lemma DerivedFromSet(composition: Composition, children: seq<Status>)
    requires children != []
    ensures DeriveComposedStatus(composition, children) == FromSet(composition, LiveSet(children))
  {
    var live := Live(children);
    assert forall s :: s in LiveSet(children) <==> s in live;
    Tests(live);
    hide Live, Met;
    if live != [] {
      assert live[0] in live;
    } else {
      assert LiveSet(children) == {};
    }
  }

  /** What the derivation's tests say of the statuses present. */
  lemma Tests(live: seq<Status>)
    requires Retired !in live
    ensures (exists k :: 0 <= k < |live| && live[k] == Violated) <==> Violated in live
    ensures (exists k :: 0 <= k < |live| && live[k] == Infeasible) <==> Infeasible in live
    ensures (forall k :: 0 <= k < |live| ==> Met(live[k])) <==>
      Open !in live && Violated !in live && Infeasible !in live
    ensures (exists k :: 0 <= k < |live| && Met(live[k])) <==> Satisfied in live || Waived in live
    ensures (forall k :: 0 <= k < |live| ==> live[k] == Violated || live[k] == Infeasible) <==>
      Open !in live && Satisfied !in live && Waived !in live
  {
    assert forall k :: 0 <= k < |live| ==> live[k] in live;
    if Satisfied in live { var k :| 0 <= k < |live| && live[k] == Satisfied; assert Met(live[k]); }
    if Waived in live { var k :| 0 <= k < |live| && live[k] == Waived; assert Met(live[k]); }
  }

  /**
   * The composed status, exactly. Without children it is open; with none but retired ones, retired. Under `All` one
   * violated child violates it, else one infeasible child makes it infeasible, and it is satisfied once every other
   * child is retired, satisfied or waived; under `Any` one satisfied or waived child satisfies it, an open one then
   * keeps it open, and only without either does a violated child count before an infeasible one.
   */
  lemma DerivedExactly(composition: Composition, children: seq<Status>)
    ensures var s := DeriveComposedStatus(composition, children);
      var met := Satisfied in children || Waived in children;
      && s != Waived
      && (s == Retired <==> children != [] && forall c :: c in children ==> c == Retired)
      && (s == Satisfied <==>
          if composition == All then
            met && forall c :: c in children ==> c in {Satisfied, Waived, Retired}
          else met)
      && (s == Violated <==>
          Violated in children && (composition == Any ==> !met && Open !in children))
      && (s == Infeasible <==>
          Infeasible in children && Violated !in children && (composition == Any ==> !met && Open !in children))
  {
    if children != [] {
      DerivedFromSet(composition, children);
      assert forall c :: c in children && c != Retired <==> c in LiveSet(children);
      assert LiveSet(children) == {} <==> forall c :: c in children ==> c == Retired;
    }
  }

  /** Only the multiset of children matters. */
  lemma OrderDoesNotMatter(composition: Composition, a: seq<Status>, b: seq<Status>)
    requires multiset(a) == multiset(b)
    ensures DeriveComposedStatus(composition, a) == DeriveComposedStatus(composition, b)
  {
    assert |multiset(a)| == |a| && |multiset(b)| == |b|;
    if a != [] {
      DerivedFromSet(composition, a);
      DerivedFromSet(composition, b);
      forall s ensures s in LiveSet(a) <==> s in LiveSet(b) {
        assert s in a <==> s in multiset(a);
        assert s in b <==> s in multiset(b);
      }
      assert LiveSet(a) == LiveSet(b);
    }
  }

  /** Joining a group's own status to the rest is joining the group. */
  lemma SetsCompose(composition: Composition, rest: set<Status>, group: set<Status>)
    requires Retired !in rest && Retired !in group
    ensures FromSet(composition, rest + group) ==
            FromSet(composition,
                    rest + (if FromSet(composition, group) == Retired then {} else {FromSet(composition, group)}))
  {
    var own := FromSet(composition, group);
    if group == {} {
      assert rest + group == rest + {};
    } else {
      assert own != Retired;
      assert rest + group != {} && rest + {own} != {};
    }
  }

  lemma LiveSetAround(before: seq<Status>, group: seq<Status>, after: seq<Status>)
    ensures LiveSet(before + group + after) == LiveSet(before) + LiveSet(after) + LiveSet(group)
  {
  }

  lemma LiveSetOne(s: Status)
    ensures LiveSet([s]) == if s == Retired then {} else {s}
  {
  }

  /**
   * Replacing any non-empty group of children by the group's status under the same composition
   * leaves the parent's status unchanged.
   */
  lemma GroupReplacement(composition: Composition, before: seq<Status>, group: seq<Status>, after: seq<Status>)
    requires group != []
    ensures DeriveComposedStatus(composition, before + group + after) ==
            DeriveComposedStatus(composition, before + [DeriveComposedStatus(composition, group)] + after)
  {
    var own := DeriveComposedStatus(composition, group);
    DerivedFromSet(composition, group);
    DerivedFromSet(composition, before + group + after);
    DerivedFromSet(composition, before + [own] + after);
    LiveSetAround(before, group, after);
    LiveSetAround(before, [own], after);
    LiveSetOne(own);
    hide DeriveComposedStatus, FromSet;
    SetsCompose(composition, LiveSet(before) + LiveSet(after), LiveSet(group));
  }

  /** A retired child is the identity: beside any other child it changes nothing. */
  lemma RetiredIsIdentity(composition: Composition, before: seq<Status>, after: seq<Status>)
    requires before + after != []
    ensures DeriveComposedStatus(composition, before + [Retired] + after) ==
      DeriveComposedStatus(composition, before + after)
  {
    DerivedFromSet(composition, before + after);
    DerivedFromSet(composition, before + [Retired] + after);
    assert LiveSet(before + [Retired] + after) == LiveSet(before + after);
  }

  /** A waived child counts exactly as a satisfied one. */
  lemma WaivedIsSatisfied(composition: Composition, before: seq<Status>, after: seq<Status>)
    ensures DeriveComposedStatus(composition, before + [Waived] + after) ==
      DeriveComposedStatus(composition, before + [Satisfied] + after)
  {
    DerivedFromSet(composition, before + [Waived] + after);
    DerivedFromSet(composition, before + [Satisfied] + after);
    LiveSetAround(before, [Waived], after);
    LiveSetAround(before, [Satisfied], after);
    LiveSetOne(Waived);
    LiveSetOne(Satisfied);
    hide *;
    SetWaived(composition, LiveSet(before) + LiveSet(after));
  }

  lemma SetWaived(composition: Composition, others: set<Status>)
    ensures FromSet(composition, others + {Waived}) == FromSet(composition, others + {Satisfied})
  {
    assert others + {Waived} != {} && others + {Satisfied} != {};
  }
}
