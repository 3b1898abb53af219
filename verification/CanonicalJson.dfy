/**
 * Canonical JSON: object keys sorted at every depth, undefined members dropped, no
 * non-finite number. Two values have the same canonical text exactly when they mean the
 * same, where an object means its members by key, in no order.
 */
module CanonicalJson {
  import opened JsonText

  /** A value as it is given: an object's members in the order they were added. Numbers are integers. */
  datatype Value =
    | Undefined | Null | Bool(b: bool) | Num(n: int) | NonFinite | Str(s: string) | Arr(items: seq<Value>)
    | Obj(members: seq<Member>)

  datatype Member = Member(key: string, value: Value)

  /** What a value means once serialized: an undefined array item is null, an undefined member is absent. */
  datatype Meaning = MNull | MBool(b: bool) | MNum(n: int) | MStr(s: string) | MArr(items: seq<Meaning>)
    | MObj(members: map<string, Meaning>)

  // ---------------------------------------------------------------------------
  // Values and what they mean
  // ---------------------------------------------------------------------------

  predicate HasKey(members: seq<Member>, key: string) {
    exists k :: 0 <= k < |members| && members[k].key == key
  }

  /** A record's keys are distinct and none of them is the one that sets a prototype. */
  ghost predicate Proper(v: Value) {
    match v
    case Arr(items) => ProperItems(items)
    case Obj(members) => ProperMembers(members)
    case _ => true
  }

  ghost predicate ProperItems(items: seq<Value>) {
    items == [] || (Proper(items[0]) && ProperItems(items[1..]))
  }

  ghost predicate ProperMembers(members: seq<Member>) {
    members == [] ||
      (members[0].key != "__proto__" && !HasKey(members[1..], members[0].key) && Proper(members[0].value)
       && ProperMembers(members[1..]))
  }

  predicate Finite(v: Value) {
    match v
    case NonFinite => false
    case Arr(items) => FiniteItems(items)
    case Obj(members) => FiniteMembers(members)
    case _ => true
  }

  predicate FiniteItems(items: seq<Value>) {
    items == [] || (Finite(items[0]) && FiniteItems(items[1..]))
  }

  predicate FiniteMembers(members: seq<Member>) {
    members == [] || (Finite(members[0].value) && FiniteMembers(members[1..]))
  }

  ghost function MeaningOf(v: Value): Meaning {
    match v
    case Bool(b) => MBool(b)
    case Num(n) => MNum(n)
    case Str(s) => MStr(s)
    case Arr(items) => MArr(ItemMeanings(items))
    case Obj(members) => MObj(MemberMeanings(members))
    case _ => MNull
  }

  ghost function ItemMeanings(items: seq<Value>): seq<Meaning> {
    if items == [] then [] else [MeaningOf(items[0])] + ItemMeanings(items[1..])
  }

  ghost function MemberMeanings(members: seq<Member>): map<string, Meaning> {
    if members == [] then map[]
    else
      var rest := MemberMeanings(members[1..]);
      if members[0].value == Undefined then rest else rest[members[0].key := MeaningOf(members[0].value)]
  }

  // ---------------------------------------------------------------------------
  // Sorting
  // ---------------------------------------------------------------------------

  function Insert(m: Member, sorted: seq<Member>): seq<Member> {
    if sorted == [] || KeyBefore(m.key, sorted[0].key) then [m] + sorted else [sorted[0]] + Insert(m, sorted[1..])
  }

  /** A copy with the keys of every object in order and undefined members dropped. */
  function SortValue(v: Value): Value {
    match v
    case Arr(items) => Arr(SortItems(items))
    case Obj(members) => Obj(SortMembers(members))
    case _ => v
  }

  function SortItems(items: seq<Value>): seq<Value> {
    if items == [] then [] else [SortValue(items[0])] + SortItems(items[1..])
  }

  function SortMembers(members: seq<Member>): seq<Member> {
    if members == [] then []
    else
      var rest := SortMembers(members[1..]);
      if members[0].value == Undefined then rest else Insert(Member(members[0].key, SortValue(members[0].value)), rest)
  }

  /** Keys in order and every member defined, at every depth. */
  ghost predicate Sorted(v: Value) {
    match v
    case Arr(items) => SortedItems(items)
    case Obj(members) => SortedMembers(members)
    case _ => true
  }

  ghost predicate SortedItems(items: seq<Value>) {
    items == [] || (Sorted(items[0]) && SortedItems(items[1..]))
  }

  ghost predicate SortedMembers(members: seq<Member>) {
    members == [] ||
      (members[0].value != Undefined && Sorted(members[0].value) && SortedMembers(members[1..])
       && (|members| > 1 ==> KeyBefore(members[0].key, members[1].key)))
  }

  // ---------------------------------------------------------------------------
  // Text
  // ---------------------------------------------------------------------------

  function Serialize(v: Value): string {
    match v
    case Bool(b) => if b then "true" else "false"
    case Num(n) => Number(n)
    case Str(s) => Quote(s)
    case Arr(items) => ['['] + SerializeItems(items)
    case Obj(members) => ['{'] + SerializeMembers(members)
    case _ => "null"
  }

  /** The items and the closing bracket. */
  function SerializeItems(items: seq<Value>): string {
    if items == [] then [']']
    else if |items| == 1 then Serialize(items[0]) + [']']
    else Serialize(items[0]) + [','] + SerializeItems(items[1..])
  }

  /** The members and the closing brace. */
  function SerializeMembers(members: seq<Member>): string {
    if members == [] then ['}']
    else if |members| == 1 then Quote(members[0].key) + [':'] + Serialize(members[0].value) + ['}']
    else Quote(members[0].key) + [':'] + Serialize(members[0].value) + [','] + SerializeMembers(members[1..])
  }

  datatype Canonical = Text(text: string) | NoText | Refused

  /** Canonical JSON refuses a non-finite number anywhere, and of an undefined value there is no text. */
  function CanonicalJson(v: Value): Canonical {
    if !Finite(v) then Refused else if v == Undefined then NoText else Text(Serialize(SortValue(v)))
  }

  // ---------------------------------------------------------------------------
  // Sorting keeps the meaning
  // ---------------------------------------------------------------------------

  lemma HasKeySplit(members: seq<Member>, key: string)
    requires members != []
    ensures HasKey(members, key) <==> members[0].key == key || HasKey(members[1..], key)
  {
    if HasKey(members[1..], key) {
      var k :| 0 <= k < |members[1..]| && members[1..][k].key == key;
      assert members[k + 1].key == key;
    }
    if HasKey(members, key) && members[0].key != key {
      var k :| 0 <= k < |members| && members[k].key == key;
      assert members[1..][k - 1].key == key;
    }
  }

  /** Only keys that occur have a meaning. */
  lemma {:induction false} MeaningsKeyed(members: seq<Member>, key: string)
    ensures key in MemberMeanings(members) ==> HasKey(members, key)
  {
    if members != [] {
      MeaningsKeyed(members[1..], key);
      HasKeySplit(members, key);
    }
  }

  lemma {:induction false} InsertKeys(m: Member, sorted: seq<Member>, key: string)
    ensures HasKey(Insert(m, sorted), key) <==> m.key == key || HasKey(sorted, key)
    decreases |sorted|
  {
    var r := Insert(m, sorted);
    HasKeySplit(r, key);
    if sorted == [] || KeyBefore(m.key, sorted[0].key) {
      assert r[1..] == sorted;
    } else {
      assert r[1..] == Insert(m, sorted[1..]);
      InsertKeys(m, sorted[1..], key);
      HasKeySplit(sorted, key);
    }
  }

  /** Inserting one defined member of a new key adds exactly its meaning. */
  lemma {:induction false} InsertMeaning(m: Member, sorted: seq<Member>)
    requires m.value != Undefined && !HasKey(sorted, m.key)
    ensures MemberMeanings(Insert(m, sorted)) == MemberMeanings(sorted)[m.key := MeaningOf(m.value)]
    decreases |sorted|
  {
    var r := Insert(m, sorted);
    if sorted == [] || KeyBefore(m.key, sorted[0].key) {
      assert r[1..] == sorted;
    } else {
      assert r[1..] == Insert(m, sorted[1..]);
      HasKeySplit(sorted, m.key);
      InsertMeaning(m, sorted[1..]);
    }
  }

  lemma {:induction false} InsertSorts(m: Member, sorted: seq<Member>)
    requires m.value != Undefined && Sorted(m.value) && SortedMembers(sorted) && !HasKey(sorted, m.key)
    ensures SortedMembers(Insert(m, sorted))
    decreases |sorted|
  {
    hide KeyBefore, Sorted;
    var r := Insert(m, sorted);
    if sorted == [] || KeyBefore(m.key, sorted[0].key) {
      assert r[1..] == sorted;
    } else {
      var rest := Insert(m, sorted[1..]);
      assert r[1..] == rest;
      HasKeySplit(sorted, m.key);
      InsertSorts(m, sorted[1..]);
      KeyTotal(m.key, sorted[0].key);
      assert rest[0] == m || (|sorted| > 1 && rest[0] == sorted[1]);
    }
  }

  lemma {:induction false} SortKeys(members: seq<Member>, key: string)
    ensures HasKey(SortMembers(members), key) ==> HasKey(members, key)
  {
    if members != [] {
      SortKeys(members[1..], key);
      HasKeySplit(members, key);
      InsertKeys(Member(members[0].key, SortValue(members[0].value)), SortMembers(members[1..]), key);
    }
  }

  /** Sorting sorts, keeps the meaning and defines nothing that was not. */
  lemma {:induction false} SortMeans(v: Value)
    requires Proper(v)
    ensures Sorted(SortValue(v)) && MeaningOf(SortValue(v)) == MeaningOf(v)
      && (SortValue(v) == Undefined <==> v == Undefined)
    decreases v
  {
    match v
    case Arr(items) => SortItemsMeans(items);
    case Obj(members) => SortMembersMeans(members);
    case _ =>
  }

  lemma {:induction false} SortItemsMeans(items: seq<Value>)
    requires ProperItems(items)
    ensures SortedItems(SortItems(items)) && ItemMeanings(SortItems(items)) == ItemMeanings(items)
    decreases items
  {
    if items != [] {
      SortMeans(items[0]);
      SortItemsMeans(items[1..]);
      assert SortItems(items)[1..] == SortItems(items[1..]);
    }
  }

  lemma {:induction false} SortMembersMeans(members: seq<Member>)
    requires ProperMembers(members)
    ensures SortedMembers(SortMembers(members)) && MemberMeanings(SortMembers(members)) == MemberMeanings(members)
    decreases members
  {
    if members != [] {
      SortMeans(members[0].value);
      SortMembersMeans(members[1..]);
      if members[0].value != Undefined {
        var m := Member(members[0].key, SortValue(members[0].value));
        SortKeys(members[1..], m.key);
        InsertMeaning(m, SortMembers(members[1..]));
        InsertSorts(m, SortMembers(members[1..]));
      }
    }
  }

  /** Sorting a sorted value changes nothing. */
  lemma {:induction false} SortedStays(v: Value)
    requires Sorted(v)
    ensures SortValue(v) == v
    decreases v
  {
    match v
    case Arr(items) => SortedItemsStay(items);
    case Obj(members) => SortedMembersStay(members);
    case _ =>
  }

  lemma {:induction false} SortedItemsStay(items: seq<Value>)
    requires SortedItems(items)
    ensures SortItems(items) == items
    decreases items
  {
    if items != [] {
      SortedStays(items[0]);
      SortedItemsStay(items[1..]);
    }
  }

  lemma {:induction false} SortedMembersStay(members: seq<Member>)
    requires SortedMembers(members)
    ensures SortMembers(members) == members
    decreases members
  {
    if members != [] {
      SortedStays(members[0].value);
      SortedMembersStay(members[1..]);
    }
  }

  /** `sortValue` is idempotent. */
  lemma SortIdempotent(v: Value)
    requires Proper(v)
    ensures SortValue(SortValue(v)) == SortValue(v)
  {
    SortMeans(v);
    SortedStays(SortValue(v));
  }

  // ---------------------------------------------------------------------------
  // The same meaning is written the same
  // ---------------------------------------------------------------------------

  /** The first key of a sorted object comes before every other one. */
  lemma {:induction false} FirstKey(members: seq<Member>, key: string)
    requires SortedMembers(members) && members != [] && key in MemberMeanings(members)
    ensures key == members[0].key || KeyBefore(members[0].key, key)
  {
    if |members| > 1 && key != members[0].key {
      FirstKey(members[1..], key);
      if key != members[1].key { KeyTransitive(members[0].key, members[1].key, key); }
    }
  }

  lemma FirstKeyOnce(members: seq<Member>)
    requires SortedMembers(members) && members != []
    ensures members[0].key in MemberMeanings(members) && members[0].key !in MemberMeanings(members[1..])
    ensures MemberMeanings(members)[members[0].key] == MeaningOf(members[0].value)
    ensures MemberMeanings(members[1..]) == MemberMeanings(members) - {members[0].key}
  {
    var key := members[0].key;
    if key in MemberMeanings(members[1..]) {
      assert members[1..] != [];
      FirstKey(members[1..], key);
      KeyTotal(key, members[1].key);
    }
    hide KeyBefore;
    assert MemberMeanings(members[1..]) == MemberMeanings(members) - {key};
  }

  /** Sorted objects that mean the same begin with the same key. */
  lemma SameFirstKey(a: seq<Member>, b: seq<Member>)
    requires SortedMembers(a) && SortedMembers(b) && a != [] && b != [] && MemberMeanings(a) == MemberMeanings(b)
    ensures a[0].key == b[0].key
  {
    FirstKeyOnce(a);
    FirstKeyOnce(b);
    FirstKey(a, b[0].key);
    FirstKey(b, a[0].key);
    KeyTotal(a[0].key, b[0].key);
  }

  lemma {:induction false} WrittenAlike(a: Value, b: Value)
    requires Sorted(a) && Sorted(b) && MeaningOf(a) == MeaningOf(b)
    ensures Serialize(a) == Serialize(b)
    decreases a
  {
    match a
    case Arr(items) => ItemsWrittenAlike(items, b.items);
    case Obj(members) => MembersWrittenAlike(members, b.members);
    case _ =>
  }

  lemma {:induction false} ItemsWrittenAlike(a: seq<Value>, b: seq<Value>)
    requires SortedItems(a) && SortedItems(b) && ItemMeanings(a) == ItemMeanings(b)
    ensures SerializeItems(a) == SerializeItems(b)
    decreases a
  {
    if a != [] && b != [] {
      assert ItemMeanings(a)[0] == ItemMeanings(b)[0] && ItemMeanings(a)[1..] == ItemMeanings(b)[1..];
      assert ItemMeanings(a[1..]) == ItemMeanings(b[1..]);
      WrittenAlike(a[0], b[0]);
      ItemsWrittenAlike(a[1..], b[1..]);
      SameLength(a, b);
    }
  }

  lemma {:induction false} SameLength(a: seq<Value>, b: seq<Value>)
    requires ItemMeanings(a) == ItemMeanings(b)
    ensures |a| == |b|
  {
    if a != [] && b != [] {
      assert ItemMeanings(a)[1..] == ItemMeanings(a[1..]) && ItemMeanings(b)[1..] == ItemMeanings(b[1..]);
      SameLength(a[1..], b[1..]);
    }
  }

  lemma {:induction false} MembersWrittenAlike(a: seq<Member>, b: seq<Member>)
    requires SortedMembers(a) && SortedMembers(b) && MemberMeanings(a) == MemberMeanings(b)
    ensures SerializeMembers(a) == SerializeMembers(b) && |a| == |b|
    decreases a
  {
    if a == [] {
      if b != [] { FirstKeyOnce(b); }
    } else if b == [] {
      FirstKeyOnce(a);
    } else {
      SameFirstKey(a, b);
      FirstKeyOnce(a);
      FirstKeyOnce(b);
      WrittenAlike(a[0].value, b[0].value);
      MembersWrittenAlike(a[1..], b[1..]);
    }
  }

  // ---------------------------------------------------------------------------
  // Every text is read in one way
  // ---------------------------------------------------------------------------

  function Kind(v: Value): nat {
    match v
    case Bool(b) => if b then 1 else 2
    case Num(_) => 3
    case Str(_) => 4
    case Arr(_) => 5
    case Obj(_) => 6
    case _ => 0
  }

  /** The first character of a value tells its kind. */
  function Opening(c: char): nat {
    if c == 'n' then 0 else if c == 't' then 1 else if c == 'f' then 2 else if c == '"' then 4 else if c == '[' then 5
    else if c == '{' then 6
    else if IsDigit(c) || c == '-' then 3 else 7
  }

  lemma FirstTells(v: Value)
    ensures Serialize(v) != "" && Opening(Serialize(v)[0]) == Kind(v)
  {
  }

  lemma SameKind(a: Value, b: Value, x: string, y: string)
    requires Serialize(a) + x == Serialize(b) + y
    ensures Kind(a) == Kind(b)
  {
    FirstTells(a);
    FirstTells(b);
    hide Serialize, Opening, Kind;
    assert (Serialize(a) + x)[0] == Serialize(a)[0] && (Serialize(b) + y)[0] == Serialize(b)[0];
  }

  lemma SkipFirst(c: char, s: string, x: string, d: char, t: string, y: string)
    requires ([c] + s) + x == ([d] + t) + y
    ensures c == d && s + x == t + y
  {
    assert (([c] + s) + x)[0] == c && (([d] + t) + y)[0] == d;
    assert s + x == (([c] + s) + x)[1..] && t + y == (([d] + t) + y)[1..];
  }

  lemma SameFixed(s: string, x: string, y: string)
    requires s + x == s + y
    ensures x == y
  {
    assert x == (s + x)[|s|..] && y == (s + y)[|s|..];
  }

  /** Everything behind the first item, up to the closing bracket. */
  function RestOfItems(rest: seq<Value>): string {
    if rest == [] then [']'] else [','] + SerializeItems(rest)
  }

  function RestOfMembers(rest: seq<Member>): string {
    if rest == [] then ['}'] else [','] + SerializeMembers(rest)
  }

  lemma Associates(a: string, b: string, x: string)
    ensures (a + b) + x == a + (b + x)
  {
  }

  lemma ItemsParts(items: seq<Value>, x: string)
    requires items != []
    ensures SerializeItems(items) + x == Serialize(items[0]) + (RestOfItems(items[1..]) + x)
  {
    hide Serialize;
    assert SerializeItems(items) == Serialize(items[0]) + RestOfItems(items[1..]);
    hide SerializeItems, RestOfItems;
    Associates(Serialize(items[0]), RestOfItems(items[1..]), x);
  }

  lemma MembersParts(members: seq<Member>, x: string)
    requires members != []
    ensures SerializeMembers(members) + x ==
      Quote(members[0].key) + ([':'] + (Serialize(members[0].value) + (RestOfMembers(members[1..]) + x)))
  {
    hide Serialize, Quote;
    var key, value, rest := Quote(members[0].key), Serialize(members[0].value), RestOfMembers(members[1..]);
    assert SerializeMembers(members) == key + [':'] + value + rest;
    hide SerializeMembers, RestOfMembers;
    Associates(key + [':'] + value, rest, x);
    Associates(key + [':'], value, rest + x);
    Associates(key, [':'], value + (rest + x));
  }

  /** What follows an item tells whether it was the last. */
  lemma ItemsRest(rest: seq<Value>, x: string)
    ensures var s := RestOfItems(rest) + x; Delimited(s) && s != "" && s[0] == if rest == [] then ']' else ','
  {
    hide SerializeItems;
    assert (RestOfItems(rest) + x)[0] == RestOfItems(rest)[0];
  }

  lemma MembersRest(rest: seq<Member>, x: string)
    ensures var s := RestOfMembers(rest) + x; Delimited(s) && s != "" && s[0] == if rest == [] then '}' else ','
  {
    hide SerializeMembers;
    assert (RestOfMembers(rest) + x)[0] == RestOfMembers(rest)[0];
  }

  /** Whatever follows, one text is one meaning. */
  lemma {:induction false} ReadOnce(a: Value, b: Value, x: string, y: string)
    requires Sorted(a) && Sorted(b) && Serialize(a) + x == Serialize(b) + y && Delimited(x) && Delimited(y)
    ensures MeaningOf(a) == MeaningOf(b) && x == y
    decreases a
  {
    SameKind(a, b, x, y);
    match a
    case Num(n) => NumberOnce(n, b.n, x, y);
    case Str(s) => QuotedOnce(s, b.s, x, y);
    case Arr(items) =>
      SkipFirst('[', SerializeItems(items), x, '[', SerializeItems(b.items), y);
      ItemsReadOnce(items, b.items, x, y);
    case Obj(members) =>
      SkipFirst('{', SerializeMembers(members), x, '{', SerializeMembers(b.members), y);
      MembersReadOnce(members, b.members, x, y);
    case _ => SameFixed(Serialize(a), x, y);
  }

  /** An item list is over exactly where its bracket is. */
  lemma ItemsBegin(items: seq<Value>, x: string)
    ensures (SerializeItems(items) + x)[0] == ']' <==> items == []
  {
    if items != [] {
      FirstTells(items[0]);
      ItemsParts(items, x);
      hide Serialize;
      assert (SerializeItems(items) + x)[0] == Serialize(items[0])[0];
    }
  }

  lemma {:induction false} ItemsReadOnce(a: seq<Value>, b: seq<Value>, x: string, y: string)
    requires SortedItems(a) && SortedItems(b) && SerializeItems(a) + x == SerializeItems(b) + y
    ensures ItemMeanings(a) == ItemMeanings(b) && x == y
    decreases a
  {
    ItemsBegin(a, x);
    ItemsBegin(b, y);
    if a == [] {
      SameFixed([']'], x, y);
    } else {
      ItemsParts(a, x);
      ItemsParts(b, y);
      ItemsRest(a[1..], x);
      ItemsRest(b[1..], y);
      ReadOnce(a[0], b[0], RestOfItems(a[1..]) + x, RestOfItems(b[1..]) + y);
      hide Serialize;
      if a[1..] == [] {
        SameFixed([']'], x, y);
      } else {
        SkipFirst(',', SerializeItems(a[1..]), x, ',', SerializeItems(b[1..]), y);
        ItemsReadOnce(a[1..], b[1..], x, y);
      }
    }
  }

  lemma MembersBegin(members: seq<Member>, x: string)
    ensures (SerializeMembers(members) + x)[0] == '}' <==> members == []
  {
    if members != [] {
      MembersParts(members, x);
      assert (SerializeMembers(members) + x)[0] == Quote(members[0].key)[0];
    }
  }

  lemma {:induction false} MembersReadOnce(a: seq<Member>, b: seq<Member>, x: string, y: string)
    requires SortedMembers(a) && SortedMembers(b) && SerializeMembers(a) + x == SerializeMembers(b) + y
    ensures MemberMeanings(a) == MemberMeanings(b) && x == y
    decreases a
  {
    MembersBegin(a, x);
    MembersBegin(b, y);
    if a == [] {
      SameFixed(['}'], x, y);
    } else {
      MembersParts(a, x);
      MembersParts(b, y);
      MembersRest(a[1..], x);
      MembersRest(b[1..], y);
      var restA, restB := RestOfMembers(a[1..]) + x, RestOfMembers(b[1..]) + y;
      QuotedOnce(a[0].key, b[0].key, [':'] + (Serialize(a[0].value) + restA), [':'] + (Serialize(b[0].value) + restB));
      SameFixed([':'], Serialize(a[0].value) + restA, Serialize(b[0].value) + restB);
      ReadOnce(a[0].value, b[0].value, restA, restB);
      hide Serialize, Quote;
      if a[1..] == [] {
        SameFixed(['}'], x, y);
      } else {
        SkipFirst(',', SerializeMembers(a[1..]), x, ',', SerializeMembers(b[1..]), y);
        MembersReadOnce(a[1..], b[1..], x, y);
      }
    }
  }

  // ---------------------------------------------------------------------------
  // The contract
  // ---------------------------------------------------------------------------

  /**
   * Two values have the same canonical text if and only if they mean the same: key order, at any
   * depth, makes no difference and everything else does.
   */
  lemma SameTextExactly(v: Value, w: Value)
    requires Proper(v) && Proper(w) && CanonicalJson(v).Text? && CanonicalJson(w).Text?
    ensures CanonicalJson(v) == CanonicalJson(w) <==> MeaningOf(v) == MeaningOf(w)
  {
    SortMeans(v);
    SortMeans(w);
    if CanonicalJson(v) == CanonicalJson(w) {
      ReadOnce(SortValue(v), SortValue(w), "", "");
    }
    if MeaningOf(v) == MeaningOf(w) {
      WrittenAlike(SortValue(v), SortValue(w));
    }
  }

  /** The canonical bytes of a proposed call: exactly its tool and its input. */
  function CanonicalToolCall(tool: string, input: Value): Canonical {
    CanonicalJson(CallOf(tool, input))
  }

  /**
   * Two calls are the same call, the same tool with an input that means the same, if and only if
   * their canonical bytes are equal.
   */
  lemma SameCallExactly(tool: string, input: Value, tool': string, input': Value)
    requires Proper(input) && Proper(input') && Finite(input) && Finite(input') && input != Undefined
      && input' != Undefined
    ensures CanonicalToolCall(tool, input) == CanonicalToolCall(tool', input') <==>
      tool == tool' && MeaningOf(input) == MeaningOf(input')
  {
    CallParts(tool, input);
    CallParts(tool', input');
    SameTextExactly(CallOf(tool, input), CallOf(tool', input'));
    hide CallOf, MeaningOf, CanonicalJson;
    SameCallMaps(MStr(tool), MeaningOf(input), MStr(tool'), MeaningOf(input'));
  }

  function CallOf(tool: string, input: Value): Value {
    Obj([Member("tool", Str(tool)), Member("input", input)])
  }

  ghost function CallMeaning(tool: Meaning, input: Meaning): map<string, Meaning> {
    map["input" := input]["tool" := tool]
  }

  lemma SameCallMaps(tool: Meaning, input: Meaning, tool': Meaning, input': Meaning)
    ensures CallMeaning(tool, input) == CallMeaning(tool', input') <==> tool == tool' && input == input'
  {
    assert |"tool"| != |"input"|;
    var a, b := CallMeaning(tool, input), CallMeaning(tool', input');
    assert a["tool"] == tool && b["tool"] == tool' && a["input"] == input && b["input"] == input';
  }

  lemma CallParts(tool: string, input: Value)
    requires Proper(input) && Finite(input) && input != Undefined
    ensures Proper(CallOf(tool, input)) && Finite(CallOf(tool, input))
    ensures MeaningOf(CallOf(tool, input)) == MObj(CallMeaning(MStr(tool), MeaningOf(input)))
  {
    var members := [Member("tool", Str(tool)), Member("input", input)];
    var last := [Member("input", input)];
    assert members[1..] == last && last[1..] == [];
    assert |"tool"| != |"input"| && |"tool"| != |"__proto__"| && |"input"| != |"__proto__"|;
    assert MemberMeanings([]) == map[] && ProperMembers([]) && FiniteMembers([]) && !HasKey([], "input")
      && !HasKey(last, "tool");
    assert MemberMeanings(last) == map["input" := MeaningOf(input)] && ProperMembers(last) && FiniteMembers(last);
    assert MemberMeanings(members) == MemberMeanings(last)["tool" := MStr(tool)] && ProperMembers(members)
      && FiniteMembers(members);
  }
}
