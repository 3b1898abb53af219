/**
 * A reader of JSON text (RFC 8259, sections 2 to 7; whole numbers, and no white space
 * between tokens), written without regard to how the text is made; and that reading the
 * canonical text of a value gives back exactly what the value means.
 */
module JsonReader {
  import opened Wrappers
  import opened JsonText
  import opened CanonicalJson

  /** What was read, and the text behind it. */
  datatype Reading<+T> = Reading(value: T, rest: string)

  // ---------------------------------------------------------------------------
  // Strings
  // ---------------------------------------------------------------------------

  /** The character that a backslash and this letter stand for. */
  function Unescaped(letter: char): Option<char> {
    match letter
    case '"' => Some('"')
    case '\\' => Some('\\')
    case '/' => Some('/')
    case 'b' => Some(8 as char)
    case 'f' => Some(12 as char)
    case 'n' => Some(10 as char)
    case 'r' => Some(13 as char)
    case 't' => Some(9 as char)
    case _ => None
  }

  function HexValue(c: char): Option<nat> {
    if '0' <= c <= '9' then Some(c as int - 48)
    else if 'a' <= c <= 'f' then Some(c as int - 87)
    else if 'A' <= c <= 'F' then Some(c as int - 55)
    else None
  }

  /** The character four hexadecimal digits name; a lone surrogate names none. */
  function Unicode(digits: string): Option<char>
    requires |digits| == 4
  {
    var a, b, c, d := HexValue(digits[0]), HexValue(digits[1]), HexValue(digits[2]), HexValue(digits[3]);
    if a == None || b == None || c == None || d == None || a.value > 15 || b.value > 15 || c.value > 15 || d.value > 15
    then None
    else
      var code := ((a.value * 16 + b.value) * 16 + c.value) * 16 + d.value;
      if code < 0xD800 || 0xE000 <= code < 0x10000 then Some(code as char) else None
  }

  /** The next character of a string's text: itself, or what its escape stands for; no control character is allowed. */
  function ReadChar(s: string): (r: Option<Reading<char>>)
    requires s != ""
    ensures r.Some? ==> |r.value.rest| < |s|
  {
    if s[0] as int < 32 then None
    else if s[0] != '\\' then Some(Reading(s[0], s[1..]))
    else if |s| >= 6 && s[1] == 'u' then
      match Unicode(s[2..6])
      case Some(c) => Some(Reading(c, s[6..]))
      case None => None
    else if |s| >= 2 then
      match Unescaped(s[1])
      case Some(c) => Some(Reading(c, s[2..]))
      case None => None
    else None
  }

  /** The characters up to the closing quote. */
  function ReadChars(s: string): (r: Option<Reading<string>>)
    ensures r.Some? ==> |r.value.rest| < |s|
    decreases |s|
  {
    if s == "" then None
    else if s[0] == '"' then Some(Reading("", s[1..]))
    else
      match ReadChar(s)
      case None => None
      case Some(first) =>
        match ReadChars(first.rest)
        case None => None
        case Some(others) => Some(Reading([first.value] + others.value, others.rest))
  }

  function ReadString(s: string): (r: Option<Reading<string>>)
    ensures r.Some? ==> |r.value.rest| < |s|
  {
    if s != "" && s[0] == '"' then ReadChars(s[1..]) else None
  }

  // ---------------------------------------------------------------------------
  // Numbers
  // ---------------------------------------------------------------------------

  /** How many digits the text begins with. */
  function DigitCount(s: string): (n: nat)
    ensures n <= |s| && forall k :: 0 <= k < n ==> IsDigit(s[k])
    ensures n < |s| ==> !IsDigit(s[n])
  {
    if s == "" || !IsDigit(s[0]) then 0 else 1 + DigitCount(s[1..])
  }

  function ValueOf(digits: string): nat
    requires forall k :: 0 <= k < |digits| ==> IsDigit(digits[k])
  {
    if digits == "" then 0
    else
      assert IsDigit(digits[|digits| - 1]);
      10 * ValueOf(digits[..|digits| - 1]) + (digits[|digits| - 1] as int - 48)
  }

  /** A natural number: some digits, and no zero before another digit. */
  function ReadNatural(s: string): (r: Option<Reading<nat>>)
    ensures r.Some? ==> |r.value.rest| < |s|
  {
    var n := DigitCount(s);
    if n == 0 || (n > 1 && s[0] == '0') then None else Some(Reading(ValueOf(s[..n]), s[n..]))
  }

  function ReadNumber(s: string): (r: Option<Reading<int>>)
    ensures r.Some? ==> |r.value.rest| < |s|
  {
    if s != "" && s[0] == '-' then
      match ReadNatural(s[1..])
      case Some(n) =>
        Some(Reading(0 - n.value as int, n.rest))
      case None => None
    else
      match ReadNatural(s)
      case Some(n) => Some(Reading(n.value, n.rest))
      case None => None
  }

  // ---------------------------------------------------------------------------
  // Values
  // ---------------------------------------------------------------------------

  function ReadName(name: string, m: Meaning, s: string): (r: Option<Reading<Meaning>>)
    requires name != ""
    ensures r.Some? ==> |r.value.rest| < |s|
  {
    if name <= s then Some(Reading(m, s[|name|..])) else None
  }

  function ReadValue(s: string): (r: Option<Reading<Meaning>>)
    ensures r.Some? ==> |r.value.rest| < |s|
    decreases |s|, 0
  {
    if s == "" then None
    else match s[0]
      case 'n' => ReadName("null", MNull, s)
      case 't' => ReadName("true", MBool(true), s)
      case 'f' => ReadName("false", MBool(false), s)
      case '"' =>
        (match ReadString(s) case Some(r) => Some(Reading(MStr(r.value), r.rest)) case None => None)
      case '[' =>
        if |s| > 1 && s[1] == ']' then Some(Reading(MArr([]), s[2..]))
        else (match ReadItems(s[1..]) case Some(r) => Some(Reading(MArr(r.value), r.rest)) case None => None)
      case '{' =>
        if |s| > 1 && s[1] == '}' then Some(Reading(MObj(map[]), s[2..]))
        else (match ReadMembers(s[1..]) case Some(r) => Some(Reading(MObj(r.value), r.rest)) case None => None)
      case _ =>
        (match ReadNumber(s) case Some(r) => Some(Reading(MNum(r.value), r.rest)) case None => None)
  }

  /** At least one item, and the closing bracket. */
  function ReadItems(s: string): (r: Option<Reading<seq<Meaning>>>)
    ensures r.Some? ==> |r.value.rest| < |s|
    decreases |s|, 1
  {
    match ReadValue(s)
    case None => None
    case Some(first) =>
      if first.rest == "" then None
      else if first.rest[0] == ']' then Some(Reading([first.value], first.rest[1..]))
      else if first.rest[0] != ',' then None
      else match ReadItems(first.rest[1..])
        case None => None
        case Some(others) => Some(Reading([first.value] + others.value, others.rest))
  }

  /** A key, a colon and a value. */
  function ReadMember(s: string): (r: Option<Reading<(string, Meaning)>>)
    ensures r.Some? ==> |r.value.rest| < |s|
    decreases |s|, 1
  {
    match ReadString(s)
    case None => None
    case Some(key) =>
      if key.rest == "" || key.rest[0] != ':' then None
      else match ReadValue(key.rest[1..])
        case None => None
        case Some(value) => Some(Reading((key.value, value.value), value.rest))
  }

  /** At least one member, and the closing brace; of two members of one name the later counts. */
  function ReadMembers(s: string): (r: Option<Reading<map<string, Meaning>>>)
    ensures r.Some? ==> |r.value.rest| < |s|
    decreases |s|, 2
  {
    match ReadMember(s)
    case None => None
    case Some(first) =>
      var one := map[first.value.0 := first.value.1];
      if first.rest == "" then None
      else if first.rest[0] == '}' then Some(Reading(one, first.rest[1..]))
      else if first.rest[0] != ',' then None
      else match ReadMembers(first.rest[1..])
        case None => None
        case Some(others) => Some(Reading(one + others.value, others.rest))
  }

  // ---------------------------------------------------------------------------
  // Reading back
  // ---------------------------------------------------------------------------

  /** The escape of a character is read as that character, and is the shortest that may be written for it. */
  lemma CharReadBack(c: char, x: string)
    ensures EscapeChar(c) + x != "" && (EscapeChar(c) + x)[0] != '"'
    ensures ReadChar(EscapeChar(c) + x) == Some(Reading(c, x))
    ensures |EscapeChar(c)| == 1 <==> c as int >= 32 && c !in {'"', '\\'}
    ensures |EscapeChar(c)| == 2 <==> c in {'"', '\\', 8 as char, 9 as char, 10 as char, 12 as char, 13 as char}
  {
    var e := EscapeChar(c);
    assert (e + x)[|e|..] == x && (e + x)[0] == e[0];
    if |e| == 2 {
      assert (e + x)[1] == e[1];
    }
    if |e| == 6 {
      assert (e + x)[1] == 'u' && (e + x)[2..6] == ['0', '0', e[4], e[5]];
      HexReadBack(c as int / 16);
      HexReadBack(c as int % 16);
    }
  }

  lemma HexReadBack(n: nat)
    requires n < 16
    ensures HexValue(HexDigit(n)) == Some(n) && (IsDigit(HexDigit(n)) || 'a' <= HexDigit(n) <= 'f')
  {
  }

  /** One character read, and then the others. */
  lemma CharsRead(s: string, c: char, rest: string)
    requires s != "" && s[0] != '"' && ReadChar(s) == Some(Reading(c, rest)) && ReadChars(rest).Some?
    ensures ReadChars(s) == Some(Reading([c] + ReadChars(rest).value.value, ReadChars(rest).value.rest))
  {
    hide ReadChar;
  }

  lemma {:induction false} StringReadBack(s: string, x: string)
    ensures ReadChars(Unread(s, x)) == Some(Reading(s, x))
    decreases |s|
  {
    UnreadStep(s, x);
    if s == "" {
      hide Unread;
      assert (['"'] + x)[1..] == x;
    } else {
      hide Unread, EscapeChar, ReadChar, ReadChars;
      CharReadBack(s[0], Unread(s[1..], x));
      StringReadBack(s[1..], x);
      CharsRead(Unread(s, x), s[0], Unread(s[1..], x));
      assert s == [s[0]] + s[1..];
    }
  }

  lemma QuoteReadBack(s: string, x: string)
    ensures Quote(s) + x != "" && (Quote(s) + x)[0] == '"' && ReadString(Quote(s) + x) == Some(Reading(s, x))
  {
    assert (Quote(s) + x)[1..] == Unread(s, x);
    StringReadBack(s, x);
  }

  lemma {:induction false} CountDigits(d: string, x: string)
    requires (forall k :: 0 <= k < |d| ==> IsDigit(d[k])) && Delimited(x)
    ensures DigitCount(d + x) == |d|
  {
    assert forall k :: 0 <= k < |d| ==> (d + x)[k] == d[k];
    assert x != "" ==> (d + x)[|d|] == x[0];
  }

  lemma {:induction false} DecimalValue(n: nat)
    ensures ValueOf(Decimal(n)) == n
    ensures Decimal(n)[0] == '0' ==> n == 0 && |Decimal(n)| == 1
  {
    var s := Decimal(n);
    if n >= 10 {
      DecimalValue(n / 10);
      assert s[..|s| - 1] == Decimal(n / 10) && s[0] == Decimal(n / 10)[0];
    } else {
      assert s[..0] == "";
    }
  }

  lemma NaturalReadBack(n: nat, x: string)
    requires Delimited(x)
    ensures ReadNatural(Decimal(n) + x) == Some(Reading(n, x))
  {
    var d := Decimal(n);
    CountDigits(d, x);
    DecimalValue(n);
    assert (d + x)[..|d|] == d && (d + x)[|d|..] == x && (d + x)[0] == d[0];
  }

  lemma NumberReadBack(n: int, x: string)
    requires Delimited(x)
    ensures ReadNumber(Number(n) + x) == Some(Reading(n, x))
  {
    NumberParts(n, x);
    NaturalReadBack(if n < 0 then -n else n, x);
    hide Decimal, ReadNatural;
  }

  lemma NameReadBack(name: string, m: Meaning, x: string)
    requires name != ""
    ensures ReadName(name, m, name + x) == Some(Reading(m, x))
  {
    assert (name + x)[|name|..] == x;
  }

  lemma ArrayRead(text: string, x: string)
    requires text != "" && text[0] != ']'
    ensures ReadItems(text).Some? ==>
      ReadValue(['['] + text) == Some(Reading(MArr(ReadItems(text).value.value), ReadItems(text).value.rest))
    ensures ReadValue(['['] + ([']'] + x)) == Some(Reading(MArr([]), x))
  {
    var s, none := ['['] + text, ['['] + ([']'] + x);
    assert s[0] == '[' && s[1] == text[0] && s[1..] == text;
    assert none[0] == '[' && none[1] == ']' && none[2..] == x;
  }

  lemma ObjectRead(text: string, x: string)
    requires text != "" && text[0] != '}'
    ensures ReadMembers(text).Some? ==>
      ReadValue(['{'] + text) == Some(Reading(MObj(ReadMembers(text).value.value), ReadMembers(text).value.rest))
    ensures ReadValue(['{'] + (['}'] + x)) == Some(Reading(MObj(map[]), x))
  {
    var s, none := ['{'] + text, ['{'] + (['}'] + x);
    assert s[0] == '{' && s[1] == text[0] && s[1..] == text;
    assert none[0] == '{' && none[1] == '}' && none[2..] == x;
  }

  lemma NumberRead(n: int, x: string)
    requires Delimited(x)
    ensures ReadValue(Number(n) + x) == Some(Reading(MNum(n), x))
  {
    NumberReadBack(n, x);
    assert (Number(n) + x)[0] == Number(n)[0];
    hide ReadNumber, Number;
  }

  lemma StringRead(t: string, x: string)
    ensures ReadValue(Quote(t) + x) == Some(Reading(MStr(t), x))
  {
    QuoteReadBack(t, x);
    hide ReadString, Quote;
  }

  lemma NamesRead(x: string)
    ensures ReadValue("null" + x) == Some(Reading(MNull, x))
    ensures ReadValue("true" + x) == Some(Reading(MBool(true), x))
    ensures ReadValue("false" + x) == Some(Reading(MBool(false), x))
  {
    NameReadBack("null", MNull, x);
    NameReadBack("true", MBool(true), x);
    NameReadBack("false", MBool(false), x);
    assert ("null" + x)[0] == 'n' && ("true" + x)[0] == 't' && ("false" + x)[0] == 'f';
    hide ReadName;
  }

  lemma ScalarReadBack(v: Value, x: string)
    requires Delimited(x) && !v.Arr? && !v.Obj?
    ensures ReadValue(Serialize(v) + x) == Some(Reading(MeaningOf(v), x))
  {
    hide ReadValue, Number, Quote;
    NamesRead(x);
    match v
    case Num(n) => NumberRead(n, x);
    case Str(t) => StringRead(t, x);
    case _ =>
  }

  /** Whatever follows, the text of a sorted value is read as what the value means. */
  lemma {:induction false} ValueReadBack(v: Value, x: string)
    requires Sorted(v) && Delimited(x)
    ensures ReadValue(Serialize(v) + x) == Some(Reading(MeaningOf(v), x))
    decreases v
  {
    match v
    case Arr(items) =>
      var text := SerializeItems(items) + x;
      assert Serialize(v) + x == ['['] + text;
      ItemsBegin(items, x);
      hide ReadValue, SerializeItems, Serialize;
      if items != [] {
        ItemsReadBack(items, x);
        ArrayRead(text, x);
      } else {
        EmptyText(x);
        ArrayRead("x", x);
      }
    case Obj(members) =>
      var text := SerializeMembers(members) + x;
      assert Serialize(v) + x == ['{'] + text;
      MembersBegin(members, x);
      hide ReadValue, SerializeMembers, Serialize;
      if members != [] {
        MembersReadBack(members, x);
        ObjectRead(text, x);
      } else {
        EmptyText(x);
        ObjectRead("x", x);
      }
    case _ => ScalarReadBack(v, x);
  }

  lemma EmptyText(x: string)
    ensures SerializeItems([]) + x == [']'] + x && SerializeMembers([]) + x == ['}'] + x
  {
  }

  /** One item read, and what follows it. */
  lemma ItemsRead(text: string, m: Meaning, rest: string)
    requires ReadValue(text) == Some(Reading(m, rest)) && rest != ""
    ensures rest[0] == ']' ==> ReadItems(text) == Some(Reading([m], rest[1..]))
    ensures rest[0] == ',' && ReadItems(rest[1..]).Some? ==>
      ReadItems(text) == Some(Reading([m] + ReadItems(rest[1..]).value.value, ReadItems(rest[1..]).value.rest))
  {
    hide ReadValue;
  }

  lemma {:induction false} ItemsReadBack(items: seq<Value>, x: string)
    requires SortedItems(items) && items != []
    ensures ReadItems(SerializeItems(items) + x) == Some(Reading(ItemMeanings(items), x))
    decreases items
  {
    var rest, others := RestOfItems(items[1..]) + x, items[1..];
    assert ItemMeanings(items) == [MeaningOf(items[0])] + ItemMeanings(others);
    assert others == [] ==> ItemMeanings(items) == [MeaningOf(items[0])];
    hide Serialize, SerializeItems, ReadValue, ReadItems, Sorted, RestOfItems, MeaningOf, ItemMeanings, Delimited;
    ItemsParts(items, x);
    ItemsRest(others, x);
    BehindItem(others, x);
    ValueReadBack(items[0], rest);
    ItemsRead(SerializeItems(items) + x, MeaningOf(items[0]), rest);
    if others != [] { ItemsReadBack(others, x); }
  }

  lemma BehindItem(others: seq<Value>, x: string)
    ensures (RestOfItems(others) + x)[1..] == if others == [] then x else SerializeItems(others) + x
  {
    hide SerializeItems;
    var rest := RestOfItems(others) + x;
    assert others == [] ==> rest == [']'] + x;
    assert others != [] ==> rest == [','] + (SerializeItems(others) + x);
  }

  /** One member read, and what follows it. */
  lemma MembersRead(text: string, key: string, m: Meaning, rest: string)
    requires ReadMember(text) == Some(Reading((key, m), rest)) && rest != ""
    ensures rest[0] == '}' ==> ReadMembers(text) == Some(Reading(map[key := m], rest[1..]))
    ensures rest[0] == ',' && ReadMembers(rest[1..]).Some? ==>
      ReadMembers(text) ==
      Some(Reading(map[key := m] + ReadMembers(rest[1..]).value.value, ReadMembers(rest[1..]).value.rest))
  {
    hide ReadMember;
  }

  lemma {:induction false} MembersReadBack(members: seq<Member>, x: string)
    requires SortedMembers(members) && members != []
    ensures ReadMembers(SerializeMembers(members) + x) == Some(Reading(MemberMeanings(members), x))
    decreases members
  {
    hide Serialize, SerializeMembers, ReadValue, Quote, ReadString, ReadMember, ReadMembers, KeyBefore, Sorted,
      RestOfMembers, MeaningOf, MemberMeanings, Delimited;
    var rest, others := RestOfMembers(members[1..]) + x, members[1..];
    MembersParts(members, x);
    MembersRest(others, x);
    BehindMember(others, x);
    ValueReadBack(members[0].value, rest);
    MemberReadBack(members[0], rest);
    OneMore(members);
    MembersRead(SerializeMembers(members) + x, members[0].key, MeaningOf(members[0].value), rest);
    if others == [] {
      NoMeanings();
      var one := map[members[0].key := MeaningOf(members[0].value)];
      assert one + map[] == one;
    } else {
      MembersReadBack(others, x);
    }
  }

  lemma BehindMember(others: seq<Member>, x: string)
    ensures (RestOfMembers(others) + x)[1..] == if others == [] then x else SerializeMembers(others) + x
  {
    hide SerializeMembers;
  }

  lemma NoMeanings()
    ensures MemberMeanings([]) == map[]
  {
  }

  lemma MemberReadBack(m: Member, rest: string)
    requires ReadValue(Serialize(m.value) + rest) == Some(Reading(MeaningOf(m.value), rest))
    ensures ReadMember(Quote(m.key) + ([':'] + (Serialize(m.value) + rest))) ==
            Some(Reading((m.key, MeaningOf(m.value)), rest))
  {
    var value := Serialize(m.value) + rest;
    QuoteReadBack(m.key, [':'] + value);
    assert ([':'] + value)[1..] == value;
    hide Serialize, ReadValue, Quote, ReadString;
  }

  /** A key that comes once may be added before the others or after them. */
  lemma OneMore(members: seq<Member>)
    requires SortedMembers(members) && members != []
    ensures map[members[0].key := MeaningOf(members[0].value)] + MemberMeanings(members[1..]) == MemberMeanings(members)
  {
    FirstKeyOnce(members);
    hide KeyBefore, Sorted;
  }

  // ---------------------------------------------------------------------------
  // The canonical text
  // ---------------------------------------------------------------------------

  /** A non-finite number occurs in the value, at whatever depth. */
  ghost predicate HasNonFinite(v: Value) {
    || v == NonFinite
    || (v.Arr? && exists k :: 0 <= k < |v.items| && HasNonFinite(v.items[k]))
    || (v.Obj? && exists k :: 0 <= k < |v.members| && HasNonFinite(v.members[k].value))
  }

  lemma {:induction false} FiniteExactly(v: Value)
    ensures Finite(v) <==> !HasNonFinite(v)
    decreases v
  {
    match v
    case Arr(items) => FiniteItemsExactly(items);
    case Obj(members) => FiniteMembersExactly(members);
    case _ =>
  }

  lemma {:induction false} FiniteItemsExactly(items: seq<Value>)
    ensures FiniteItems(items) <==> forall k :: 0 <= k < |items| ==> !HasNonFinite(items[k])
    decreases items
  {
    if items != [] {
      FiniteExactly(items[0]);
      FiniteItemsExactly(items[1..]);
      hide HasNonFinite, Finite;
      assert forall k :: 0 < k < |items| ==> items[k] == items[1..][k - 1];
    }
  }

  lemma {:induction false} FiniteMembersExactly(members: seq<Member>)
    ensures FiniteMembers(members) <==> forall k :: 0 <= k < |members| ==> !HasNonFinite(members[k].value)
    decreases members
  {
    if members != [] {
      FiniteExactly(members[0].value);
      FiniteMembersExactly(members[1..]);
      hide HasNonFinite, Finite;
      assert forall k :: 0 < k < |members| ==> members[k] == members[1..][k - 1];
    }
  }

  /**
   * The canonical text of a value is JSON that reads back as exactly what the value means, to the last character;
   * there is none for an undefined value, and a value with a non-finite number anywhere is refused.
   */
  lemma CanonicalReadsBack(v: Value)
    requires Proper(v)
    ensures CanonicalJson.CanonicalJson(v) == Refused <==> HasNonFinite(v)
    ensures CanonicalJson.CanonicalJson(v) == NoText <==> v == Undefined
    ensures CanonicalJson.CanonicalJson(v).Text? ==>
      ReadValue(CanonicalJson.CanonicalJson(v).text) == Some(Reading(MeaningOf(v), ""))
  {
    FiniteExactly(v);
    SortMeans(v);
    ValueReadBack(SortValue(v), "");
    hide ReadValue, Serialize, HasNonFinite, Finite;
    assert Serialize(SortValue(v)) + "" == Serialize(SortValue(v));
  }

  /** The canonical bytes of a proposed call read back as its tool and what its input means, under their two names. */
  lemma CallReadsBack(tool: string, input: Value)
    requires Proper(input) && Finite(input) && input != Undefined
    ensures CanonicalToolCall(tool, input).Text?
    ensures ReadValue(CanonicalToolCall(tool, input).text) ==
            Some(Reading(MObj(map["tool" := MStr(tool), "input" := MeaningOf(input)]), ""))
  {
    CallParts(tool, input);
    CanonicalReadsBack(CallOf(tool, input));
    FiniteExactly(CallOf(tool, input));
    hide ReadValue, Serialize, HasNonFinite, Finite, MeaningOf, SortValue, Proper;
    assert |"tool"| != |"input"|;
    assert map["tool" := MStr(tool), "input" := MeaningOf(input)] == CallMeaning(MStr(tool), MeaningOf(input));
  }
}
