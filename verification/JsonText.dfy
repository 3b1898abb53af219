/**
 * The building blocks of JSON text that can be read back in only one way: escaped
 * strings and decimal numbers (sections 6 and 7 of RFC 8259), and the one order in
 * which an object's keys are written.
 */
module JsonText {
  // ---------------------------------------------------------------------------
  // Strings
  // ---------------------------------------------------------------------------

  function HexDigit(n: nat): char
    requires n < 16
  {
    if n < 10 then ('0' as int + n) as char else ('a' as int + n - 10) as char
  }

  predicate ShortEscape(c: char) {
    c in {'"', '\\', '\n', '\r', '\t', 8 as char, 12 as char}
  }

  function ShortLetter(c: char): char
    requires ShortEscape(c)
  {
    if c == '"' then '"' else if c == '\\' then '\\' else if c == '\n' then 'n' else if c == '\r' then 'r'
    else if c == '\t' then 't'
    else if c == 8 as char then 'b' else 'f'
  }

  function EscapeChar(c: char): string {
    if ShortEscape(c) then ['\\', ShortLetter(c)]
    else if c as int < 32 then ['\\', 'u', '0', '0', HexDigit(c as int / 16), HexDigit(c as int % 16)]
    else [c]
  }

  function Escape(s: string): string {
    if s == "" then "" else EscapeChar(s[0]) + Escape(s[1..])
  }

  function Quote(s: string): string {
    ['"'] + Escape(s) + ['"']
  }

  /** No character's escape is the beginning of another one's, and none begins with a quote. */
  lemma EscapePrefixFree(c: char, d: char, x: string, y: string)
    requires EscapeChar(c) + x == EscapeChar(d) + y
    ensures c == d && x == y
  {
    var a, b := EscapeChar(c), EscapeChar(d);
    assert (a + x)[0] == a[0] && (b + y)[0] == b[0];
    if |a| > 1 && |b| > 1 {
      assert (a + x)[1] == a[1] && (b + y)[1] == b[1];
    }
    if |a| == 6 && |b| == 6 {
      assert (a + x)[4] == a[4] && (b + y)[4] == b[4] && (a + x)[5] == a[5] && (b + y)[5] == b[5];
      HexInjective(c as int / 16, d as int / 16);
      HexInjective(c as int % 16, d as int % 16);
    }
    assert a == b;
    assert x == (a + x)[|a|..] && y == (b + y)[|b|..];
  }

  lemma HexInjective(m: nat, n: nat)
    requires m < 16 && n < 16
    ensures HexDigit(m) == HexDigit(n) ==> m == n
  {
  }

  /** What is left of a quoted string to read. */
  function Unread(s: string, x: string): string {
    Escape(s) + ['"'] + x
  }

  lemma UnreadStep(s: string, x: string)
    ensures s == "" ==> Unread(s, x) == ['"'] + x
    ensures s != "" ==> Unread(s, x) == EscapeChar(s[0]) + Unread(s[1..], x) && Unread(s, x)[0] != '"'
  {
    if s != "" {
      assert Unread(s, x) == EscapeChar(s[0]) + Unread(s[1..], x);
    }
  }

  lemma {:induction false} EscapedOnce(s: string, t: string, x: string, y: string)
    requires Unread(s, x) == Unread(t, y)
    ensures s == t && x == y
    decreases |s|
  {
    UnreadStep(s, x);
    UnreadStep(t, y);
    hide Unread, EscapeChar;
    if s == "" && t == "" {
      assert x == (['"'] + x)[1..] && y == (['"'] + y)[1..];
    } else if s != "" && t != "" {
      EscapePrefixFree(s[0], t[0], Unread(s[1..], x), Unread(t[1..], y));
      EscapedOnce(s[1..], t[1..], x, y);
      assert s == [s[0]] + s[1..] && t == [t[0]] + t[1..];
    }
  }

  /** A quoted string is read back in one way, whatever follows it. */
  lemma QuotedOnce(s: string, t: string, x: string, y: string)
    requires Quote(s) + x == Quote(t) + y
    ensures s == t && x == y
  {
    assert (Quote(s) + x)[1..] == Unread(s, x);
    assert (Quote(t) + y)[1..] == Unread(t, y);
    EscapedOnce(s, t, x, y);
  }

  // ---------------------------------------------------------------------------
  // Numbers
  // ---------------------------------------------------------------------------

  predicate IsDigit(c: char) {
    '0' <= c <= '9'
  }

  function Decimal(n: nat): (s: string)
    ensures s != "" && forall k :: 0 <= k < |s| ==> IsDigit(s[k])
  {
    var last := ('0' as int + n % 10) as char;
    if n < 10 then [last] else Decimal(n / 10) + [last]
  }

  function Number(n: int): (s: string)
    ensures s != "" && (IsDigit(s[0]) || s[0] == '-')
  {
    if n < 0 then ['-'] + Decimal(-n) else Decimal(n)
  }

  lemma {:induction false} DecimalInjective(m: nat, n: nat)
    requires Decimal(m) == Decimal(n)
    ensures m == n
    decreases m
  {
    var a, b := Decimal(m), Decimal(n);
    assert a[|a| - 1] == ('0' as int + m % 10) as char && b[|b| - 1] == ('0' as int + n % 10) as char;
    assert m % 10 == n % 10;
    if m >= 10 && n >= 10 {
      assert a[..|a| - 1] == Decimal(m / 10) && b[..|b| - 1] == Decimal(n / 10);
      DecimalInjective(m / 10, n / 10);
    } else if m >= 10 {
      LongDecimal(m);
    } else if n >= 10 {
      LongDecimal(n);
    }
  }

  lemma LongDecimal(n: nat)
    requires n >= 10
    ensures |Decimal(n)| >= 2
  {
  }

  /** What follows a value in JSON text is not a digit. */
  predicate Delimited(x: string) {
    x == "" || !IsDigit(x[0])
  }

  lemma SameAt(a: string, b: string, x: string, y: string)
    requires a + x == b + y && |a| < |b|
    ensures x != "" && x[0] == b[|a|]
  {
    assert |a + x| == |b + y|;
    assert (a + x)[|a|] == x[0] && (b + y)[|a|] == b[|a|];
  }

  /** A number ends where its digits end. */
  lemma NotLonger(a: string, b: string, x: string, y: string)
    requires a + x == b + y && Delimited(x)
    requires forall k :: 0 <= k < |b| ==> IsDigit(b[k])
    ensures |b| <= |a|
  {
    if |a| < |b| { SameAt(a, b, x, y); }
  }

  lemma DecimalOnce(m: nat, n: nat, x: string, y: string)
    requires Decimal(m) + x == Decimal(n) + y && Delimited(x) && Delimited(y)
    ensures m == n && x == y
  {
    var a, b := Decimal(m), Decimal(n);
    NotLonger(a, b, x, y);
    NotLonger(b, a, y, x);
    assert a == (a + x)[..|a|] && b == (b + y)[..|b|];
    assert x == (a + x)[|a|..] && y == (b + y)[|b|..];
    DecimalInjective(m, n);
  }

  lemma NumberParts(n: int, x: string)
    ensures n < 0 ==> (Number(n) + x)[0] == '-' && (Number(n) + x)[1..] == Decimal(-n) + x
    ensures n >= 0 ==> (Number(n) + x)[0] != '-' && Number(n) == Decimal(n)
  {
    assert (Number(n) + x)[0] == Number(n)[0];
  }

  lemma NumberOnce(m: int, n: int, x: string, y: string)
    requires Number(m) + x == Number(n) + y && Delimited(x) && Delimited(y)
    ensures m == n && x == y
  {
    NumberParts(m, x);
    NumberParts(n, y);
    hide Number, Decimal;
    if m < 0 {
      DecimalOnce(-m, -n, x, y);
    } else {
      DecimalOnce(m, n, x, y);
    }
  }

  // ---------------------------------------------------------------------------
  // Key order
  // ---------------------------------------------------------------------------

  /** Order by character, a prefix first. */
  predicate Lexical(a: string, b: string) {
    b != "" && (a == "" || a[0] < b[0] || (a[0] == b[0] && Lexical(a[1..], b[1..])))
  }

  lemma {:induction false} LexicalTotal(a: string, b: string)
    ensures a == b || Lexical(a, b) || Lexical(b, a)
    ensures !(Lexical(a, b) && Lexical(b, a)) && !Lexical(a, a)
    decreases |a|
  {
    if a != "" {
      LexicalTotal(a[1..], a[1..]);
      if b != "" && a[0] == b[0] {
        LexicalTotal(a[1..], b[1..]);
        assert a == [a[0]] + a[1..] && b == [b[0]] + b[1..];
      }
    }
  }

  lemma {:induction false} LexicalTransitive(a: string, b: string, c: string)
    requires Lexical(a, b) && Lexical(b, c)
    ensures Lexical(a, c)
    decreases |a|
  {
    if a != "" && a[0] == b[0] == c[0] {
      LexicalTransitive(a[1..], b[1..], c[1..]);
    }
  }

  /** A key that names an array index: an object enumerates these first, in numeric order. */
  predicate IndexKey(s: string) {
    && 0 < |s| <= 10
    && (forall k :: 0 <= k < |s| ==> IsDigit(s[k]))
    && (s[0] == '0' ==> |s| == 1)
    && (|s| == 10 ==> Lexical(s, "4294967295"))
  }

  /**
   * The order in which a sorted object's keys are written: index keys by value, which for them is
   * by length and then by digits, then all others by character.
   */
  predicate KeyBefore(a: string, b: string) {
    if IndexKey(a) && IndexKey(b) then |a| < |b| || (|a| == |b| && Lexical(a, b))
    else if IndexKey(a) || IndexKey(b) then IndexKey(a)
    else Lexical(a, b)
  }

  lemma KeyTotal(a: string, b: string)
    ensures a == b || KeyBefore(a, b) || KeyBefore(b, a)
    ensures !(KeyBefore(a, b) && KeyBefore(b, a)) && !KeyBefore(a, a)
  {
    LexicalTotal(a, b);
    LexicalTotal(a, a);
    hide IndexKey, Lexical;
  }

  lemma KeyTransitive(a: string, b: string, c: string)
    requires KeyBefore(a, b) && KeyBefore(b, c)
    ensures KeyBefore(a, c)
  {
    if Lexical(a, b) && Lexical(b, c) { LexicalTransitive(a, b, c); }
    hide IndexKey, Lexical;
  }
}
