/**
 * The order an object's keys are enumerated in, by what the keys are: the decimal numerals
 * below 2^32 - 1 come first and by value, every other key after them and by character.
 */
module KeyOrder {
  import opened Wrappers
  import opened JsonText
  import opened JsonReader

  function Power10(n: nat): nat {
    if n == 0 then 1 else 10 * Power10(n - 1)
  }

  predicate Digits(s: string) {
    forall k :: 0 <= k < |s| ==> IsDigit(s[k])
  }

  /** A numeral as numbers are written: digits, with no zero before another one. */
  predicate Numeral(s: string) {
    s != "" && Digits(s) && (s[0] == '0' ==> |s| == 1)
  }

  /** One past the largest array index. */
  const INDEX_BOUND: nat := 4294967295

  lemma {:induction false} ValueBounds(s: string)
    requires Digits(s)
    ensures ValueOf(s) < Power10(|s|)
    ensures s != "" && s[0] != '0' ==> ValueOf(s) >= Power10(|s| - 1)
  {
    if s != "" {
      var front := s[..|s| - 1];
      assert IsDigit(s[|s| - 1]);
      ValueBounds(front);
      if front != "" {
        assert s[0] == front[0];
      } else {
        assert ValueOf(front) == 0;
      }
    }
  }

  lemma {:induction false} Power10Grows(m: nat, n: nat)
    requires m <= n
    ensures Power10(m) <= Power10(n)
    decreases n
  {
    if m < n { Power10Grows(m, n - 1); }
  }

  /** Among numerals the longer is the larger. */
  lemma LongerIsLarger(a: string, b: string)
    requires Numeral(a) && Numeral(b) && |a| < |b|
    ensures ValueOf(a) < ValueOf(b)
  {
    ValueBounds(a);
    ValueBounds(b);
    Power10Grows(|a|, |b| - 1);
  }

  /** Order by character, decided by the last character once everything before it agrees. */
  lemma {:induction false} LexicalLast(a: string, b: string)
    requires |a| == |b| > 0
    ensures var n := |a| - 1; Lexical(a, b) <==> Lexical(a[..n], b[..n]) || (a[..n] == b[..n] && a[n] < b[n])
    decreases |a|
  {
    var n := |a| - 1;
    if n > 0 {
      LexicalLast(a[1..], b[1..]);
      assert a[1..][..n - 1] == a[..n][1..] && b[1..][..n - 1] == b[..n][1..];
      assert a[..n] == [a[0]] + a[..n][1..] && b[..n] == [b[0]] + b[..n][1..];
    } else {
      assert a[1..] == "" && b[1..] == "" && a[..n] == "" && b[..n] == "";
    }
  }

  /** Digits of one length are ordered by character as by value. */
  lemma {:induction false} SameLengthOrder(a: string, b: string)
    requires Digits(a) && Digits(b) && |a| == |b|
    ensures Lexical(a, b) <==> ValueOf(a) < ValueOf(b)
    ensures a == b <==> ValueOf(a) == ValueOf(b)
    decreases |a|
  {
    if a != "" {
      var n := |a| - 1;
      LexicalLast(a, b);
      SameLengthOrder(a[..n], b[..n]);
      assert IsDigit(a[n]) && IsDigit(b[n]);
      assert a == a[..n] + [a[n]] && b == b[..n] + [b[n]];
      hide Lexical;
    }
  }

  lemma TenDigits()
    ensures Numeral("4294967295") && ValueOf("4294967295") == INDEX_BOUND
    ensures Power10(9) == 1000000000 && Power10(10) == 10000000000
  {
    assert Power10(3) == 1000 && Power10(6) == 1000000;
    DecimalValue(INDEX_BOUND);
    assert Decimal(42) == "42";
    assert Decimal(4294) == "4294";
    assert Decimal(429496) == "429496";
    assert Decimal(42949672) == "42949672";
    assert Decimal(4294967295) == "4294967295";
  }

  /** A numeral is an index key exactly when its value is an array index. */
  lemma NumeralIndex(s: string)
    requires Numeral(s)
    ensures IndexKey(s) <==> ValueOf(s) < INDEX_BOUND
  {
    TenDigits();
    ValueBounds(s);
    hide Lexical, ValueOf;
    if |s| == 10 {
      SameLengthOrder(s, "4294967295");
    } else if |s| < 10 {
      Power10Grows(|s|, 9);
    } else {
      LongerIsLarger("4294967295", s);
    }
  }

  /** Every numeral is how its value is written. */
  lemma {:induction false} NumeralIsDecimal(s: string)
    requires Numeral(s)
    ensures Decimal(ValueOf(s)) == s
    decreases |s|
  {
    var n := |s| - 1;
    assert IsDigit(s[n]);
    if n == 0 {
      assert s[..0] == "" && ValueOf("") == 0;
      assert s == [s[0]];
    } else {
      var front := s[..n];
      assert front[0] == s[0];
      NumeralIsDecimal(front);
      ValueBounds(front);
      Power10Grows(0, |front| - 1);
      assert s == front + [s[n]];
      assert ValueOf(s) / 10 == ValueOf(front) && ValueOf(s) % 10 == s[n] as int - 48;
    }
  }

  lemma DecimalIsNumeral(n: nat)
    ensures Numeral(Decimal(n)) && ValueOf(Decimal(n)) == n
  {
    DecimalValue(n);
  }

  /** The index keys are exactly the numbers below 2^32 - 1, written in decimal. */
  lemma IndexKeyExactly(s: string)
    ensures IndexKey(s) <==> exists n: nat :: n < INDEX_BOUND && s == Decimal(n)
  {
    if IndexKey(s) {
      assert Numeral(s);
      NumeralIndex(s);
      NumeralIsDecimal(s);
    }
    forall n: nat | n < INDEX_BOUND && s == Decimal(n) ensures IndexKey(s) {
      DecimalIsNumeral(n);
      NumeralIndex(s);
    }
  }

  /** Where `a` and `b` first differ, `a` ends or has the smaller character. */
  ghost predicate DiffersAt(a: string, b: string, k: nat) {
    k <= |a| && k < |b| && a[..k] == b[..k] && (k == |a| || a[k] < b[k])
  }

  lemma {:induction false} LexicalExactly(a: string, b: string)
    ensures Lexical(a, b) <==> exists k :: DiffersAt(a, b, k)
    decreases |a|
  {
    if a != "" && b != "" && a[0] == b[0] {
      LexicalExactly(a[1..], b[1..]);
      forall k: nat ensures DiffersAt(a[1..], b[1..], k) <==> DiffersAt(a, b, k + 1) {
        if k <= |a| - 1 && k < |b| - 1 {
          assert a[..k + 1] == [a[0]] + a[1..][..k] && b[..k + 1] == [b[0]] + b[1..][..k];
          assert a[1..][..k] == a[..k + 1][1..] && b[1..][..k] == b[..k + 1][1..];
        }
      }
      assert !DiffersAt(a, b, 0);
      if k: nat :| DiffersAt(a, b, k) { assert DiffersAt(a[1..], b[1..], k - 1); }
    } else if b != "" && (a == "" || a[0] < b[0]) {
      assert DiffersAt(a, b, 0);
    } else {
      forall k: nat ensures !DiffersAt(a, b, k) {
        if k > 0 && k <= |a| && k < |b| { assert a[..k][0] == a[0] && b[..k][0] == b[0]; }
      }
    }
  }

  /**
   * The order keys are written in: array indices by their value, before every other key; any other two by the first
   * character in which they differ, a prefix first.
   */
  lemma KeysOrderedExactly(a: string, b: string)
    ensures IndexKey(a) && IndexKey(b) ==>
      (KeyBefore(a, b) <==> ValueOf(a) < ValueOf(b)) && a == Decimal(ValueOf(a)) && b == Decimal(ValueOf(b))
    ensures IndexKey(a) && !IndexKey(b) ==> KeyBefore(a, b)
    ensures !IndexKey(a) && IndexKey(b) ==> !KeyBefore(a, b)
    ensures !IndexKey(a) && !IndexKey(b) ==> (KeyBefore(a, b) <==> exists k :: DiffersAt(a, b, k))
  {
    LexicalExactly(a, b);
    if IndexKey(a) && IndexKey(b) {
      assert Numeral(a) && Numeral(b);
      NumeralIsDecimal(a);
      NumeralIsDecimal(b);
      hide DiffersAt, ValueOf, Lexical;
      if |a| == |b| {
        SameLengthOrder(a, b);
      } else if |a| < |b| {
        LongerIsLarger(a, b);
      } else {
        LongerIsLarger(b, a);
      }
    }
  }
}
