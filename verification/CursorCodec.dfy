/**
 * The page cursor codec: unpadded base64url (section 5 of RFC 4648) whose decoder keeps
 * an accumulator it never masks, so that it wraps at 32 bits, and the cursor that is
 * accepted only for the collection, order and key shape it was issued for.
 */
module CursorCodec {
  import opened Wrappers

  type Byte = b: int | 0 <= b < 256

  type Digit = d: int | 0 <= d < 64

  // ---------------------------------------------------------------------------
  // The alphabet
  // ---------------------------------------------------------------------------

  function Range(first: char, count: nat): (s: string)
    requires first as int + count <= 128
    ensures |s| == count && forall i :: 0 <= i < count ==> s[i] == (first as int + i) as char
  {
    seq(count, i requires 0 <= i < count => (first as int + i) as char)
  }

  /** `A-Z`, `a-z`, `0-9`, `-` and `_`, in this order. */
  const ALPHABET := Range('A', 26) + Range('a', 26) + Range('0', 10) + ['-', '_']

  /** The first position of a character in the alphabet; -1 for any other character. */
  function IndexOf(c: char): (i: int)
    ensures -1 <= i < 64
    ensures i >= 0 ==> ALPHABET[i] == c
  {
    if 'A' <= c <= 'Z' then c as int - 'A' as int
    else if 'a' <= c <= 'z' then 26 + c as int - 'a' as int
    else if '0' <= c <= '9' then 52 + c as int - '0' as int
    else if c == '-' then 62
    else if c == '_' then 63
    else -1
  }

  lemma IndexOfSymbol(d: Digit)
    ensures IndexOf(ALPHABET[d]) == d
  {
  }

  function Text(digits: seq<Digit>): (text: string)
    ensures |text| == |digits| && forall k :: 0 <= k < |text| ==> text[k] == ALPHABET[digits[k]]
  {
    seq(|digits|, k requires 0 <= k < |digits| => ALPHABET[digits[k]])
  }

  /** Only characters of the alphabet, and no length that leaves a single digit over. */
  predicate WellFormed(text: string) {
    (forall k :: 0 <= k < |text| ==> IndexOf(text[k]) >= 0) && |text| % 4 != 1
  }

  function Digits(text: string): (digits: seq<Digit>)
    requires forall k :: 0 <= k < |text| ==> IndexOf(text[k]) >= 0
    ensures |digits| == |text| && forall k :: 0 <= k < |digits| ==> digits[k] == IndexOf(text[k])
  {
    seq(|text|, k requires 0 <= k < |text| => IndexOf(text[k]))
  }

  lemma DigitsOfText(digits: seq<Digit>)
    ensures forall k :: 0 <= k < |digits| ==> IndexOf(Text(digits)[k]) >= 0
    ensures Digits(Text(digits)) == digits
  {
    forall k | 0 <= k < |digits| ensures IndexOf(Text(digits)[k]) == digits[k] {
      IndexOfSymbol(digits[k]);
    }
  }

  lemma TextOfDigits(text: string)
    requires forall k :: 0 <= k < |text| ==> IndexOf(text[k]) >= 0
    ensures Text(Digits(text)) == text
  {
  }

  // ---------------------------------------------------------------------------
  // Bytes to digits, one byte at a time
  // ---------------------------------------------------------------------------

  /** An encoder between two bytes of a group: the digits so far, and the bits of the last byte not yet in one. */
  datatype Encoder = Encoder(phase: nat, carry: nat, digits: seq<Digit>)

  predicate EncoderOk(e: Encoder) {
    (e.phase == 0 && e.carry == 0) || (e.phase == 1 && e.carry < 4) || (e.phase == 2 && e.carry < 16)
  }

  function PutByte(e: Encoder, b: Byte): (r: Encoder)
    requires EncoderOk(e)
    ensures EncoderOk(r)
  {
    if e.phase == 0 then Encoder(1, b % 4, e.digits + [b / 4])
    else if e.phase == 1 then Encoder(2, b % 16, e.digits + [e.carry * 16 + b / 16])
    else Encoder(0, 0, e.digits + [e.carry * 4 + b / 64, b % 64])
  }

  function EncodeSteps(bytes: seq<Byte>): (e: Encoder)
    ensures EncoderOk(e) && e.phase == |bytes| % 3
  {
    if bytes == [] then Encoder(0, 0, []) else PutByte(EncodeSteps(bytes[..|bytes| - 1]), bytes[|bytes| - 1])
  }

  /** An unfinished group ends in a digit filled up with zero bits. */
  function Flush(e: Encoder): seq<Digit>
    requires EncoderOk(e)
  {
    if e.phase == 1 then e.digits + [e.carry * 16] else if e.phase == 2 then e.digits + [e.carry * 4] else e.digits
  }

  function Encode(bytes: seq<Byte>): seq<Digit> {
    Flush(EncodeSteps(bytes))
  }

  // ---------------------------------------------------------------------------
  // Digits to bytes, one digit at a time
  // ---------------------------------------------------------------------------

  /** A decoder between two digits of a group: the bytes so far, and the bits of the last digit not yet in one. */
  datatype Decoder = Decoder(phase: nat, carry: nat, bytes: seq<Byte>)

  predicate DecoderOk(d: Decoder) {
    (d.phase == 0 && d.carry == 0) || (d.phase == 1 && d.carry < 64) || (d.phase == 2 && d.carry < 16)
      || (d.phase == 3 && d.carry < 4)
  }

  function PutDigit(s: Decoder, d: Digit): (r: Decoder)
    requires DecoderOk(s)
    ensures DecoderOk(r) && r.phase == if s.phase == 3 then 0 else s.phase + 1
  {
    if s.phase == 0 then Decoder(1, d, s.bytes)
    else if s.phase == 1 then Decoder(2, d % 16, s.bytes + [s.carry * 4 + d / 16])
    else if s.phase == 2 then Decoder(3, d % 4, s.bytes + [s.carry * 16 + d / 4])
    else Decoder(0, 0, s.bytes + [s.carry * 64 + d])
  }

  function DecodeSteps(digits: seq<Digit>): (s: Decoder)
    ensures DecoderOk(s) && s.phase == |digits| % 4
  {
    hide PutDigit;
    if digits == [] then Decoder(0, 0, []) else PutDigit(DecodeSteps(digits[..|digits| - 1]), digits[|digits| - 1])
  }

  function Decode(digits: seq<Digit>): seq<Byte> {
    DecodeSteps(digits).bytes
  }

  lemma OneDigitMore(digits: seq<Digit>, d: Digit)
    ensures DecodeSteps(digits + [d]) == PutDigit(DecodeSteps(digits), d)
  {
    assert (digits + [d])[..|digits|] == digits;
  }

  lemma OneByteMore(bytes: seq<Byte>, b: Byte)
    ensures EncodeSteps(bytes + [b]) == PutByte(EncodeSteps(bytes), b)
  {
    assert (bytes + [b])[..|bytes|] == bytes;
  }

  // ---------------------------------------------------------------------------
  // Decoding inverts encoding
  // ---------------------------------------------------------------------------

  /**
   * Where a decoder stands that has read what an encoder wrote: it misses at most the bits the
   * encoder still carries.
   */
  ghost predicate Follows(e: Encoder, bytes: seq<Byte>, s: Decoder) {
    && s.phase == e.phase
    && (e.phase == 0 ==> s.bytes == bytes)
    && (e.phase == 1 ==> bytes != [] && s.bytes == bytes[..|bytes| - 1] && s.carry * 4 + e.carry == bytes[|bytes| - 1])
    && (e.phase == 2 ==> bytes != [] && s.bytes == bytes[..|bytes| - 1] && s.carry * 16 + e.carry == bytes[|bytes| - 1])
  }

  lemma FollowsByte(e: Encoder, bytes: seq<Byte>, s: Decoder, b: Byte)
    requires EncoderOk(e) && DecoderOk(s) && Follows(e, bytes, s)
    ensures e.phase == 0 ==> Follows(PutByte(e, b), bytes + [b], PutDigit(s, b / 4))
    ensures e.phase == 1 ==> Follows(PutByte(e, b), bytes + [b], PutDigit(s, e.carry * 16 + b / 16))
    ensures e.phase == 2 ==> Follows(PutByte(e, b), bytes + [b], PutDigit(PutDigit(s, e.carry * 4 + b / 64), b % 64))
  {
    assert (bytes + [b])[..|bytes|] == bytes;
    if e.phase == 1 {
      Whole(bytes, s.bytes, s.carry * 4 + e.carry);
      SplitSecond(e.carry, b);
    } else if e.phase == 2 {
      Whole(bytes, s.bytes, s.carry * 16 + e.carry);
      SplitThird(e.carry, b);
    }
  }

  lemma Whole(bytes: seq<Byte>, front: seq<Byte>, last: Byte)
    requires bytes != [] && front == bytes[..|bytes| - 1] && last == bytes[|bytes| - 1]
    ensures bytes == front + [last]
  {
  }

  lemma SplitSecond(carry: nat, b: Byte)
    requires carry < 4
    ensures (carry * 16 + b / 16) / 16 == carry && (carry * 16 + b / 16) % 16 == b / 16
  {
  }

  lemma SplitThird(carry: nat, b: Byte)
    requires carry < 16
    ensures (carry * 4 + b / 64) / 4 == carry && (carry * 4 + b / 64) % 4 == b / 64 && b / 64 * 64 + b % 64 == b
  {
  }

  /** The digits one more byte adds, as the decoder reads them. */
  lemma ReadsByte(e: Encoder, b: Byte)
    requires EncoderOk(e)
    ensures var s := DecodeSteps(e.digits);
      DecodeSteps(PutByte(e, b).digits) ==
        if e.phase == 0 then PutDigit(s, b / 4)
        else if e.phase == 1 then PutDigit(s, e.carry * 16 + b / 16)
        else PutDigit(PutDigit(s, e.carry * 4 + b / 64), b % 64)
  {
    hide DecodeSteps, PutDigit;
    if e.phase == 0 {
      OneDigitMore(e.digits, b / 4);
    } else if e.phase == 1 {
      OneDigitMore(e.digits, e.carry * 16 + b / 16);
    } else {
      OneDigitMore(e.digits, e.carry * 4 + b / 64);
      OneDigitMore(e.digits + [e.carry * 4 + b / 64], b % 64);
      assert e.digits + [e.carry * 4 + b / 64] + [b % 64] == e.digits + [e.carry * 4 + b / 64, b % 64];
    }
  }

  lemma FollowsNothing()
    ensures Follows(EncodeSteps([]), [], DecodeSteps(EncodeSteps([]).digits))
  {
  }

  lemma {:induction false} DecoderFollows(bytes: seq<Byte>)
    ensures Follows(EncodeSteps(bytes), bytes, DecodeSteps(EncodeSteps(bytes).digits))
  {
    hide Follows, PutByte, PutDigit, EncodeSteps, DecodeSteps;
    if bytes == [] {
      FollowsNothing();
    } else {
      var front, b := bytes[..|bytes| - 1], bytes[|bytes| - 1];
      DecoderFollows(front);
      var e := EncodeSteps(front);
      assert bytes == front + [b];
      OneByteMore(front, b);
      FollowsByte(e, front, DecodeSteps(e.digits), b);
      ReadsByte(e, b);
    }
  }

  /** Decoding inverts encoding for every byte string, and no encoding leaves a single digit over. */
  lemma DecodeEncode(bytes: seq<Byte>)
    ensures Decode(Encode(bytes)) == bytes && |Encode(bytes)| % 4 != 1
  {
    var e := EncodeSteps(bytes);
    DecoderFollows(bytes);
    hide EncodeSteps, DecodeSteps;
    if e.phase == 1 {
      OneDigitMore(e.digits, e.carry * 16);
      assert bytes == bytes[..|bytes| - 1] + [bytes[|bytes| - 1]];
    } else if e.phase == 2 {
      OneDigitMore(e.digits, e.carry * 4);
      assert bytes == bytes[..|bytes| - 1] + [bytes[|bytes| - 1]];
    }
  }

  // ---------------------------------------------------------------------------
  // Encoding inverts decoding exactly for canonical digits
  // ---------------------------------------------------------------------------

  /**
   * Where an encoder stands that is given what a decoder read: it is one digit behind, and knows
   * all of that digit but the bits the decoder still carries.
   */
  ghost predicate Behind(s: Decoder, digits: seq<Digit>, e: Encoder) {
    && (s.phase == 0 ==> e.phase == 0 && e.digits == digits)
    && (s.phase == 1 ==>
          e.phase == 0 && digits != [] && e.digits == digits[..|digits| - 1] && s.carry == digits[|digits| - 1])
    && (s.phase == 2 ==>
          e.phase == 1 && digits != [] && e.digits == digits[..|digits| - 1]
            && e.carry * 16 + s.carry == digits[|digits| - 1])
    && (s.phase == 3 ==>
          e.phase == 2 && digits != [] && e.digits == digits[..|digits| - 1]
            && e.carry * 4 + s.carry == digits[|digits| - 1])
  }

  /** The byte a digit completes, if it is not the first of its group. */
  function CompletedBy(s: Decoder, d: Digit): Byte
    requires DecoderOk(s) && s.phase != 0
  {
    if s.phase == 1 then s.carry * 4 + d / 16 else if s.phase == 2 then s.carry * 16 + d / 4 else s.carry * 64 + d
  }

  /** The byte a digit completes, given back to the encoder, makes the digit before it. */
  lemma BehindDigit(s: Decoder, digits: seq<Digit>, e: Encoder, d: Digit)
    requires DecoderOk(s) && EncoderOk(e) && Behind(s, digits, e)
    ensures s.phase == 0 ==> PutDigit(s, d).bytes == s.bytes && Behind(PutDigit(s, d), digits + [d], e)
    ensures s.phase != 0 ==>
      PutDigit(s, d).bytes == s.bytes + [CompletedBy(s, d)]
        && Behind(PutDigit(s, d), digits + [d], PutByte(e, CompletedBy(s, d)))
  {
    assert (digits + [d])[..|digits|] == digits;
    if s.phase == 1 {
      BehindFirst(s.carry, d);
    } else if s.phase == 2 {
      BehindSecond(e.carry, s.carry, d);
    } else if s.phase == 3 {
      BehindThird(e.carry, s.carry, d);
    }
    if s.phase != 0 {
      assert digits[..|digits| - 1] + [digits[|digits| - 1]] == digits;
    }
  }

  lemma BehindFirst(carry: nat, d: Digit)
    requires carry < 64
    ensures var b := carry * 4 + d / 16; b / 4 == carry && b % 4 * 16 + d % 16 == d
  {
  }

  lemma BehindSecond(high: nat, low: nat, d: Digit)
    requires high < 4 && low < 16
    ensures var b := low * 16 + d / 4; high * 16 + b / 16 == high * 16 + low && b % 16 * 4 + d % 4 == d
  {
  }

  lemma BehindThird(high: nat, low: nat, d: Digit)
    requires high < 16 && low < 4
    ensures var b := low * 64 + d; high * 4 + b / 64 == high * 4 + low && b % 64 == d
  {
  }

  lemma {:induction false} EncoderBehind(digits: seq<Digit>)
    ensures Behind(DecodeSteps(digits), digits, EncodeSteps(Decode(digits)))
  {
    if digits != [] {
      var front, d := digits[..|digits| - 1], digits[|digits| - 1];
      EncoderBehind(front);
      var s := DecodeSteps(front);
      assert digits == front + [d];
      BehindDigit(s, front, EncodeSteps(s.bytes), d);
      OneDigitMore(front, d);
      hide EncodeSteps, DecodeSteps, PutByte, PutDigit, CompletedBy, Behind;
      if s.phase != 0 { OneByteMore(s.bytes, CompletedBy(s, d)); }
    }
  }

  /** The bits of the last digit that no byte takes are zero. */
  predicate TrailingBitsZero(digits: seq<Digit>) {
    && (|digits| % 4 == 2 ==> digits[|digits| - 1] % 16 == 0)
    && (|digits| % 4 == 3 ==> digits[|digits| - 1] % 4 == 0)
  }

  lemma CarryIsTrailing(digits: seq<Digit>)
    requires |digits| % 4 != 1
    ensures DecodeSteps(digits).carry == 0 <==> TrailingBitsZero(digits)
  {
  }

  /** Encoding inverts decoding exactly for the digit strings whose unused trailing bits are zero. */
  lemma EncodeDecode(digits: seq<Digit>)
    requires |digits| % 4 != 1
    ensures Encode(Decode(digits)) == digits <==> TrailingBitsZero(digits)
  {
    var s, e := DecodeSteps(digits), EncodeSteps(Decode(digits));
    EncoderBehind(digits);
    CarryIsTrailing(digits);
    hide DecodeSteps, EncodeSteps, TrailingBitsZero;
    if s.phase != 0 {
      var last := if s.phase == 2 then e.carry * 16 else e.carry * 4;
      assert (e.digits + [last])[|e.digits|] == last;
      assert digits == digits[..|digits| - 1] + [digits[|digits| - 1]];
    }
  }

  // ---------------------------------------------------------------------------
  // The loops
  // ---------------------------------------------------------------------------

  const WORD := 0x1_0000_0000

  /** The signed 32-bit value an integer wraps to. */
  function Int32(x: int): int {
    (x + WORD / 2) % WORD - WORD / 2
  }

  /** All digits so far as one number, never wrapped. */
  ghost function Prefix(digits: seq<Digit>): nat {
    if digits == [] then 0 else Prefix(digits[..|digits| - 1]) * 64 + digits[|digits| - 1]
  }

  /** A wrapped value and the true one differ by whole words. */
  lemma WholeWords(x: int) returns (m: int)
    ensures Int32(x) == x - m * WORD && -(WORD / 2) <= Int32(x) < WORD / 2
  {
    m := (x + WORD / 2) / WORD;
  }

  lemma OnlyOneWrap(x: int, y: int, m: int)
    requires y == x - m * WORD && -(WORD / 2) <= y < WORD / 2
    ensures y == Int32(x)
  {
    var k := WholeWords(x);
    assert (k - m) * WORD == y - Int32(x);
  }

  /**
   * Shifting the wrapped accumulator and adding a digit wraps the true value: the low six bits of
   * the shift are zero.
   */
  lemma ShiftWraps(p: nat, d: Digit)
    ensures Int32(Int32(p) * 64) + d == Int32(p * 64 + d)
  {
    hide Int32;
    var m := WholeWords(p);
    var k := WholeWords(Int32(p) * 64);
    var y := Int32(Int32(p) * 64);
    assert y == p * 64 - (m * 64 + k) * WORD;
    assert y == 64 * (p - (m * 64 + k) * (WORD / 64));
    OnlyOneWrap(p * 64 + d, y + d, m * 64 + k);
  }

  /** How many of the accumulator's low bits are not in a byte yet, and the power of two they make. */
  function PendingBits(phase: nat): nat {
    if phase == 1 then 6 else if phase == 2 then 4 else if phase == 3 then 2 else 0
  }

  function Power(bits: nat): nat
    requires bits in {0, 2, 4, 6}
  {
    if bits == 6 then 64 else if bits == 4 then 16 else if bits == 2 then 4 else 1
  }

  /** The accumulator's pending bits are the decoder's carry. */
  ghost predicate Agrees(value: int, s: Decoder) {
    value % Power(PendingBits(s.phase)) == s.carry
  }

  /** Shifting in a digit after a decoder's first, second and third digit of a group, and at its start. */
  lemma EmitsFirst(value: int, carry: nat, d: Digit, k: int, next: int)
    requires value % 64 == carry && next == value * 64 - k * WORD + d
    ensures (next / 16) % 256 == carry * 4 + d / 16 && next % 16 == d % 16
  {
    var n := value / 64 - k * 0x10_0000;
    assert next == 16 * (256 * n + carry * 4) + d;
    Split16(n, carry * 4, d);
  }

  lemma EmitsSecond(value: int, carry: nat, d: Digit, k: int, next: int)
    requires value % 16 == carry && next == value * 64 - k * WORD + d
    ensures (next / 4) % 256 == carry * 16 + d / 4 && next % 4 == d % 4
  {
    var n := value / 16 - k * 0x40_0000;
    assert next == 4 * (256 * n + carry * 16) + d;
    Split4(n, carry * 16, d);
  }

  lemma EmitsThird(value: int, carry: nat, d: Digit, k: int, next: int)
    requires value % 4 == carry && next == value * 64 - k * WORD + d
    ensures next % 256 == carry * 64 + d
  {
    var n := value / 4 - k * 0x100_0000;
    assert next == 256 * n + (carry * 64 + d);
    WholeBytes(n, carry * 64 + d);
  }

  lemma WholeBytes(n: int, b: nat)
    requires b < 256
    ensures (256 * n + b) % 256 == b
  {
  }

  lemma Split16(n: int, low: nat, d: Digit)
    requires low < 253 && low % 4 == 0
    ensures var next := 16 * (256 * n + low) + d; (next / 16) % 256 == low + d / 16 && next % 16 == d % 16
  {
    assert (16 * (256 * n + low) + d) / 16 == 256 * n + (low + d / 16);
    WholeBytes(n, low + d / 16);
  }

  lemma Split4(n: int, low: nat, d: Digit)
    requires low < 241 && low % 16 == 0
    ensures var next := 4 * (256 * n + low) + d; (next / 4) % 256 == low + d / 4 && next % 4 == d % 4
  {
    assert (4 * (256 * n + low) + d) / 4 == 256 * n + (low + d / 4);
    WholeBytes(n, low + d / 4);
  }

  lemma EmitsNone(value: int, d: Digit, k: int, next: int)
    requires next == value * 64 - k * WORD + d
    ensures next % 64 == d
  {
    assert next == 64 * (value - k * (WORD / 64)) + d;
  }

  /**
   * What a shifted accumulator shows of the last byte and of the pending bits does not depend on
   * the words that wrapped away.
   */
  lemma EmitsByte(value: int, s: Decoder, d: Digit)
    requires DecoderOk(s) && Agrees(value, s)
    ensures var next := Int32(value * 64) + d; var s' := PutDigit(s, d);
      && Agrees(next, s')
      && (s.phase != 0 ==> s'.bytes == s.bytes + [(next / Power(PendingBits(s'.phase))) % 256])
  {
    hide Int32;
    var k := WholeWords(value * 64);
    var next := Int32(value * 64) + d;
    if s.phase == 1 {
      EmitsFirst(value, s.carry, d, k, next);
    } else if s.phase == 2 {
      EmitsSecond(value, s.carry, d, k, next);
    } else if s.phase == 3 {
      EmitsThird(value, s.carry, d, k, next);
    } else {
      EmitsNone(value, d, k, next);
    }
  }

  function Or0(b: Option<Byte>): Byte {
    if b.Some? then b.value else 0
  }

  /** The digits of a group of one to three bytes, missing bytes counting as zero. */
  function GroupDigits(a: Byte, b: Option<Byte>, c: Option<Byte>): seq<Digit> {
    [a / 4, (a % 4) * 16 + Or0(b) / 16] + (if b.Some? then [(b.value % 16) * 4 + Or0(c) / 64] else [])
      + (if c.Some? then [c.value % 64] else [])
  }

  /** The digits once a group has been put: a whole one, or the unfinished last one flushed. */
  function PutGroup(e: Encoder, a: Byte, b: Option<Byte>, c: Option<Byte>): seq<Digit>
    requires EncoderOk(e)
  {
    if b == None then Flush(PutByte(e, a))
    else if c == None then Flush(PutByte(PutByte(e, a), b.value))
    else PutByte(PutByte(PutByte(e, a), b.value), c.value).digits
  }

  lemma GroupIsPut(e: Encoder, a: Byte, b: Option<Byte>, c: Option<Byte>)
    requires e.phase == 0 && e.carry == 0 && (c.Some? ==> b.Some?)
    ensures PutGroup(e, a, b, c) == e.digits + GroupDigits(a, b, c)
  {
  }

  function At(ascii: seq<Byte>, i: nat): Option<Byte> {
    if i < |ascii| then Some(ascii[i]) else None
  }

  lemma NextByte(ascii: seq<Byte>, i: nat)
    requires i < |ascii|
    ensures EncodeSteps(ascii[..i + 1]) == PutByte(EncodeSteps(ascii[..i]), ascii[i])
    ensures i + 1 == |ascii| ==> ascii[..i + 1] == ascii
  {
    assert ascii[..i + 1] == ascii[..i] + [ascii[i]];
    OneByteMore(ascii[..i], ascii[i]);
  }

  lemma GroupSteps(ascii: seq<Byte>, i: nat)
    requires i < |ascii|
    ensures PutGroup(EncodeSteps(ascii[..i]), ascii[i], At(ascii, i + 1), At(ascii, i + 2)) ==
            if i + 2 < |ascii| then EncodeSteps(ascii[..i + 3]).digits else Encode(ascii)
  {
    hide PutByte, Flush, EncodeSteps;
    NextByte(ascii, i);
    if i + 1 < |ascii| { NextByte(ascii, i + 1); }
    if i + 2 < |ascii| { NextByte(ascii, i + 2); }
  }

  /** What one pass of the loop appends. */
  lemma GroupAppends(ascii: seq<Byte>, i: nat)
    requires i < |ascii| && i % 3 == 0
    ensures Text(EncodeSteps(ascii[..i]).digits) + Text(GroupDigits(ascii[i], At(ascii, i + 1), At(ascii, i + 2))) ==
            Text(if i + 2 < |ascii| then EncodeSteps(ascii[..i + 3]).digits else Encode(ascii))
  {
    var e := EncodeSteps(ascii[..i]);
    GroupSteps(ascii, i);
    GroupIsPut(e, ascii[i], At(ascii, i + 1), At(ascii, i + 2));
    hide EncodeSteps, PutGroup, GroupDigits, Encode;
    TextAppend(e.digits, GroupDigits(ascii[i], At(ascii, i + 1), At(ascii, i + 2)));
  }

  lemma TextAppend(digits: seq<Digit>, more: seq<Digit>)
    ensures Text(digits + more) == Text(digits) + Text(more)
  {
  }

  method GroupText(a: Byte, b: Option<Byte>, c: Option<Byte>) returns (out: string)
    ensures out == Text(GroupDigits(a, b, c))
  {
    out := [ALPHABET[a / 4], ALPHABET[(a % 4) * 16 + Or0(b) / 16]];
    if b.Some? {
      out := out + [ALPHABET[(b.value % 16) * 4 + Or0(c) / 64]];
    }
    if c.Some? {
      out := out + [ALPHABET[c.value % 64]];
    }
  }

  /** The encoder's loop at byte `i`: whole groups so far, or the whole text once a partial group was written. */
  ghost predicate Encoded(ascii: seq<Byte>, i: nat, out: string) {
    if i <= |ascii| then i % 3 == 0 && out == Text(EncodeSteps(ascii[..i]).digits) else out == Text(Encode(ascii))
  }

  lemma EncodedStep(ascii: seq<Byte>, i: nat, out: string)
    requires i < |ascii| && Encoded(ascii, i, out)
    ensures Encoded(ascii, i + 3, out + Text(GroupDigits(ascii[i], At(ascii, i + 1), At(ascii, i + 2))))
  {
    hide EncodeSteps, Encode, Text, GroupDigits;
    GroupAppends(ascii, i);
  }

  lemma EncodeEnds(ascii: seq<Byte>, i: nat, out: string)
    ensures Encoded(ascii, 0, "")
    ensures i >= |ascii| && Encoded(ascii, i, out) ==> out == Text(Encode(ascii))
  {
    assert ascii[..|ascii|] == ascii;
  }

  method Base64url(ascii: seq<Byte>) returns (out: string)
    ensures out == Text(Encode(ascii))
  {
    hide *;
    out := "";
    var i: nat := 0;
    EncodeEnds(ascii, i, out);
    while i < |ascii|
      invariant Encoded(ascii, i, out)
    {
      EncodedStep(ascii, i, out);
      var group := GroupText(ascii[i], At(ascii, i + 1), At(ascii, i + 2));
      out := out + group;
      i := i + 3;
    }
    EncodeEnds(ascii, i, out);
  }

  lemma PrefixStep(digits: seq<Digit>, d: Digit)
    ensures Prefix(digits + [d]) == Prefix(digits) * 64 + d
    ensures Int32(Int32(Prefix(digits)) * 64) + d == Int32(Prefix(digits + [d]))
  {
    assert (digits + [d])[..|digits|] == digits;
    ShiftWraps(Prefix(digits), d);
  }

  /** The decoder's loop after k digits: its accumulator is the true bit prefix wrapped to 32 bits. */
  ghost predicate Decoding(digits: seq<Digit>, k: nat, bits: nat, value: int, bytes: seq<Byte>)
    requires k <= |digits|
  {
    var s := DecodeSteps(digits[..k]);
    value == Int32(Prefix(digits[..k])) && bytes == s.bytes && bits == PendingBits(s.phase) && Agrees(value, s)
  }

  /** One pass of the loop, with the byte it appends when eight bits are there. */
  lemma DecodingStep(digits: seq<Digit>, k: nat, bits: nat, value: int, bytes: seq<Byte>)
    requires k < |digits| && Decoding(digits, k, bits, value, bytes)
    ensures var next := Int32(value * 64) + digits[k];
      && (bits + 6 < 8 ==> Decoding(digits, k + 1, bits + 6, next, bytes))
      && (bits + 6 >= 8 ==>
            bits - 2 in {0, 2, 4} && Decoding(digits, k + 1, bits - 2, next, bytes + [(next / Power(bits - 2)) % 256]))
  {
    var d, s := digits[k], DecodeSteps(digits[..k]);
    assert digits[..k + 1] == digits[..k] + [d];
    OneDigitMore(digits[..k], d);
    EmitsByte(value, s, d);
    PrefixStep(digits[..k], d);
    hide Int32, Agrees, DecodeSteps, Prefix;
  }

  /** The decoder: no byte it emits can tell that its accumulator wrapped. */
  method Unbase64url(text: string) returns (out: Option<seq<Byte>>)
    ensures out.Some? <==> WellFormed(text)
    ensures out.Some? ==> out.value == Decode(Digits(text))
  {
    for k := 0 to |text|
      invariant forall j :: 0 <= j < k ==> IndexOf(text[j]) >= 0
    {
      if IndexOf(text[k]) < 0 { return None; }
    }
    if |text| % 4 == 1 { return None; }
    var bytes := DecodeText(text);
    return Some(bytes);
  }

  method DecodeText(text: string) returns (bytes: seq<Byte>)
    requires forall k :: 0 <= k < |text| ==> IndexOf(text[k]) >= 0
    ensures bytes == Decode(Digits(text))
  {
    ghost var digits := Digits(text);
    var bits: nat, value: int := 0, 0;
    bytes := [];
    DecodingEnds(digits);
    hide Decoding, Int32, Power, IndexOf, Digits, Decode;
    for k := 0 to |text|
      invariant Decoding(digits, k, bits, value, bytes)
    {
      DecodingStep(digits, k, bits, value, bytes);
      value := Int32(value * 64) + IndexOf(text[k]);
      bits := bits + 6;
      if bits >= 8 {
        bits := bits - 8;
        bytes := bytes + [(value / Power(bits)) % 256];
      }
    }
    DecodingDone(digits, bits, value, bytes);
  }

  lemma DecodingEnds(digits: seq<Digit>)
    ensures Decoding(digits, 0, 0, 0, [])
  {
  }

  lemma DecodingDone(digits: seq<Digit>, bits: nat, value: int, bytes: seq<Byte>)
    requires Decoding(digits, |digits|, bits, value, bytes)
    ensures bytes == Decode(digits)
  {
    assert digits[..|digits|] == digits;
  }

  // ---------------------------------------------------------------------------
  // Texts
  // ---------------------------------------------------------------------------

  /** Every encoding passes the alphabet and length check and decodes to the bytes it came from. */
  lemma EncodingRoundTrips(bytes: seq<Byte>)
    ensures WellFormed(Text(Encode(bytes))) && Decode(Digits(Text(Encode(bytes)))) == bytes
  {
    DigitsOfText(Encode(bytes));
    DecodeEncode(bytes);
  }

  /** A well-formed text is the encoding of what it decodes to if and only if its unused trailing bits are zero. */
  lemma CanonicalExactly(text: string)
    requires WellFormed(text)
    ensures Text(Encode(Decode(Digits(text)))) == text <==> TrailingBitsZero(Digits(text))
  {
    EncodeDecode(Digits(text));
    TextOfDigits(text);
    DigitsOfText(Encode(Decode(Digits(text))));
  }

  /** Two texts of one byte: `QQ` is canonical, `QR` decodes to the same byte. */
  lemma TwoTextsOneByte()
    ensures "QQ" != "QR" && WellFormed("QQ") && WellFormed("QR") && Decode(Digits("QQ")) == Decode(Digits("QR"))
  {
    assert Digits("QQ") == [16] + [16] && Digits("QR") == [16] + [17];
    OneDigitMore([16], 16);
    OneDigitMore([16], 17);
    assert "QQ"[1] != "QR"[1];
  }
}
