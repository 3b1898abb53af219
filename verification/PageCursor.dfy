/**
 * Page cursors over the base64url codec. JSON with percent-encoding is any codec whose
 * reader inverts its writer; whatever it is, a cursor decodes to its own key exactly
 * under the collection, the order and the key shape it was issued for.
 */
module PageCursor {
  import opened Wrappers
  import opened CursorCodec

  /**
   * Parsed JSON as the decoder distinguishes it; numbers are integers, and one too large for a
   * double parses as infinite.
   */
  datatype Json = JNull | JBool(b: bool) | JNumber(n: int) | JInfinite | JString(s: string) | JArray(items: seq<Json>)
    | JObject(members: seq<(string, Json)>)

  datatype Order = Asc | Desc

  datatype Shape = StringKey | NumberKey

  datatype Key = KeyString(s: string) | KeyNumber(n: int)

  datatype Cursor = Cursor(scope: string, order: Order, key: seq<Key>)

  datatype Expected = Expected(scope: string, order: Order, shape: seq<Shape>)

  datatype Defect = Malformed | WrongScope | WrongOrder | WrongShape

  /** `encodeURIComponent` of `JSON.stringify`, and its guarded inverse. */
  type Writer = Json -> seq<Byte>

  type Reader = seq<Byte> -> Option<Json>

  function OrderName(o: Order): string {
    if o == Asc then "asc" else "desc"
  }

  function KeyJson(k: Key): Json {
    match k case KeyString(s) => JString(s) case KeyNumber(n) => JNumber(n)
  }

  function KeysJson(key: seq<Key>): (items: seq<Json>)
    ensures |items| == |key| && forall i :: 0 <= i < |items| ==> items[i] == KeyJson(key[i])
  {
    seq(|key|, i requires 0 <= i < |key| => KeyJson(key[i]))
  }

  function CursorJson(c: Cursor): Json {
    JArray([JString(c.scope), JString(OrderName(c.order)), JArray(KeysJson(c.key))])
  }

  /** Reading gives back every cursor that was written. */
  ghost predicate Inverts(read: Reader, write: Writer) {
    forall c :: read(write(CursorJson(c))) == Some(CursorJson(c))
  }

  function EncodeCursor(write: Writer, c: Cursor): string {
    Text(Encode(write(CursorJson(c))))
  }

  predicate FitsOne(v: Json, shape: Shape) {
    if shape == StringKey then v.JString? else v.JNumber?
  }

  predicate Fits(items: seq<Json>, shape: seq<Shape>) {
    |items| == |shape| && forall i :: 0 <= i < |items| ==> FitsOne(items[i], shape[i])
  }

  /** A fitting key element back from its JSON. */
  function KeyOf(v: Json): Key
    requires v.JString? || v.JNumber?
  {
    match v case JString(s) => KeyString(s) case JNumber(n) => KeyNumber(n)
  }

  function KeysOf(items: seq<Json>, shape: seq<Shape>): (key: seq<Key>)
    requires Fits(items, shape)
    ensures |key| == |items| && forall i :: 0 <= i < |key| ==> key[i] == KeyOf(items[i])
  {
    seq(|items|, i requires 0 <= i < |items| => KeyOf(items[i]))
  }

  /** The checks on a parsed cursor, in the order they are made. */
  function Accept(parsed: Json, expected: Expected): Result<seq<Key>, Defect> {
    if !parsed.JArray? || |parsed.items| != 3 || !parsed.items[0].JString? || !parsed.items[2].JArray? then
      Err(Malformed)
    else if parsed.items[0].s != expected.scope then Err(WrongScope)
    else if parsed.items[1] != JString(OrderName(expected.order)) then Err(WrongOrder)
    else if !Fits(parsed.items[2].items, expected.shape) then Err(WrongShape)
    else Ok(KeysOf(parsed.items[2].items, expected.shape))
  }

  method DecodeCursor(read: Reader, raw: string, expected: Expected) returns (r: Result<seq<Key>, Defect>)
    ensures r == Decoded(read, raw, expected)
  {
    var ascii := Unbase64url(raw);
    if ascii == None { return Err(Malformed); }
    var parsed := read(ascii.value);
    if parsed == None { return Err(Malformed); }
    return Accept(parsed.value, expected);
  }

  function Decoded(read: Reader, raw: string, expected: Expected): Result<seq<Key>, Defect> {
    if !WellFormed(raw) || read(Decode(Digits(raw))) == None then Err(Malformed)
    else Accept(read(Decode(Digits(raw))).value, expected)
  }

  function ShapeOf(k: Key): Shape {
    if k.KeyString? then StringKey else NumberKey
  }

  predicate HasShape(key: seq<Key>, shape: seq<Shape>) {
    |key| == |shape| && forall i :: 0 <= i < |key| ==> ShapeOf(key[i]) == shape[i]
  }

  /** The order's name tells the orders apart. */
  lemma OrderNames(a: Order, b: Order)
    ensures OrderName(a) == OrderName(b) <==> a == b
  {
    assert |"asc"| != |"desc"|;
  }

  /**
   * A cursor issued for one collection, order and key shape decodes to exactly its own
   * key there, and everywhere else it is refused with the first thing that differs.
   */
  lemma CursorRoundTrips(write: Writer, read: Reader, c: Cursor, expected: Expected)
    requires Inverts(read, write)
    ensures Decoded(read, EncodeCursor(write, c), expected) ==
            if c.scope != expected.scope then Err(WrongScope)
            else if c.order != expected.order then Err(WrongOrder)
            else if !HasShape(c.key, expected.shape) then Err(WrongShape)
            else Ok(c.key)
  {
    EncodingRoundTrips(write(CursorJson(c)));
    OrderNames(c.order, expected.order);
    var items := KeysJson(c.key);
    assert Fits(items, expected.shape) <==> HasShape(c.key, expected.shape);
    if Fits(items, expected.shape) {
      assert KeysOf(items, expected.shape) == c.key;
    }
  }

  /** Different cursors never share a text. */
  lemma CursorsDiffer(write: Writer, read: Reader, a: Cursor, b: Cursor)
    requires Inverts(read, write) && EncodeCursor(write, a) == EncodeCursor(write, b)
    ensures a == b
  {
    var shape := seq(|a.key|, i requires 0 <= i < |a.key| => ShapeOf(a.key[i]));
    CursorRoundTrips(write, read, a, Expected(a.scope, a.order, shape));
    CursorRoundTrips(write, read, b, Expected(a.scope, a.order, shape));
  }

  /** A text that is no base64url, no JSON, or not an array of a string, anything and an array is malformed. */
  predicate Readable(read: Reader, raw: string) {
    WellFormed(raw) && match read(Decode(Digits(raw)))
      case Some(JArray(items)) => |items| == 3 && items[0].JString? && items[2].JArray?
      case _ => false
  }

  /**
   * Only a text that carries the expected scope and order, and a key of the expected shape, is ever accepted, with that
   * very key; any other is malformed exactly when it is not readable.
   */
  lemma AcceptedOnlyInScope(read: Reader, raw: string, expected: Expected)
    ensures Decoded(read, raw, expected).Ok? <==>
      && WellFormed(raw)
      && exists items :: Fits(items, expected.shape) &&
           read(Decode(Digits(raw))) ==
             Some(JArray([JString(expected.scope), JString(if expected.order == Asc then "asc" else "desc"),
                          JArray(items)]))
    ensures Decoded(read, raw, expected).Ok? ==>
      read(Decode(Digits(raw))) ==
        Some(CursorJson(Cursor(expected.scope, expected.order, Decoded(read, raw, expected).value)))
    ensures Decoded(read, raw, expected) == Err(Malformed) <==> !Readable(read, raw)
  {
    if Decoded(read, raw, expected).Ok? {
      var parsed := read(Decode(Digits(raw))).value;
      var items := parsed.items[2].items;
      assert parsed == JArray([JString(expected.scope), JString(OrderName(expected.order)), JArray(items)]) by {
        assert parsed.items == [parsed.items[0], parsed.items[1], parsed.items[2]];
      }
      assert KeysJson(KeysOf(items, expected.shape)) == items;
    }
  }
}
