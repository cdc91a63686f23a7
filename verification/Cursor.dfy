/** Continuation tokens: a BSON document of the ordering's field and the last value, in base64. */
module Cursor {
  import opened Bytes
  import opened Wrappers
  import opened Values
  import opened Bson
  import Base64Url

  datatype PageCursor = PageCursor(field: text, value: Value)

  datatype CursorError = Refused

  const FIELD_TAG: text := [102]
  const VALUE_TAG: text := [118]

  /** Marshalling succeeds: every length fits an int32. */
  predicate Encodable(c: PageCursor) {
    && |c.field| < 0x1000_0000
    && match c.value {
         case Str(s) => |s| < 0x1000_0000
         case ObjectId(o) => |o| == 12
         case _ => true
       }
  }

  function ElementsOf(c: PageCursor): seq<Element> {
    [Element(FIELD_TAG, Str(c.field)), Element(VALUE_TAG, c.value)]
  }

  lemma ElementsSize(c: PageCursor)
    requires Encodable(c)
    ensures forall e | e in ElementsOf(c) :: IsCString(e.name) && Printable(e.value)
    ensures 4 + |PrintElements(ElementsOf(c))| <= MAX_INT32
  {
    var es := ElementsOf(c);
    assert es[1..] == [es[1]] && es[1..][1..] == [];
    assert |PrintValue(c.value)| <= 0x1000_0005;
    assert |PrintElements(es[1..])| == 1 + 1 + 1 + |PrintValue(c.value)| + 1;
  }

  /** The token of a cursor, empty when it cannot be marshalled. */
  function Encode(c: PageCursor): text {
    if Encodable(c) then
      ElementsSize(c);
      Base64Url.Encode(PrintDocument(ElementsOf(c)))
    else []
  }

  /** The value of the last element of that name, Null when there is none. */
  function Lookup(es: seq<Element>, name: text): Value {
    if es == [] then Null
    else if es[|es| - 1].name == name then es[|es| - 1].value
    else Lookup(es[..|es| - 1], name)
  }

  function Decode(field: text, token: text): Result<PageCursor, CursorError> {
    match Base64Url.Decode(token)
    case None => Failure(Refused)
    case Some(b) =>
      match ParseDocument(b)
      case None => Failure(Refused)
      case Some(es) =>
        match Lookup(es, FIELD_TAG) {
          case Str(f) =>
            if f != field then Failure(Refused)
            else Success(PageCursor(f, Lookup(es, VALUE_TAG)))
          case _ => Failure(Refused)
        }
  }

  /** A token comes back as the cursor it was made from, and only under its own ordering. */
  lemma RoundTrip(c: PageCursor, field: text)
    requires Encodable(c)
    ensures Decode(field, Encode(c)) == if c.field == field then Success(c) else Failure(Refused)
  {
    ElementsSize(c);
    var es := ElementsOf(c);
    Base64Url.RoundTrip(PrintDocument(es));
    DocumentRoundTrip(es);
    LookupBoth(c);
  }

  lemma LookupBoth(c: PageCursor)
    ensures Lookup(ElementsOf(c), FIELD_TAG) == Str(c.field)
    ensures Lookup(ElementsOf(c), VALUE_TAG) == c.value
  {
    assert ElementsOf(c)[..1] == [Element(FIELD_TAG, Str(c.field))];
  }

  /** A token is never empty, even for an empty value. */
  lemma NeverEmpty(c: PageCursor)
    requires Encodable(c)
    ensures Encode(c) != []
  {
    ElementsSize(c);
    Base64Url.EncodeShape(PrintDocument(ElementsOf(c)));
  }

  /** Two cursors share a token only when they are the same. */
  lemma Injective(a: PageCursor, b: PageCursor)
    requires Encodable(a) && Encodable(b) && Encode(a) == Encode(b)
    ensures a == b
  {
    RoundTrip(a, a.field);
    RoundTrip(b, a.field);
  }

  /** A token cut short anywhere is refused. */
  lemma TruncatedIsRefused(c: PageCursor, field: text, m: nat)
    requires Encodable(c) && m < |Encode(c)|
    ensures Decode(field, Encode(c)[..m]) == Failure(Refused)
  {
    ElementsSize(c);
    var b := PrintDocument(ElementsOf(c));
    DocumentRoundTrip(ElementsOf(c));
    Base64Url.PrefixIsPrefix(b, m);
    var d := Base64Url.Decode(Encode(c)[..m]);
    if d.Some? {
      LengthChecked(b, |d.value|);
    }
  }

  /** The tag of the value's element and its bytes after the name: what bsonspec.org prescribes for the type. */
  predicate IsValueWire(v: Value, tag: byte, wire: text)
    requires Printable(v)
  {
    match v
    case Str(s) => tag == 0x02 && wire == Int32(|s| + 1) + s + [0]
    case ObjectId(o) => tag == 0x07 && wire == o
    case Bool(x) => tag == 0x08 && wire == [if x then 1 else 0]
    case Null => tag == 0x0A && wire == []
  }

  /** A document of the string "f" and the value "v". */
  function Wire(field: text, tag: byte, wire: text): text
    requires |field| < 0x1000_0000 && |wire| < 0x1000_0010
  {
    Int32(16 + |field| + |wire|) + ([0x02, 'f' as int, 0] + (Int32(|field| + 1) + field + [0]) + ([tag, 'v' as int, 0] + wire + [0]))
  }

  lemma PrintedCursor(c: PageCursor)
    requires Encodable(c)
    ensures Printable(c.value) && |PrintValue(c.value)| < 0x1000_0010
    ensures forall e | e in ElementsOf(c) :: IsCString(e.name) && Printable(e.value)
    ensures PrintElements(ElementsOf(c)) ==
              [0x02, 'f' as int, 0] + (Int32(|c.field| + 1) + c.field + [0]) + ([Tag(c.value), 'v' as int, 0] + PrintValue(c.value) + [0])
  {
    ElementsSize(c);
    var es := ElementsOf(c);
    assert es[1..] == [es[1]] && es[1..][1..] == [];
    assert PrintElements([]) == [0];
    assert PrintElements(es[1..]) == [Tag(c.value), 'v' as int, 0] + PrintValue(c.value) + [0];
    assert PrintElement(es[0]) == [0x02, 'f' as int, 0] + (Int32(|c.field| + 1) + c.field + [0]);
  }

  /** What a token holds, byte by byte. */
  lemma WireFormat(c: PageCursor) returns (tag: byte, wire: text)
    requires Encodable(c)
    ensures Printable(c.value) && IsValueWire(c.value, tag, wire) && |wire| < 0x1000_0010
    ensures Base64Url.Decode(Encode(c)) == Some(Wire(c.field, tag, wire))
  {
    PrintedCursor(c);
    ElementsSize(c);
    tag, wire := Tag(c.value), PrintValue(c.value);
    Base64Url.RoundTrip(PrintDocument(ElementsOf(c)));
  }
}
