/** BSON documents (bsonspec.org, version 1.1) with string, ObjectId, boolean and null elements. */
module Bson {
  import opened Bytes
  import opened Wrappers
  import opened Values

  const MAX_INT32 := 0x7fff_ffff

  datatype Element = Element(name: text, value: Value)

  /* ---------------------------------------------------------------- printer */

  function Int32(n: nat): (b: text)
    requires n <= MAX_INT32
    ensures |b| == 4
  {
    [n % 256, n / 256 % 256, n / 65536 % 256, n / 16777216]
  }

  predicate IsCString(s: text) {
    0 !in s
  }

  predicate Printable(v: Value) {
    match v
    case Str(s) => |s| < MAX_INT32
    case ObjectId(o) => |o| == 12
    case _ => true
  }

  function Tag(v: Value): byte {
    match v
    case Str(_) => 0x02
    case ObjectId(_) => 0x07
    case Bool(_) => 0x08
    case Null => 0x0A
  }

  function PrintValue(v: Value): text
    requires Printable(v)
  {
    match v
    case Str(s) => Int32(|s| + 1) + s + [0]
    case ObjectId(o) => o
    case Bool(b) => [if b then 1 else 0]
    case Null => []
  }

  function PrintElements(es: seq<Element>): text
    requires forall e | e in es :: IsCString(e.name) && Printable(e.value)
  {
    if es == [] then [0]
    else PrintElement(es[0]) + PrintElements(es[1..])
  }

  function PrintElement(e: Element): text
    requires IsCString(e.name) && Printable(e.value)
  {
    [Tag(e.value)] + e.name + [0] + PrintValue(e.value)
  }

  function PrintDocument(es: seq<Element>): text
    requires forall e | e in es :: IsCString(e.name) && Printable(e.value)
    requires 4 + |PrintElements(es)| <= MAX_INT32
  {
    Int32(4 + |PrintElements(es)|) + PrintElements(es)
  }

  /* ---------------------------------------------------------------- parser */

  datatype Parsed<+T> = Parsed(value: T, rest: text)

  /** A length: a little-endian int32, refused when negative. */
  function ParseInt32(b: text): (r: Option<Parsed<nat>>)
    ensures r.Some? ==> |r.value.rest| == |b| - 4
  {
    if |b| < 4 || b[3] >= 128 then None
    else
      var b0: nat, b1: nat, b2: nat, b3: nat := b[0], b[1], b[2], b[3];
      Some(Parsed(b0 + 256 * b1 + 65536 * b2 + 16777216 * b3, b[4..]))
  }

  function ParseCString(b: text): (r: Option<Parsed<text>>)
    ensures r.Some? ==> |r.value.rest| < |b|
  {
    if b == [] then None
    else if b[0] == 0 then Some(Parsed([], b[1..]))
    else
      match ParseCString(b[1..])
      case None => None
      case Some(p) => Some(Parsed([b[0]] + p.value, p.rest))
  }

  function ParseValue(tag: byte, b: text): (r: Option<Parsed<Value>>)
    ensures r.Some? ==> |r.value.rest| <= |b|
  {
    if tag == 0x02 then
      match ParseInt32(b) {
        case None => None
        case Some(p) =>
          if p.value == 0 || |p.rest| < p.value || p.rest[p.value - 1] != 0 then None
          else Some(Parsed(Str(p.rest[..p.value - 1]), p.rest[p.value..]))
      }
    else if tag == 0x07 then
      if |b| < 12 then None else Some(Parsed(ObjectId(b[..12]), b[12..]))
    else if tag == 0x08 then
      if b == [] || b[0] > 1 then None else Some(Parsed(Bool(b[0] == 1), b[1..]))
    else if tag == 0x0A then Some(Parsed(Null, b))
    else None
  }

  function ParseElements(b: text): Option<seq<Element>>
    decreases |b|
  {
    if b == [] then None
    else if b[0] == 0 then if |b| == 1 then Some([]) else None
    else
      match ParseCString(b[1..])
      case None => None
      case Some(name) =>
        match ParseValue(b[0], name.rest)
        case None => None
        case Some(v) =>
          match ParseElements(v.rest)
          case None => None
          case Some(es) => Some([Element(name.value, v.value)] + es)
  }

  /** The declared length must be the length of the input. */
  function ParseDocument(b: text): Option<seq<Element>> {
    match ParseInt32(b)
    case None => None
    case Some(p) => if p.value != |b| then None else ParseElements(p.rest)
  }

  /* ---------------------------------------------------------------- round trip */

  lemma FourDigits(n: nat)
    requires n <= MAX_INT32
    ensures n == n % 256 + n / 256 % 256 * 256 + n / 65536 % 256 * 65536 + n / 16777216 * 16777216
    ensures n / 16777216 < 128
  {
    assert n / 65536 == n / 256 / 256 && n / 16777216 == n / 256 / 256 / 256;
  }

  lemma Int32RoundTrip(n: nat, rest: text)
    requires n <= MAX_INT32
    ensures ParseInt32(Int32(n) + rest) == Some(Parsed(n, rest))
  {
    var b := Int32(n) + rest;
    FourDigits(n);
    assert b[0] == n % 256 && b[1] == n / 256 % 256 && b[2] == n / 65536 % 256 && b[3] == n / 16777216;
    assert b[4..] == rest;
  }

  lemma {:induction false} CStringRoundTrip(s: text, rest: text)
    requires IsCString(s)
    ensures ParseCString(s + [0] + rest) == Some(Parsed(s, rest))
  {
    var b := s + [0] + rest;
    if s == [] {
      assert b[1..] == rest;
    } else {
      CStringRoundTrip(s[1..], rest);
      assert b[1..] == s[1..] + [0] + rest;
      assert [s[0]] + s[1..] == s;
    }
  }

  lemma ValueRoundTrip(v: Value, rest: text)
    requires Printable(v)
    ensures ParseValue(Tag(v), PrintValue(v) + rest) == Some(Parsed(v, rest))
  {
    var b := PrintValue(v) + rest;
    match v
    case Str(s) =>
      assert b == Int32(|s| + 1) + (s + [0] + rest);
      Int32RoundTrip(|s| + 1, s + [0] + rest);
      assert (s + [0] + rest)[..|s|] == s && (s + [0] + rest)[|s| + 1..] == rest;
    case ObjectId(o) =>
      assert b[..12] == o && b[12..] == rest;
    case Bool(x) =>
      assert b[1..] == rest;
    case Null =>
      assert b == rest;
  }

  lemma {:induction false} ElementsRoundTrip(es: seq<Element>)
    requires forall e | e in es :: IsCString(e.name) && Printable(e.value)
    ensures ParseElements(PrintElements(es)) == Some(es)
  {
    if es != [] {
      ElementsRoundTrip(es[1..]);
      ElementRoundTrip(es[0], PrintElements(es[1..]), es[1..]);
      assert [es[0]] + es[1..] == es;
    }
  }

  lemma ElementRoundTrip(e: Element, more: text, es: seq<Element>)
    requires IsCString(e.name) && Printable(e.value)
    requires ParseElements(more) == Some(es)
    ensures ParseElements(PrintElement(e) + more) == Some([e] + es)
  {
    var b := PrintElement(e) + more;
    assert b[0] == Tag(e.value) && b[1..] == e.name + [0] + (PrintValue(e.value) + more);
    CStringRoundTrip(e.name, PrintValue(e.value) + more);
    ValueRoundTrip(e.value, more);
  }

  lemma DocumentRoundTrip(es: seq<Element>)
    requires forall e | e in es :: IsCString(e.name) && Printable(e.value)
    requires 4 + |PrintElements(es)| <= MAX_INT32
    ensures ParseDocument(PrintDocument(es)) == Some(es)
  {
    Int32RoundTrip(4 + |PrintElements(es)|, PrintElements(es));
    ElementsRoundTrip(es);
  }

  /** A document whose declared length is right for one length is refused at every other. */
  lemma LengthChecked(b: text, m: nat)
    requires ParseDocument(b).Some? && m < |b|
    ensures ParseDocument(b[..m]).None?
  {
    if m >= 4 { assert b[..m][..4] == b[..4]; }
  }

  /** Four bytes, the least significant first. */
  lemma Int32Bytes(n: nat)
    requires n <= MAX_INT32
    ensures var b: seq<int> := Int32(n); n == b[0] + b[1] * 0x100 + b[2] * 0x1_0000 + b[3] * 0x100_0000
  {
    FourDigits(n);
  }
}
