/** A collection of the lake: stored documents and the writes that reach it. */
module Store {
  import opened Bytes
  import opened Values

  /** A document's payload field; Binary is BSON binary, Bytes a Go byte slice. */
  datatype RawData = Absent | Text(s: text) | Binary(data: text) | Bytes(data: text)

  /** `meta` maps each harvested header to its value; an absent sub-document is the empty map.
      An empty `rawRef` is an absent one. `size` is the length of the BSON document. */
  datatype Record = Record(
    id: text,
    timestamp: int,
    meta: map<text, Value>,
    size: nat,
    contentType: text,
    rawdata: RawData,
    rawRef: text)

  const OBJECT_ID_LENGTH := 12
  const MAX_DOCUMENT_BYTES := 0x100_0000

  predicate FitsIn(v: Value, size: nat) {
    match v
    case Str(s) => |s| < size
    case ObjectId(o) => |o| == OBJECT_ID_LENGTH
    case _ => true
  }

  /** What MongoDB imposes on anything it stores: ObjectIds of twelve bytes, at most 16 MB. */
  predicate Storable(d: Record) {
    && |d.id| == OBJECT_ID_LENGTH
    && 0 < d.size <= MAX_DOCUMENT_BYTES
    && forall f | f in d.meta :: FitsIn(d.meta[f], d.size)
  }

  const ZERO_ID: text := [0, 0, 0, 0, 0, 0, 0, 0, 0, 0, 0, 0]

  type Doc = d: Record | Storable(d) witness Record(ZERO_ID, 0, map[], 1, [], Absent, [])

  /** The value `meta.<f>` has in d, Null when there is none. */
  function KeyOf(f: text, d: Doc): Value {
    if f in d.meta then d.meta[f] else Null
  }

  ghost predicate UniqueIds(docs: set<Doc>) {
    forall a, b | a in docs && b in docs :: a.id == b.id ==> a == b
  }

  datatype Write = Insert(doc: Doc) | Delete(id: text)

  predicate HasId(docs: set<Doc>, id: text) {
    exists d | d in docs :: d.id == id
  }

  /** An insert under an id already taken is refused by the `_id` index. */
  function Apply(docs: set<Doc>, w: Write): (r: set<Doc>)
    ensures UniqueIds(docs) ==> UniqueIds(r)
  {
    match w
    case Insert(d) => if HasId(docs, d.id) then docs else docs + {d}
    case Delete(id) => set d | d in docs && d.id != id
  }

  function ApplyAll(docs: set<Doc>, ws: seq<Write>): (r: set<Doc>)
    ensures UniqueIds(docs) ==> UniqueIds(r)
    decreases |ws|
  {
    if ws == [] then docs else ApplyAll(Apply(docs, ws[0]), ws[1..])
  }

  lemma {:induction false} ApplyAllConcat(docs: set<Doc>, a: seq<Write>, b: seq<Write>)
    ensures ApplyAll(docs, a + b) == ApplyAll(ApplyAll(docs, a), b)
    decreases |a|
  {
    if a == [] {
      assert a + b == b;
    } else {
      assert (a + b)[0] == a[0] && (a + b)[1..] == a[1..] + b;
      ApplyAllConcat(Apply(docs, a[0]), a[1..], b);
    }
  }

  /** A delete frees its id, an insert takes it unless it was taken, and no write touches another id. */
  lemma ApplyEffect(docs: set<Doc>, w: Write)
    ensures w.Delete? ==> !HasId(Apply(docs, w), w.id)
    ensures w.Insert? ==> HasId(Apply(docs, w), w.doc.id) && (HasId(docs, w.doc.id) <==> w.doc !in Apply(docs, w) - docs)
    ensures forall d: Doc :: d.id != (if w.Insert? then w.doc.id else w.id) ==> (d in Apply(docs, w) <==> d in docs)
    ensures w.Insert? ==> docs <= Apply(docs, w)
  {
    if w.Insert? && !HasId(docs, w.doc.id) { assert w.doc in Apply(docs, w); }
  }
}
