/** The two orderings the bridge pages through, and the rows a query reads from each. */
module Views {
  import opened Bytes
  import opened Wrappers
  import opened Values
  import opened Sorting
  import opened Store
  import opened Compaction
  import opened Names
  import opened Cursor

  /** Log lists every document, last written first; ByField the current document per value of a field. */
  datatype Ordering = Log | ByField(field: text)

  /** The value a row is ordered by, and its token carries. */
  function PositionOf(o: Ordering, d: Doc): Value {
    match o
    case Log => ObjectId(d.id)
    case ByField(f) => KeyOf(f, d)
  }

  /** a is served before b. */
  predicate Precedes(o: Ordering, a: Value, b: Value) {
    match o
    case Log => Before(b, a)
    case ByField(_) => Before(a, b)
  }

  /** $lt on ids, or $gt on the field: beyond the cursor and of its type. */
  predicate Beyond(o: Ordering, cursor: Option<Value>, v: Value) {
    cursor.Some? ==> Bracket(v) == Bracket(cursor.value) && Precedes(o, cursor.value, v)
  }

  ghost function Listed(o: Ordering, docs: set<Doc>): set<Doc> {
    match o
    case Log => docs
    case ByField(f) => Current(docs, f)
  }

  function RowOrderOf(o: Ordering): (Doc, Doc) -> bool {
    (a: Doc, b: Doc) => Precedes(o, PositionOf(o, a), PositionOf(o, b))
  }

  ghost predicate IsRows(o: Ordering, rows: seq<Doc>, docs: set<Doc>, cursor: Option<Value>) {
    && Ascending(RowOrderOf(o), rows)
    && forall d :: d in rows <==> d in Listed(o, docs) && Beyond(o, cursor, PositionOf(o, d))
  }

  lemma PrecedesStrict(o: Ordering, a: Value, b: Value, c: Value)
    ensures !Precedes(o, a, a)
    ensures Precedes(o, a, b) && Precedes(o, b, c) ==> Precedes(o, a, c)
  {
    BeforeIrreflexive(a);
    if Before(a, b) && Before(b, c) { BeforeTransitive(a, b, c); }
    if Before(c, b) && Before(b, a) { BeforeTransitive(c, b, a); }
  }

  lemma RowOrderOfStrict(o: Ordering)
    ensures StrictOrder(RowOrderOf(o))
  {
    forall a: Doc, b: Doc, c: Doc
      ensures !RowOrderOf(o)(a, a)
      ensures RowOrderOf(o)(a, b) && RowOrderOf(o)(b, c) ==> RowOrderOf(o)(a, c)
    {
      PrecedesStrict(o, PositionOf(o, a), PositionOf(o, b), PositionOf(o, c));
    }
  }

  lemma RowsUnique(o: Ordering, a: seq<Doc>, b: seq<Doc>, docs: set<Doc>, cursor: Option<Value>)
    requires IsRows(o, a, docs, cursor) && IsRows(o, b, docs, cursor)
    ensures a == b
  {
    RowOrderOfStrict(o);
    AscendingUnique(a, b, RowOrderOf(o));
  }

  /** Find with a filter on `_id`, sorted descending. */
  function Found(scan: seq<Doc>, cursor: Option<Value>): seq<Doc> {
    Sort(Filter(scan, FoundBeyond(cursor)), RowOrderOf(Log))
  }

  function FoundBeyond(cursor: Option<Value>): Doc -> bool {
    (d: Doc) => Beyond(Log, cursor, PositionOf(Log, d))
  }

  lemma FoundIsLog(scan: seq<Doc>, docs: set<Doc>, cursor: Option<Value>)
    requires UniqueIds(docs) && IsScan(scan, docs)
    ensures IsRows(Log, Found(scan, cursor), docs, cursor)
  {
    var found := Filter(scan, FoundBeyond(cursor));
    FilterDistinct<Doc>(scan, FoundBeyond(cursor));
    RowOrderOfStrict(Log);
    forall i, j | 0 <= i < j < |found|
      ensures RowOrderOf(Log)(found[i], found[j]) || RowOrderOf(Log)(found[j], found[i])
    {
      assert found[i] in docs && found[j] in docs && found[i] != found[j];
      LessTotal(found[i].id, found[j].id);
    }
    SortAscending(found, RowOrderOf(Log));
    SameElems(Found(scan, cursor), found);
  }

  /** All rows of an ordering beyond a cursor. */
  ghost function Rows(o: Ordering, docs: set<Doc>, cursor: Option<Value>): (rows: seq<Doc>)
    requires UniqueIds(docs)
    ensures IsRows(o, rows, docs, cursor)
  {
    RowsExist(o, docs, cursor);
    var rows :| IsRows(o, rows, docs, cursor);
    rows
  }

  /** Which rows a query reads, and in which order: documents older than the cursor's id, the last written first;
      current documents with a key after the cursor's, the least first. */
  lemma RowsAre(o: Ordering, docs: set<Doc>, cursor: Option<Value>)
    requires UniqueIds(docs)
    ensures var rows := Rows(o, docs, cursor);
            && (o.Log? && cursor == None ==> forall d :: d in rows <==> d in docs)
            && (o.Log? && cursor.Some? && cursor.value.ObjectId? ==>
                  forall d :: d in rows <==> d in docs && Less(d.id, cursor.value.id))
            && (o.ByField? && cursor == None ==> forall d :: d in rows <==> d in Current(docs, o.field))
            && (o.ByField? && cursor.Some? && cursor.value.Str? ==>
                  forall d :: d in rows <==>
                    d in Current(docs, o.field) && KeyOf(o.field, d).Str? && Less(cursor.value.s, KeyOf(o.field, d).s))
            && (o.Log? ==> forall i, j | 0 <= i < j < |rows| :: Less(rows[j].id, rows[i].id))
            && (o.ByField? ==>
                  forall i, j | 0 <= i < j < |rows| && KeyOf(o.field, rows[i]).Str? && KeyOf(o.field, rows[j]).Str? ::
                    Less(KeyOf(o.field, rows[i]).s, KeyOf(o.field, rows[j]).s))
  {
    var rows := Rows(o, docs, cursor);
    forall i, j | 0 <= i < j < |rows| ensures Precedes(o, PositionOf(o, rows[i]), PositionOf(o, rows[j])) {
      assert RowOrderOf(o)(rows[i], rows[j]);
    }
  }

  lemma RowsExist(o: Ordering, docs: set<Doc>, cursor: Option<Value>)
    requires UniqueIds(docs)
    ensures exists rows :: IsRows(o, rows, docs, cursor)
  {
    match o
    case Log =>
      FoundIsLog(ScanOf(docs), docs, cursor);
    case ByField(f) =>
      ViewIsRows(View(docs, f, cursor), docs, f, cursor);
  }

  lemma ViewIsRows(rows: seq<Doc>, docs: set<Doc>, f: text, cursor: Option<Value>)
    requires IsView(rows, docs, f, cursor)
    ensures IsRows(ByField(f), rows, docs, cursor)
  {
    forall i, j | 0 <= i < j < |rows| ensures RowOrderOf(ByField(f))(rows[i], rows[j]) {
      assert ByKey(f)(rows[i], rows[j]);
    }
  }

  /** Reading on from a row of one type gives the later rows of that type. */
  lemma RowsAfter(o: Ordering, docs: set<Doc>, cursor: Option<Value>, n: nat)
    requires UniqueIds(docs)
    requires 0 < n <= |Rows(o, docs, cursor)|
    ensures var rows := Rows(o, docs, cursor);
            var v := PositionOf(o, rows[n - 1]);
            Rows(o, docs, Some(v)) == Filter(rows[n..], SameType(o, v))
  {
    var rows := Rows(o, docs, cursor);
    var v := PositionOf(o, rows[n - 1]);
    var rest := Filter(rows[n..], SameType(o, v));
    FilterAscending(rows[n..], SameType(o, v), RowOrderOf(o));
    forall d ensures d in rest <==> d in Listed(o, docs) && Beyond(o, Some(v), PositionOf(o, d)) {
      LaterRow(o, rows, docs, cursor, n, d);
    }
    RowsUnique(o, Rows(o, docs, Some(v)), rest, docs, Some(v));
  }

  lemma LaterRow(o: Ordering, rows: seq<Doc>, docs: set<Doc>, cursor: Option<Value>, n: nat, d: Doc)
    requires IsRows(o, rows, docs, cursor) && 0 < n <= |rows|
    ensures var v := PositionOf(o, rows[n - 1]);
            d in rows[n..] && SameType(o, v)(d) <==> d in Listed(o, docs) && Beyond(o, Some(v), PositionOf(o, d))
  {
    var last := rows[n - 1];
    var v, w := PositionOf(o, last), PositionOf(o, d);
    assert last in rows;
    if d in rows[n..] {
      var i :| n <= i < |rows| && rows[i] == d;
      assert RowOrderOf(o)(last, rows[i]);
    }
    if d in Listed(o, docs) && Beyond(o, Some(v), w) {
      if cursor.Some? { PrecedesStrict(o, cursor.value, v, w); }
      assert d in rows;
      var i :| 0 <= i < |rows| && rows[i] == d;
      PrecedesStrict(o, v, w, v);
      assert !RowOrderOf(o)(d, last) && d != last;
      assert rows[n..][i - n] == d;
    }
  }

  function SameType(o: Ordering, v: Value): Doc -> bool {
    (d: Doc) => Bracket(PositionOf(o, d)) == Bracket(v)
  }

  /* ---------------------------------------------------------------- tokens */

  /** What the token's field tag must say. */
  function TagOf(o: Ordering): text {
    match o
    case Log => DOCUMENTS_FIELD
    case ByField(f) => f
  }

  predicate ValidOrdering(o: Ordering) {
    o.ByField? ==> ValidFieldName(o.field)
  }

  function TokenFor(o: Ordering, v: Value): text {
    Encode(PageCursor(TagOf(o), v))
  }

  /** The documents view accepts ObjectIds only. */
  function PositionFrom(o: Ordering, token: text): Result<Value, CursorError> {
    match Decode(TagOf(o), token)
    case Failure(e) => Failure(e)
    case Success(c) => if o.Log? && !c.value.ObjectId? then Failure(Refused) else Success(c.value)
  }

  lemma TagsEncodable(o: Ordering, d: Doc)
    requires ValidOrdering(o)
    ensures Encodable(PageCursor(TagOf(o), PositionOf(o, d)))
  {
  }

  /** A row's token names the row's position under its own ordering and nothing under any other. */
  lemma TokenSeparation(o: Ordering, other: Ordering, d: Doc)
    requires ValidOrdering(o) && ValidOrdering(other)
    ensures TokenFor(o, PositionOf(o, d)) != []
    ensures PositionFrom(other, TokenFor(o, PositionOf(o, d)))
         == if o == other then Success(PositionOf(o, d)) else Failure(Refused)
  {
    TagsEncodable(o, d);
    var c := PageCursor(TagOf(o), PositionOf(o, d));
    RoundTrip(c, TagOf(other));
    NeverEmpty(c);
    if o.ByField? { DocumentsFieldIsReserved(o.field); }
    if other.ByField? { DocumentsFieldIsReserved(other.field); }
  }

  /** A token is accepted exactly under its own field, and by the documents view only when it holds an ObjectId. */
  lemma TokenAcceptedIff(o: Ordering, c: PageCursor)
    requires Encodable(c)
    ensures PositionFrom(o, Encode(c)) ==
            if c.field == TagOf(o) && (o.Log? ==> c.value.ObjectId?) then Success(c.value) else Failure(Refused)
  {
    RoundTrip(c, TagOf(o));
  }
}
