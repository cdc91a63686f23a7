/** The bridge's queries. */
module Rdt {
  import opened Bytes
  import opened Wrappers
  import opened Values
  import opened Sorting
  import opened Store
  import opened Lakes
  import opened Compaction
  import opened Strings
  import opened Names
  import opened Addressing
  import opened Cursor
  import opened Views
  import opened Paging

  datatype RdtError = BadIdentifier | BadCursor | CollectionNotFound | BadResourceName | DocumentNotFound

  const DEFAULT_LIMIT := 1000

  datatype CompactedQuery = CompactedQuery(db: text, collection: text, field: text, cursor: text, limit: int)

  datatype DocumentsQuery = DocumentsQuery(db: text, collection: text, cursor: text, limit: int)

  function LimitOf(limit: int): (n: nat)
    ensures n > 0
  {
    if limit <= 0 then DEFAULT_LIMIT else limit
  }

  /* ---------------------------------------------------------------- what a query answers */

  /** The rows of one page, and whether more remain. */
  datatype Slice = Slice(docs: seq<Doc>, more: bool)

  ghost function SliceOf(o: Ordering, docs: set<Doc>, cursor: Option<Value>, limit: nat, budget: nat): (s: Slice)
    requires UniqueIds(docs) && limit > 0
    ensures s.more ==> s.docs != []
  {
    var rows := Rows(o, docs, cursor);
    var n := PageLen(rows, limit, budget);
    Slice(rows[..n], n < |rows|)
  }

  function LastOf(o: Ordering, docs: seq<Doc>): Value
    requires docs != []
  {
    PositionOf(o, docs[|docs| - 1])
  }

  /** The page of an ordering beyond a cursor. */
  ghost function PageOf(o: Ordering, docs: set<Doc>, cursor: Option<Value>, limit: nat, budget: nat): (p: Page)
    requires UniqueIds(docs) && limit > 0
  {
    var s := SliceOf(o, docs, cursor, limit, budget);
    Page(s.docs, if s.more then TokenFor(o, LastOf(o, s.docs)) else [])
  }

  function CursorOf(o: Ordering, token: text): Result<Option<Value>, CursorError> {
    if token == [] then Success(None)
    else
      match PositionFrom(o, token)
      case Failure(e) => Failure(e)
      case Success(v) => Success(Some(v))
  }

  ghost function Answer(o: Ordering, found: bool, docs: set<Doc>, token: text, limit: int, budget: nat): Result<Page, RdtError>
    requires UniqueIds(docs)
  {
    match CursorOf(o, token)
    case Failure(_) => Failure(BadCursor)
    case Success(cursor) =>
      var p := PageOf(o, docs, cursor, LimitOf(limit), budget);
      if p.docs == [] && token == [] && !found then Failure(CollectionNotFound) else Success(p)
  }

  /** A page is the longest prefix that fits, its token is empty exactly when nothing remains,
      and the token is accepted as the position of the page's last row. */
  lemma PageExact(o: Ordering, docs: set<Doc>, cursor: Option<Value>, limit: nat, budget: nat)
    requires UniqueIds(docs) && limit > 0 && ValidOrdering(o)
    ensures var rows := Rows(o, docs, cursor);
            var p := PageOf(o, docs, cursor, limit, budget);
            && p.docs <= rows
            && (forall m: nat :: Fits(rows, m, limit, budget) <==> m <= |p.docs|)
            && (p.next == [] <==> p.docs == rows)
            && (p.next == [] <==> !SliceOf(o, docs, cursor, limit, budget).more)
            && (p.docs == [] <==> rows == [])
            && (p.next != [] ==> CursorOf(o, p.next) == Success(Some(LastOf(o, p.docs))))
  {
    LongestPrefix(Rows(o, docs, cursor), limit, budget);
    var s := SliceOf(o, docs, cursor, limit, budget);
    if s.more { LastTokenAccepted(o, s.docs); }
  }

  lemma LongestPrefix(rows: seq<Doc>, limit: nat, budget: nat)
    ensures forall m: nat :: Fits(rows, m, limit, budget) <==> m <= PageLen(rows, limit, budget)
  {
    var n := PageLen(rows, limit, budget);
    forall m: nat | m <= n ensures Fits(rows, m, limit, budget) {
      FitsMonotone(rows, m, n, limit, budget);
    }
  }

  lemma LastTokenAccepted(o: Ordering, docs: seq<Doc>)
    requires ValidOrdering(o) && docs != []
    ensures TokenFor(o, LastOf(o, docs)) != []
    ensures CursorOf(o, TokenFor(o, LastOf(o, docs))) == Success(Some(LastOf(o, docs)))
  {
    TokenSeparation(o, o, docs[|docs| - 1]);
  }

  /* ---------------------------------------------------------------- the queries */

  class Bridge {
    const lake: Lake
    const dbPrefix: text
    const maxPageBytes: nat

    constructor (lake: Lake, dbPrefix: text, maxPageBytes: nat)
      ensures this.lake == lake && this.dbPrefix == dbPrefix && this.maxPageBytes == maxPageBytes
    {
      this.lake := lake;
      this.dbPrefix := dbPrefix;
      this.maxPageBytes := maxPageBytes;
    }

    /** Callers use logical names; the prefix is added here and nowhere else. */
    function TargetOf(db: text, collection: text): Target {
      Target(dbPrefix + db, collection)
    }

    ghost function AnswerTo(o: Ordering, db: text, collection: text, token: text, limit: int): Result<Page, RdtError>
      requires lake.Valid()
      reads lake
    {
      var t := Target(dbPrefix + db, collection);
      Answer(o, t in lake.collections, lake.DocsIn(t), token, limit, maxPageBytes)
    }

    /** Match, sort, group, sort, limit and replace, as the server runs them. */
    method Aggregate(docs: set<Doc>, f: text, cursor: Option<Value>, limit: nat) returns (rows: seq<Doc>)
      requires UniqueIds(docs)
      ensures rows == Limit(Rows(ByField(f), docs, cursor), limit)
    {
      var scan := Scan(docs);
      var sorted := Sort(Match(scan, f, cursor), RowOrder(f));
      var groups := GroupRows(sorted, f);
      rows := ReplaceWith(Limit(Sort(groups, GroupOrder()), limit));
      GroupedIsRows(scan, docs, f, cursor, groups);
      ReplaceLimited(Sort(groups, GroupOrder()), limit);
    }

    method Find(docs: set<Doc>, cursor: Option<Value>, limit: nat) returns (rows: seq<Doc>)
      requires UniqueIds(docs)
      ensures rows == Limit(Rows(Log, docs, cursor), limit)
    {
      var scan := Scan(docs);
      FoundIsLog(scan, docs, cursor);
      RowsUnique(Log, Found(scan, cursor), Rows(Log, docs, cursor), docs, cursor);
      rows := Limit(Found(scan, cursor), limit);
    }

    /** The newest document of every value of a field. */
    method GetCompacted(query: CompactedQuery) returns (r: Result<Page, RdtError>)
      requires lake.Valid()
      ensures r == if !ValidDatabaseName(query.db) || !ValidCollectionName(query.collection) || !ValidFieldName(query.field)
                   then Failure(BadIdentifier)
                   else AnswerTo(ByField(query.field), query.db, query.collection, query.cursor, query.limit)
    {
      var q := query;
      if !ValidDatabaseName(q.db) || !ValidCollectionName(q.collection) || !ValidFieldName(q.field) {
        return Failure(BadIdentifier);
      }
      if q.limit <= 0 {
        q := q.(limit := DEFAULT_LIMIT);
      }
      var cursor := CursorOf(ByField(q.field), q.cursor);
      if cursor.Failure? {
        return Failure(BadCursor);
      }
      var target := TargetOf(q.db, q.collection);
      var p := ReadCompacted(lake.DocsIn(target), q.field, cursor.value, q.limit);
      if p.docs == [] && q.cursor == [] && target !in lake.collections {
        return Failure(CollectionNotFound);
      }
      return Success(p);
    }

    method ReadCompacted(docs: set<Doc>, f: text, cursor: Option<Value>, limit: nat) returns (p: Page)
      requires UniqueIds(docs) && limit > 0
      ensures p == PageOf(ByField(f), docs, cursor, limit, maxPageBytes)
    {
      var cur := Aggregate(docs, f, cursor, limit + 1);
      ListedHasField(f, Rows(ByField(f), docs, cursor), docs, cursor);
      p := CutPage(Rows(ByField(f), docs, cursor), cur, limit, maxPageBytes,
        (d: Doc) => if f in d.meta then TokenFor(ByField(f), d.meta[f]) else []);
      PageAssembled(ByField(f), docs, cursor, limit, maxPageBytes, p);
    }

    /** A collection's documents in write order, newest first. */
    method GetDocuments(query: DocumentsQuery) returns (r: Result<Page, RdtError>)
      requires lake.Valid()
      ensures r == if !ValidDatabaseName(query.db) || !ValidCollectionName(query.collection)
                   then Failure(BadIdentifier)
                   else AnswerTo(Log, query.db, query.collection, query.cursor, query.limit)
    {
      var q := query;
      if !ValidDatabaseName(q.db) || !ValidCollectionName(q.collection) {
        return Failure(BadIdentifier);
      }
      if q.limit <= 0 {
        q := q.(limit := DEFAULT_LIMIT);
      }
      var cursor := CursorOf(Log, q.cursor);
      if cursor.Failure? {
        return Failure(BadCursor);
      }
      var target := TargetOf(q.db, q.collection);
      var p := ReadDocuments(lake.DocsIn(target), cursor.value, q.limit);
      if p.docs == [] && q.cursor == [] && target !in lake.collections {
        return Failure(CollectionNotFound);
      }
      return Success(p);
    }

    method ReadDocuments(docs: set<Doc>, cursor: Option<Value>, limit: nat) returns (p: Page)
      requires UniqueIds(docs) && limit > 0
      ensures p == PageOf(Log, docs, cursor, limit, maxPageBytes)
    {
      var cur := Find(docs, cursor, limit + 1);
      p := CutPage(Rows(Log, docs, cursor), cur, limit, maxPageBytes, (d: Doc) => TokenFor(Log, ObjectId(d.id)));
      PageAssembled(Log, docs, cursor, limit, maxPageBytes, p);
    }

    /** The one document a URN addresses, under the bridge's own prefix. */
    method GetDocument(urn: text) returns (r: Result<Doc, RdtError>)
      requires lake.Valid()
      ensures match Resolve(urn)
              case None => r == Failure(BadResourceName)
              case Some(a) => Answers(lake.DocsIn(Target(dbPrefix + a.target.db, a.target.collection)), a.id, r)
    {
      var at := Resolve(urn);
      if at == None {
        return Failure(BadResourceName);
      }
      var docs := lake.DocsIn(TargetOf(at.value.target.db, at.value.target.collection));
      var hits := set d | d in docs && d.id == at.value.id;
      if hits == {} {
        assert forall d | d in docs :: d.id != at.value.id by {
          forall d | d in docs ensures d.id != at.value.id { assert d !in hits; }
        }
        return Failure(DocumentNotFound);
      }
      var d :| d in hits;
      return Success(d);
    }
  }

  /** A collection that does not exist has no rows. */
  lemma AbsentIsEmpty(o: Ordering, cursor: Option<Value>, limit: nat, budget: nat)
    requires limit > 0
    ensures SliceOf(o, {}, cursor, limit, budget) == Slice([], false)
  {
    RowOrderOfStrict(o);
    DistinctCount(Rows(o, {}, cursor), {});
  }

  /** The document with the id, or none when there is none. */
  predicate Answers(docs: set<Doc>, id: text, r: Result<Doc, RdtError>) {
    match r
    case Success(d) => d in docs && d.id == id
    case Failure(e) => e == DocumentNotFound && !HasId(docs, id)
  }

  /** A document a caller has listed can be addressed: the URN of its database, collection and id leads to it. */
  lemma ListedIsAddressable(docs: set<Doc>, db: text, collection: text, d: Doc, r: Result<Doc, RdtError>)
    requires ValidDatabaseName(db) && ValidCollectionName(collection)
    requires UniqueIds(docs) && d in docs
    ensures Resolve(RawUrn(db + [SLASH] + collection, d.id)) == Some(Address(Target(db, collection), d.id))
    ensures Answers(docs, d.id, r) <==> r == Success(d)
  {
    var provider := db + [SLASH] + collection;
    NamesAreClean(db, collection);
    RawUrnResolves(provider, d.id);
    SplitReplace(provider, SLASH, COLON);
    SplitConcat(db, collection, SLASH);
    SplitNone(db, SLASH);
    SplitNone(collection, SLASH);
    assert [db, collection][1..] == [collection];
  }

  lemma PageAssembled(o: Ordering, docs: set<Doc>, cursor: Option<Value>, limit: nat, budget: nat, p: Page)
    requires UniqueIds(docs) && limit > 0
    requires p.docs == Rows(o, docs, cursor)[..PageLen(Rows(o, docs, cursor), limit, budget)]
    requires p.next == if |p.docs| < |Rows(o, docs, cursor)|
                       then TokenFor(o, PositionOf(o, Rows(o, docs, cursor)[|p.docs| - 1])) else []
    ensures p == PageOf(o, docs, cursor, limit, budget)
  {
  }

  lemma GroupedIsRows(scan: seq<Doc>, docs: set<Doc>, f: text, cursor: Option<Value>, groups: seq<Group>)
    requires UniqueIds(docs) && IsScan(scan, docs)
    requires IsGrouping(groups, Sort(Match(scan, f, cursor), RowOrder(f)), f)
    ensures ReplaceWith(Sort(groups, GroupOrder())) == Rows(ByField(f), docs, cursor)
  {
    PipelineRefinesView(scan, docs, f, cursor, groups);
    var view := Grouped(scan, f, cursor, groups);
    ViewIsRows(view, docs, f, cursor);
    RowsUnique(ByField(f), view, Rows(ByField(f), docs, cursor), docs, cursor);
  }

  lemma ReplaceLimited(groups: seq<Group>, limit: nat)
    ensures ReplaceWith(Limit(groups, limit)) == Limit(ReplaceWith(groups), limit)
  {
  }

  lemma ListedHasField(f: text, rows: seq<Doc>, docs: set<Doc>, cursor: Option<Value>)
    requires IsRows(ByField(f), rows, docs, cursor)
    ensures forall i | 0 <= i < |rows| :: f in rows[i].meta
  {
    forall i | 0 <= i < |rows| ensures f in rows[i].meta {
      assert rows[i] in rows;
    }
  }
}
