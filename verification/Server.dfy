/** The bridge's endpoints: one document by its URN, and a page of a view. */
module Server {
  import opened Bytes
  import opened Wrappers
  import opened Store
  import opened Lakes
  import opened Names
  import opened Addressing
  import opened Views
  import opened Rdt
  import opened Inlining
  import opened Responses

  /** The answers to a request for one document: 400, 404, 500, or 200 with the document. */
  datatype DocumentReply = InvalidUrn | NoSuchDocument | Unretrievable | Document(d: Record)

  /** What a URN should be answered with, given the documents of the collection it addresses. */
  predicate AnswersWith(docs: set<Doc>, id: text, retrieve: Retrieval, r: DocumentReply) {
    if !HasId(docs, id) then r == NoSuchDocument
    else
      exists d | d in docs :: d.id == id &&
        r == match Inlined(d, retrieve) case Success(x) => Document(x) case Failure(_) => Unretrievable
  }

  /** Finds the document and inlines its payload in place. */
  method GetDocument(bridge: Bridge, urn: text, retrieve: Retrieval) returns (r: DocumentReply)
    requires bridge.lake.Valid()
    ensures match Resolve(urn)
            case None => r == InvalidUrn
            case Some(a) => AnswersWith(bridge.lake.DocsIn(Target(bridge.dbPrefix + a.target.db, a.target.collection)), a.id, retrieve, r)
  {
    var found := bridge.GetDocument(urn);
    match found
    case Failure(e) =>
      r := if e == BadResourceName then InvalidUrn else NoSuchDocument;
    case Success(d) =>
      var page := new Record[1](_ => d);
      var ok := InlineRawData(page, 0, retrieve);
      r := if ok then Document(page[0]) else Unretrievable;
      assert HasId(bridge.lake.DocsIn(Target(bridge.dbPrefix + Resolve(urn).value.target.db, Resolve(urn).value.target.collection)), d.id);
  }

  /** The answers to a request for a page: 400, 404, 413, 500, or 200 with the documents and the next token. */
  datatype PageReply = BadRequest | NoSuchCollection | TooLarge | ServerError | Served(docs: seq<Record>, next: text)

  const MAX_LIMIT := 10000

  /** The limit of a request as it was written. */
  datatype LimitParam = Absent | NotANumber | Number(n: int)

  /** The limit the query is given, 0 leaving the choice to it; none when it is refused. */
  function ParseLimit(p: LimitParam): Option<int> {
    match p
    case Absent => Some(0)
    case NotANumber => None
    case Number(n) => if n <= 0 || n > MAX_LIMIT then None else Some(n)
  }

  /** One request for a page: the limit, the query, then the payloads. It is refused exactly for a bad name, limit or
      token, answered 404 exactly for a first page of an absent collection, and 413 and 500 exactly for what the page's
      payloads do; otherwise it carries the slice's documents with their payloads, and the token of the last one exactly
      when more remain. */
  method GetPage(bridge: Bridge, o: Ordering, db: text, collection: text, token: text, limit: LimitParam, fetch: Fetch)
    returns (r: PageReply)
    requires bridge.lake.Valid()
    ensures r.BadRequest? <==>
              || !ValidDatabaseName(db) || !ValidCollectionName(collection) || !ValidOrdering(o)
              || limit.NotANumber? || (limit.Number? && !(1 <= limit.n <= 10000)) || CursorOf(o, token).Failure?
    ensures !r.BadRequest? ==>
              (r.NoSuchCollection? <==> token == [] && Target(bridge.dbPrefix + db, collection) !in bridge.lake.collections)
    ensures !r.BadRequest? && !r.NoSuchCollection? ==>
              var docs := bridge.lake.DocsIn(Target(bridge.dbPrefix + db, collection));
              var n := if limit.Absent? then 1000 else limit.n;
              var s := SliceOf(o, docs, CursorOf(o, token).value, n, bridge.maxPageBytes);
              var refs := set i: nat | i < |s.docs| && s.docs[i].rawRef != [];
              && |s.docs| <= n
              && (r.TooLarge? <==> |refs| > 32)
              && (r.ServerError? <==> |refs| <= 32 && exists i | 0 <= i < |s.docs| :: Inlined(s.docs[i], fetch(i)).Failure?)
              && (r.Served? ==>
                    && |r.docs| == |s.docs|
                    && (forall i | 0 <= i < |s.docs| :: Inlined(s.docs[i], fetch(i)) == Success(r.docs[i]))
                    && r.next == if s.more then TokenFor(o, LastOf(o, s.docs)) else [])
  {
    var n := ParseLimit(limit);
    if n == None {
      return BadRequest;
    }
    var answer;
    match o {
      case Log => answer := bridge.GetDocuments(DocumentsQuery(db, collection, token, n.value));
      case ByField(f) => answer := bridge.GetCompacted(CompactedQuery(db, collection, f, token, n.value));
    }
    AnswerIs(o, Target(bridge.dbPrefix + db, collection) in bridge.lake.collections,
             bridge.lake.DocsIn(Target(bridge.dbPrefix + db, collection)), token, n.value, bridge.maxPageBytes);
    if answer.Failure? {
      return if answer.error == CollectionNotFound then NoSuchCollection else BadRequest;
    }
    var reply := InlinePage(answer.value.docs, fetch);
    match reply
    case TooManyReferences => r := TooLarge;
    case RetrievalFailed => r := ServerError;
    case Page(served) => r := Served(served, answer.value.next);
  }

  lemma AnswerIs(o: Ordering, found: bool, docs: set<Doc>, token: text, limit: int, budget: nat)
    requires UniqueIds(docs) && (!found ==> docs == {}) && 0 <= limit
    ensures var a := Answer(o, found, docs, token, limit, budget);
            var n := if limit == 0 then 1000 else limit;
            && (a == Failure(BadCursor) <==> CursorOf(o, token).Failure?)
            && (a == Failure(CollectionNotFound) <==> CursorOf(o, token).Success? && token == [] && !found)
            && (a.Failure? ==> a == Failure(BadCursor) || a == Failure(CollectionNotFound))
            && (a.Success? ==>
                  var s := SliceOf(o, docs, CursorOf(o, token).value, n, budget);
                  && |s.docs| <= n && a.value.docs == s.docs
                  && a.value.next == if s.more then TokenFor(o, LastOf(o, s.docs)) else [])
  {
    if CursorOf(o, token).Success? && !found {
      AbsentIsEmpty(o, CursorOf(o, token).value, LimitOf(limit), budget);
    }
  }

  /** Inlines the payloads of a page's documents, in place. */
  method InlinePage(rows: seq<Record>, fetch: Fetch) returns (reply: Reply)
    ensures reply.TooManyReferences? <==> |set i: nat | i < |rows| && rows[i].rawRef != []| > 32
    ensures reply.Page? <==> !reply.TooManyReferences? && forall i | 0 <= i < |rows| :: Inlined(rows[i], fetch(i)).Success?
    ensures reply.Page? ==> |reply.docs| == |rows| && forall i | 0 <= i < |rows| :: Inlined(rows[i], fetch(i)) == Success(reply.docs[i])
    ensures reply == Expected(rows, fetch)
  {
    var docs := new Record[|rows|](i requires 0 <= i < |rows| => rows[i]);
    assert docs[..] == rows;
    reply := RespondPage(docs, fetch);
  }
}
