/** A client that walks a view by handing every continuation token back. */
module Client {
  import opened Bytes
  import opened Wrappers
  import opened Values
  import opened Sorting
  import opened Store
  import opened Lakes
  import opened Names
  import opened Views
  import opened Paging
  import opened Rdt
  import opened Walk

  /** A page carries the rows of a visit, and an empty token exactly when it is the last. */
  predicate Carries(p: Page, v: Visit) {
    p.docs == v.page.docs && (p.next == [] <==> !v.page.more)
  }

  ghost predicate Follows(pages: seq<Page>, run: seq<Visit>) {
    |pages| == |run| && forall i | 0 <= i < |run| :: Carries(pages[i], run[i])
  }

  lemma FollowsStep(pages: seq<Page>, done: seq<Visit>, p: Page, rest: seq<Visit>)
    requires rest != [] && Follows(pages, done) && Carries(p, rest[0])
    ensures Follows(pages + [p], done + [rest[0]])
    ensures done + rest == done + [rest[0]] + rest[1..]
  {
  }

  /** One request, to the endpoint of the ordering. */
  method Request(bridge: Bridge, o: Ordering, db: text, collection: text, token: text, limit: int)
    returns (r: Result<Page, RdtError>)
    requires bridge.lake.Valid()
    requires ValidDatabaseName(db) && ValidCollectionName(collection) && ValidOrdering(o)
    ensures r == bridge.AnswerTo(o, db, collection, token, limit)
  {
    match o
    case Log => r := bridge.GetDocuments(DocumentsQuery(db, collection, token, limit));
    case ByField(f) => r := bridge.GetCompacted(CompactedQuery(db, collection, f, token, limit));
  }

  /** The token is the one of a row at the cursor, or there is neither. */
  ghost predicate IssuedFor(o: Ordering, token: text, cursor: Option<Value>) {
    match cursor
    case None => token == []
    case Some(v) => exists d: Doc :: v == PositionOf(o, d) && token == TokenFor(o, v)
  }

  /** A token the bridge issued is never refused: it is answered with the page beyond its row. */
  lemma IssuedTokenIsAnswered(
      o: Ordering, found: bool, docs: set<Doc>, token: text, cursor: Option<Value>, limit: int, budget: nat)
    requires UniqueIds(docs) && ValidOrdering(o) && IssuedFor(o, token, cursor) && (docs != {} ==> found)
    ensures Answer(o, found, docs, token, limit, budget)
         == if !found && cursor == None then Failure(CollectionNotFound)
            else Success(PageOf(o, docs, cursor, LimitOf(limit), budget))
  {
    if cursor.Some? {
      var d: Doc :| cursor.value == PositionOf(o, d) && token == TokenFor(o, cursor.value);
      TokenSeparation(o, o, d);
    } else if !found {
      var rows := Rows(o, docs, None);
      RowOrderOfStrict(o);
      DistinctCount(rows, docs);
    }
  }

  /** One request with a token of the walk: the next slice, and a token for its last row when more remains. */
  method ReadNext(
      bridge: Bridge, o: Ordering, db: text, collection: text, token: text, ghost cursor: Option<Value>, limit: int)
    returns (r: Result<Page, RdtError>)
    requires bridge.lake.Valid()
    requires ValidDatabaseName(db) && ValidCollectionName(collection) && ValidOrdering(o)
    requires IssuedFor(o, token, cursor)
    ensures var target := bridge.TargetOf(db, collection);
            var s := SliceOf(o, bridge.lake.DocsIn(target), cursor, LimitOf(limit), bridge.maxPageBytes);
            if target !in bridge.lake.collections && cursor == None then r == Failure(CollectionNotFound)
            else
              && r.Success? && Carries(r.value, Visit(bridge.lake.DocsIn(target), s))
              && (s.more ==> IssuedFor(o, r.value.next, Some(LastOf(o, s.docs))))
  {
    var target := bridge.TargetOf(db, collection);
    r := Request(bridge, o, db, collection, token, limit);
    IssuedTokenIsAnswered(o, target in bridge.lake.collections, bridge.lake.DocsIn(target),
                          token, cursor, limit, bridge.maxPageBytes);
    PageExact(o, bridge.lake.DocsIn(target), cursor, LimitOf(limit), bridge.maxPageBytes);
  }

  /** One turn of a walk: a page is read, and unless the walk stops here the next writes happen. */
  method Turn(
      bridge: Bridge, o: Ordering, db: text, collection: text, limit: int,
      token: text, ghost cursor: Option<Value>, env: seq<Gap>)
    returns (r: Result<Page, RdtError>, ghost next: Option<Value>)
    requires bridge.lake.Valid()
    requires ValidDatabaseName(db) && ValidCollectionName(collection) && ValidOrdering(o)
    requires IssuedFor(o, token, cursor)
    requires cursor.Some? ==> bridge.TargetOf(db, collection) in bridge.lake.collections
    modifies bridge.lake
    ensures bridge.lake.Valid() && old(bridge.lake.collections.Keys) <= bridge.lake.collections.Keys
    ensures r == Failure(CollectionNotFound) <==> r.Failure?
    ensures r.Failure? <==> bridge.TargetOf(db, collection) !in old(bridge.lake.collections)
    ensures r.Success? ==>
              var target := bridge.TargetOf(db, collection);
              var run := Run(o, old(bridge.lake.DocsIn(target)), cursor, env, LimitOf(limit), bridge.maxPageBytes);
              && Carries(r.value, run[0])
              && (if r.value.next == [] || env == [] then run == [run[0]]
                  else
                    && next.Some? && IssuedFor(o, r.value.next, next)
                    && run == [run[0]] + Run(o, bridge.lake.DocsIn(target), next, env[1..], env[0].limit, bridge.maxPageBytes))
  {
    var target := bridge.TargetOf(db, collection);
    next := None;
    r := ReadNext(bridge, o, db, collection, token, cursor, limit);
    if r.Success? && r.value.next != [] && env != [] {
      next := Some(LastOf(o, r.value.docs));
      bridge.lake.PerformAll(target, env[0].writes);
    }
  }

  /** Reads page after page while writers work in between: env[i] are the writes before page i + 1 and the limit it
      is asked for with, and the client stops when there is no token or no more time. The walk fails only for an
      absent collection. */
  method WalkPages(bridge: Bridge, o: Ordering, db: text, collection: text, limit: int, env: seq<Gap>)
    returns (r: Result<seq<Page>, RdtError>)
    requires bridge.lake.Valid()
    requires ValidDatabaseName(db) && ValidCollectionName(collection) && ValidOrdering(o)
    modifies bridge.lake
    ensures bridge.lake.Valid()
    ensures bridge.TargetOf(db, collection) !in old(bridge.lake.collections) ==> r == Failure(CollectionNotFound)
    ensures bridge.TargetOf(db, collection) in old(bridge.lake.collections) ==>
              r.Success? && Follows(r.value,
                Run(o, old(bridge.lake.DocsIn(bridge.TargetOf(db, collection))), None, env, LimitOf(limit), bridge.maxPageBytes))
  {
    var target := bridge.TargetOf(db, collection);
    ghost var run := Run(o, bridge.lake.DocsIn(target), None, env, LimitOf(limit), bridge.maxPageBytes);
    ghost var done: seq<Visit>, rest := [], run;
    var pages: seq<Page>, token: text, left, asked := [], [], env, limit;
    ghost var cursor: Option<Value> := None;
    while true
      invariant bridge.lake.Valid() && IssuedFor(o, token, cursor)
      invariant cursor.Some? ==> target in bridge.lake.collections && target in old(bridge.lake.collections)
      invariant cursor == None ==> bridge.lake.collections == old(bridge.lake.collections)
      invariant run == done + rest && Follows(pages, done)
      invariant rest == Run(o, bridge.lake.DocsIn(target), cursor, left, LimitOf(asked), bridge.maxPageBytes)
      decreases |left|
    {
      var reply, next := Turn(bridge, o, db, collection, asked, token, cursor, left);
      if reply.Failure? {
        return Failure(reply.error);
      }
      FollowsStep(pages, done, reply.value, rest);
      pages := pages + [reply.value];
      done := done + [rest[0]];
      rest := rest[1..];
      token := reply.value.next;
      if token == [] || left == [] {
        return Success(pages);
      }
      cursor, asked, left := next, left[0].limit, left[1..];
    }
  }
}
