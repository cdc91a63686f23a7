/** A client that walks a view over HTTP, asking again with the same token until it is answered. */
module HttpClient {
  import opened Bytes
  import opened Wrappers
  import opened Values
  import opened Store
  import opened Lakes
  import opened Names
  import opened Views
  import opened Rdt
  import opened Walk
  import opened Inlining
  import opened Server
  import opened HttpWalk
  import Responses
  import Client

  /** A reply carries a visit's documents in their order, each with its payload, and an empty token exactly when the
      visit is the last. */
  predicate Carries(r: PageReply, v: Visit) {
    && r.Served? && |r.docs| == |v.page.docs|
    && (forall i | 0 <= i < |r.docs| :: SameDocument(v.page.docs[i], r.docs[i]))
    && (r.next == [] <==> !v.page.more)
  }

  ghost predicate Follows(replies: seq<PageReply>, run: seq<Visit>) {
    |replies| == |run| && forall i | 0 <= i < |run| :: Carries(replies[i], run[i])
  }

  /** A token the bridge issued is read as the position it was issued for. */
  lemma IssuedIsRead(o: Ordering, token: text, cursor: Option<Value>)
    requires ValidOrdering(o) && Client.IssuedFor(o, token, cursor)
    ensures CursorOf(o, token) == Success(cursor) && (token == [] <==> cursor == None)
  {
    if cursor.Some? {
      var d: Doc :| cursor.value == PositionOf(o, d) && token == TokenFor(o, cursor.value);
      TokenSeparation(o, o, d);
    }
  }

  /** A row's token is issued for its position, and is not empty. */
  lemma LastIsIssued(o: Ordering, docs: seq<Doc>)
    requires ValidOrdering(o) && docs != []
    ensures Client.IssuedFor(o, TokenFor(o, LastOf(o, docs)), Some(LastOf(o, docs)))
    ensures TokenFor(o, LastOf(o, docs)) != []
  {
    var d: Doc := docs[|docs| - 1];
    assert LastOf(o, docs) == PositionOf(o, d);
    TokenSeparation(o, o, d);
  }

  /** What one attempt of a walk is answered with. */
  ghost predicate Decides(o: Ordering, s: Slice, a: Attempt, r: PageReply) {
    && !r.NoSuchCollection? && (s.more ==> s.docs != [])
    && (r.Served? <==> Answered(s, a))
    && (r.Served? ==> Carries(r, Visit({}, s)) && (s.more ==> r.next == TokenFor(o, LastOf(o, s.docs))))
  }

  lemma InlinedIsSame(docs: seq<Doc>, served: seq<Record>, fetch: Responses.Fetch)
    requires |served| == |docs| && forall i | 0 <= i < |docs| :: Inlined(docs[i], fetch(i)) == Success(served[i])
    ensures forall i | 0 <= i < |docs| :: SameDocument(docs[i], served[i])
  {
    forall i | 0 <= i < |docs| ensures SameDocument(docs[i], served[i]) {
      assert Inlined(docs[i], fetch(i)) == Success(served[i]);
    }
  }

  /** One request of a walk, at the collection its cursor is of. */
  method Ask(bridge: Bridge, o: Ordering, db: text, collection: text, token: text, ghost cursor: Option<Value>, a: Attempt)
    returns (r: PageReply)
    requires bridge.lake.Valid()
    requires ValidDatabaseName(db) && ValidCollectionName(collection) && ValidOrdering(o)
    requires Client.IssuedFor(o, token, cursor)
    ensures var at := Target(bridge.dbPrefix + db, collection);
            if cursor == None && at !in bridge.lake.collections then r == (if a.limit > 10000 then BadRequest else NoSuchCollection)
            else Decides(o, SliceOf(o, bridge.lake.DocsIn(at), cursor, a.limit, bridge.maxPageBytes), a, r)
  {
    IssuedIsRead(o, token, cursor);
    r := GetPage(bridge, o, db, collection, token, Number(a.limit), a.fetch);
    ghost var s := SliceOf(o, bridge.lake.DocsIn(Target(bridge.dbPrefix + db, collection)), cursor, a.limit, bridge.maxPageBytes);
    Responses.ExpectedIs(s.docs, a.fetch);
    if r.Served? {
      InlinedIsSame(s.docs, r.docs, a.fetch);
      if s.more { LastIsIssued(o, s.docs); }
    }
  }

  lemma FollowsMore(r: PageReply, v: Visit, replies: seq<PageReply>, rest: seq<Visit>)
    requires Carries(r, v) && Follows(replies, rest)
    ensures Follows([r] + replies, [v] + rest)
  {
  }

  /** What is left of a walk after one more attempt. */
  lemma OneAttempt(o: Ordering, docs: set<Doc>, cursor: Option<Value>, attempts: seq<Attempt>, budget: nat)
    requires UniqueIds(docs) && attempts != []
    ensures var a := attempts[0];
            var s := SliceOf(o, docs, cursor, a.limit, budget);
            var next := ApplyAll(docs, a.after);
            HttpRun(o, docs, cursor, attempts, budget) ==
              if !Answered(s, a) then HttpRun(o, next, cursor, attempts[1..], budget)
              else if !s.more then [Visit(docs, s)]
              else [Visit(docs, s)] + HttpRun(o, next, Some(LastOf(o, s.docs)), attempts[1..], budget)
  {
  }

  /** One attempt and the writes after it. */
  method Try(bridge: Bridge, o: Ordering, db: text, collection: text, token: text, ghost cursor: Option<Value>, attempts: seq<Attempt>)
    returns (r: PageReply, ghost next: Option<Value>, ghost v: Visit)
    requires bridge.lake.Valid() && attempts != []
    requires ValidDatabaseName(db) && ValidCollectionName(collection) && ValidOrdering(o)
    requires Client.IssuedFor(o, token, cursor)
    modifies bridge.lake
    ensures bridge.lake.Valid() && old(bridge.lake.collections.Keys) <= bridge.lake.collections.Keys
    ensures r.Served? && r.next != [] ==> Client.IssuedFor(o, r.next, next)
    ensures !r.Served? ==> next == cursor
    ensures var at := Target(bridge.dbPrefix + db, collection);
            if cursor == None && at !in old(bridge.lake.collections) then
              r == if attempts[0].limit > 10000 then BadRequest else NoSuchCollection
            else
              && !r.NoSuchCollection?
              && (r.Served? ==> Carries(r, v))
              && var run := HttpRun(o, old(bridge.lake.DocsIn(at)), cursor, attempts, bridge.maxPageBytes);
                 var rest := HttpRun(o, bridge.lake.DocsIn(at), next, attempts[1..], bridge.maxPageBytes);
                 run == if !r.Served? then rest else if r.next == [] then [v] else [v] + rest
  {
    var at := Target(bridge.dbPrefix + db, collection);
    ghost var s := SliceOf(o, bridge.lake.DocsIn(at), cursor, attempts[0].limit, bridge.maxPageBytes);
    OneAttempt(o, bridge.lake.DocsIn(at), cursor, attempts, bridge.maxPageBytes);
    next, v := cursor, Visit(bridge.lake.DocsIn(at), s);
    r := Ask(bridge, o, db, collection, token, cursor, attempts[0]);
    if r.Served? && r.next != [] && s.docs != [] {
      LastIsIssued(o, s.docs);
      next := Some(LastOf(o, s.docs));
    }
    bridge.lake.PerformAll(at, attempts[0].after);
  }

  /** Hands every token back, and after a 413, a 500 or a refused limit asks again with the same token, while writers
      work in between: the pages received are those of the walk. Only a collection that does not exist ends it early. */
  method WalkOn(
      bridge: Bridge, o: Ordering, db: text, collection: text, token: text, ghost cursor: Option<Value>, attempts: seq<Attempt>)
    returns (pages: seq<PageReply>, missing: bool)
    requires bridge.lake.Valid()
    requires ValidDatabaseName(db) && ValidCollectionName(collection) && ValidOrdering(o)
    requires Client.IssuedFor(o, token, cursor)
    modifies bridge.lake
    ensures bridge.lake.Valid()
    ensures var at := Target(bridge.dbPrefix + db, collection);
            if at in old(bridge.lake.collections) then
              !missing && Follows(pages, HttpRun(o, old(bridge.lake.DocsIn(at)), cursor, attempts, bridge.maxPageBytes))
            else cursor == None && attempts != [] && attempts[0].limit <= 10000 ==> missing && pages == []
    decreases |attempts|
  {
    pages, missing := [], false;
    if attempts == [] {
      return;
    }
    var r, next, v := Try(bridge, o, db, collection, token, cursor, attempts);
    if r.NoSuchCollection? {
      missing := true;
    } else if !r.Served? {
      pages, missing := WalkOn(bridge, o, db, collection, token, next, attempts[1..]);
    } else if r.next == [] {
      pages := [r];
    } else {
      ghost var found := Target(bridge.dbPrefix + db, collection) in old(bridge.lake.collections);
      ghost var rest := HttpRun(o, bridge.lake.DocsIn(Target(bridge.dbPrefix + db, collection)), next, attempts[1..], bridge.maxPageBytes);
      pages, missing := WalkOn(bridge, o, db, collection, r.next, next, attempts[1..]);
      if found { FollowsMore(r, v, pages, rest); }
      pages := [r] + pages;
    }
  }

  /** A whole walk, from its first page. */
  method WalkPages(bridge: Bridge, o: Ordering, db: text, collection: text, attempts: seq<Attempt>)
    returns (pages: seq<PageReply>, missing: bool)
    requires bridge.lake.Valid()
    requires ValidDatabaseName(db) && ValidCollectionName(collection) && ValidOrdering(o)
    modifies bridge.lake
    ensures bridge.lake.Valid()
    ensures var at := Target(bridge.dbPrefix + db, collection);
            if at in old(bridge.lake.collections) then
              !missing && Follows(pages, HttpRun(o, old(bridge.lake.DocsIn(at)), None, attempts, bridge.maxPageBytes))
            else attempts != [] && attempts[0].limit <= 10000 ==> missing && pages == []
  {
    pages, missing := WalkOn(bridge, o, db, collection, [], None, attempts);
  }
}
