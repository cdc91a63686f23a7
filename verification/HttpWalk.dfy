/** Walking a view over HTTP, where a request may be refused for its references or fail to retrieve them. */
module HttpWalk {
  import opened Bytes
  import opened Wrappers
  import opened Values
  import opened Sorting
  import opened Store
  import opened Compaction
  import opened Views
  import opened Paging
  import opened Rdt
  import opened Walk
  import opened WalkGuarantees
  import Inlining
  import Responses

  /* ---------------------------------------------------------------- low limits are not refused */

  /** The same document with its payload in place. */
  predicate SameDocument(d: Record, served: Record) {
    served == d.(rawdata := served.rawdata)
  }

  lemma SliceIsShort(o: Ordering, docs: set<Doc>, cursor: Option<Value>, limit: nat, budget: nat)
    requires UniqueIds(docs) && limit > 0
    ensures |SliceOf(o, docs, cursor, limit, budget).docs| <= limit
  {
  }

  /** Lowering the limit unblocks a walk: whatever the collection and the cursor in hand, a request for at most 32
      documents is not refused for its references, and when the retrievals succeed it is answered with the page's
      own documents in their order. */
  lemma LowLimitIsAnswered(
      o: Ordering, docs: set<Doc>, cursor: Option<Value>, limit: nat, budget: nat, fetch: Responses.Fetch)
    requires UniqueIds(docs) && 0 < limit <= Responses.MAX_INLINE_PER_PAGE
    ensures var page := SliceOf(o, docs, cursor, limit, budget).docs;
            var reply := Responses.Expected(page, fetch);
            && !reply.TooManyReferences?
            && (Responses.AllResolve(page, fetch) ==>
                  && reply.Page? && |reply.docs| == |page|
                  && forall j | 0 <= j < |page| :: SameDocument(page[j], reply.docs[j]))
  {
    SliceIsShort(o, docs, cursor, limit, budget);
    var page: seq<Doc> := SliceOf(o, docs, cursor, limit, budget).docs;
    if Responses.AllResolve(page, fetch) {
      var served := Responses.InlinedPage(page, fetch);
      forall j | 0 <= j < |page| ensures SameDocument(page[j], served[j]) {
        assert Inlining.Inlined(page[j], fetch(j)) == Success(served[j]);
      }
    }
  }

  /* ---------------------------------------------------------------- retrying with the same token */

  /** A request: its limit, how its retrievals would fare, and the writes before the next one. */
  datatype Attempt = Attempt(limit: PageLimit, fetch: Responses.Fetch, after: seq<Write>)

  const MAX_LIMIT := 10000

  /** The limit is one the server accepts, and the page is neither refused nor unretrievable. */
  ghost predicate Answered(p: Slice, a: Attempt) {
    a.limit <= MAX_LIMIT && Responses.Expected(p.docs, a.fetch).Page?
  }

  /** The pages a client gets that asks with the same token again, under any limit, until it is answered. */
  ghost function HttpRun(o: Ordering, docs: set<Doc>, cursor: Option<Value>, attempts: seq<Attempt>, budget: nat): seq<Visit>
    requires UniqueIds(docs)
    decreases |attempts|
  {
    if attempts == [] then []
    else
      var p := SliceOf(o, docs, cursor, attempts[0].limit, budget);
      var next := ApplyAll(docs, attempts[0].after);
      if !Answered(p, attempts[0]) then HttpRun(o, next, cursor, attempts[1..], budget)
      else if !p.more then [Visit(docs, p)]
      else [Visit(docs, p)] + HttpRun(o, next, Some(LastOf(o, p.docs)), attempts[1..], budget)
  }

  ghost predicate OnlyInserts(attempts: seq<Attempt>) {
    forall a | a in attempts :: forall w | w in a.after :: w.Insert?
  }

  /** Those pages are a walk: an unanswered request only lets the writes after it pass, and a changed limit is one
      the walk may change to. */
  lemma {:induction false} HttpRunIsAWalk(o: Ordering, docs: set<Doc>, cursor: Option<Value>, attempts: seq<Attempt>, budget: nat)
    returns (ws: seq<Write>, limit: PageLimit, env: seq<Gap>)
    requires UniqueIds(docs)
    ensures HttpRun(o, docs, cursor, attempts, budget) != [] ==>
              HttpRun(o, docs, cursor, attempts, budget) == Run(o, ApplyAll(docs, ws), cursor, env, limit, budget)
    ensures OnlyInserts(attempts) ==> (forall w | w in ws :: w.Insert?) && InsertsOnly(env)
    decreases |attempts|
  {
    ws, limit, env := [], 1, [];
    if attempts != [] {
      var a, rest := attempts[0], attempts[1..];
      assert a in attempts && forall x | x in rest :: x in attempts;
      var p := SliceOf(o, docs, cursor, a.limit, budget);
      var next := ApplyAll(docs, a.after);
      if !Answered(p, a) {
        ws, limit, env := HttpRunIsAWalk(o, next, cursor, rest, budget);
        ApplyAllConcat(docs, a.after, ws);
        ws := a.after + ws;
      } else if p.more {
        var ws', limit', env' := HttpRunIsAWalk(o, next, Some(LastOf(o, p.docs)), rest, budget);
        limit := a.limit;
        if HttpRun(o, next, Some(LastOf(o, p.docs)), rest, budget) == [] {
          RunStops(o, docs, cursor, [], limit, budget);
        } else {
          ApplyAllConcat(docs, a.after, ws');
          env := [Gap(a.after + ws', limit')] + env';
          RunGoesOn(o, docs, cursor, env, limit, budget);
        }
      } else {
        limit := a.limit;
        RunStops(o, docs, cursor, [], limit, budget);
      }
    }
  }

  /** So the guarantees of a walk survive refusals, failed retrievals and changed limits: what is served comes in the
      view's strict order, and a key present at every answered page of a walk that ends is served by exactly one row
      if the first answered page has it or ends in its type, and by none otherwise. */
  lemma HttpWalkServes(o: Ordering, docs: set<Doc>, attempts: seq<Attempt>, budget: nat, k: Value)
    requires UniqueIds(docs)
    requires HttpRun(o, docs, None, attempts, budget) != []
    ensures var run := HttpRun(o, docs, None, attempts, budget);
            var first := run[0].page;
            && Ascending(RowOrderOf(o), DocsOf(run))
            && (Completed(run) && PresentThroughout(o, run, k) ==>
                  (ServedOnce(o, DocsOf(run), k) <==>
                     k in PositionsOf(o, first.docs) || (first.docs != [] && Bracket(k) == Bracket(LastOf(o, first.docs)))))
  {
    var run := HttpRun(o, docs, None, attempts, budget);
    var ws, limit, env := HttpRunIsAWalk(o, docs, None, attempts, budget);
    var start := ApplyAll(docs, ws);
    ServedInOrder(o, start, env, limit, budget);
    if Completed(run) && PresentThroughout(o, run, k) {
      PresentServedIff(o, start, env, limit, budget, k);
    }
  }

  /** A compacted walk under inserts serves nothing older than what its key had when the client began to ask. */
  lemma HttpWalkIsNotOlder(f: text, docs: set<Doc>, attempts: seq<Attempt>, budget: nat, i: nat, d: Doc, e: Doc)
    requires UniqueIds(docs) && OnlyInserts(attempts)
    requires i < |HttpRun(ByField(f), docs, None, attempts, budget)|
    requires d in HttpRun(ByField(f), docs, None, attempts, budget)[i].page.docs
    requires e in docs && KeyOf(f, e) == KeyOf(f, d)
    ensures d == e || Newer(d, e)
  {
    var ws, limit, env := HttpRunIsAWalk(ByField(f), docs, None, attempts, budget);
    InsertsGrow(docs, ws);
    ServedIsNotOlder(f, ApplyAll(docs, ws), env, limit, budget, i, d, e);
  }

  /* ---------------------------------------------------------------- 32 is the largest such limit */

  /** A small spilled document, the k-th of its ordering. */
  function SpilledDoc(o: Ordering, k: nat): Doc
    requires k < 256
  {
    Record([0, 0, 0, 0, 0, 0, 0, 0, 0, 0, 0, k], 0, if o.ByField? then map[o.field := Str([k])] else map[], 2, [], Absent, [1])
  }

  function SpilledDocs(o: Ordering, n: nat): set<Doc>
    requires n <= 256
  {
    set k: nat | k < n :: SpilledDoc(o, k)
  }

  lemma {:induction false} SpilledDocsCount(o: Ordering, n: nat)
    requires n <= 256
    ensures |SpilledDocs(o, n)| == n
  {
    if n > 0 {
      SpilledDocsCount(o, n - 1);
      OneMoreSpilled(o, n - 1);
    }
  }

  lemma OneMoreSpilled(o: Ordering, n: nat)
    requires n < 256
    ensures SpilledDocs(o, n + 1) == SpilledDocs(o, n) + {SpilledDoc(o, n)}
    ensures SpilledDoc(o, n) !in SpilledDocs(o, n)
  {
    forall d | d in SpilledDocs(o, n) ensures d.id[11] < n {}
    assert SpilledDoc(o, n).id[11] == n;
  }

  /** Ids differ and so do keys, so all of them are listed. */
  lemma SpilledDocsListed(o: Ordering, n: nat)
    requires n <= 256
    ensures UniqueIds(SpilledDocs(o, n)) && Listed(o, SpilledDocs(o, n)) == SpilledDocs(o, n)
    ensures forall d | d in SpilledDocs(o, n) :: d.size == 2 && d.rawRef != []
  {
    var docs := SpilledDocs(o, n);
    forall a, b | a in docs && b in docs && (a.id == b.id || (o.ByField? && KeyOf(o.field, a) == KeyOf(o.field, b))) ensures a == b {
      assert a.id[11] == b.id[11];
    }
  }

  lemma RowsCount(o: Ordering, docs: set<Doc>)
    requires UniqueIds(docs)
    ensures |Rows(o, docs, None)| == |Listed(o, docs)|
  {
    RowOrderOfStrict(o);
    DistinctCount(Rows(o, docs, None), Listed(o, docs));
  }

  lemma {:induction false} TwoByteRows(rows: seq<Doc>)
    requires forall d | d in rows :: d.size == 2 && d.rawRef != []
    ensures TotalSize(rows) == 2 * |rows| && Responses.RefCount(rows) == |rows|
  {
    if rows != [] {
      TwoByteRows(rows[..|rows| - 1]);
      TotalSizeSnoc(rows, |rows| - 1);
      assert rows[..|rows| - 1 + 1] == rows;
    }
  }

  /** A collection of n small documents, all spilled, makes a page of n references. */
  lemma FirstPageOfSpilled(o: Ordering, n: nat, limit: nat, budget: nat) returns (docs: set<Doc>)
    requires n <= limit && 2 * n <= budget && 0 < n <= 256
    ensures UniqueIds(docs) && Responses.RefCount(SliceOf(o, docs, None, limit, budget).docs) == n
  {
    docs := SpilledDocs(o, n);
    SpilledDocsCount(o, n);
    SpilledDocsListed(o, n);
    var rows := Rows(o, docs, None);
    RowsCount(o, docs);
    TwoByteRows(rows);
    assert rows[..n] == rows && Fits(rows, n, limit, budget);
    assert SliceOf(o, docs, None, limit, budget).docs == rows;
  }

  /** In either view, a limit is safe for every collection and cursor exactly when it is at most 32. */
  lemma RefusalFreeIff(o: Ordering, limit: nat, budget: nat)
    requires limit > 0 && budget >= 2 * (Responses.MAX_INLINE_PER_PAGE + 1)
    ensures (forall docs, cursor | UniqueIds(docs) ::
               Responses.RefCount(SliceOf(o, docs, cursor, limit, budget).docs) <= Responses.MAX_INLINE_PER_PAGE)
            <==> limit <= Responses.MAX_INLINE_PER_PAGE
  {
    if limit > Responses.MAX_INLINE_PER_PAGE {
      var n: nat := Responses.MAX_INLINE_PER_PAGE + 1;
      var docs := FirstPageOfSpilled(o, n, limit, budget);
    } else {
      forall docs, cursor | UniqueIds(docs)
        ensures Responses.RefCount(SliceOf(o, docs, cursor, limit, budget).docs) <= Responses.MAX_INLINE_PER_PAGE
      {
        SliceIsShort(o, docs, cursor, limit, budget);
      }
    }
  }
}
