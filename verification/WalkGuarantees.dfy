/** What a walk returns, for every interleaving of its page reads with inserts and deletes. */
module WalkGuarantees {
  import opened Bytes
  import opened Wrappers
  import opened Values
  import opened Sorting
  import opened Store
  import opened Compaction
  import opened Views
  import opened Paging
  import opened Rdt
  import opened Walk
  import KeysetWalk

  /** The type a walk from the first page stays in after it. */
  ghost function TypeAfter(o: Ordering, first: Slice): nat {
    if first.docs == [] then 0 else Bracket(LastOf(o, first.docs))
  }

  /** Under any inserts and deletes, no position is served twice: rows come in the strict order of the view
      across the whole walk. */
  lemma ServedInOrder(o: Ordering, docs: set<Doc>, env: seq<Gap>, limit: nat, budget: nat)
    requires UniqueIds(docs) && limit > 0
    ensures Ascending(RowOrderOf(o), DocsOf(Run(o, docs, None, env, limit, budget)))
  {
    var run := Run(o, docs, None, env, limit, budget);
    var t := TypeAfter(o, run[0].page);
    RunIsGoodWalk(o, docs, None, env, limit, budget, t);
    OrderOfStrict(o);
    KeysetWalk.ServedAscending(OrderOf(o), None, StepsOf(o, t, run));
    ServedPositions(o, t, run);
    var served, all := PositionsOf(o, DocsOf(run)), DocsOf(run);
    forall i, j | 0 <= i < j < |all| ensures RowOrderOf(o)(all[i], all[j]) {
      assert OrderOf(o)(served[i], served[j]);
    }
  }

  /** That is: the ids of a documents walk strictly descend, and the string keys of a compacted walk strictly ascend,
      byte by byte. */
  lemma WalkOrderIs(o: Ordering, docs: set<Doc>, env: seq<Gap>, limit: nat, budget: nat)
    requires UniqueIds(docs) && limit > 0
    ensures var served := DocsOf(Run(o, docs, None, env, limit, budget));
            && (o.Log? ==> forall i, j | 0 <= i < j < |served| :: Less(served[j].id, served[i].id))
            && (o.ByField? ==>
                  forall i, j | 0 <= i < j < |served| && KeyOf(o.field, served[i]).Str? && KeyOf(o.field, served[j]).Str? ::
                    Less(KeyOf(o.field, served[i]).s, KeyOf(o.field, served[j]).s))
  {
    ServedInOrder(o, docs, env, limit, budget);
    var served := DocsOf(Run(o, docs, None, env, limit, budget));
    forall i, j | 0 <= i < j < |served| ensures Precedes(o, PositionOf(o, served[i]), PositionOf(o, served[j])) {
      assert RowOrderOf(o)(served[i], served[j]);
    }
  }

  /** Some document has the position at every page. */
  ghost predicate PresentThroughout(o: Ordering, run: seq<Visit>, k: Value) {
    forall v | v in run :: k in Positions(o, v.store)
  }

  /** Row i has the position, and no other row does. */
  ghost predicate OnlyRowAt(o: Ordering, served: seq<Doc>, k: Value, i: nat) {
    && i < |served| && PositionOf(o, served[i]) == k
    && forall j | 0 <= j < |served| && j != i :: PositionOf(o, served[j]) != k
  }

  ghost predicate ServedOnce(o: Ordering, served: seq<Doc>, k: Value) {
    exists i :: OnlyRowAt(o, served, k, i)
  }

  lemma StepsHaveKey(o: Ordering, t: nat, run: seq<Visit>, k: Value)
    requires PresentThroughout(o, run, k) && Bracket(k) == t
    ensures forall s | s in StepsOf(o, t, run) :: k in s.present
  {
    forall s | s in StepsOf(o, t, run) ensures k in s.present {
      var i :| 0 <= i < |run| && StepsOf(o, t, run)[i] == s;
      assert run[i] in run;
    }
  }

  lemma KeyIsServed(o: Ordering, t: nat, run: seq<Visit>, k: Value)
    requires run != [] && KeysetWalk.GoodWalk(OrderOf(o), None, StepsOf(o, t, run))
    requires Completed(run) && PresentThroughout(o, run, k) && Bracket(k) == t
    ensures k in PositionsOf(o, DocsOf(run))
  {
    StepsHaveKey(o, t, run, k);
    KeysetWalk.PresentIsServed(OrderOf(o), None, StepsOf(o, t, run), k);
    ServedPositions(o, t, run);
  }

  /** Under any inserts and deletes, a key present at every page of a walk that ends is served by exactly one
      row if its type is the one the first page ends in, or the first page has it; and by no row otherwise. */
  lemma PresentServedIff(
      o: Ordering, docs: set<Doc>, env: seq<Gap>, limit: nat, budget: nat, k: Value)
    requires UniqueIds(docs) && limit > 0
    requires var run := Run(o, docs, None, env, limit, budget);
             Completed(run) && PresentThroughout(o, run, k)
    ensures var run := Run(o, docs, None, env, limit, budget);
            var first := run[0].page;
            ServedOnce(o, DocsOf(run), k) <==>
              k in PositionsOf(o, first.docs) || (first.docs != [] && Bracket(k) == Bracket(LastOf(o, first.docs)))
  {
    var run := Run(o, docs, None, env, limit, budget);
    var first := run[0].page;
    var t := TypeAfter(o, first);
    SplitPositions(o, first.docs, DocsOf(run[1..]));
    if k in PositionsOf(o, DocsOf(run)) {
      if k !in PositionsOf(o, first.docs) {
        LaterRowsHaveType(o, docs, None, env, limit, budget, t, k);
      }
      ServedInOrder(o, docs, env, limit, budget);
      OnlyRow(o, DocsOf(run), k);
    } else if first.docs != [] && Bracket(k) == t {
      RunIsGoodWalk(o, docs, None, env, limit, budget, t);
      KeyIsServed(o, t, run, k);
    }
    if ServedOnce(o, DocsOf(run), k) {
      var i: nat :| OnlyRowAt(o, DocsOf(run), k, i);
      assert PositionsOf(o, DocsOf(run))[i] == k;
    }
  }

  /** In particular, when the collection's keys have one type as the walk begins, a key present throughout is
      served by exactly one row. */
  lemma PresentThroughoutServedOnce(
      o: Ordering, docs: set<Doc>, env: seq<Gap>, limit: nat, budget: nat, k: Value)
    requires UniqueIds(docs) && limit > 0 && AllTyped(o, docs)
    requires var run := Run(o, docs, None, env, limit, budget);
             Completed(run) && PresentThroughout(o, run, k)
    ensures ServedOnce(o, DocsOf(Run(o, docs, None, env, limit, budget)), k)
  {
    var run := Run(o, docs, None, env, limit, budget);
    var first := run[0].page;
    assert run[0] in run && k in Positions(o, docs);
    FirstPageServes(o, docs, limit, budget, k);
    PresentServedIff(o, docs, env, limit, budget, k);
  }

  /** A page of a collection that has keys has rows, of the collection's one type. */
  lemma FirstPageServes(o: Ordering, docs: set<Doc>, limit: nat, budget: nat, k: Value)
    requires UniqueIds(docs) && limit > 0 && AllTyped(o, docs) && k in Positions(o, docs)
    ensures var p := SliceOf(o, docs, None, limit, budget);
            p.docs != [] && Bracket(k) == Bracket(LastOf(o, p.docs))
  {
    var d := PositionListed(o, docs, k);
    var rows := Rows(o, docs, None);
    var p := SliceOf(o, docs, None, limit, budget);
    assert d in docs && Typed(o, d) && d in rows;
    assert p.docs[|p.docs| - 1] in rows && p.docs[|p.docs| - 1] in docs;
  }

  lemma OnlyRow(o: Ordering, served: seq<Doc>, k: Value)
    requires Ascending(RowOrderOf(o), served) && k in PositionsOf(o, served)
    ensures ServedOnce(o, served, k)
  {
    var positions := PositionsOf(o, served);
    var i :| 0 <= i < |positions| && positions[i] == k;
    forall j | 0 <= j < |served| && j != i ensures PositionOf(o, served[j]) != k {
      PrecedesStrict(o, k, k, k);
      assert RowOrderOf(o)(served[i], served[j]) || RowOrderOf(o)(served[j], served[i]);
    }
    assert OnlyRowAt(o, served, k, i);
  }

  /* ---------------------------------------------------------------- the compacted walk */

  /** The rows of a visit are listed in the collection it read. */
  ghost predicate IsPageOf(o: Ordering, v: Visit) {
    UniqueIds(v.store) && forall d | d in v.page.docs :: d in Listed(o, v.store)
  }

  lemma SliceIsListed(o: Ordering, docs: set<Doc>, cursor: Option<Value>, limit: nat, budget: nat)
    requires UniqueIds(docs) && limit > 0
    ensures IsPageOf(o, Visit(docs, SliceOf(o, docs, cursor, limit, budget)))
  {
    var rows := Rows(o, docs, cursor);
    forall d | d in SliceOf(o, docs, cursor, limit, budget).docs ensures d in Listed(o, docs) {
      assert d in rows;
    }
  }

  /** Visit i + 1 of a run is visit i of the run from the next collection. */
  lemma LaterVisit(o: Ordering, docs: set<Doc>, cursor: Option<Value>, env: seq<Gap>, limit: nat, budget: nat, i: nat)
    requires UniqueIds(docs) && limit > 0
    requires i + 1 < |Run(o, docs, cursor, env, limit, budget)|
    ensures SliceOf(o, docs, cursor, limit, budget).more && env != []
    ensures var c := Some(LastOf(o, SliceOf(o, docs, cursor, limit, budget).docs));
            var rest := Run(o, ApplyAll(docs, env[0].writes), c, env[1..], env[0].limit, budget);
            i < |rest| && Run(o, docs, cursor, env, limit, budget)[i + 1] == rest[i]
  {
    if SliceOf(o, docs, cursor, limit, budget).more && env != [] {
      RunGoesOn(o, docs, cursor, env, limit, budget);
    } else {
      RunStops(o, docs, cursor, env, limit, budget);
    }
  }

  lemma {:induction false} VisitsArePages(
      o: Ordering, docs: set<Doc>, cursor: Option<Value>, env: seq<Gap>, limit: nat, budget: nat, i: nat)
    requires UniqueIds(docs) && limit > 0
    requires i < |Run(o, docs, cursor, env, limit, budget)|
    ensures IsPageOf(o, Run(o, docs, cursor, env, limit, budget)[i])
    decreases |env|
  {
    if i == 0 {
      SliceIsListed(o, docs, cursor, limit, budget);
    } else {
      LaterVisit(o, docs, cursor, env, limit, budget, i - 1);
      var c := Some(LastOf(o, SliceOf(o, docs, cursor, limit, budget).docs));
      var next := ApplyAll(docs, env[0].writes);
      assert Run(o, docs, cursor, env, limit, budget)[i] == Run(o, next, c, env[1..], env[0].limit, budget)[i - 1];
      VisitsArePages(o, next, c, env[1..], env[0].limit, budget, i - 1);
    }
  }

  /** Every row served is its key's newest document at the moment of its page. */
  lemma ServedIsNewest(f: text, docs: set<Doc>, env: seq<Gap>, limit: nat, budget: nat, i: nat, d: Doc)
    requires UniqueIds(docs) && limit > 0
    requires i < |Run(ByField(f), docs, None, env, limit, budget)|
    requires d in Run(ByField(f), docs, None, env, limit, budget)[i].page.docs
    ensures d in Current(Run(ByField(f), docs, None, env, limit, budget)[i].store, f)
  {
    VisitsArePages(ByField(f), docs, None, env, limit, budget, i);
  }

  predicate InsertsOnly(env: seq<Gap>) {
    forall g | g in env :: forall w | w in g.writes :: w.Insert?
  }

  lemma {:induction false} InsertsGrow(docs: set<Doc>, ws: seq<Write>)
    requires forall w | w in ws :: w.Insert?
    ensures docs <= ApplyAll(docs, ws)
    decreases |ws|
  {
    if ws != [] {
      assert ws[0] in ws;
      InsertsGrow(Apply(docs, ws[0]), ws[1..]);
    }
  }

  lemma {:induction false} StoresGrow(
      o: Ordering, docs: set<Doc>, cursor: Option<Value>, env: seq<Gap>, limit: nat, budget: nat, i: nat)
    requires UniqueIds(docs) && limit > 0 && InsertsOnly(env)
    requires i < |Run(o, docs, cursor, env, limit, budget)|
    ensures docs <= Run(o, docs, cursor, env, limit, budget)[i].store
    decreases |env|
  {
    if i > 0 {
      assert env[0] in env && forall g | g in env[1..] :: g in env;
      InsertsGrow(docs, env[0].writes);
      var p := SliceOf(o, docs, cursor, limit, budget);
      StoresGrow(o, ApplyAll(docs, env[0].writes), Some(LastOf(o, p.docs)), env[1..], env[0].limit, budget, i - 1);
    }
  }

  /** With inserts only, what is served is at least as new as anything its key had at the start. */
  lemma ServedIsNotOlder(f: text, docs: set<Doc>, env: seq<Gap>, limit: nat, budget: nat, i: nat, d: Doc, e: Doc)
    requires UniqueIds(docs) && limit > 0 && InsertsOnly(env)
    requires i < |Run(ByField(f), docs, None, env, limit, budget)|
    requires d in Run(ByField(f), docs, None, env, limit, budget)[i].page.docs
    requires e in docs && KeyOf(f, e) == KeyOf(f, d)
    ensures d == e || Newer(d, e)
    ensures e.timestamp <= d.timestamp
  {
    ServedIsNewest(f, docs, env, limit, budget, i, d);
    StoresGrow(ByField(f), docs, None, env, limit, budget, i);
  }

  /* ---------------------------------------------------------------- undisturbed walks */

  /** No write between pages changes the rows still to come. */
  ghost predicate Undisturbed(
      o: Ordering, docs: set<Doc>, cursor: Option<Value>, env: seq<Gap>, limit: nat, budget: nat)
    requires UniqueIds(docs) && limit > 0
    decreases |env|
  {
    var p := SliceOf(o, docs, cursor, limit, budget);
    p.more && env != [] ==>
      var c := Some(LastOf(o, p.docs));
      && Rows(o, ApplyAll(docs, env[0].writes), c) == Rows(o, docs, c)
      && Undisturbed(o, ApplyAll(docs, env[0].writes), c, env[1..], env[0].limit, budget)
  }

  ghost predicate OneType(o: Ordering, rows: seq<Doc>) {
    forall i, j | 0 <= i < |rows| && 0 <= j < |rows| :: Bracket(PositionOf(o, rows[i])) == Bracket(PositionOf(o, rows[j]))
  }

  function PagesOf(run: seq<Visit>): (r: seq<seq<Doc>>)
    ensures |r| == |run| && forall i | 0 <= i < |r| :: r[i] == run[i].page.docs
  {
    seq(|run|, i requires 0 <= i < |run| => run[i].page.docs)
  }

  lemma LastOfSlice(o: Ordering, docs: set<Doc>, cursor: Option<Value>, limit: nat, budget: nat)
    requires UniqueIds(docs) && limit > 0 && SliceOf(o, docs, cursor, limit, budget).more
    ensures var rows := Rows(o, docs, cursor);
            var n := PageLen(rows, limit, budget);
            && 0 < n < |rows|
            && LastOf(o, SliceOf(o, docs, cursor, limit, budget).docs) == PositionOf(o, rows[n - 1])
  {
  }

  lemma OneTypeRest(o: Ordering, docs: set<Doc>, cursor: Option<Value>, limit: nat, budget: nat)
    requires UniqueIds(docs) && limit > 0 && OneType(o, Rows(o, docs, cursor))
    requires SliceOf(o, docs, cursor, limit, budget).more
    ensures var rows := Rows(o, docs, cursor);
            var p := SliceOf(o, docs, cursor, limit, budget);
            Rows(o, docs, Some(LastOf(o, p.docs))) == rows[PageLen(rows, limit, budget)..]
  {
    var rows := Rows(o, docs, cursor);
    var n := PageLen(rows, limit, budget);
    LastOfSlice(o, docs, cursor, limit, budget);
    RowsAfter(o, docs, cursor, n);
    OneTypeFilter(o, rows, n);
  }

  lemma OneTypeFilter(o: Ordering, rows: seq<Doc>, n: nat)
    requires OneType(o, rows) && 0 < n <= |rows|
    ensures Filter(rows[n..], SameType(o, PositionOf(o, rows[n - 1]))) == rows[n..]
  {
    FilterAll<Doc>(rows[n..], SameType(o, PositionOf(o, rows[n - 1])));
  }

  function LimitsOf(env: seq<Gap>): (r: seq<PageLimit>)
    ensures |r| == |env| && forall i | 0 <= i < |r| :: r[i] == env[i].limit
  {
    seq(|env|, i requires 0 <= i < |env| => env[i].limit)
  }

  /** Then its pages are those of the rows at its start, cut by the limits and the budget, and it ends with the
      last row. */
  lemma {:induction false} UndisturbedPages(
      o: Ordering, docs: set<Doc>, cursor: Option<Value>, env: seq<Gap>, limit: nat, budget: nat)
    requires UniqueIds(docs) && limit > 0
    requires OneType(o, Rows(o, docs, cursor)) && Undisturbed(o, docs, cursor, env, limit, budget)
    ensures var run := Run(o, docs, cursor, env, limit, budget);
            var rows := Rows(o, docs, cursor);
            && PagesOf(run) == Pages(rows, limit, LimitsOf(env), budget)
            && (Completed(run) <==> Reaches(rows, limit, LimitsOf(env), budget))
    decreases |env|
  {
    var p := SliceOf(o, docs, cursor, limit, budget);
    if !p.more || env == [] {
      RunStops(o, docs, cursor, env, limit, budget);
      assert PagesOf([Visit(docs, p)]) == [p.docs];
    } else {
      OneTypeRest(o, docs, cursor, limit, budget);
      var next, c := ApplyAll(docs, env[0].writes), Some(LastOf(o, p.docs));
      assert OneType(o, Rows(o, next, c));
      UndisturbedPages(o, next, c, env[1..], env[0].limit, budget);
      RunGoesOn(o, docs, cursor, env, limit, budget);
      PagesGoOn(Visit(docs, p), Run(o, next, c, env[1..], env[0].limit, budget));
      assert LimitsOf(env)[1..] == LimitsOf(env[1..]);
    }
  }

  lemma PagesGoOn(v: Visit, rest: seq<Visit>)
    requires rest != []
    ensures PagesOf([v] + rest) == [v.page.docs] + PagesOf(rest)
    ensures Completed([v] + rest) == Completed(rest)
  {
  }

  lemma {:induction false} DocsAreConcat(run: seq<Visit>)
    ensures DocsOf(run) == Concat(PagesOf(run))
  {
    if run != [] {
      DocsAreConcat(run[1..]);
      assert PagesOf(run)[1..] == PagesOf(run[1..]);
    }
  }

  /** An undisturbed walk of one type reads the view, in at most one page a row. */
  lemma UndisturbedWalk(o: Ordering, docs: set<Doc>, cursor: Option<Value>, env: seq<Gap>, limit: nat, budget: nat)
    requires UniqueIds(docs) && limit > 0
    requires OneType(o, Rows(o, docs, cursor)) && Undisturbed(o, docs, cursor, env, limit, budget)
    ensures var run := Run(o, docs, cursor, env, limit, budget);
            var rows := Rows(o, docs, cursor);
            && (Completed(run) ==> DocsOf(run) == rows)
            && |run| <= (if rows == [] then 1 else |rows|)
            && (|env| + 1 >= |rows| ==> Completed(run))
            && |run| == |Pages(rows, limit, LimitsOf(env), budget)|
            && (!Completed(run) ==> |run| == |env| + 1)
  {
    var rows := Rows(o, docs, cursor);
    var run := Run(o, docs, cursor, env, limit, budget);
    UndisturbedPages(o, docs, cursor, env, limit, budget);
    PagesAtMostRows(rows, limit, LimitsOf(env), budget);
    if Completed(run) { PagesConcat(rows, limit, LimitsOf(env), budget); }
    DocsAreConcat(run);
  }

  predicate Quiet(env: seq<Gap>) {
    forall g | g in env :: g.writes == []
  }

  lemma {:induction false} QuietIsUndisturbed(
      o: Ordering, docs: set<Doc>, cursor: Option<Value>, env: seq<Gap>, limit: nat, budget: nat)
    requires UniqueIds(docs) && limit > 0 && Quiet(env)
    ensures Undisturbed(o, docs, cursor, env, limit, budget)
    decreases |env|
  {
    var p := SliceOf(o, docs, cursor, limit, budget);
    if p.more && env != [] {
      assert env[0] in env && forall g | g in env[1..] :: g in env;
      QuietIsUndisturbed(o, docs, Some(LastOf(o, p.docs)), env[1..], env[0].limit, budget);
    }
  }

  /** Once writes have stopped, a walk that ends is exactly the current view, in its order; with every limit at
      least L it takes at most 1 + N/L + 2T/B pages, and it ends when it may read more than that. */
  lemma QuietWalkIsTheView(o: Ordering, docs: set<Doc>, env: seq<Gap>, limit: nat, budget: nat, least: nat)
    requires UniqueIds(docs) && limit > 0 && AllTyped(o, docs) && Quiet(env) && budget > 0
    requires least > 0 && AtLeast(least, limit, LimitsOf(env))
    ensures var run := Run(o, docs, None, env, limit, budget);
            var rows := Rows(o, docs, None);
            && (Completed(run) ==> DocsOf(run) == rows)
            && |run| as real <= PageBound(rows, budget, least)
            && (PageBound(rows, budget, least) < (|env| + 1) as real ==> Completed(run))
  {
    TypedIsOneType(o, docs);
    QuietIsUndisturbed(o, docs, None, env, limit, budget);
    UndisturbedWalk(o, docs, None, env, limit, budget);
    WalkBound(Rows(o, docs, None), limit, LimitsOf(env), budget, least);
  }

  lemma TypedIsOneType(o: Ordering, docs: set<Doc>)
    requires UniqueIds(docs) && AllTyped(o, docs)
    ensures OneType(o, Rows(o, docs, None))
  {
    var rows := Rows(o, docs, None);
    forall i | 0 <= i < |rows| ensures Bracket(PositionOf(o, rows[i])) == TypeOf(o) {
      assert rows[i] in rows && rows[i] in docs;
    }
  }

  /* ---------------------------------------------------------------- the documents walk */

  lemma {:induction false} InSomePage(run: seq<Visit>, d: Doc) returns (i: nat)
    requires d in DocsOf(run)
    ensures i < |run| && d in run[i].page.docs
  {
    if d in run[0].page.docs {
      i := 0;
    } else {
      i := InSomePage(run[1..], d);
      i := i + 1;
    }
  }

  /** Under arbitrary inserts and deletes, a document present at every page is returned exactly once. */
  lemma LogServesPresentOnce(docs: set<Doc>, env: seq<Gap>, limit: nat, budget: nat, d: Doc)
    requires UniqueIds(docs) && limit > 0
    requires var run := Run(Log, docs, None, env, limit, budget);
             Completed(run) && forall v | v in run :: d in v.store
    ensures var served := DocsOf(Run(Log, docs, None, env, limit, budget));
            exists i: nat | i < |served| :: served[i] == d && OnlyRowAt(Log, served, ObjectId(d.id), i)
  {
    var run := Run(Log, docs, None, env, limit, budget);
    var k := ObjectId(d.id);
    forall v | v in run ensures k in Positions(Log, v.store) {
      assert d in v.store && PositionOf(Log, d) == k;
    }
    PresentThroughoutServedOnce(Log, docs, env, limit, budget, k);
    var served := DocsOf(run);
    var i: nat :| OnlyRowAt(Log, served, k, i);
    var p := InSomePage(run, served[i]);
    VisitsArePages(Log, docs, None, env, limit, budget, p);
    SameIdInVisit(run[p], served[i], d);
  }

  lemma SameIdInVisit(v: Visit, a: Doc, b: Doc)
    requires IsPageOf(Log, v) && a in v.page.docs && b in v.store && a.id == b.id
    ensures a == b
  {
  }

  /** Inserts only, each above every id stored before it. */
  ghost predicate Appends(docs: set<Doc>, ws: seq<Write>)
    decreases |ws|
  {
    ws != [] ==>
      && ws[0].Insert?
      && (forall d | d in docs :: Less(d.id, ws[0].doc.id))
      && Appends(Apply(docs, ws[0]), ws[1..])
  }

  ghost predicate AppendsBetweenPages(docs: set<Doc>, env: seq<Gap>)
    decreases |env|
  {
    env != [] ==> Appends(docs, env[0].writes) && AppendsBetweenPages(ApplyAll(docs, env[0].writes), env[1..])
  }

  lemma {:induction false} AppendsAreAbove(docs: set<Doc>, ws: seq<Write>, d: Doc)
    requires UniqueIds(docs) && Appends(docs, ws) && d in docs
    ensures var c := Some(ObjectId(d.id));
            docs <= ApplyAll(docs, ws) && Rows(Log, ApplyAll(docs, ws), c) == Rows(Log, docs, c)
    decreases |ws|
  {
    if ws != [] {
      var e := ws[0].doc;
      var more := Apply(docs, ws[0]);
      LessIrreflexive(e.id);
      assert more == docs + {e};
      AppendsAreAbove(more, ws[1..], d);
      AppendKeepsOlderRows(docs, e, d);
    }
  }

  lemma AppendKeepsOlderRows(docs: set<Doc>, e: Doc, d: Doc)
    requires UniqueIds(docs) && UniqueIds(docs + {e}) && Less(d.id, e.id)
    ensures var c := Some(ObjectId(d.id)); Rows(Log, docs + {e}, c) == Rows(Log, docs, c)
  {
    var c := Some(ObjectId(d.id));
    var rows := Rows(Log, docs, c);
    assert !Beyond(Log, c, PositionOf(Log, e)) by {
      if Less(e.id, d.id) { LessTransitive(d.id, e.id, d.id); }
      LessIrreflexive(d.id);
    }
    RowsUnique(Log, rows, Rows(Log, docs + {e}, c), docs + {e}, c);
  }

  lemma {:induction false} AppendsAreUndisturbing(
      docs: set<Doc>, cursor: Option<Value>, env: seq<Gap>, limit: nat, budget: nat)
    requires UniqueIds(docs) && limit > 0 && AppendsBetweenPages(docs, env)
    ensures Undisturbed(Log, docs, cursor, env, limit, budget)
    decreases |env|
  {
    var p := SliceOf(Log, docs, cursor, limit, budget);
    if p.more && env != [] {
      var last := p.docs[|p.docs| - 1];
      assert last in Rows(Log, docs, cursor);
      AppendsAreAbove(docs, env[0].writes, last);
      AppendsAreUndisturbing(ApplyAll(docs, env[0].writes), Some(LastOf(Log, p.docs)), env[1..], env[0].limit, budget);
    }
  }

  lemma LogRowsCount(docs: set<Doc>)
    requires UniqueIds(docs)
    ensures |Rows(Log, docs, None)| == |docs|
  {
    RowOrderOfStrict(Log);
    DistinctCount(Rows(Log, docs, None), docs);
  }

  /** With inserts only, each above every existing id, the walk returns exactly the documents there were at
      its first page, newest first, and ends within one page per document of them. */
  lemma LogWalkIsSnapshot(docs: set<Doc>, env: seq<Gap>, limit: nat, budget: nat)
    requires UniqueIds(docs) && limit > 0 && AppendsBetweenPages(docs, env)
    ensures var run := Run(Log, docs, None, env, limit, budget);
            && (Completed(run) ==> DocsOf(run) == Rows(Log, docs, None))
            && |run| <= (if docs == {} then 1 else |docs|)
            && (|env| + 1 >= |docs| ==> Completed(run))
  {
    AppendsAreUndisturbing(docs, None, env, limit, budget);
    UndisturbedWalk(Log, docs, None, env, limit, budget);
    LogRowsCount(docs);
    assert docs == {} ==> |docs| == 0;
    assert Rows(Log, docs, None) == [] ==> |docs| == 0;
  }

  /* ---------------------------------------------------------------- positions of several types */

  lemma NextRowsOneType(o: Ordering, docs: set<Doc>, n: nat)
    requires UniqueIds(docs) && 0 < n <= |Rows(o, docs, None)|
    ensures var rows := Rows(o, docs, None);
            var rest := Rows(o, docs, Some(PositionOf(o, rows[n - 1])));
            && rest == Filter(rows[n..], SameType(o, PositionOf(o, rows[n - 1])))
            && OneType(o, rest) && |rest| <= |rows| - n
  {
    var rows := Rows(o, docs, None);
    var v := PositionOf(o, rows[n - 1]);
    RowsAfter(o, docs, None, n);
    FilterLength<Doc>(rows[n..], SameType(o, v));
    var rest := Filter(rows[n..], SameType(o, v));
    assert forall i | 0 <= i < |rest| :: rest[i] in rest && SameType(o, v)(rest[i]);
  }

  /** A cursor stays within one type. On a collection that does not change, a walk that runs to its end
      returns its first page and then only the later rows of the type that page ended in. */
  lemma MixedTypesWalk(o: Ordering, docs: set<Doc>, env: seq<Gap>, limit: nat, budget: nat)
    requires UniqueIds(docs) && limit > 0 && Quiet(env) && |env| >= |Rows(o, docs, None)|
    ensures var run := Run(o, docs, None, env, limit, budget);
            var rows := Rows(o, docs, None);
            var n := PageLen(rows, limit, budget);
            && Completed(run)
            && DocsOf(run) == if n == |rows| then rows
                              else rows[..n] + Filter(rows[n..], SameType(o, PositionOf(o, rows[n - 1])))
  {
    if SliceOf(o, docs, None, limit, budget).more {
      MixedTypesRest(o, docs, env, limit, budget);
    } else {
      OnePageWalk(o, docs, env, limit, budget);
    }
  }

  lemma OnePageWalk(o: Ordering, docs: set<Doc>, env: seq<Gap>, limit: nat, budget: nat)
    requires UniqueIds(docs) && limit > 0 && !SliceOf(o, docs, None, limit, budget).more
    ensures var run := Run(o, docs, None, env, limit, budget);
            Completed(run) && DocsOf(run) == Rows(o, docs, None)
  {
    var v := Visit(docs, SliceOf(o, docs, None, limit, budget));
    RunStops(o, docs, None, env, limit, budget);
    assert [v] == [v] + [];
    DocsOfPrepended(v, []);
    assert v.page.docs == Rows(o, docs, None);
  }

  lemma MixedTypesRest(o: Ordering, docs: set<Doc>, env: seq<Gap>, limit: nat, budget: nat)
    requires UniqueIds(docs) && limit > 0 && Quiet(env) && |env| >= |Rows(o, docs, None)|
    requires SliceOf(o, docs, None, limit, budget).more
    ensures var run := Run(o, docs, None, env, limit, budget);
            var rows := Rows(o, docs, None);
            var n := PageLen(rows, limit, budget);
            && 0 < n < |rows| && Completed(run)
            && DocsOf(run) == rows[..n] + Filter(rows[n..], SameType(o, PositionOf(o, rows[n - 1])))
  {
    var n := PageLen(Rows(o, docs, None), limit, budget);
    var p := SliceOf(o, docs, None, limit, budget);
    LastOfSlice(o, docs, None, limit, budget);
    NextRowsOneType(o, docs, n);
    QuietStep(o, docs, env, limit, budget);
    var c := Some(LastOf(o, p.docs));
    OneTypeWalk(o, docs, c, env[1..], env[0].limit, budget);
    DocsOfPrepended(Visit(docs, p), Run(o, docs, c, env[1..], env[0].limit, budget));
  }

  lemma QuietStep(o: Ordering, docs: set<Doc>, env: seq<Gap>, limit: nat, budget: nat)
    requires UniqueIds(docs) && limit > 0 && Quiet(env) && env != []
    requires SliceOf(o, docs, None, limit, budget).more
    ensures var p := SliceOf(o, docs, None, limit, budget);
            Run(o, docs, None, env, limit, budget) ==
              [Visit(docs, p)] + Run(o, docs, Some(LastOf(o, p.docs)), env[1..], env[0].limit, budget)
    ensures Quiet(env[1..])
  {
    assert env[0] in env && forall g | g in env[1..] :: g in env;
    assert ApplyAll(docs, env[0].writes) == docs;
  }

  lemma DocsOfPrepended(v: Visit, rest: seq<Visit>)
    ensures DocsOf([v] + rest) == v.page.docs + DocsOf(rest)
    ensures rest != [] ==> Completed([v] + rest) == Completed(rest)
  {
    assert ([v] + rest)[1..] == rest;
  }

  lemma OneTypeWalk(o: Ordering, docs: set<Doc>, cursor: Option<Value>, env: seq<Gap>, limit: nat, budget: nat)
    requires UniqueIds(docs) && limit > 0 && Quiet(env)
    requires OneType(o, Rows(o, docs, cursor)) && |env| >= |Rows(o, docs, cursor)|
    ensures var run := Run(o, docs, cursor, env, limit, budget);
            Completed(run) && DocsOf(run) == Rows(o, docs, cursor)
  {
    QuietIsUndisturbed(o, docs, cursor, env, limit, budget);
    UndisturbedWalk(o, docs, cursor, env, limit, budget);
  }

  /** So the walk is the whole view exactly when its first page is, or every row after that page has the type
      of the page's last row. */
  lemma WholeViewIff(o: Ordering, docs: set<Doc>, env: seq<Gap>, limit: nat, budget: nat)
    requires UniqueIds(docs) && limit > 0 && Quiet(env) && |env| >= |Rows(o, docs, None)|
    ensures var rows := Rows(o, docs, None);
            var n := PageLen(rows, limit, budget);
            DocsOf(Run(o, docs, None, env, limit, budget)) == rows
            <==> forall i | n <= i < |rows| ::
                   Bracket(PositionOf(o, rows[i])) == Bracket(PositionOf(o, rows[n - 1]))
  {
    var rows := Rows(o, docs, None);
    var n := PageLen(rows, limit, budget);
    MixedTypesWalk(o, docs, env, limit, budget);
    if n < |rows| {
      PartialFilter(rows, n, SameType(o, PositionOf(o, rows[n - 1])));
    }
  }

  lemma PartialFilter(rows: seq<Doc>, n: nat, p: Doc -> bool)
    requires n <= |rows|
    ensures rows[..n] + Filter(rows[n..], p) == rows <==> forall i | n <= i < |rows| :: p(rows[i])
  {
    var rest := Filter(rows[n..], p);
    assert rows == rows[..n] + rows[n..];
    if rows[..n] + rest == rows {
      assert rest == (rows[..n] + rest)[n..] == rows[n..];
      forall i | n <= i < |rows| ensures p(rows[i]) {
        assert rows[n..][i - n] in rest;
      }
    }
    if forall i | n <= i < |rows| :: p(rows[i]) {
      FilterAll<Doc>(rows[n..], p);
    }
  }

  /** A string key and a boolean key, read one row a page: the walk ends without the boolean's document. */
  lemma MixedTypesLoseAKey(f: text, a: Doc, b: Doc, budget: nat)
    requires a.id != b.id && KeyOf(f, a).Str? && KeyOf(f, b).Bool?
    ensures var run := Run(ByField(f), {a, b}, None, [Gap([], 1), Gap([], 1)], 1, budget);
            Completed(run) && b in Current({a, b}, f) && b !in DocsOf(run)
  {
    var o, docs := ByField(f), {a, b};
    assert a in Current(docs, f) && b in Current(docs, f);
    assert RowOrderOf(o)(a, b);
    assert IsRows(o, [a, b], docs, None);
    RowsUnique(o, [a, b], Rows(o, docs, None), docs, None);
    MixedTypesWalk(o, docs, [Gap([], 1), Gap([], 1)], 1, budget);
    assert PageLen([a, b], 1, budget) == 1;
  }
}
