/** Walks of a view by a client that hands every token back, while writers insert and delete. */
module Walk {
  import opened Bytes
  import opened Wrappers
  import opened Values
  import opened Sorting
  import opened Store
  import opened Compaction
  import opened Views
  import opened Paging
  import opened Rdt
  import KeysetWalk

  /** A page together with the collection it was read from. */
  datatype Visit = Visit(store: set<Doc>, page: Slice)

  /** What happens between two pages: the writes, and the limit the client asks the next page with. */
  datatype Gap = Gap(writes: seq<Write>, limit: PageLimit)

  /** The pages of a walk; env[i] lies between page i and page i + 1. */
  ghost function Run(
      o: Ordering, docs: set<Doc>, cursor: Option<Value>, env: seq<Gap>, limit: nat, budget: nat): (r: seq<Visit>)
    requires UniqueIds(docs) && limit > 0
    ensures r != [] && |r| <= |env| + 1 && r[0] == Visit(docs, SliceOf(o, docs, cursor, limit, budget))
    decreases |env|
  {
    var p := SliceOf(o, docs, cursor, limit, budget);
    if !p.more || env == [] then [Visit(docs, p)]
    else [Visit(docs, p)] + Run(o, ApplyAll(docs, env[0].writes), Some(LastOf(o, p.docs)), env[1..], env[0].limit, budget)
  }

  lemma RunStops(o: Ordering, docs: set<Doc>, cursor: Option<Value>, env: seq<Gap>, limit: nat, budget: nat)
    requires UniqueIds(docs) && limit > 0 && (!SliceOf(o, docs, cursor, limit, budget).more || env == [])
    ensures Run(o, docs, cursor, env, limit, budget) == [Visit(docs, SliceOf(o, docs, cursor, limit, budget))]
  {
  }

  lemma RunGoesOn(o: Ordering, docs: set<Doc>, cursor: Option<Value>, env: seq<Gap>, limit: nat, budget: nat)
    requires UniqueIds(docs) && limit > 0 && SliceOf(o, docs, cursor, limit, budget).more && env != []
    ensures var p := SliceOf(o, docs, cursor, limit, budget);
            Run(o, docs, cursor, env, limit, budget) ==
              [Visit(docs, p)] + Run(o, ApplyAll(docs, env[0].writes), Some(LastOf(o, p.docs)), env[1..], env[0].limit, budget)
  {
  }

  ghost predicate Completed(run: seq<Visit>)
    requires run != []
  {
    !run[|run| - 1].page.more
  }

  function DocsOf(run: seq<Visit>): seq<Doc> {
    if run == [] then [] else run[0].page.docs + DocsOf(run[1..])
  }

  /* ---------------------------------------------------------------- one type of position */

  /** The type `$gt` and `$lt` stay within: strings under `meta`, ObjectIds as `_id`. */
  function TypeOf(o: Ordering): nat {
    match o
    case Log => Bracket(ObjectId([]))
    case ByField(_) => Bracket(Str([]))
  }

  predicate Typed(o: Ordering, d: Doc) {
    PositionOf(o, d) == Null || Bracket(PositionOf(o, d)) == TypeOf(o)
  }

  ghost predicate AllTyped(o: Ordering, docs: set<Doc>) {
    forall d | d in docs :: Typed(o, d)
  }

  /* ---------------------------------------------------------------- runs are keyset walks */

  function OrderOf(o: Ordering): (Value, Value) -> bool {
    (a: Value, b: Value) => Precedes(o, a, b)
  }

  /** The positions some document of the collection has. */
  ghost function Positions(o: Ordering, docs: set<Doc>): set<Value> {
    set d | d in docs && PositionOf(o, d) != Null :: PositionOf(o, d)
  }

  function PositionsOf(o: Ordering, docs: seq<Doc>): (r: seq<Value>)
    ensures |r| == |docs| && forall i | 0 <= i < |r| :: r[i] == PositionOf(o, docs[i])
  {
    seq(|docs|, i requires 0 <= i < |docs| => PositionOf(o, docs[i]))
  }

  /** The positions of one type: beyond its first page a walk can only see those. */
  ghost function OfType(o: Ordering, t: nat, docs: set<Doc>): set<Value> {
    set k | k in Positions(o, docs) && Bracket(k) == t
  }

  ghost function StepOf(o: Ordering, t: nat, v: Visit): KeysetWalk.Step<Value> {
    KeysetWalk.Step(OfType(o, t, v.store), PositionsOf(o, v.page.docs), v.page.more)
  }

  ghost function StepsOf(o: Ordering, t: nat, run: seq<Visit>): (r: seq<KeysetWalk.Step<Value>>)
    ensures |r| == |run| && forall i | 0 <= i < |r| :: r[i] == StepOf(o, t, run[i])
  {
    seq(|run|, i requires 0 <= i < |run| => StepOf(o, t, run[i]))
  }

  /** Every position present is listed. */
  lemma PositionListed(o: Ordering, docs: set<Doc>, k: Value) returns (d: Doc)
    requires UniqueIds(docs) && k in Positions(o, docs)
    ensures d in Listed(o, docs) && PositionOf(o, d) == k
  {
    var e :| e in docs && PositionOf(o, e) != Null && PositionOf(o, e) == k;
    d := e;
    if o.ByField? {
      d := CurrentExists(docs, o.field, e);
    }
  }

  /** The type a walk stays in: its cursor's, or the one its first page ends in. */
  ghost predicate StaysIn(o: Ordering, docs: set<Doc>, cursor: Option<Value>, limit: nat, budget: nat, t: nat)
    requires UniqueIds(docs) && limit > 0
  {
    match cursor
    case Some(v) => Bracket(v) == t
    case None =>
      var p := SliceOf(o, docs, cursor, limit, budget);
      p.more ==> Bracket(LastOf(o, p.docs)) == t
  }

  lemma RowsAscend(o: Ordering, rows: seq<Doc>, docs: set<Doc>, cursor: Option<Value>, n: nat)
    requires IsRows(o, rows, docs, cursor) && n <= |rows|
    ensures Ascending(OrderOf(o), PositionsOf(o, rows[..n]))
    ensures forall k | k in PositionsOf(o, rows[..n]) :: KeysetWalk.Above(OrderOf(o), cursor, k)
  {
    var served := PositionsOf(o, rows[..n]);
    forall i, j | 0 <= i < j < n ensures OrderOf(o)(served[i], served[j]) {
      assert RowOrderOf(o)(rows[i], rows[j]);
    }
    forall k | k in served ensures KeysetWalk.Above(OrderOf(o), cursor, k) {
      var i :| 0 <= i < n && served[i] == k;
      assert rows[i] in rows;
    }
  }

  /** No position of the type is passed over. */
  lemma NoneSkipped(o: Ordering, docs: set<Doc>, cursor: Option<Value>, limit: nat, budget: nat, t: nat, k: Value)
    requires UniqueIds(docs) && limit > 0 && StaysIn(o, docs, cursor, limit, budget, t)
    requires k in OfType(o, t, docs) && KeysetWalk.Above(OrderOf(o), cursor, k)
    ensures var p := SliceOf(o, docs, cursor, limit, budget);
            k in PositionsOf(o, p.docs) || (p.more && Precedes(o, LastOf(o, p.docs), k))
  {
    var rows := Rows(o, docs, cursor);
    var p := SliceOf(o, docs, cursor, limit, budget);
    var d := PositionListed(o, docs, k);
    assert d in rows;
    var i :| 0 <= i < |rows| && rows[i] == d;
    var n := |p.docs|;
    if i < n {
      assert PositionsOf(o, p.docs)[i] == k;
    } else {
      assert p.docs != rows && p.docs[n - 1] == rows[n - 1];
      assert RowOrderOf(o)(rows[n - 1], rows[i]);
    }
  }

  lemma PageIsGood(o: Ordering, docs: set<Doc>, cursor: Option<Value>, limit: nat, budget: nat, t: nat)
    requires UniqueIds(docs) && limit > 0 && StaysIn(o, docs, cursor, limit, budget, t)
    ensures KeysetWalk.GoodPage(OrderOf(o), cursor, StepOf(o, t, Visit(docs, SliceOf(o, docs, cursor, limit, budget))))
  {
    var p := SliceOf(o, docs, cursor, limit, budget);
    var rows := Rows(o, docs, cursor);
    var n := |p.docs|;
    assert p.docs == rows[..n] && (p.more ==> n > 0);
    RowsAscend(o, rows, docs, cursor, n);
    forall k | k in OfType(o, t, docs) && KeysetWalk.Above(OrderOf(o), cursor, k)
      ensures k in PositionsOf(o, p.docs) || (p.more && Precedes(o, LastOf(o, p.docs), k))
    {
      NoneSkipped(o, docs, cursor, limit, budget, t, k);
    }
    SliceIsGood(o, docs, cursor, p, t);
  }

  lemma SliceIsGood(o: Ordering, docs: set<Doc>, cursor: Option<Value>, p: Slice, t: nat)
    requires Ascending(OrderOf(o), PositionsOf(o, p.docs)) && (p.more ==> p.docs != [])
    requires forall k | k in PositionsOf(o, p.docs) :: KeysetWalk.Above(OrderOf(o), cursor, k)
    requires forall k | k in OfType(o, t, docs) && KeysetWalk.Above(OrderOf(o), cursor, k) ::
               k in PositionsOf(o, p.docs) || (p.more && Precedes(o, LastOf(o, p.docs), k))
    ensures KeysetWalk.GoodPage(OrderOf(o), cursor, StepOf(o, t, Visit(docs, p)))
  {
  }

  /** Any page but the first leaves the walk in its type. */
  lemma LastStaysInType(o: Ordering, docs: set<Doc>, cursor: Option<Value>, limit: nat, budget: nat, t: nat)
    requires UniqueIds(docs) && limit > 0 && StaysIn(o, docs, cursor, limit, budget, t)
    requires SliceOf(o, docs, cursor, limit, budget).more
    ensures Bracket(LastOf(o, SliceOf(o, docs, cursor, limit, budget).docs)) == t
  {
    var p := SliceOf(o, docs, cursor, limit, budget);
    assert p.docs[|p.docs| - 1] in Rows(o, docs, cursor);
  }

  /** Whatever is written in between, a walk is a keyset walk over the positions of one type. */
  lemma {:induction false} RunIsGoodWalk(
      o: Ordering, docs: set<Doc>, cursor: Option<Value>, env: seq<Gap>, limit: nat, budget: nat, t: nat)
    requires UniqueIds(docs) && limit > 0 && StaysIn(o, docs, cursor, limit, budget, t)
    ensures KeysetWalk.GoodWalk(OrderOf(o), cursor, StepsOf(o, t, Run(o, docs, cursor, env, limit, budget)))
    decreases |env|
  {
    var p := SliceOf(o, docs, cursor, limit, budget);
    PageIsGood(o, docs, cursor, limit, budget, t);
    if p.more && env != [] {
      LastStaysInType(o, docs, cursor, limit, budget, t);
      var next, c := ApplyAll(docs, env[0].writes), Some(LastOf(o, p.docs));
      RunIsGoodWalk(o, next, c, env[1..], env[0].limit, budget, t);
      Prepend(o, Visit(docs, p), Run(o, next, c, env[1..], env[0].limit, budget), cursor, t);
    }
  }

  lemma Prepend(o: Ordering, v: Visit, run: seq<Visit>, cursor: Option<Value>, t: nat)
    requires v.page.more && v.page.docs != []
    requires KeysetWalk.GoodPage(OrderOf(o), cursor, StepOf(o, t, v))
    requires KeysetWalk.GoodWalk(OrderOf(o), Some(LastOf(o, v.page.docs)), StepsOf(o, t, run))
    ensures KeysetWalk.GoodWalk(OrderOf(o), cursor, StepsOf(o, t, [v] + run))
  {
    assert StepsOf(o, t, [v] + run) == [StepOf(o, t, v)] + StepsOf(o, t, run);
    assert StepsOf(o, t, [v] + run)[1..] == StepsOf(o, t, run);
  }

  /** Every page but the first has rows of the walk's type only. */
  lemma {:induction false} LaterRowsHaveType(
      o: Ordering, docs: set<Doc>, cursor: Option<Value>, env: seq<Gap>, limit: nat, budget: nat, t: nat, k: Value)
    requires UniqueIds(docs) && limit > 0 && StaysIn(o, docs, cursor, limit, budget, t)
    requires k in PositionsOf(o, DocsOf(Run(o, docs, cursor, env, limit, budget)))
    requires cursor == None ==> k !in PositionsOf(o, SliceOf(o, docs, cursor, limit, budget).docs)
    ensures Bracket(k) == t
    decreases |env|
  {
    var p := SliceOf(o, docs, cursor, limit, budget);
    var run := Run(o, docs, cursor, env, limit, budget);
    SplitPositions(o, p.docs, DocsOf(run[1..]));
    if k in PositionsOf(o, p.docs) {
      var i :| 0 <= i < |p.docs| && PositionOf(o, p.docs[i]) == k;
      assert p.docs[i] in Rows(o, docs, cursor);
    } else if p.more && env != [] {
      LastStaysInType(o, docs, cursor, limit, budget, t);
      LaterRowsHaveType(o, ApplyAll(docs, env[0].writes), Some(LastOf(o, p.docs)), env[1..], env[0].limit, budget, t, k);
    }
  }

  lemma SplitPositions(o: Ordering, a: seq<Doc>, b: seq<Doc>)
    ensures PositionsOf(o, a + b) == PositionsOf(o, a) + PositionsOf(o, b)
  {
  }

  lemma OrderOfStrict(o: Ordering)
    ensures StrictOrder(OrderOf(o))
  {
    forall a: Value, b: Value, c: Value
      ensures !OrderOf(o)(a, a)
      ensures OrderOf(o)(a, b) && OrderOf(o)(b, c) ==> OrderOf(o)(a, c)
    {
      PrecedesStrict(o, a, b, c);
    }
  }

  lemma {:induction false} ServedPositions(o: Ordering, t: nat, run: seq<Visit>)
    ensures KeysetWalk.Served(StepsOf(o, t, run)) == PositionsOf(o, DocsOf(run))
  {
    if run != [] {
      ServedPositions(o, t, run[1..]);
      assert StepsOf(o, t, run)[1..] == StepsOf(o, t, run[1..]);
    }
  }
}
