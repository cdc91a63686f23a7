/** The aggregation behind the compacted view, stage by stage, and what it computes. */
module Compaction {
  import opened Bytes
  import opened Wrappers
  import opened Values
  import opened Sorting
  import opened Store

  /* ---------------------------------------------------------------- specification */

  /** a is a later revision than b: by event time, ties broken by id. */
  predicate Newer(a: Doc, b: Doc) {
    a.timestamp > b.timestamp || (a.timestamp == b.timestamp && Less(b.id, a.id))
  }

  ghost predicate Newest(docs: set<Doc>, f: text, d: Doc) {
    forall e | e in docs && e != d && KeyOf(f, e) == KeyOf(f, d) :: Newer(d, e)
  }

  /** The current document of every key. */
  ghost function Current(docs: set<Doc>, f: text): set<Doc> {
    set d | d in docs && KeyOf(f, d) != Null && Newest(docs, f, d)
  }

  predicate Admits(cursor: Option<Value>, v: Value) {
    cursor.Some? ==> Gt(v, cursor.value)
  }

  function ByKey(f: text): (Doc, Doc) -> bool {
    (a: Doc, b: Doc) => Before(KeyOf(f, a), KeyOf(f, b))
  }

  /** rows lists the current documents whose key the cursor admits, by key. */
  ghost predicate IsView(rows: seq<Doc>, docs: set<Doc>, f: text, cursor: Option<Value>) {
    && Ascending(ByKey(f), rows)
    && forall d :: d in rows <==> d in Current(docs, f) && Admits(cursor, KeyOf(f, d))
  }

  lemma ByKeyStrict(f: text)
    ensures StrictOrder(ByKey(f))
  {
    forall a: Doc ensures !ByKey(f)(a, a) { BeforeIrreflexive(KeyOf(f, a)); }
    forall a: Doc, b: Doc, c: Doc | ByKey(f)(a, b) && ByKey(f)(b, c) ensures ByKey(f)(a, c) {
      BeforeTransitive(KeyOf(f, a), KeyOf(f, b), KeyOf(f, c));
    }
  }

  /** A collection has one view. */
  lemma ViewUnique(a: seq<Doc>, b: seq<Doc>, docs: set<Doc>, f: text, cursor: Option<Value>)
    requires IsView(a, docs, f, cursor) && IsView(b, docs, f, cursor)
    ensures a == b
  {
    ByKeyStrict(f);
    AscendingUnique(a, b, ByKey(f));
  }

  lemma NewerTransitive(a: Doc, b: Doc, c: Doc)
    requires Newer(a, b) && Newer(b, c)
    ensures Newer(a, c)
  {
    if Less(b.id, a.id) && Less(c.id, b.id) { LessTransitive(c.id, b.id, a.id); }
  }

  lemma NewerTotal(a: Doc, b: Doc)
    requires a.id != b.id
    ensures Newer(a, b) || Newer(b, a)
  {
    LessTotal(a.id, b.id);
  }

  lemma NewerAsymmetric(a: Doc, b: Doc)
    requires Newer(a, b)
    ensures !Newer(b, a)
  {
    if Newer(b, a) { LessTransitive(a.id, b.id, a.id); LessIrreflexive(a.id); }
  }

  /** Every key present has a current document. */
  lemma {:induction false} CurrentExists(docs: set<Doc>, f: text, d: Doc) returns (c: Doc)
    requires UniqueIds(docs) && d in docs
    ensures c in docs && KeyOf(f, c) == KeyOf(f, d) && Newest(docs, f, c)
    decreases docs
  {
    var others := set e | e in docs && e != d && KeyOf(f, e) == KeyOf(f, d);
    if others == {} {
      assert forall x | x in docs && x != d && KeyOf(f, x) == KeyOf(f, d) :: x in others;
      c := d;
    } else {
      var e :| e in others;
      c := CurrentExists(docs - {d}, f, e);
      NewerTotal(c, d);
      if Newer(d, c) {
        forall x | x in docs && x != d && KeyOf(f, x) == KeyOf(f, d) ensures Newer(d, x) {
          if x != c { NewerTransitive(d, c, x); }
        }
        c := d;
      } else {
        forall x | x in docs && x != c && KeyOf(f, x) == KeyOf(f, d) ensures Newer(c, x) {
          if x != d { assert x in docs - {d}; }
        }
      }
    }
  }

  lemma CurrentUnique(docs: set<Doc>, f: text, a: Doc, b: Doc)
    requires a in Current(docs, f) && b in Current(docs, f) && KeyOf(f, a) == KeyOf(f, b)
    ensures a == b
  {
    if a != b { NewerAsymmetric(a, b); }
  }

  /* ---------------------------------------------------------------- pipeline stages */

  /** $match: the field exists, is not null, and lies beyond the cursor. */
  function Match(scan: seq<Doc>, f: text, cursor: Option<Value>): seq<Doc> {
    Filter(scan, Matching(f, cursor))
  }

  function Matching(f: text, cursor: Option<Value>): Doc -> bool {
    (d: Doc) => KeyOf(f, d) != Null && Admits(cursor, KeyOf(f, d))
  }

  /** The first $sort: field ascending, event time descending, id descending. */
  function RowOrder(f: text): (Doc, Doc) -> bool {
    (a: Doc, b: Doc) => Before(KeyOf(f, a), KeyOf(f, b)) || (KeyOf(f, a) == KeyOf(f, b) && Newer(a, b))
  }

  datatype Group = Group(key: Value, doc: Doc)

  /** $group with $first: one group per key, holding its first row; their order is not specified. */
  ghost predicate IsGrouping(groups: seq<Group>, rows: seq<Doc>, f: text) {
    && (forall i, j :: 0 <= i < j < |groups| ==> groups[i].key != groups[j].key)
    && (forall g | g in groups :: IsFirst(rows, f, g))
    && (forall d | d in rows :: exists g :: g in groups && g.key == KeyOf(f, d))
  }

  ghost predicate IsFirst(rows: seq<Doc>, f: text, g: Group) {
    exists i :: 0 <= i < |rows| && rows[i] == g.doc && g.key == KeyOf(f, rows[i]) &&
      forall j :: 0 <= j < i ==> KeyOf(f, rows[j]) != g.key
  }

  /** The second $sort. */
  function GroupOrder(): (Group, Group) -> bool {
    (a: Group, b: Group) => Before(a.key, b.key)
  }

  function Limit<T>(s: seq<T>, n: nat): seq<T> {
    if |s| <= n then s else s[..n]
  }

  /** $replaceWith $doc. */
  function ReplaceWith(groups: seq<Group>): seq<Doc> {
    seq(|groups|, i requires 0 <= i < |groups| => groups[i].doc)
  }

  /** The pipeline up to $limit, for one order of the groups. */
  ghost function Grouped(scan: seq<Doc>, f: text, cursor: Option<Value>, groups: seq<Group>): seq<Doc>
    requires IsGrouping(groups, Sort(Match(scan, f, cursor), RowOrder(f)), f)
  {
    ReplaceWith(Sort(groups, GroupOrder()))
  }

  /** A scan of the collection in whatever order it is stored. */
  ghost predicate IsScan(scan: seq<Doc>, docs: set<Doc>) {
    && (forall d :: d in scan <==> d in docs)
    && Distinct(scan)
  }

  /* ---------------------------------------------------------------- refinement */

  lemma RowOrderStrict(f: text)
    ensures StrictOrder(RowOrder(f))
  {
    forall a: Doc ensures !RowOrder(f)(a, a) {
      BeforeIrreflexive(KeyOf(f, a));
      LessIrreflexive(a.id);
    }
    forall a: Doc, b: Doc, c: Doc | RowOrder(f)(a, b) && RowOrder(f)(b, c) ensures RowOrder(f)(a, c) {
      BeforeIrreflexive(KeyOf(f, b));
      if KeyOf(f, a) == KeyOf(f, b) == KeyOf(f, c) {
        NewerTransitive(a, b, c);
      } else if Before(KeyOf(f, a), KeyOf(f, b)) && Before(KeyOf(f, b), KeyOf(f, c)) {
        BeforeTransitive(KeyOf(f, a), KeyOf(f, b), KeyOf(f, c));
      }
    }
  }

  /** The sorted rows: exactly the matched documents, in row order. */
  lemma SortedRows(scan: seq<Doc>, docs: set<Doc>, f: text, cursor: Option<Value>)
    requires UniqueIds(docs) && IsScan(scan, docs)
    ensures var rows := Sort(Match(scan, f, cursor), RowOrder(f));
            && Ascending(RowOrder(f), rows)
            && forall d :: d in rows <==> d in docs && KeyOf(f, d) != Null && Admits(cursor, KeyOf(f, d))
  {
    var matched := Match(scan, f, cursor);
    FilterDistinct<Doc>(scan, Matching(f, cursor));
    RowOrderStrict(f);
    forall i, j | 0 <= i < j < |matched|
      ensures RowOrder(f)(matched[i], matched[j]) || RowOrder(f)(matched[j], matched[i])
    {
      assert matched[i] in docs && matched[j] in docs && matched[i] != matched[j];
      NewerTotal(matched[i], matched[j]);
      BeforeTotal(KeyOf(f, matched[i]), KeyOf(f, matched[j]));
    }
    SortAscending(matched, RowOrder(f));
    SameElems(Sort(matched, RowOrder(f)), matched);
  }

  /** $first after the sort picks the current document, although $match ran before it. */
  lemma GroupsAreCurrent(rows: seq<Doc>, docs: set<Doc>, f: text, cursor: Option<Value>, groups: seq<Group>)
    requires UniqueIds(docs) && Ascending(RowOrder(f), rows)
    requires forall d :: d in rows <==> d in docs && KeyOf(f, d) != Null && Admits(cursor, KeyOf(f, d))
    requires IsGrouping(groups, rows, f)
    ensures forall g | g in groups :: g.key == KeyOf(f, g.doc)
    ensures forall d :: (exists g :: g in groups && g.doc == d) <==>
                        d in Current(docs, f) && Admits(cursor, KeyOf(f, d))
  {
    forall g | g in groups
      ensures g.key == KeyOf(f, g.doc) && g.doc in Current(docs, f) && Admits(cursor, g.key)
    {
      assert IsFirst(rows, f, g);
      var i :| 0 <= i < |rows| && rows[i] == g.doc && g.key == KeyOf(f, rows[i]) &&
        forall j :: 0 <= j < i ==> KeyOf(f, rows[j]) != g.key;
      forall e | e in docs && e != g.doc && KeyOf(f, e) == KeyOf(f, g.doc) ensures Newer(g.doc, e) {
        assert e in rows;
        var k :| 0 <= k < |rows| && rows[k] == e;
        assert i < k && RowOrder(f)(rows[i], rows[k]);
        BeforeIrreflexive(g.key);
      }
    }
    forall d | d in Current(docs, f) && Admits(cursor, KeyOf(f, d))
      ensures exists g :: g in groups && g.doc == d
    {
      assert d in rows;
      var g :| g in groups && g.key == KeyOf(f, d);
      CurrentUnique(docs, f, d, g.doc);
    }
  }

  lemma GroupOrderStrict()
    ensures StrictOrder(GroupOrder())
  {
    forall a: Group ensures !GroupOrder()(a, a) { BeforeIrreflexive(a.key); }
    forall a: Group, b: Group, c: Group | GroupOrder()(a, b) && GroupOrder()(b, c) ensures GroupOrder()(a, c) {
      BeforeTransitive(a.key, b.key, c.key);
    }
  }

  lemma GroupsSort(groups: seq<Group>)
    requires forall i, j :: 0 <= i < j < |groups| ==> groups[i].key != groups[j].key
    ensures var sorted := Sort(groups, GroupOrder());
            Ascending(GroupOrder(), sorted) && forall g :: g in sorted <==> g in groups
  {
    GroupOrderStrict();
    forall i, j | 0 <= i < j < |groups|
      ensures GroupOrder()(groups[i], groups[j]) || GroupOrder()(groups[j], groups[i])
    {
      BeforeTotal(groups[i].key, groups[j].key);
    }
    SortAscending(groups, GroupOrder());
    SameElems(Sort(groups, GroupOrder()), groups);
  }

  lemma ReplacedElems(groups: seq<Group>)
    ensures forall d :: d in ReplaceWith(groups) <==> exists g :: g in groups && g.doc == d
  {
    var docs := ReplaceWith(groups);
    forall d ensures d in docs <==> exists g :: g in groups && g.doc == d {
      if d in docs {
        var i :| 0 <= i < |docs| && docs[i] == d;
        assert groups[i] in groups;
      }
      if g :| g in groups && g.doc == d {
        var i :| 0 <= i < |groups| && groups[i] == g;
        assert docs[i] == d;
      }
    }
  }

  /** Whatever order the collection is scanned in and whatever order $group emits,
      the pipeline computes the compacted view. */
  lemma PipelineRefinesView(
      scan: seq<Doc>, docs: set<Doc>, f: text, cursor: Option<Value>, groups: seq<Group>)
    requires UniqueIds(docs) && IsScan(scan, docs)
    requires IsGrouping(groups, Sort(Match(scan, f, cursor), RowOrder(f)), f)
    ensures IsView(Grouped(scan, f, cursor, groups), docs, f, cursor)
  {
    SortedRows(scan, docs, f, cursor);
    GroupsAreCurrent(Sort(Match(scan, f, cursor), RowOrder(f)), docs, f, cursor, groups);
    GroupsSort(groups);
    var sorted := Sort(groups, GroupOrder());
    ReplacedElems(sorted);
    forall i, j | 0 <= i < j < |sorted| ensures Before(KeyOf(f, sorted[i].doc), KeyOf(f, sorted[j].doc)) {
      assert GroupOrder()(sorted[i], sorted[j]) && sorted[i] in groups && sorted[j] in groups;
    }
  }

  /* ---------------------------------------------------------------- the view as a value */

  ghost function ScanOf(docs: set<Doc>): (scan: seq<Doc>)
    ensures IsScan(scan, docs)
  {
    if docs == {} then []
    else
      var d :| d in docs;
      [d] + ScanOf(docs - {d})
  }

  /** The grouping that emits keys in the order their first rows arrive. */
  function GroupsOf(rows: seq<Doc>, f: text): (groups: seq<Group>)
    ensures IsGrouping(groups, rows, f)
  {
    if rows == [] then []
    else
      var init, d := rows[..|rows| - 1], rows[|rows| - 1];
      assert rows == init + [d];
      var groups := GroupsOf(init, f);
      var next := if HasGroup(groups, KeyOf(f, d)) then groups else groups + [Group(KeyOf(f, d), d)];
      ExtendGrouping(groups, init, d, f, next);
      next
  }

  predicate HasGroup(groups: seq<Group>, key: Value) {
    exists g | g in groups :: g.key == key
  }

  lemma FirstsExtend(groups: seq<Group>, rows: seq<Doc>, d: Doc, f: text)
    requires IsGrouping(groups, rows, f)
    ensures forall g | g in groups :: IsFirst(rows + [d], f, g)
    ensures !HasGroup(groups, KeyOf(f, d)) ==> IsFirst(rows + [d], f, Group(KeyOf(f, d), d))
  {
    var more := rows + [d];
    forall g | g in groups ensures IsFirst(more, f, g) {
      assert IsFirst(rows, f, g);
      var i :| 0 <= i < |rows| && rows[i] == g.doc && g.key == KeyOf(f, rows[i]) &&
        forall j :: 0 <= j < i ==> KeyOf(f, rows[j]) != g.key;
      assert more[i] == g.doc;
    }
    if !HasGroup(groups, KeyOf(f, d)) {
      assert more[|rows|] == d;
      assert forall j :: 0 <= j < |rows| ==> more[j] in rows && KeyOf(f, more[j]) != KeyOf(f, d);
    }
  }

  /** Taking in one more row: a new key adds a group anywhere, a known one changes nothing. */
  lemma ExtendGrouping(groups: seq<Group>, rows: seq<Doc>, d: Doc, f: text, next: seq<Group>)
    requires IsGrouping(groups, rows, f)
    requires var g := Group(KeyOf(f, d), d);
             if HasGroup(groups, g.key) then next == groups else next == groups + [g] || next == [g] + groups
    ensures IsGrouping(next, rows + [d], f)
  {
    FirstsExtend(groups, rows, d, f);
    var g := Group(KeyOf(f, d), d);
    assert forall h :: h in next ==> h in groups || h == g;
    assert forall h :: h in groups ==> h in next;
    assert !HasGroup(groups, g.key) ==> g in next;
    EveryRowGrouped(groups, rows, d, f, next);
    assert forall i, j :: 0 <= i < j < |next| ==> next[i].key != next[j].key;
  }

  lemma EveryRowGrouped(groups: seq<Group>, rows: seq<Doc>, d: Doc, f: text, next: seq<Group>)
    requires forall e | e in rows :: exists g :: g in groups && g.key == KeyOf(f, e)
    requires forall h :: h in groups ==> h in next
    requires HasGroup(groups, KeyOf(f, d)) || Group(KeyOf(f, d), d) in next
    ensures forall e | e in rows + [d] :: exists g :: g in next && g.key == KeyOf(f, e)
  {
    forall e | e in rows + [d] ensures exists h :: h in next && h.key == KeyOf(f, e) {
      if e in rows {
        var h :| h in groups && h.key == KeyOf(f, e);
        assert h in next;
      }
    }
  }

  /** A document is current exactly when no other of its key has a later event time, or the same and a greater id. */
  lemma CurrentIff(docs: set<Doc>, f: text, d: Doc)
    requires UniqueIds(docs)
    ensures d in Current(docs, f) <==>
            && d in docs && f in d.meta && d.meta[f] != Null
            && forall e | e in docs && f in e.meta && e.meta[f] == d.meta[f] ::
                 e.timestamp < d.timestamp || (e.timestamp == d.timestamp && (e.id == d.id || Less(e.id, d.id)))
  {
    if d in docs && f in d.meta && d.meta[f] != Null {
      forall e | e in docs && e != d && f in e.meta && e.meta[f] == d.meta[f]
        ensures Newer(d, e) <==> e.timestamp < d.timestamp || (e.timestamp == d.timestamp && (e.id == d.id || Less(e.id, d.id)))
      {
        assert e.id != d.id;
      }
    }
  }

  /** The compacted view beyond a cursor. */
  ghost function View(docs: set<Doc>, f: text, cursor: Option<Value>): (rows: seq<Doc>)
    requires UniqueIds(docs)
    ensures IsView(rows, docs, f, cursor)
  {
    ViewExists(docs, f, cursor);
    var rows :| IsView(rows, docs, f, cursor);
    rows
  }

  lemma ViewExists(docs: set<Doc>, f: text, cursor: Option<Value>)
    requires UniqueIds(docs)
    ensures exists rows :: IsView(rows, docs, f, cursor)
  {
    var scan := ScanOf(docs);
    var groups := GroupsOf(Sort(Match(scan, f, cursor), RowOrder(f)), f);
    PipelineRefinesView(scan, docs, f, cursor, groups);
  }

  /** Filtering by the cursor before grouping is filtering the grouped result. */
  lemma CursorPushdown(docs: set<Doc>, f: text, c: Value)
    requires UniqueIds(docs)
    ensures View(docs, f, Some(c)) == Filter(View(docs, f, None), (d: Doc) => Gt(KeyOf(f, d), c))
  {
    var p := (d: Doc) => Gt(KeyOf(f, d), c);
    FilterAscending(View(docs, f, None), p, ByKey(f));
    ViewUnique(View(docs, f, Some(c)), Filter(View(docs, f, None), p), docs, f, Some(c));
  }
}
