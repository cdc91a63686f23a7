/** Late arrivals: the compacted view depends on what was written, not on when. */
module Backfill {
  import opened Bytes
  import opened Values
  import opened Sorting
  import opened Store
  import opened Compaction

  /** A consumer's table of the newest document seen per key. */
  function KeepNewest(table: map<Value, Doc>, f: text, d: Doc): map<Value, Doc> {
    var k := KeyOf(f, d);
    if k == Null || (k in table && Newer(table[k], d)) then table else table[k := d]
  }

  function KeepAll(f: text, arrivals: seq<Doc>): map<Value, Doc> {
    if arrivals == [] then map[]
    else KeepNewest(KeepAll(f, arrivals[..|arrivals| - 1]), f, arrivals[|arrivals| - 1])
  }

  /** The table holds the current documents and nothing else. */
  ghost predicate IsTableOf(table: map<Value, Doc>, docs: set<Doc>, f: text) {
    && (forall k | k in table :: table[k] in Current(docs, f) && KeyOf(f, table[k]) == k)
    && forall d | d in Current(docs, f) :: KeyOf(f, d) in table
  }

  /** A new document changes the current documents only when nothing newer has its key, and then
      only under that key. */
  lemma ArrivalEffect(docs: set<Doc>, f: text, d: Doc)
    requires UniqueIds(docs + {d}) && d !in docs && KeyOf(f, d) != Null
    ensures Current(docs + {d}, f) ==
            if exists e | e in docs :: KeyOf(f, e) == KeyOf(f, d) && Newer(e, d) then Current(docs, f)
            else (set e | e in Current(docs, f) && KeyOf(f, e) != KeyOf(f, d)) + {d}
  {
    var all := docs + {d};
    assert UniqueIds(docs);
    forall e | e in docs && KeyOf(f, e) == KeyOf(f, d) ensures Newer(e, d) != Newer(d, e) {
      NewerTotal(d, e);
      if Newer(e, d) { NewerAsymmetric(e, d); }
    }
    if e0 :| e0 in docs && KeyOf(f, e0) == KeyOf(f, d) && Newer(e0, d) {
      forall e | e in Current(docs, f) && KeyOf(f, e) == KeyOf(f, d) ensures Newer(e, d) {
        if e != e0 { NewerTransitive(e, e0, d); }
      }
      assert Current(all, f) == Current(docs, f);
    } else {
      assert forall e | e in docs && KeyOf(f, e) != KeyOf(f, d) :: Newest(all, f, e) <==> Newest(docs, f, e);
      assert d in Current(all, f);
    }
  }

  /** Keeping the newest of whatever arrives, in any order, ends with the batch view's documents. */
  lemma {:induction false} IncrementalAgreesWithBatch(f: text, arrivals: seq<Doc>)
    requires Distinct(arrivals) && UniqueIds(Elems(arrivals))
    ensures IsTableOf(KeepAll(f, arrivals), Elems(arrivals), f)
  {
    if arrivals != [] {
      var init, d := arrivals[..|arrivals| - 1], arrivals[|arrivals| - 1];
      var docs, table := Elems(init), KeepAll(f, init);
      assert arrivals == init + [d];
      assert Elems(arrivals) == docs + {d};
      IncrementalAgreesWithBatch(f, init);
      KeepNewestStep(table, docs, f, d);
    }
  }

  lemma UnkeyedChangesNothing(docs: set<Doc>, f: text, d: Doc)
    requires KeyOf(f, d) == Null
    ensures Current(docs + {d}, f) == Current(docs, f)
  {
    forall e | e in docs && KeyOf(f, e) != Null ensures Newest(docs + {d}, f, e) <==> Newest(docs, f, e) {}
  }

  lemma KeepNewestStep(table: map<Value, Doc>, docs: set<Doc>, f: text, d: Doc)
    requires UniqueIds(docs + {d}) && d !in docs && IsTableOf(table, docs, f)
    ensures IsTableOf(KeepNewest(table, f, d), docs + {d}, f)
  {
    var k := KeyOf(f, d);
    if k == Null {
      UnkeyedChangesNothing(docs, f, d);
    } else {
      ArrivalEffect(docs, f, d);
      TableKnowsNewer(table, docs, f, d);
      if !(k in table && Newer(table[k], d)) {
        TableTakesOver(table, Current(docs, f), f, d, Current(docs + {d}, f));
      }
    }
  }

  lemma TableTakesOver(table: map<Value, Doc>, before: set<Doc>, f: text, d: Doc, after: set<Doc>)
    requires forall k | k in table :: table[k] in before && KeyOf(f, table[k]) == k
    requires forall e | e in before :: KeyOf(f, e) in table
    requires after == (set e | e in before && KeyOf(f, e) != KeyOf(f, d)) + {d}
    ensures var next := table[KeyOf(f, d) := d];
            && (forall k | k in next :: next[k] in after && KeyOf(f, next[k]) == k)
            && (forall e | e in after :: KeyOf(f, e) in next)
  {
  }

  /** The table's entry is newer than d exactly when some stored document is. */
  lemma TableKnowsNewer(table: map<Value, Doc>, docs: set<Doc>, f: text, d: Doc)
    requires UniqueIds(docs) && IsTableOf(table, docs, f) && KeyOf(f, d) != Null
    ensures (exists e | e in docs :: KeyOf(f, e) == KeyOf(f, d) && Newer(e, d)) <==>
            KeyOf(f, d) in table && Newer(table[KeyOf(f, d)], d)
  {
    var k := KeyOf(f, d);
    if e :| e in docs && KeyOf(f, e) == k && Newer(e, d) {
      var c := CurrentExists(docs, f, e);
      assert c in Current(docs, f);
      CurrentUnique(docs, f, c, table[k]);
      if c != e { NewerTransitive(c, e, d); }
    }
  }

  /** Two arrival orders of the same documents give the same table. */
  lemma ArrivalOrderIsIrrelevant(f: text, a: seq<Doc>, b: seq<Doc>)
    requires Distinct(a) && Distinct(b) && Elems(a) == Elems(b) && UniqueIds(Elems(a))
    ensures KeepAll(f, a) == KeepAll(f, b)
  {
    IncrementalAgreesWithBatch(f, a);
    IncrementalAgreesWithBatch(f, b);
    TablesAgree(KeepAll(f, a), KeepAll(f, b), Elems(a), f);
    TablesAgree(KeepAll(f, b), KeepAll(f, a), Elems(a), f);
  }

  lemma TablesAgree(s: map<Value, Doc>, t: map<Value, Doc>, docs: set<Doc>, f: text)
    requires IsTableOf(s, docs, f) && IsTableOf(t, docs, f)
    ensures forall k | k in s :: k in t && s[k] == t[k]
  {
    forall k | k in s ensures k in t && s[k] == t[k] {
      assert KeyOf(f, s[k]) in t;
      CurrentUnique(docs, f, s[k], t[k]);
    }
  }
}
