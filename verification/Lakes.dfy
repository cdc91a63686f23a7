/** The document store: databases of collections, shared by every writer and the bridge. */
module Lakes {
  import opened Bytes
  import opened Sorting
  import opened Store
  import opened Compaction

  datatype Target = Target(db: text, collection: text)

  class Lake {
    var collections: map<Target, set<Doc>>

    ghost predicate Valid()
      reads this
    {
      forall t | t in collections :: UniqueIds(collections[t])
    }

    constructor ()
      ensures Valid() && collections == map[]
    {
      collections := map[];
    }

    function DocsIn(t: Target): set<Doc>
      reads this
    {
      if t in collections then collections[t] else {}
    }

    /** The first insert creates its collection. */
    method Perform(t: Target, w: Write)
      requires Valid()
      modifies this
      ensures Valid() && DocsIn(t) == Apply(old(DocsIn(t)), w)
      ensures collections.Keys == old(collections.Keys) + (if w.Insert? then {t} else {})
      ensures forall u | u != t :: DocsIn(u) == old(DocsIn(u))
    {
      var docs := DocsIn(t);
      if t in collections || w.Insert? {
        collections := collections[t := Apply(docs, w)];
      }
    }

    method PerformAll(t: Target, ws: seq<Write>)
      requires Valid()
      modifies this
      ensures Valid() && DocsIn(t) == ApplyAll(old(DocsIn(t)), ws)
      ensures old(collections.Keys) <= collections.Keys
      ensures forall u | u != t :: DocsIn(u) == old(DocsIn(u))
    {
      for i := 0 to |ws|
        invariant Valid() && ApplyAll(DocsIn(t), ws[i..]) == ApplyAll(old(DocsIn(t)), ws)
        invariant old(collections.Keys) <= collections.Keys
        invariant forall u | u != t :: DocsIn(u) == old(DocsIn(u))
      {
        Perform(t, ws[i]);
        assert ws[i..][0] == ws[i] && ws[i..][1..] == ws[i + 1..];
      }
    }
  }

  /** Reads a collection in an order of the server's choosing. */
  method Scan(docs: set<Doc>) returns (scan: seq<Doc>)
    ensures IsScan(scan, docs)
  {
    var rest := docs;
    scan := [];
    while rest != {}
      invariant rest <= docs && IsScan(scan, docs - rest)
      decreases rest
    {
      var d :| d in rest;
      rest := rest - {d};
      if * { scan := scan + [d]; } else { scan := [d] + scan; }
    }
    assert docs - rest == docs;
  }

  /** One group per key with its first row; where a new group goes is the server's choice. */
  method GroupRows(rows: seq<Doc>, f: text) returns (groups: seq<Group>)
    ensures IsGrouping(groups, rows, f)
  {
    groups := [];
    for i := 0 to |rows|
      invariant IsGrouping(groups, rows[..i], f)
    {
      var d := rows[i];
      assert rows[..i + 1] == rows[..i] + [d];
      var next := groups;
      if !HasGroup(groups, KeyOf(f, d)) {
        if * {
          next := groups + [Group(KeyOf(f, d), d)];
        } else {
          next := [Group(KeyOf(f, d), d)] + groups;
        }
      }
      ExtendGrouping(groups, rows[..i], d, f, next);
      groups := next;
    }
    assert rows[..|rows|] == rows;
  }
}
