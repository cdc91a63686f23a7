/** Sequences in the order of a strict comparison, as `$sort` produces them. */
module Sorting {

  function Elems<T>(s: seq<T>): set<T> {
    set x | x in s
  }

  function Filter<T(!new)>(s: seq<T>, p: T -> bool): (r: seq<T>)
    ensures forall x :: x in r <==> x in s && p(x)
  {
    if s == [] then []
    else (if p(s[0]) then [s[0]] else []) + Filter(s[1..], p)
  }

  ghost predicate Distinct<T>(s: seq<T>) {
    forall i, j :: 0 <= i < j < |s| ==> s[i] != s[j]
  }

  ghost predicate StrictOrder<T(!new)>(before: (T, T) -> bool) {
    && (forall a :: !before(a, a))
    && (forall a, b, c :: before(a, b) && before(b, c) ==> before(a, c))
  }

  /** The comparison decides between any two positions of s. */
  ghost predicate Decides<T(!new)>(before: (T, T) -> bool, s: seq<T>) {
    forall i, j :: 0 <= i < j < |s| ==> before(s[i], s[j]) || before(s[j], s[i])
  }

  ghost predicate Ascending<T(!new)>(before: (T, T) -> bool, s: seq<T>) {
    forall i, j :: 0 <= i < j < |s| ==> before(s[i], s[j])
  }

  function Insert<T>(x: T, s: seq<T>, before: (T, T) -> bool): (r: seq<T>)
    ensures multiset(r) == multiset(s) + multiset{x}
  {
    if s == [] || before(x, s[0]) then [x] + s
    else
      assert s == [s[0]] + s[1..];
      [s[0]] + Insert(x, s[1..], before)
  }

  function Sort<T>(s: seq<T>, before: (T, T) -> bool): (r: seq<T>)
    ensures multiset(r) == multiset(s)
  {
    if s == [] then []
    else
      assert s == [s[0]] + s[1..];
      Insert(s[0], Sort(s[1..], before), before)
  }

  lemma SameElems<T(!new)>(a: seq<T>, b: seq<T>)
    requires multiset(a) == multiset(b)
    ensures |a| == |b| && Elems(a) == Elems(b)
    ensures forall x :: x in a <==> x in b
  {
    assert |multiset(a)| == |multiset(b)|;
    forall x ensures x in a <==> x in b {
      assert x in a <==> x in multiset(a);
      assert x in b <==> x in multiset(b);
    }
  }

  lemma {:induction false} InsertAscending<T(!new)>(x: T, s: seq<T>, before: (T, T) -> bool)
    requires StrictOrder(before) && Ascending(before, s)
    requires forall y :: y in s ==> before(x, y) || before(y, x)
    ensures Ascending(before, Insert(x, s, before))
  {
    var r := Insert(x, s, before);
    if s == [] || before(x, s[0]) {
      forall j | 1 <= j < |r| ensures before(x, r[j]) {
        assert r[j] == s[j - 1];
      }
    } else {
      InsertAscending(x, s[1..], before);
      var t := Insert(x, s[1..], before);
      forall j | 1 <= j < |r| ensures before(s[0], r[j]) {
        assert r[j] == t[j - 1] && t[j - 1] in multiset(t);
        assert r[j] == x || r[j] in s[1..];
        if r[j] != x {
          var k :| 0 <= k < |s| - 1 && s[1..][k] == r[j];
          assert s[1 + k] == r[j];
        }
      }
    }
  }

  lemma {:induction false} SortAscending<T(!new)>(s: seq<T>, before: (T, T) -> bool)
    requires StrictOrder(before) && Decides(before, s)
    ensures Ascending(before, Sort(s, before))
  {
    if s != [] {
      SortAscending(s[1..], before);
      SameElems(Sort(s[1..], before), s[1..]);
      forall y | y in s[1..] ensures before(s[0], y) || before(y, s[0]) {
        var k :| 0 <= k < |s| - 1 && s[1..][k] == y;
        assert s[1 + k] == y;
      }
      InsertAscending(s[0], Sort(s[1..], before), before);
    }
  }

  /** A set has one ascending listing. */
  lemma {:induction false} AscendingUnique<T(!new)>(a: seq<T>, b: seq<T>, before: (T, T) -> bool)
    requires StrictOrder(before) && Ascending(before, a) && Ascending(before, b)
    requires forall x :: x in a <==> x in b
    ensures a == b
  {
    if a == [] {
      assert Elems(b) == {};
      assert forall i :: 0 <= i < |b| ==> b[i] in Elems(b);
    } else {
      assert a[0] in b && b != [] && b[0] in a;
      assert a[0] == b[0];
      TailElems(a, before);
      TailElems(b, before);
      AscendingUnique(a[1..], b[1..], before);
      assert a == [a[0]] + a[1..] && b == [b[0]] + b[1..];
    }
  }

  lemma TailElems<T(!new)>(a: seq<T>, before: (T, T) -> bool)
    requires a != [] && StrictOrder(before) && Ascending(before, a)
    ensures forall x :: x in a[1..] <==> x in a && x != a[0]
  {
    forall x ensures x in a[1..] <==> x in a && x != a[0] {
      if x in a[1..] {
        var k :| 0 <= k < |a| - 1 && a[1..][k] == x;
        assert a[k + 1] == x && before(a[0], x);
      }
      if x in a && x != a[0] {
        var k :| 0 <= k < |a| && a[k] == x;
        assert a[1..][k - 1] == x;
      }
    }
  }

  lemma FilterAll<T(!new)>(s: seq<T>, p: T -> bool)
    requires forall x :: x in s ==> p(x)
    ensures Filter(s, p) == s
  {
    if s != [] { FilterAll(s[1..], p); }
  }

  lemma FilterLength<T(!new)>(s: seq<T>, p: T -> bool)
    ensures |Filter(s, p)| <= |s|
  {
  }

  lemma {:induction false} DistinctCount<T(!new)>(s: seq<T>, e: set<T>)
    requires Distinct(s) && forall x :: x in s <==> x in e
    ensures |s| == |e|
  {
    if s == [] {
      assert e == {};
    } else {
      forall x ensures x in s[1..] <==> x in e - {s[0]} {
        if x in e - {s[0]} {
          var k :| 0 <= k < |s| && s[k] == x;
          assert s[1..][k - 1] == x;
        }
      }
      DistinctCount(s[1..], e - {s[0]});
    }
  }

  lemma Fewer<T>(a: set<T>, b: set<T>)
    requires a <= b
    ensures |a| <= |b|
  {
    if a != b {
      var x :| x in b && x !in a;
      Fewer(a, b - {x});
    }
  }

  lemma {:induction false} ImageCount<A(!new), B(!new)>(a: set<A>, f: A -> B, b: set<B>)
    requires forall x, y | x in a && y in a && f(x) == f(y) :: x == y
    requires forall y :: y in b <==> exists x | x in a :: f(x) == y
    ensures |a| == |b|
    decreases a
  {
    if a == {} {
      assert b == {};
    } else {
      var x :| x in a;
      assert f(x) in b;
      forall y ensures y in b - {f(x)} <==> exists z | z in a - {x} :: f(z) == y {
        if y in b - {f(x)} {
          var z :| z in a && f(z) == y;
          assert z in a - {x};
        }
      }
      ImageCount(a - {x}, f, b - {f(x)});
    }
  }

  lemma FilterDistinct<T(!new)>(s: seq<T>, p: T -> bool)
    requires Distinct(s)
    ensures Distinct(Filter(s, p))
  {
    if s != [] {
      FilterDistinct(s[1..], p);
      forall y | y in Filter(s[1..], p) ensures y != s[0] {
        var k :| 0 <= k < |s| - 1 && s[1..][k] == y;
        assert s[k + 1] == y;
      }
    }
  }

  lemma FilterAscending<T(!new)>(s: seq<T>, p: T -> bool, before: (T, T) -> bool)
    requires Ascending(before, s)
    ensures Ascending(before, Filter(s, p))
  {
    if s != [] {
      FilterAscending(s[1..], p, before);
      var r := Filter(s[1..], p);
      forall y | y in r ensures before(s[0], y) {
        var k :| 0 <= k < |s| - 1 && s[1..][k] == y;
        assert s[k + 1] == y;
      }
    }
  }
}
