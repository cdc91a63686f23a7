/** Paging by last key over a set of keys that changes between pages, for any strict order. */
module KeysetWalk {
  import opened Wrappers
  import opened Sorting

  /** One page read: the keys there were, the keys served, and whether a continuation was offered. */
  datatype Step<K> = Step(present: set<K>, served: seq<K>, more: bool)

  ghost predicate Above<K>(before: (K, K) -> bool, lo: Option<K>, k: K) {
    lo.Some? ==> before(lo.value, k)
  }

  /** A page serves the next keys above lo without a gap, and offers a continuation if any are left. */
  ghost predicate GoodPage<K(!new)>(before: (K, K) -> bool, lo: Option<K>, s: Step<K>) {
    && Ascending(before, s.served)
    && (forall k | k in s.served :: Above(before, lo, k))
    && (s.more ==> s.served != [])
    && (forall k | k in s.present && Above(before, lo, k) ::
          k in s.served || (s.more && before(s.served[|s.served| - 1], k)))
  }

  /** Each page goes on from the last key of the one before. */
  ghost predicate GoodWalk<K(!new)>(before: (K, K) -> bool, lo: Option<K>, steps: seq<Step<K>>)
    decreases |steps|
  {
    && steps != []
    && GoodPage(before, lo, steps[0])
    && (|steps| > 1 ==>
          steps[0].more && GoodWalk(before, Some(steps[0].served[|steps[0].served| - 1]), steps[1..]))
  }

  function Served<K>(steps: seq<Step<K>>): seq<K> {
    if steps == [] then [] else steps[0].served + Served(steps[1..])
  }

  /** Whatever is inserted or removed between pages, keys are served in strictly ascending order. */
  lemma {:induction false} ServedAscending<K(!new)>(before: (K, K) -> bool, lo: Option<K>, steps: seq<Step<K>>)
    requires StrictOrder(before) && GoodWalk(before, lo, steps)
    ensures Ascending(before, Served(steps))
    ensures forall k | k in Served(steps) :: Above(before, lo, k)
    decreases |steps|
  {
    var s, rest := steps[0].served, steps[1..];
    if |steps| > 1 {
      var last := s[|s| - 1];
      ServedAscending(before, Some(last), rest);
      var later := Served(rest);
      forall i, j | 0 <= i < |s| && 0 <= j < |later| ensures before(s[i], later[j]) {
        assert later[j] in later && Above(before, Some(last), later[j]);
        assert i == |s| - 1 || before(s[i], last);
      }
      forall k | k in later ensures Above(before, lo, k) {
        assert last in s && before(last, k);
      }
    } else {
      assert Served(rest) == [] && s + [] == s;
    }
  }

  /** A walk that ends has served every key present at each of its pages. */
  lemma {:induction false} PresentIsServed<K(!new)>(before: (K, K) -> bool, lo: Option<K>, steps: seq<Step<K>>, k: K)
    requires GoodWalk(before, lo, steps) && !steps[|steps| - 1].more
    requires Above(before, lo, k) && forall s | s in steps :: k in s.present
    ensures k in Served(steps)
    decreases |steps|
  {
    var s, rest := steps[0].served, steps[1..];
    assert steps[0] in steps;
    if k !in s {
      assert forall t | t in rest :: t in steps;
      PresentIsServed(before, Some(s[|s| - 1]), rest, k);
    }
  }
}
