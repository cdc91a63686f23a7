/** Numbers as byte strings, and more of them than hashes. */
module Pigeonhole {
  import opened Bytes
  import opened Sorting

  function Power(k: nat): nat {
    if k == 0 then 1 else 256 * Power(k - 1)
  }

  /** n in k bytes, the low byte first. */
  function Digits(n: nat, k: nat): (t: text)
    ensures |t| == k
  {
    if k == 0 then [] else [n % 256] + Digits(n / 256, k - 1)
  }

  function ValueOf(t: text): nat {
    if t == [] then 0 else t[0] + 256 * ValueOf(t[1..])
  }

  lemma {:induction false} DigitsRoundTrip(n: nat, k: nat)
    requires n < Power(k)
    ensures ValueOf(Digits(n, k)) == n
  {
    if k > 0 {
      DigitsRoundTrip(n / 256, k - 1);
      assert Digits(n, k)[1..] == Digits(n / 256, k - 1);
    }
  }

  lemma {:induction false} ValueRoundTrip(t: text)
    ensures ValueOf(t) < Power(|t|) && Digits(ValueOf(t), |t|) == t
  {
    if t != [] {
      ValueRoundTrip(t[1..]);
      assert [t[0]] + t[1..] == t;
    }
  }

  function UpTo(n: nat): (s: set<nat>)
    ensures forall i: nat :: i in s <==> i < n
  {
    if n == 0 then {} else UpTo(n - 1) + {n - 1}
  }

  lemma {:induction false} UpToCount(n: nat)
    ensures |UpTo(n)| == n
  {
    if n > 0 {
      UpToCount(n - 1);
    }
  }

  /** One value more than there are places. */
  lemma TwoShareAPlace(n: nat, f: nat -> nat) returns (i: nat, j: nat)
    requires forall k: nat | k <= n :: f(k) < n
    ensures i < j <= n && f(i) == f(j)
  {
    UpToCount(n);
    UpToCount(n + 1);
    if p: nat, q: nat :| p < q <= n && f(p) == f(q) {
      i, j := p, q;
    } else {
      var image := set k | k in UpTo(n + 1) :: f(k);
      Fewer(image, UpTo(n));
      forall x, y | x in UpTo(n + 1) && y in UpTo(n + 1) && f(x) == f(y) ensures x == y {}
      ImageCount(UpTo(n + 1), f, image);
      assert false;
    }
  }
}
