/** Go strings and byte slices. */
module Bytes {
  type byte = x: int | 0 <= x < 256

  type text = seq<byte>

  /** The bytes of an ASCII literal. */
  function Ascii(s: string): text {
    seq(|s|, i requires 0 <= i < |s| => s[i] as int % 256)
  }

  /** The byte-wise order MongoDB sorts strings and ObjectIds by. */
  predicate Less(a: text, b: text) {
    b != [] && (a == [] || a[0] < b[0] || (a[0] == b[0] && Less(a[1..], b[1..])))
  }

  lemma LessIrreflexive(a: text)
    ensures !Less(a, a)
  {
  }

  lemma LessTransitive(a: text, b: text, c: text)
    requires Less(a, b) && Less(b, c)
    ensures Less(a, c)
  {
  }

  lemma LessTotal(a: text, b: text)
    ensures a == b || Less(a, b) || Less(b, a)
  {
    if a != [] && b != [] && a[0] == b[0] {
      LessTotal(a[1..], b[1..]);
      assert a == [a[0]] + a[1..] && b == [b[0]] + b[1..];
    }
  }

  /** a and b agree on i bytes, after which a ends or has the smaller byte. */
  predicate SmallerAt(a: text, b: text, i: nat) {
    i <= |a| && i < |b| && a[..i] == b[..i] && (i == |a| || a[i] < b[i])
  }

  lemma SmallerTail(a: text, b: text, i: nat)
    requires a != [] && b != [] && a[0] == b[0]
    ensures SmallerAt(a, b, i + 1) <==> SmallerAt(a[1..], b[1..], i)
  {
    if i + 1 <= |a| && i + 1 < |b| {
      assert a[..i + 1] == [a[0]] + a[1..][..i] && b[..i + 1] == [b[0]] + b[1..][..i];
    }
  }

  /** The order is the lexicographic one of unsigned bytes, a prefix before what it begins. */
  lemma {:induction false} LessIff(a: text, b: text)
    ensures Less(a, b) <==> exists i :: SmallerAt(a, b, i)
  {
    if a == [] || b == [] || a[0] != b[0] {
      if Less(a, b) { assert SmallerAt(a, b, 0); }
    } else {
      LessIff(a[1..], b[1..]);
      if Less(a, b) {
        var i: nat :| SmallerAt(a[1..], b[1..], i);
        SmallerTail(a, b, i);
      }
      if i: nat :| SmallerAt(a, b, i) {
        assert !SmallerAt(a, b, 0);
        SmallerTail(a, b, i - 1);
      }
    }
  }
}
