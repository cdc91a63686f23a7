/** Go's strings.Split, strings.SplitN with a limit of two, and strings.Join, for one-byte separators. */
module Strings {
  import opened Bytes

  function Split(s: text, sep: byte): (parts: seq<text>)
    ensures parts != []
  {
    if s == [] then [[]]
    else
      var rest := Split(s[1..], sep);
      if s[0] == sep then [[]] + rest else [[s[0]] + rest[0]] + rest[1..]
  }

  function Join(parts: seq<text>, sep: byte): text {
    if parts == [] then []
    else if |parts| == 1 then parts[0]
    else parts[0] + [sep] + Join(parts[1..], sep)
  }

  const DOT: byte := 46
  const SLASH: byte := 47
  const COLON: byte := 58

  /** The text before the first separator and the text after it; none when sep does not occur. */
  function Cut(s: text, sep: byte): (parts: seq<text>)
    ensures |parts| == if sep in s then 2 else 1
    ensures sep in s ==> s == parts[0] + [sep] + parts[1]
    ensures sep !in parts[0]
    ensures sep !in s ==> parts == [s]
  {
    if s == [] then [s]
    else if s[0] == sep then
      assert s == [] + [sep] + s[1..];
      [[], s[1..]]
    else
      var rest := Cut(s[1..], sep);
      assert s == [s[0]] + s[1..];
      [[s[0]] + rest[0]] + rest[1..]
  }

  lemma {:induction false} JoinSplit(s: text, sep: byte)
    ensures Join(Split(s, sep), sep) == s
  {
    if s != [] {
      JoinSplit(s[1..], sep);
      var rest := Split(s[1..], sep);
      assert s == [s[0]] + s[1..];
      if s[0] == sep {
        assert Split(s, sep)[1..] == rest;
      } else if |rest| > 1 {
        assert Split(s, sep)[1..] == rest[1..];
      }
    }
  }

  lemma {:induction false} PartsLackSep(s: text, sep: byte)
    ensures forall p | p in Split(s, sep) :: sep !in p
  {
    if s != [] { PartsLackSep(s[1..], sep); }
  }

  /** Splitting around a separator splits both sides. */
  lemma {:induction false} SplitConcat(a: text, b: text, sep: byte)
    ensures Split(a + [sep] + b, sep) == Split(a, sep) + Split(b, sep)
  {
    var s := a + [sep] + b;
    if a == [] {
      assert s[1..] == b;
    } else {
      SplitConcat(a[1..], b, sep);
      assert s[1..] == a[1..] + [sep] + b;
      var rest, more := Split(a[1..], sep), Split(b, sep);
      TailOfConcat(rest, more);
      Associative([[]], rest, more);
      Associative([[a[0]] + rest[0]], rest[1..], more);
    }
  }

  lemma Associative<T>(a: seq<T>, b: seq<T>, c: seq<T>)
    ensures a + (b + c) == (a + b) + c
  {
  }

  lemma TailOfConcat<T>(a: seq<T>, b: seq<T>)
    requires a != []
    ensures (a + b)[0] == a[0] && (a + b)[1..] == a[1..] + b
  {
  }

  lemma {:induction false} SplitNone(p: text, sep: byte)
    requires sep !in p
    ensures Split(p, sep) == [p]
  {
    if p != [] {
      SplitNone(p[1..], sep);
      assert [p[0]] + p[1..] == p;
    }
  }

  lemma {:induction false} SplitJoin(parts: seq<text>, sep: byte)
    requires parts != [] && forall p | p in parts :: sep !in p
    ensures Split(Join(parts, sep), sep) == parts
  {
    if |parts| == 1 {
      SplitNone(parts[0], sep);
      assert parts == [parts[0]];
    } else {
      SplitJoin(parts[1..], sep);
      SplitNone(parts[0], sep);
      SplitConcat(parts[0], Join(parts[1..], sep), sep);
      assert parts == [parts[0]] + parts[1..];
    }
  }

  lemma {:induction false} CutUnique(a: text, sep: byte, b: text)
    requires sep !in a
    ensures Cut(a + [sep] + b, sep) == [a, b]
  {
    var s := a + [sep] + b;
    if a == [] {
      assert s[1..] == b;
    } else {
      CutUnique(a[1..], sep, b);
      assert s[1..] == a[1..] + [sep] + b;
      assert [a[0]] + a[1..] == a;
    }
  }

  lemma {:induction false} JoinHas(parts: seq<text>, sep: byte, c: byte)
    requires c != sep
    ensures c in Join(parts, sep) <==> exists p | p in parts :: c in p
  {
    if |parts| > 1 {
      JoinHas(parts[1..], sep, c);
      assert parts == [parts[0]] + parts[1..];
    }
  }

  function Replace(s: text, from: byte, to: byte): (r: text)
    ensures |r| == |s| && (from != to ==> from !in r)
  {
    if s == [] then [] else [if s[0] == from then to else s[0]] + Replace(s[1..], from, to)
  }

  /** When the new separator does not occur yet, replacing moves the splits to it. */
  lemma {:induction false} SplitReplace(s: text, from: byte, to: byte)
    requires to !in s
    ensures Split(Replace(s, from, to), to) == Split(s, from)
  {
    if s != [] {
      SplitReplace(s[1..], from, to);
      assert Replace(s, from, to)[1..] == Replace(s[1..], from, to);
    }
  }

  /** At most n parts; the last one keeps its separators. */
  function SplitN(s: text, sep: byte, n: nat): (parts: seq<text>)
    requires n > 0
    ensures 0 < |parts| <= n
    decreases n
  {
    var cut := Cut(s, sep);
    if n == 1 || |cut| == 1 then [s] else [cut[0]] + SplitN(cut[1], sep, n - 1)
  }

  lemma SplitNStep(a: text, b: text, sep: byte, n: nat)
    requires n > 1 && sep !in a
    ensures SplitN(a + [sep] + b, sep, n) == [a] + SplitN(b, sep, n - 1)
  {
    CutUnique(a, sep, b);
  }

  lemma SplitNTwice(a: text, b: text, rest: text, sep: byte, n: nat)
    requires n > 2 && sep !in a && sep !in b
    ensures SplitN(a + [sep] + (b + [sep] + rest), sep, n) == [a, b] + SplitN(rest, sep, n - 2)
  {
    SplitNStep(a, b + [sep] + rest, sep, n);
    SplitNStep(b, rest, sep, n - 1);
    assert [a] + ([b] + SplitN(rest, sep, n - 2)) == [a, b] + SplitN(rest, sep, n - 2);
  }

  predicate HasPrefix(s: text, prefix: text) {
    prefix <= s
  }

  predicate HasSuffix(s: text, suffix: text) {
    |suffix| <= |s| && s[|s| - |suffix|..] == suffix
  }
}
