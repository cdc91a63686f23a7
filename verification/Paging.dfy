/** How a page is cut out of the remaining rows: the byte budget, the row limit, the continuation. */
module Paging {
  import opened Bytes
  import opened Store

  datatype Page = Page(docs: seq<Doc>, next: text)

  function TotalSize(rows: seq<Doc>): nat {
    if rows == [] then 0 else rows[0].size + TotalSize(rows[1..])
  }

  lemma TotalSizeSplit(rows: seq<Doc>, n: nat)
    requires n <= |rows|
    ensures TotalSize(rows) == TotalSize(rows[..n]) + TotalSize(rows[n..])
  {
    if n > 0 {
      TotalSizeSplit(rows[1..], n - 1);
      assert rows[..n][1..] == rows[1..][..n - 1] && rows[n..] == rows[1..][n - 1..];
    }
  }

  lemma TotalSizeSnoc(rows: seq<Doc>, n: nat)
    requires n < |rows|
    ensures TotalSize(rows[..n + 1]) == TotalSize(rows[..n]) + rows[n].size
  {
    TotalSizeSplit(rows[..n + 1], n);
    assert rows[..n + 1][..n] == rows[..n] && rows[..n + 1][n..] == [rows[n]];
    assert TotalSize([rows[n]]) == rows[n].size;
  }

  /** The size of rows is the sum of theirs. */
  lemma TotalSizeAdds(rows: seq<Doc>, d: Doc)
    ensures TotalSize([]) == 0 && TotalSize(rows + [d]) == TotalSize(rows) + d.size
  {
    TotalSizeSnoc(rows + [d], |rows|);
    assert (rows + [d])[..|rows| + 1] == rows + [d] && (rows + [d])[..|rows|] == rows;
  }

  /** n rows are within the limit, and within the budget unless there is just one. */
  predicate Fits(rows: seq<Doc>, n: nat, limit: nat, budget: nat) {
    n <= |rows| && n <= limit && (n <= 1 || TotalSize(rows[..n]) <= budget)
  }

  lemma FitsMonotone(rows: seq<Doc>, m: nat, n: nat, limit: nat, budget: nat)
    requires m <= n && Fits(rows, n, limit, budget)
    ensures Fits(rows, m, limit, budget)
  {
    TotalSizeSplit(rows[..n], m);
    assert rows[..n][..m] == rows[..m];
  }

  /** The longest prefix that fits. */
  function PageLen(rows: seq<Doc>, limit: nat, budget: nat): (n: nat)
    ensures Fits(rows, n, limit, budget)
    ensures forall m :: n < m ==> !Fits(rows, m, limit, budget)
    ensures rows != [] && limit > 0 ==> n > 0
  {
    LongestFit(rows, if |rows| < limit then |rows| else limit, limit, budget)
  }

  /** A page of two rows or more is within the budget, and one more row would break the limit or the budget. */
  lemma PageLenIs(rows: seq<Doc>, limit: nat, budget: nat)
    requires limit > 0
    ensures var n := PageLen(rows, limit, budget);
            && n <= |rows| && n <= limit && (rows != [] ==> n > 0)
            && (n >= 2 ==> TotalSize(rows[..n]) <= budget)
            && (n < |rows| ==> n == limit || TotalSize(rows[..n + 1]) > budget)
  {
    var n := PageLen(rows, limit, budget);
    if n < |rows| { assert !Fits(rows, n + 1, limit, budget); }
  }

  function LongestFit(rows: seq<Doc>, top: nat, limit: nat, budget: nat): (n: nat)
    requires top <= |rows| && top <= limit
    ensures n <= top && Fits(rows, n, limit, budget) && (top > 0 ==> n > 0)
    ensures forall m | n < m <= top :: !Fits(rows, m, limit, budget)
  {
    if Fits(rows, top, limit, budget) then top else LongestFit(rows, top - 1, limit, budget)
  }

  /** Reads rows until the budget is exceeded, at least one whatever its size. */
  method Drain(cur: seq<Doc>, budget: nat) returns (docs: seq<Doc>, truncated: bool)
    ensures docs == cur[..PageLen(cur, |cur|, budget)]
    ensures truncated <==> docs != cur
  {
    docs := [];
    var total := 0;
    for i := 0 to |cur|
      invariant docs == cur[..i] && total == TotalSize(docs)
      invariant Fits(cur, i, |cur|, budget)
    {
      TotalSizeSnoc(cur, i);
      if |docs| > 0 && total + cur[i].size > budget {
        forall m: nat | i < m ensures !Fits(cur, m, |cur|, budget) {
          if Fits(cur, m, |cur|, budget) { FitsMonotone(cur, i + 1, m, |cur|, budget); }
        }
        return docs, true;
      }
      total := total + cur[i].size;
      docs := docs + [cur[i]];
    }
    assert docs == cur;
    truncated := false;
  }

  /** Trims the over-read row and asks for the continuation token. */
  method Finish(read: seq<Doc>, limit: nat, truncated: bool, cursorOf: Doc -> text) returns (p: Page)
    ensures p.docs == if |read| > limit then read[..limit] else read
    ensures p.next == if (truncated || |read| > limit) && p.docs != [] then cursorOf(p.docs[|p.docs| - 1]) else []
  {
    var docs := read;
    p := Page([], []);
    var more := truncated || |docs| > limit;
    if |docs| > limit {
      docs := docs[..limit];
    }
    if more && |docs| > 0 {
      p := p.(next := cursorOf(docs[|docs| - 1]));
    }
    p := p.(docs := docs);
  }

  /** Over-reading one row, draining and trimming leaves the longest prefix that fits,
      and a continuation is due exactly when rows remain. */
  lemma OverReadExact(rows: seq<Doc>, limit: nat, budget: nat)
    requires limit > 0
    ensures var read := if |rows| <= limit + 1 then rows else rows[..limit + 1];
            var k := PageLen(read, |read|, budget);
            && PageLen(rows, limit, budget) == (if k > limit then limit else k)
            && (k < |read| || k > limit <==> PageLen(rows, limit, budget) < |rows|)
  {
    var read := if |rows| <= limit + 1 then rows else rows[..limit + 1];
    var k := PageLen(read, |read|, budget);
    var n := PageLen(rows, limit, budget);
    assert read[..k] == rows[..k] && read[..n] == rows[..n];
    assert Fits(read, n, |read|, budget);
    if k <= limit {
      assert Fits(rows, k, limit, budget);
    } else {
      FitsMonotone(read, limit, k, |read|, budget);
      assert read[..limit] == rows[..limit];
      assert Fits(rows, limit, limit, budget);
    }
  }

  /** Draining and finishing one over-read row give the longest prefix of all the rows that fits,
      continued exactly when rows remain. */
  method CutPage(ghost rows: seq<Doc>, cur: seq<Doc>, limit: nat, budget: nat, cursorOf: Doc -> text)
    returns (p: Page)
    requires limit > 0 && cur == if |rows| <= limit + 1 then rows else rows[..limit + 1]
    ensures p.docs == rows[..PageLen(rows, limit, budget)]
    ensures p.next == if |p.docs| < |rows| then cursorOf(rows[|p.docs| - 1]) else []
  {
    var docs, truncated := Drain(cur, budget);
    p := Finish(docs, limit, truncated, cursorOf);
    OverReadExact(rows, limit, budget);
  }

  /* ---------------------------------------------------------------- a whole walk */

  /** A limit in force for a request; the default stands for an absent one. */
  type PageLimit = n: nat | n > 0 witness 1

  /** The pages of a walk over rows that do not change; later are the limits of the requests after the first. */
  function Pages(rows: seq<Doc>, limit: nat, later: seq<PageLimit>, budget: nat): (pages: seq<seq<Doc>>)
    requires limit > 0
    ensures pages != []
    decreases |later|
  {
    var n := PageLen(rows, limit, budget);
    if n == |rows| || later == [] then [rows[..n]] else [rows[..n]] + Pages(rows[n..], later[0], later[1..], budget)
  }

  /** The requests suffice to reach the last row. */
  predicate Reaches(rows: seq<Doc>, limit: nat, later: seq<PageLimit>, budget: nat)
    requires limit > 0
    decreases |later|
  {
    var n := PageLen(rows, limit, budget);
    n == |rows| || (later != [] && Reaches(rows[n..], later[0], later[1..], budget))
  }

  function Concat(pages: seq<seq<Doc>>): seq<Doc> {
    if pages == [] then [] else pages[0] + Concat(pages[1..])
  }

  lemma {:induction false} PagesConcat(rows: seq<Doc>, limit: nat, later: seq<PageLimit>, budget: nat)
    requires limit > 0 && Reaches(rows, limit, later, budget)
    ensures Concat(Pages(rows, limit, later, budget)) == rows
    decreases |later|
  {
    var n := PageLen(rows, limit, budget);
    if n == |rows| {
      assert rows[..n] == rows && Concat([rows]) == rows + Concat([]);
    } else {
      PagesConcat(rows[n..], later[0], later[1..], budget);
      var rest := Pages(rows[n..], later[0], later[1..], budget);
      assert ([rows[..n]] + rest)[1..] == rest;
      assert rows[..n] + rows[n..] == rows;
    }
  }

  /** A page a row at most, and as many requests as rows suffice. */
  lemma {:induction false} PagesAtMostRows(rows: seq<Doc>, limit: nat, later: seq<PageLimit>, budget: nat)
    requires limit > 0
    ensures |Pages(rows, limit, later, budget)| <= if rows == [] then 1 else |rows|
    ensures |later| + 1 >= |rows| ==> Reaches(rows, limit, later, budget)
    ensures !Reaches(rows, limit, later, budget) ==> |Pages(rows, limit, later, budget)| == |later| + 1
    decreases |later|
  {
    var n := PageLen(rows, limit, budget);
    if n < |rows| && later != [] { PagesAtMostRows(rows[n..], later[0], later[1..], budget); }
  }

  /** Pages before the last cut by the limit, and those cut by the budget. */
  function FullPages(rows: seq<Doc>, limit: nat, later: seq<PageLimit>, budget: nat): nat
    requires limit > 0
    decreases |later|
  {
    var n := PageLen(rows, limit, budget);
    if n == |rows| || later == [] then 0
    else (if n == limit then 1 else 0) + FullPages(rows[n..], later[0], later[1..], budget)
  }

  function ShortPages(rows: seq<Doc>, limit: nat, later: seq<PageLimit>, budget: nat): nat
    requires limit > 0
    decreases |later|
  {
    var n := PageLen(rows, limit, budget);
    if n == |rows| || later == [] then 0
    else (if n < limit then 1 else 0) + ShortPages(rows[n..], later[0], later[1..], budget)
  }

  lemma OneMore(q: nat, d: nat)
    ensures (1 + q) * d == d + q * d && (0 + q) * d == q * d
  {
  }

  predicate AtLeast(least: nat, limit: nat, later: seq<PageLimit>) {
    least <= limit && forall l | l in later :: least <= l
  }

  lemma {:induction false} FullPagesBound(rows: seq<Doc>, limit: nat, later: seq<PageLimit>, budget: nat, least: nat)
    requires limit > 0 && AtLeast(least, limit, later)
    ensures |Pages(rows, limit, later, budget)| ==
            1 + FullPages(rows, limit, later, budget) + ShortPages(rows, limit, later, budget)
    ensures FullPages(rows, limit, later, budget) * least <= |rows|
    decreases |later|
  {
    var n := PageLen(rows, limit, budget);
    if n < |rows| && later != [] {
      assert later[0] in later && forall l | l in later[1..] :: l in later;
      FullPagesBound(rows[n..], later[0], later[1..], budget, least);
      OneMore(FullPages(rows[n..], later[0], later[1..], budget), least);
    }
  }

  /** A short page and the page after it exceed the budget together. */
  lemma {:induction false} ShortPagesBound(rows: seq<Doc>, limit: nat, later: seq<PageLimit>, budget: nat)
    requires limit > 0
    ensures ShortPages(rows, limit, later, budget) * budget
         <= 2 * TotalSize(rows) - TotalSize(rows[..PageLen(rows, limit, budget)])
    decreases |later|
  {
    var n := PageLen(rows, limit, budget);
    TotalSizeSplit(rows, n);
    if n < |rows| && later != [] {
      var rest := rows[n..];
      var m := PageLen(rest, later[0], budget);
      ShortPagesBound(rest, later[0], later[1..], budget);
      TotalSizeSplit(rest, m);
      OneMore(ShortPages(rest, later[0], later[1..], budget), budget);
      if n < limit { ShortThenNext(rows, limit, later[0], budget); }
    }
  }

  lemma ShortThenNext(rows: seq<Doc>, limit: nat, next: PageLimit, budget: nat)
    requires limit > 0 && PageLen(rows, limit, budget) < limit && PageLen(rows, limit, budget) < |rows|
    ensures var n := PageLen(rows, limit, budget);
            TotalSize(rows[..n]) + TotalSize(rows[n..][..PageLen(rows[n..], next, budget)]) > budget
  {
    var n := PageLen(rows, limit, budget);
    var rest := rows[n..];
    var m := PageLen(rest, next, budget);
    assert !Fits(rows, n + 1, limit, budget);
    TotalSizeSnoc(rows, n);
    TotalSizeSplit(rest[..m], 1);
    assert rest[..m][..1] == [rows[n]] && TotalSize([rows[n]]) == rows[n].size;
  }

  /** A walk over N rows of T bytes, every limit at least L, takes at most 1 + N/L + 2T/B pages. */
  lemma WalkBound(rows: seq<Doc>, limit: nat, later: seq<PageLimit>, budget: nat, least: nat)
    requires least > 0 && budget > 0 && limit > 0 && AtLeast(least, limit, later)
    ensures |Pages(rows, limit, later, budget)| as real <= PageBound(rows, budget, least)
  {
    FullPagesBound(rows, limit, later, budget, least);
    ShortPagesBound(rows, limit, later, budget);
    AtMostQuotient(FullPages(rows, limit, later, budget), least, |rows|);
    AtMostQuotient(ShortPages(rows, limit, later, budget), budget, 2 * TotalSize(rows));
  }

  function PageBound(rows: seq<Doc>, budget: nat, least: nat): real
    requires least > 0 && budget > 0
  {
    1.0 + |rows| as real / least as real + 2.0 * TotalSize(rows) as real / budget as real
  }

  lemma AtMostQuotient(q: nat, d: nat, n: nat)
    requires d > 0 && q * d <= n
    ensures q as real <= n as real / d as real
  {
    var x, y := q as real, d as real;
    assert x * y <= n as real;
    assert x == x * y / y;
    assert x * y / y <= n as real / y;
  }
}
