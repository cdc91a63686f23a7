/** Walking the compacted view of a collection while raw-writer-2 writes to it. */
module IngestWalk {
  import opened Bytes
  import opened Wrappers
  import opened Values
  import opened Store
  import opened Lakes
  import opened Compaction
  import opened Views
  import opened Paging
  import Rdt
  import opened Walk
  import opened WalkGuarantees
  import opened RawWriter2
  import IP = IngestProtocol

  /** Every value under `meta` is a string. */
  predicate StringMeta(d: Doc) {
    forall f | f in d.meta :: d.meta[f].Str?
  }

  ghost predicate StringsOnly(s: IP.System) {
    forall at :: UniqueIds(IP.DocsIn(s, at)) && forall d | d in IP.DocsIn(s, at) :: StringMeta(d)
  }

  predicate Inserts(env: Env, s: IP.System, step: IP.Step, at: Target) {
    && IP.Enabled(env, s, step) && step.Write? && step.applied
    && IP.TargetOf(env, s.tasks[step.n].request) == Some(at)
  }

  /** The writes a step makes to one collection. */
  function WritesOf(env: Env, s: IP.System, step: IP.Step, at: Target): (ws: seq<Write>) {
    if Inserts(env, s, step, at) then [Insert(IP.DocFor(env, s.tasks[step.n], step.id, step.size))] else []
  }

  function Stepped(env: Env, s: IP.System, step: IP.Step): IP.System {
    if IP.Enabled(env, s, step) then IP.Next(env, s, step) else s
  }

  lemma StepWrites(env: Env, s: IP.System, step: IP.Step, at: Target)
    ensures IP.DocsIn(Stepped(env, s, step), at) == ApplyAll(IP.DocsIn(s, at), WritesOf(env, s, step, at))
    ensures forall w | w in WritesOf(env, s, step, at) :: w.Insert? && StringMeta(w.doc)
  {
    if Inserts(env, s, step, at) {
      var w := Insert(IP.DocFor(env, s.tasks[step.n], step.id, step.size));
      assert ApplyAll(IP.DocsIn(s, at), [w]) == Apply(IP.DocsIn(s, at), w);
    }
  }

  lemma StepKeepsStrings(env: Env, s: IP.System, step: IP.Step)
    requires StringsOnly(s)
    ensures StringsOnly(Stepped(env, s, step))
  {
    forall at
      ensures UniqueIds(IP.DocsIn(Stepped(env, s, step), at))
      ensures forall d | d in IP.DocsIn(Stepped(env, s, step), at) :: StringMeta(d)
    {
      StepWrites(env, s, step, at);
      var docs, ws := IP.DocsIn(s, at), WritesOf(env, s, step, at);
      if ws != [] { assert ws[0] in ws && ApplyAll(docs, ws) == Apply(docs, ws[0]); }
    }
  }

  function WritesDuring(env: Env, s: IP.System, steps: seq<IP.Step>, at: Target): seq<Write>
    decreases |steps|
  {
    if steps == [] then [] else WritesOf(env, s, steps[0], at) + WritesDuring(env, Stepped(env, s, steps[0]), steps[1..], at)
  }

  /** The protocol is one of the writers a walk allows for: a collection changes by its inserts alone. */
  lemma {:induction false} RunWrites(env: Env, s: IP.System, steps: seq<IP.Step>, at: Target)
    requires StringsOnly(s)
    ensures var ws := WritesDuring(env, s, steps, at);
            && IP.DocsIn(IP.Run(env, s, steps), at) == ApplyAll(IP.DocsIn(s, at), ws)
            && forall w | w in ws :: w.Insert? && StringMeta(w.doc)
    ensures StringsOnly(IP.Run(env, s, steps))
    decreases |steps|
  {
    if steps != [] {
      var next := Stepped(env, s, steps[0]);
      StepWrites(env, s, steps[0], at);
      StepKeepsStrings(env, s, steps[0]);
      RunWrites(env, next, steps[1..], at);
      ApplyAllConcat(IP.DocsIn(s, at), WritesOf(env, s, steps[0], at), WritesDuring(env, next, steps[1..], at));
    }
  }

  /** The steps taken between two pages, and the limit of the next. */
  datatype Chunk = Chunk(steps: seq<IP.Step>, limit: PageLimit)

  /** chunks[i] lies between page i and page i + 1. */
  function Between(env: Env, s: IP.System, chunks: seq<Chunk>, at: Target): (r: seq<Gap>)
    ensures |r| == |chunks|
    decreases |chunks|
  {
    if chunks == [] then []
    else [Gap(WritesDuring(env, s, chunks[0].steps, at), chunks[0].limit)] +
         Between(env, IP.Run(env, s, chunks[0].steps), chunks[1..], at)
  }

  lemma {:induction false} BetweenInserts(env: Env, s: IP.System, chunks: seq<Chunk>, at: Target)
    requires StringsOnly(s)
    ensures InsertsOnly(Between(env, s, chunks, at))
    ensures forall g | g in Between(env, s, chunks, at) :: forall w | w in g.writes :: StringMeta(w.doc)
    decreases |chunks|
  {
    if chunks != [] {
      RunWrites(env, s, chunks[0].steps, at);
      BetweenInserts(env, IP.Run(env, s, chunks[0].steps), chunks[1..], at);
    }
  }

  /** The collections between pages are the ones the walk reads. */
  lemma {:induction false} VisitsAreStates(
      env: Env, s: IP.System, chunks: seq<Chunk>, at: Target, o: Ordering, cursor: Option<Value>,
      limit: nat, budget: nat, i: nat) returns (v: IP.System)
    requires StringsOnly(s) && limit > 0
    requires i < |Run(o, IP.DocsIn(s, at), cursor, Between(env, s, chunks, at), limit, budget)|
    ensures Run(o, IP.DocsIn(s, at), cursor, Between(env, s, chunks, at), limit, budget)[i].store == IP.DocsIn(v, at)
    ensures i <= |chunks| && v == RunAll(env, s, chunks[..i])
    decreases |chunks|
  {
    if i == 0 {
      v := s;
    } else {
      RunWrites(env, s, chunks[0].steps, at);
      var p := Rdt.SliceOf(o, IP.DocsIn(s, at), cursor, limit, budget);
      v := VisitsAreStates(env, IP.Run(env, s, chunks[0].steps), chunks[1..], at, o, Some(Rdt.LastOf(o, p.docs)), chunks[0].limit, budget, i - 1);
      assert chunks[..i][1..] == chunks[1..][..i - 1] && chunks[..i][0] == chunks[0];
    }
  }

  function RunAll(env: Env, s: IP.System, chunks: seq<Chunk>): IP.System
    decreases |chunks|
  {
    if chunks == [] then s else RunAll(env, IP.Run(env, s, chunks[0].steps), chunks[1..])
  }

  /** Collections only raw-writer-2 writes have keys of one type, whenever a walk of them begins, and grow. */
  lemma IngestWalkIsTyped(
      env: Env, before: seq<IP.Step>, chunks: seq<Chunk>, at: Target, f: text)
    ensures var s := IP.Run(env, IP.START, before);
            && StringsOnly(s)
            && AllTyped(ByField(f), IP.DocsIn(s, at))
            && InsertsOnly(Between(env, s, chunks, at))
  {
    var s := IP.Run(env, IP.START, before);
    RunWrites(env, IP.START, before, at);
    BetweenInserts(env, s, chunks, at);
    forall d | d in IP.DocsIn(s, at) ensures Typed(ByField(f), d) { assert StringMeta(d); }
  }

  /** The compacted walk of a collection, started after one history of requests and overlapping another. */
  ghost function WalkDuring(
      env: Env, before: seq<IP.Step>, chunks: seq<Chunk>, at: Target, f: text, limit: nat, budget: nat): (r: seq<Visit>)
    requires limit > 0
    ensures r != []
  {
    IngestWalkIsTyped(env, before, chunks, at, f);
    var s := IP.Run(env, IP.START, before);
    Run(ByField(f), IP.DocsIn(s, at), None, Between(env, s, chunks, at), limit, budget)
  }

  /** Row i is the only one of e's key, and at least as new as e. */
  predicate SupersededBy(f: text, served: seq<Doc>, e: Doc, i: nat) {
    && i < |served|
    && KeyOf(f, served[i]) == KeyOf(f, e)
    && (served[i] == e || Newer(served[i], e))
    && forall j | 0 <= j < |served| && j != i :: KeyOf(f, served[j]) != KeyOf(f, e)
  }

  /** A compacted walk started after any history of requests and taken while any others run, fail and crash:
      when it ends, a key stored before it started is served exactly once, by a document at least as new as
      every one the key had at the start. */
  lemma ConcurrentIngestWalk(
      env: Env, before: seq<IP.Step>, chunks: seq<Chunk>, at: Target, f: text, limit: nat, budget: nat, e: Doc)
    requires limit > 0 && e in IP.DocsIn(IP.Run(env, IP.START, before), at) && f in e.meta
    requires Completed(WalkDuring(env, before, chunks, at, f, limit, budget))
    ensures exists i :: SupersededBy(f, DocsOf(WalkDuring(env, before, chunks, at, f, limit, budget)), e, i)
  {
    var s := IP.Run(env, IP.START, before);
    var o, docs, ws, k := ByField(f), IP.DocsIn(s, at), Between(env, s, chunks, at), KeyOf(f, e);
    IngestWalkIsTyped(env, before, chunks, at, f);
    var run := Run(o, docs, None, ws, limit, budget);
    assert StringMeta(e) && PositionOf(o, e) == k != Null;
    forall v | v in run ensures k in Positions(o, v.store) {
      var i :| 0 <= i < |run| && run[i] == v;
      StoresGrow(o, docs, None, ws, limit, budget, i);
    }
    PresentThroughoutServedOnce(o, docs, ws, limit, budget, k);
    var served := DocsOf(run);
    var i: nat :| OnlyRowAt(o, served, k, i);
    var p := InSomePage(run, served[i]);
    ServedIsNotOlder(f, docs, ws, limit, budget, p, served[i], e);
    forall j | 0 <= j < |served| && j != i ensures KeyOf(f, served[j]) != k {
      assert PositionOf(o, served[j]) != k;
    }
    assert SupersededBy(f, served, e, i);
  }
}
