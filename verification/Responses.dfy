/** How the bridge answers with a page: external payloads are inlined in parallel, all or nothing. */
module Responses {
  import opened Bytes
  import opened Wrappers
  import opened Sorting
  import opened Store
  import opened Objects
  import opened Inlining

  const MAX_INLINE_PER_PAGE := 32
  const INLINE_CONCURRENCY := 8

  /** How retrieving a reference ends. */
  type Retrieval = text -> Option<text>

  /** How the retrieval for each document of a page ends; two documents with one reference may fare differently. */
  type Fetch = nat -> Retrieval

  /** The three answers to a page: 413, 500, or 200 with the documents. */
  datatype Reply = TooManyReferences | RetrievalFailed | Page(docs: seq<Record>)

  function RefCount(docs: seq<Record>): (n: nat)
    ensures n <= |docs|
  {
    if docs == [] then 0 else RefCount(docs[..|docs| - 1]) + if docs[|docs| - 1].rawRef != [] then 1 else 0
  }

  function References(docs: seq<Record>): set<nat> {
    set i: nat | i < |docs| && docs[i].rawRef != []
  }

  lemma OneMoreReference(docs: seq<Record>)
    requires docs != []
    ensures var n := |docs| - 1;
            && n !in References(docs[..n])
            && References(docs) == if docs[n].rawRef != [] then References(docs[..n]) + {n} else References(docs[..n])
  {
  }

  /** The count is the number of documents with a reference. */
  lemma {:induction false} RefCountIs(docs: seq<Record>)
    ensures RefCount(docs) == |set i: nat | i < |docs| && docs[i].rawRef != []|
    ensures RefCount(docs) == |References(docs)|
  {
    if docs == [] {
      assert References(docs) == {};
    } else {
      OneMoreReference(docs);
      RefCountIs(docs[..|docs| - 1]);
    }
    assert References(docs) == set i: nat | i < |docs| && docs[i].rawRef != [];
  }

  ghost predicate AllResolve(page: seq<Record>, fetch: Fetch) {
    forall i | 0 <= i < |page| :: Inlined(page[i], fetch(i)).Success?
  }

  /** The documents of a page whose references all resolve, each with its own payload. */
  ghost function InlinedPage(page: seq<Record>, fetch: Fetch): (docs: seq<Record>)
    requires AllResolve(page, fetch)
    ensures |docs| == |page|
    ensures forall i | 0 <= i < |page| :: Inlined(page[i], fetch(i)) == Success(docs[i])
  {
    seq(|page|, i requires 0 <= i < |page| => Inlined(page[i], fetch(i)).value)
  }

  /** What the reply should be, whatever the schedule. */
  ghost function Expected(page: seq<Record>, fetch: Fetch): Reply {
    if RefCount(page) > MAX_INLINE_PER_PAGE then TooManyReferences
    else if AllResolve(page, fetch) then Page(InlinedPage(page, fetch))
    else RetrievalFailed
  }

  /** The reply is a page exactly when at most 32 documents have a reference and each one's payload is at hand. */
  lemma ExpectedIs(page: seq<Record>, fetch: Fetch)
    ensures Expected(page, fetch).Page? <==>
            |set i: nat | i < |page| && page[i].rawRef != []| <= 32 && forall i | 0 <= i < |page| :: Inlined(page[i], fetch(i)).Success?
  {
    RefCountIs(page);
  }

  /* ---------------------------------------------------------------- schedules */

  /** Where a document's goroutine is. */
  datatype Phase = Waiting | Launched | Fetching | Resolved | Broken

  /** The goroutines of one page: docs is mutated in place, cancelled is set by the first error. */
  datatype Group = Group(docs: seq<Record>, phases: seq<Phase>, launched: nat, cancelled: bool)

  /** ok is whether a retrieval succeeds; one that would succeed may fail once the group is cancelled. */
  datatype Step = Launch | Begin(i: nat) | Fetched(i: nat, ok: bool)

  function Start(page: seq<Record>): Group {
    Group(page, seq(|page|, _ => Waiting), 0, false)
  }

  predicate InFlight(p: Phase) {
    p.Launched? || p.Fetching?
  }

  function Running(g: Group): set<nat> {
    set i: nat | i < |g.phases| && InFlight(g.phases[i])
  }

  predicate WellFormed(g: Group) {
    |g.docs| == |g.phases| && g.launched <= |g.docs|
  }

  predicate Enabled(g: Group, fetch: Fetch, step: Step)
    requires WellFormed(g)
  {
    match step
    case Launch => g.launched < |g.docs| && |Running(g)| < INLINE_CONCURRENCY
    case Begin(i) => i < |g.docs| && g.phases[i].Launched?
    case Fetched(i, ok) =>
      && i < |g.docs| && g.phases[i].Fetching?
      && (if ok then fetch(i)(g.docs[i].rawRef).Some? else fetch(i)(g.docs[i].rawRef) == None || g.cancelled)
  }

  function Move(g: Group, i: nat, d: Record, p: Phase): (r: Group)
    requires WellFormed(g) && i < |g.docs|
    ensures WellFormed(r)
  {
    g.(docs := g.docs[i := d], phases := g.phases[i := p], cancelled := g.cancelled || p.Broken?)
  }

  /** Binary data is normalised before the reference is looked at. */
  function BeginPhase(d: Record): Phase {
    if d.rawRef == [] then Resolved else if !HasRetriever(d.rawRef) then Broken else Fetching
  }

  function Next(g: Group, fetch: Fetch, step: Step): (r: Group)
    requires WellFormed(g) && Enabled(g, fetch, step)
    ensures WellFormed(r) && |r.docs| == |g.docs|
  {
    match step
    case Launch => Move(g, g.launched, g.docs[g.launched], Launched).(launched := g.launched + 1)
    case Begin(i) => Move(g, i, Normalize(g.docs[i]), BeginPhase(g.docs[i]))
    case Fetched(i, ok) =>
      if ok then Move(g, i, WithPayload(g.docs[i], fetch(i)(g.docs[i].rawRef).value), Resolved)
      else Move(g, i, g.docs[i], Broken)
  }

  /** A run takes the enabled steps of a schedule; the others do nothing. */
  function Run(g: Group, fetch: Fetch, steps: seq<Step>): (r: Group)
    requires WellFormed(g)
    ensures WellFormed(r) && |r.docs| == |g.docs|
    decreases |steps|
  {
    if steps == [] then g
    else Run(if Enabled(g, fetch, steps[0]) then Next(g, fetch, steps[0]) else g, fetch, steps[1..])
  }

  /** Every goroutine was launched and has ended. */
  predicate Over(g: Group) {
    g.launched == |g.docs| && Running(g) == {}
  }

  function ReplyOf(g: Group): Reply {
    if g.cancelled then RetrievalFailed else Page(g.docs)
  }

  /* ---------------------------------------------------------------- what every state keeps */

  ghost predicate DocKept(d0: Record, fetch: Retrieval, d: Record, p: Phase) {
    match p
    case Waiting => d == d0
    case Launched => d == d0
    case Fetching => d == Normalize(d0) && d0.rawRef != [] && HasRetriever(d0.rawRef)
    case Resolved => Inlined(d0, fetch) == Success(d)
    case Broken => d == Normalize(d0) && d0.rawRef != []
  }

  ghost predicate HasFailure(page: seq<Record>, fetch: Fetch, g: Group) {
    exists i | 0 <= i < |page| && i < |g.phases| :: g.phases[i].Broken? && Inlined(page[i], fetch(i)).Failure?
  }

  ghost predicate Kept(page: seq<Record>, fetch: Fetch, g: Group) {
    && WellFormed(g) && |g.docs| == |page|
    && |Running(g)| <= INLINE_CONCURRENCY
    && (forall i | 0 <= i < |page| :: g.phases[i].Waiting? <==> i >= g.launched)
    && (forall i | 0 <= i < |page| :: DocKept(page[i], fetch(i), g.docs[i], g.phases[i]))
    && (forall i | 0 <= i < |page| :: g.phases[i].Broken? ==> g.cancelled)
    && (g.cancelled ==> HasFailure(page, fetch, g))
  }

  lemma MoveKept(page: seq<Record>, fetch: Fetch, g: Group, i: nat, d: Record, p: Phase)
    requires Kept(page, fetch, g) && i < |page| && InFlight(g.phases[i]) && !p.Waiting? && !p.Launched?
    requires DocKept(page[i], fetch(i), d, p)
    requires p.Broken? ==> g.cancelled || Inlined(page[i], fetch(i)).Failure?
    ensures Kept(page, fetch, Move(g, i, d, p))
  {
    var r := Move(g, i, d, p);
    Fewer(Running(r), Running(g));
    if g.cancelled {
      var k :| 0 <= k < |page| && k < |g.phases| && g.phases[k].Broken? && Inlined(page[k], fetch(k)).Failure?;
      assert r.phases[k].Broken?;
    } else if p.Broken? {
      assert r.phases[i].Broken?;
    }
  }

  lemma LaunchKept(page: seq<Record>, fetch: Fetch, g: Group)
    requires Kept(page, fetch, g) && Enabled(g, fetch, Launch)
    ensures Kept(page, fetch, Next(g, fetch, Launch))
  {
    var r := Next(g, fetch, Launch);
    assert Running(r) == Running(g) + {g.launched};
    if g.cancelled {
      var k :| 0 <= k < |page| && k < |g.phases| && g.phases[k].Broken? && Inlined(page[k], fetch(k)).Failure?;
      assert r.phases[k].Broken?;
    }
  }

  lemma NextKept(page: seq<Record>, fetch: Fetch, g: Group, step: Step)
    requires Kept(page, fetch, g) && Enabled(g, fetch, step)
    ensures Kept(page, fetch, Next(g, fetch, step))
  {
    match step
    case Launch => LaunchKept(page, fetch, g);
    case Begin(i) => MoveKept(page, fetch, g, i, Normalize(g.docs[i]), BeginPhase(g.docs[i]));
    case Fetched(i, ok) =>
      assert DocKept(page[i], fetch(i), g.docs[i], Fetching);
      if ok {
        MoveKept(page, fetch, g, i, WithPayload(g.docs[i], fetch(i)(g.docs[i].rawRef).value), Resolved);
      } else {
        MoveKept(page, fetch, g, i, g.docs[i], Broken);
      }
  }

  lemma StartKept(page: seq<Record>, fetch: Fetch)
    ensures Kept(page, fetch, Start(page))
  {
    assert Running(Start(page)) == {};
  }

  lemma {:induction false} RunKept(page: seq<Record>, fetch: Fetch, g: Group, steps: seq<Step>)
    requires Kept(page, fetch, g)
    ensures Kept(page, fetch, Run(g, fetch, steps))
    decreases |steps|
  {
    if steps != [] {
      if Enabled(g, fetch, steps[0]) { NextKept(page, fetch, g, steps[0]); }
      RunKept(page, fetch, if Enabled(g, fetch, steps[0]) then Next(g, fetch, steps[0]) else g, steps[1..]);
    }
  }

  /* ---------------------------------------------------------------- guarantees */

  /** When a kept group is over, its reply is the sequential one. */
  lemma OverIsExpected(page: seq<Record>, fetch: Fetch, g: Group)
    requires Kept(page, fetch, g) && Over(g) && RefCount(page) <= MAX_INLINE_PER_PAGE
    ensures ReplyOf(g) == Expected(page, fetch)
  {
    forall i | 0 <= i < |page| ensures g.phases[i].Resolved? || g.phases[i].Broken? {
      assert i !in Running(g);
    }
    if g.cancelled {
      var k :| 0 <= k < |page| && k < |g.phases| && g.phases[k].Broken? && Inlined(page[k], fetch(k)).Failure?;
      assert !AllResolve(page, fetch);
    } else {
      forall i | 0 <= i < |page| ensures Inlined(page[i], fetch(i)) == Success(g.docs[i]) {
        assert DocKept(page[i], fetch(i), g.docs[i], g.phases[i]);
      }
      assert g.docs == InlinedPage(page, fetch);
    }
  }

  /** The documents whose reference was asked for. */
  function Asked(g: Group): set<nat>
    requires WellFormed(g)
  {
    set i: nat | i < |g.docs| && g.docs[i].rawRef != [] && !g.phases[i].Waiting? && !g.phases[i].Launched?
  }

  lemma {:induction false} CountRefs(docs: seq<Record>, refs: set<nat>)
    requires forall i | i in refs :: i < |docs| && docs[i].rawRef != []
    ensures |refs| <= RefCount(docs)
  {
    if docs == [] {
      assert refs == {};
    } else {
      var n := |docs| - 1;
      CountRefs(docs[..n], refs - {n});
      assert n !in refs ==> refs - {n} == refs;
    }
  }

  /** For every schedule: at most eight retrievals are in flight and at most the admitted references are asked
      for; and when the group is over the reply is 200 exactly when every retrieval succeeds, and then equals
      inlining each document on its own. */
  lemma EveryScheduleReplies(page: seq<Record>, fetch: Fetch, steps: seq<Step>)
    requires RefCount(page) <= MAX_INLINE_PER_PAGE
    ensures var g := Run(Start(page), fetch, steps);
            && |Running(g)| <= 8
            && |Asked(g)| <= 32
            && (Over(g) ==> ReplyOf(g) == Expected(page, fetch))
  {
    StartKept(page, fetch);
    RunKept(page, fetch, Start(page), steps);
    var g := Run(Start(page), fetch, steps);
    forall i | i in Asked(g) ensures i < |page| && page[i].rawRef != [] {
      assert DocKept(page[i], fetch(i), g.docs[i], g.phases[i]);
    }
    CountRefs(page, Asked(g));
    if Over(g) { OverIsExpected(page, fetch, g); }
  }

  /** Three steps a document: launched, normalised, fetched. */
  function Weight(p: Phase): nat {
    match p
    case Waiting => 3
    case Launched => 2
    case Fetching => 1
    case _ => 0
  }

  function Rank(phases: seq<Phase>): nat {
    if phases == [] then 0 else Weight(phases[0]) + Rank(phases[1..])
  }

  lemma {:induction false} RankDrops(phases: seq<Phase>, i: nat, p: Phase)
    requires i < |phases| && Weight(p) < Weight(phases[i])
    ensures Rank(phases[i := p]) < Rank(phases)
  {
    if i == 0 {
      assert phases[i := p][1..] == phases[1..];
    } else {
      RankDrops(phases[1..], i - 1, p);
      assert phases[i := p][1..] == phases[1..][i - 1 := p];
    }
  }

  lemma {:induction false} RankOfWaiting(n: nat)
    ensures Rank(seq(n, _ => Waiting)) == 3 * n
  {
    if n > 0 {
      RankOfWaiting(n - 1);
      assert seq(n, _ => Waiting)[1..] == seq(n - 1, _ => Waiting);
    }
  }

  /** No deadlock: until the group is over some goroutine can move. */
  lemma NeverStuck(page: seq<Record>, fetch: Fetch, g: Group) returns (step: Step)
    requires Kept(page, fetch, g) && !Over(g)
    ensures Enabled(g, fetch, step)
  {
    if Running(g) == {} {
      step := Launch;
    } else {
      var i :| i in Running(g);
      step := if g.phases[i].Launched? then Begin(i) else Fetched(i, fetch(i)(g.docs[i].rawRef).Some?);
    }
  }

  /** Which goroutine a step moves, and where to. */
  lemma MovedTo(fetch: Fetch, g: Group, step: Step) returns (i: nat, p: Phase)
    requires WellFormed(g) && Enabled(g, fetch, step)
    requires step.Launch? ==> g.phases[g.launched].Waiting?
    ensures i < |g.phases| && Weight(p) < Weight(g.phases[i])
    ensures Next(g, fetch, step).phases == g.phases[i := p]
  {
    match step
    case Launch => i, p := g.launched, Launched;
    case Begin(k) => i, p := k, BeginPhase(g.docs[k]);
    case Fetched(k, ok) => i, p := k, if ok then Resolved else Broken;
  }

  lemma EveryStepCounts(page: seq<Record>, fetch: Fetch, g: Group, step: Step)
    requires Kept(page, fetch, g) && Enabled(g, fetch, step)
    ensures Rank(Next(g, fetch, step).phases) < Rank(g.phases)
  {
    var i, p := MovedTo(fetch, g, step);
    RankDrops(g.phases, i, p);
  }

  /** Every step of the schedule is enabled when it is taken. */
  ghost predicate Takes(g: Group, fetch: Fetch, steps: seq<Step>)
    requires WellFormed(g)
    decreases |steps|
  {
    steps != [] ==> Enabled(g, fetch, steps[0]) && Takes(Next(g, fetch, steps[0]), fetch, steps[1..])
  }

  lemma {:induction false} TakenSteps(page: seq<Record>, fetch: Fetch, g: Group, steps: seq<Step>)
    requires Kept(page, fetch, g) && Takes(g, fetch, steps)
    ensures |steps| <= Rank(g.phases)
    decreases |steps|
  {
    if steps != [] {
      NextKept(page, fetch, g, steps[0]);
      EveryStepCounts(page, fetch, g, steps[0]);
      TakenSteps(page, fetch, Next(g, fetch, steps[0]), steps[1..]);
    }
  }

  /** Every schedule ends, after at most three steps a document. */
  lemma SchedulesEnd(page: seq<Record>, fetch: Fetch, steps: seq<Step>)
    requires Takes(Start(page), fetch, steps)
    ensures |steps| <= 3 * |page|
  {
    StartKept(page, fetch);
    TakenSteps(page, fetch, Start(page), steps);
    RankOfWaiting(|page|);
  }

  /* ---------------------------------------------------------------- the handlers */

  /** Overwrites one document in place; on failure only its binary data has been normalised. */
  method InlineRawData(docs: array<Record>, i: nat, fetch: Retrieval) returns (ok: bool)
    requires i < docs.Length
    modifies docs
    ensures ok <==> Inlined(old(docs[i]), fetch).Success?
    ensures docs[..] == old(docs[..])[i := if ok then Inlined(old(docs[i]), fetch).value else Normalize(old(docs[i]))]
  {
    docs[i] := Normalize(docs[i]);
    var ref := docs[i].rawRef;
    if ref == [] {
      return true;
    }
    if !HasRetriever(ref) {
      return false;
    }
    var data := fetch(ref);
    if data == None {
      return false;
    }
    docs[i] := WithPayload(docs[i], data.value);
    return true;
  }

  /** References are counted before anything is fetched. */
  method CountReferences(docs: array<Record>) returns (refs: nat)
    ensures refs == RefCount(docs[..])
    ensures var page := docs[..]; refs == |set i: nat | i < |page| && page[i].rawRef != []|
  {
    refs := 0;
    for i := 0 to docs.Length
      invariant refs == RefCount(docs[..i])
    {
      if docs[i].rawRef != [] {
        refs := refs + 1;
      }
      assert docs[..i + 1][..i] == docs[..i];
    }
    assert docs[..docs.Length] == docs[..];
    RefCountIs(docs[..]);
  }

  /** Takes some enabled step of the group, whichever the scheduler picks. */
  method Schedule(docs: array<Record>, fetch: Fetch, phases: seq<Phase>, launched: nat, cancelled: bool, ghost page: seq<Record>)
    returns (phases': seq<Phase>, launched': nat, cancelled': bool)
    requires Kept(page, fetch, Group(docs[..], phases, launched, cancelled))
    requires !Over(Group(docs[..], phases, launched, cancelled))
    modifies docs
    ensures Kept(page, fetch, Group(docs[..], phases', launched', cancelled'))
    ensures Rank(phases') < Rank(phases)
  {
    ghost var g := Group(docs[..], phases, launched, cancelled);
    var running := set i: nat | i < |phases| && InFlight(phases[i]);
    assert running == Running(g);
    phases', launched', cancelled' := phases, launched, cancelled;
    ghost var step;
    var launch: bool := *;
    if launched < docs.Length && |running| < INLINE_CONCURRENCY && (launch || running == {}) {
      phases', launched' := phases[launched := Launched], launched + 1;
      step := Launch;
    } else {
      var i :| i in running;
      var d := docs[i];
      if phases[i].Launched? {
        docs[i] := Normalize(d);
        phases' := phases[i := BeginPhase(d)];
        cancelled' := cancelled || BeginPhase(d).Broken?;
        step := Begin(i);
      } else {
        var data := fetch(i)(d.rawRef);
        var interrupted: bool := *;
        if data.Some? && !(cancelled && interrupted) {
          docs[i] := WithPayload(d, data.value);
          phases' := phases[i := Resolved];
          step := Fetched(i, true);
        } else {
          phases', cancelled' := phases[i := Broken], true;
          step := Fetched(i, false);
        }
      }
    }
    assert Enabled(g, fetch, step);
    assert Group(docs[..], phases', launched', cancelled') == Next(g, fetch, step);
    NextKept(page, fetch, g, step);
    EveryStepCounts(page, fetch, g, step);
  }

  /** Replies to a page, mutated in place by its goroutines in any order: 413 without touching it when it has
      too many references, 200 with every document inlined, or 500. */
  method RespondPage(docs: array<Record>, fetch: Fetch) returns (reply: Reply)
    modifies docs
    ensures reply == Expected(old(docs[..]), fetch)
    ensures var page := old(docs[..]); reply.TooManyReferences? <==> |set i: nat | i < |page| && page[i].rawRef != []| > 32
    ensures var page := old(docs[..]);
            reply.Page? <==> !reply.TooManyReferences? && forall i | 0 <= i < |page| :: Inlined(page[i], fetch(i)).Success?
    ensures var page := old(docs[..]);
            reply.Page? ==> |reply.docs| == |page| && forall i | 0 <= i < |page| :: Inlined(page[i], fetch(i)) == Success(reply.docs[i])
    ensures reply.TooManyReferences? ==> docs[..] == old(docs[..])
    ensures reply.Page? ==> reply.docs == docs[..]
  {
    var refs := CountReferences(docs);
    if refs > MAX_INLINE_PER_PAGE {
      return TooManyReferences;
    }
    ghost var page := docs[..];
    var phases, launched: nat, cancelled := seq(docs.Length, _ => Waiting), 0, false;
    StartKept(page, fetch);
    while !Over(Group(docs[..], phases, launched, cancelled))
      invariant Kept(page, fetch, Group(docs[..], phases, launched, cancelled))
      decreases Rank(phases)
    {
      phases, launched, cancelled := Schedule(docs, fetch, phases, launched, cancelled, page);
    }
    OverIsExpected(page, fetch, Group(docs[..], phases, launched, cancelled));
    return if cancelled then RetrievalFailed else Page(docs[..]);
  }
}
