/** Any number of raw-writer-2 requests and router deliveries over one object store, lake and broker. */
module IngestProtocol {
  import opened Bytes
  import opened Wrappers
  import opened Hex
  import opened Store
  import opened Lakes
  import opened Addressing
  import opened Objects
  import opened RawWriter2
  import RawWriter

  /** The operation a request waits for, or the status it was answered with. */
  datatype Pc = Uploading | Writing | Publishing | Answering(status: nat) | Replied(status: nat) | Crashed

  const OK := 200
  const BAD_REQUEST := 400
  const SERVER_ERROR := 500

  /** upload says whether the uploaded object was compressed; doc is the document stored for the request. */
  datatype Task = Task(pc: Pc, request: Request, upload: Option<bool>, doc: Option<Doc>, announced: bool)

  /** A ready message as the router publishes it again. */
  datatype Routed = Routed(payload: ReadyPayload, key: text)

  /** inserted remembers which request each ObjectId was made for. */
  datatype System = System(
    objects: map<text, text>,
    lake: map<Target, set<Doc>>,
    ready: seq<ReadyPayload>,
    routed: seq<Routed>,
    tasks: map<nat, Task>,
    inserted: map<text, nat>)

  const START := System(map[], map[], [], [], map[], map[])

  /** ok is what the operation answered; applied and delivered say whether it took effect, which it may have
      even when it reported a failure. Route takes the n-th ready message, any number of times. */
  datatype Step =
    | Arrive(n: nat, request: Request, bodyRead: bool)
    | Upload(n: nat, compressOk: bool, ok: bool, applied: bool)
    | Write(n: nat, id: RawWriter.Oid, size: nat, ok: bool, applied: bool)
    | Publish(n: nat, ok: bool, delivered: bool)
    | Reply(n: nat)
    | Crash(n: nat)
    | Route(n: nat, delivered: bool)

  predicate Final(pc: Pc) {
    pc.Replied? || pc.Crashed?
  }

  function DocsIn(s: System, t: Target): set<Doc> {
    if t in s.lake then s.lake[t] else {}
  }

  function TargetOf(env: Env, r: Request): Option<Target> {
    ProviderParts(env.dbPrefix, Provider(r))
  }

  /** The reference a request's document will carry. */
  function RefOf(env: Env, t: Task): text {
    if t.upload.Some? then S3Urn(env.bucket, ObjectKey(env, t.request, t.upload.value)) else []
  }

  function DocFor(env: Env, t: Task, id: text, size: nat): Record {
    BuildDoc(t.request, id, RefOf(env, t)).(size := size)
  }

  predicate Enabled(env: Env, s: System, step: Step) {
    match step
    case Arrive(n, _, _) => n !in s.tasks
    case Route(n, delivered) => n < |s.ready| && (delivered ==> RoutingKey(s.ready[n].urn).Some?)
    case _ =>
      && step.n in s.tasks
      && var t := s.tasks[step.n];
         match step
         case Upload(_, _, ok, applied) => t.pc.Uploading? && (ok ==> applied)
         case Write(_, id, size, ok, applied) =>
           && t.pc.Writing? && id !in s.inserted && (ok ==> applied)
           && (applied ==> TargetOf(env, t.request).Some? && Storable(DocFor(env, t, id, size)))
         case Publish(_, ok, delivered) => t.pc.Publishing? && (ok ==> delivered)
         case Reply(_) => t.pc.Answering?
         case Crash(_) => !Final(t.pc)
  }

  function FirstPc(env: Env, r: Request, bodyRead: bool): Pc {
    if !ValidMeta(r) then Answering(BAD_REQUEST)
    else if !bodyRead then Answering(SERVER_ERROR)
    else if Spills(env, r) then Uploading
    else Writing
  }

  /** A failed operation ends the request; nothing is undone. */
  function After(ok: bool, next: Pc): Pc {
    if ok then next else Answering(SERVER_ERROR)
  }

  function Next(env: Env, s: System, step: Step): System
    requires Enabled(env, s, step)
  {
    match step
    case Arrive(n, r, bodyRead) => s.(tasks := s.tasks[n := Task(FirstPc(env, r, bodyRead), r, None, None, false)])
    case Upload(n, compressOk, ok, applied) => Uploaded(env, s, n, compressOk, ok, applied)
    case Write(n, id, size, ok, applied) => Wrote(env, s, n, id, size, ok, applied)
    case Publish(n, ok, delivered) => Published(env, s, n, ok, delivered)
    case Reply(n) => s.(tasks := s.tasks[n := s.tasks[n].(pc := Replied(s.tasks[n].pc.status))])
    case Crash(n) => s.(tasks := s.tasks[n := s.tasks[n].(pc := Crashed)])
    case Route(n, delivered) =>
      if !delivered then s
      else s.(routed := s.routed + [Routed(s.ready[n], RoutingKey(s.ready[n].urn).value)])
  }

  function Uploaded(env: Env, s: System, n: nat, compressOk: bool, ok: bool, applied: bool): System
    requires n in s.tasks
  {
    var t := s.tasks[n];
    var r := t.request;
    s.(objects := if applied then s.objects[ObjectKey(env, r, compressOk) := ObjectData(env, r, compressOk)] else s.objects,
       tasks := s.tasks[n := t.(pc := After(ok, Writing), upload := if ok then Some(compressOk) else None)])
  }

  function Wrote(env: Env, s: System, n: nat, id: RawWriter.Oid, size: nat, ok: bool, applied: bool): System
    requires n in s.tasks
    requires applied ==> TargetOf(env, s.tasks[n].request).Some? && Storable(DocFor(env, s.tasks[n], id, size))
  {
    var t := s.tasks[n];
    if !applied then s.(tasks := s.tasks[n := t.(pc := After(ok, Publishing))])
    else
      var at, d := TargetOf(env, t.request).value, DocFor(env, t, id, size);
      s.(lake := s.lake[at := Apply(DocsIn(s, at), Insert(d))],
         inserted := s.inserted[id := n],
         tasks := s.tasks[n := t.(pc := After(ok, Publishing), doc := Some(d))])
  }

  function Published(env: Env, s: System, n: nat, ok: bool, delivered: bool): System
    requires n in s.tasks
  {
    var t := s.tasks[n];
    var sent := delivered && t.doc.Some? && TargetOf(env, t.request).Some?;
    s.(ready := if sent then s.ready + [MessageFor(t.request, TargetOf(env, t.request).value, t.doc.value.id)] else s.ready,
       tasks := s.tasks[n := t.(pc := After(ok, Answering(OK)), announced := sent)])
  }

  /** A run takes the enabled steps of a schedule; the others do nothing. */
  function Run(env: Env, s: System, steps: seq<Step>): System
    decreases |steps|
  {
    if steps == [] then s
    else Run(env, if Enabled(env, s, steps[0]) then Next(env, s, steps[0]) else s, steps[1..])
  }

  /* ---------------------------------------------------------------- what every state keeps */

  /** What a request has done by the time it is where it is. */
  predicate Phase(env: Env, t: Task) {
    var r, uploaded := t.request, t.upload.Some?;
    && (uploaded ==> ValidMeta(r) && Spills(env, r))
    && (t.doc.Some? ==> ValidMeta(r))
    && (t.announced ==> t.doc.Some?)
    && (t.doc.Some? ==> uploaded == Spills(env, r))
    && match t.pc
       case Uploading => ValidMeta(r) && Spills(env, r) && !uploaded && t.doc == None
       case Writing => ValidMeta(r) && uploaded == Spills(env, r) && t.doc == None
       case Publishing => ValidMeta(r) && t.doc.Some? && !t.announced
       case Answering(status) => Answered(t, status)
       case Replied(status) => Answered(t, status)
       case Crashed => true
  }

  predicate Answered(t: Task, status: nat) {
    && (status == OK || status == BAD_REQUEST || status == SERVER_ERROR)
    && (status == BAD_REQUEST <==> !ValidMeta(t.request))
    && (status == OK ==> t.announced)
  }

  predicate IsDocOf(env: Env, s: System, n: nat, d: Doc)
    requires n in s.tasks
  {
    && d.id in s.inserted && s.inserted[d.id] == n
    && d == DocFor(env, s.tasks[n], d.id, d.size)
    && TargetOf(env, s.tasks[n].request).Some?
  }

  ghost predicate TaskKept(env: Env, s: System, n: nat)
    requires n in s.tasks
  {
    var t := s.tasks[n];
    && Phase(env, t)
    && (t.doc.Some? ==>
          && IsDocOf(env, s, n, t.doc.value)
          && t.doc.value in DocsIn(s, TargetOf(env, t.request).value)
          && (t.announced ==> MessageFor(t.request, TargetOf(env, t.request).value, t.doc.value.id) in s.ready))
  }

  ghost predicate DocKept(env: Env, s: System, at: Target, d: Doc) {
    && d.id in s.inserted && s.inserted[d.id] in s.tasks
    && s.tasks[s.inserted[d.id]].doc == Some(d)
    && TargetOf(env, s.tasks[s.inserted[d.id]].request) == Some(at)
  }

  /** The message is about the document stored for request n. */
  predicate IsMessageOf(env: Env, s: System, n: nat, m: ReadyPayload) {
    && n in s.tasks
    && var t := s.tasks[n];
       && t.doc.Some? && TargetOf(env, t.request).Some?
       && m == MessageFor(t.request, TargetOf(env, t.request).value, t.doc.value.id)
  }

  ghost predicate ReadyKept(env: Env, s: System, m: ReadyPayload) {
    exists n :: IsMessageOf(env, s, n, m)
  }

  predicate RoutedKept(s: System, x: Routed) {
    x.payload in s.ready && RoutingKey(x.payload.urn) == Some(x.key)
  }

  ghost predicate Sound(env: Env, s: System) {
    && (forall n | n in s.tasks :: TaskKept(env, s, n))
    && (forall at, d | at in s.lake && d in s.lake[at] :: DocKept(env, s, at, d))
    && (forall m | m in s.ready :: ReadyKept(env, s, m))
    && (forall x | x in s.routed :: RoutedKept(s, x))
  }

  /** n follows s: request m moved on, everything else was at most added to. */
  ghost predicate Extends(env: Env, s: System, n: System, m: nat) {
    && m in n.tasks && n.tasks == s.tasks[m := n.tasks[m]]
    && (m in s.tasks ==>
          && n.tasks[m].request == s.tasks[m].request
          && (s.tasks[m].doc.Some? ==> n.tasks[m].doc == s.tasks[m].doc))
    && s.ready <= n.ready && s.routed == n.routed
    && (forall at :: DocsIn(s, at) <= DocsIn(n, at))
    && (forall id | id in s.inserted :: id in n.inserted && n.inserted[id] == s.inserted[id])
  }

  lemma ExtendedTasks(env: Env, s: System, n: System, m: nat)
    requires Sound(env, s) && Extends(env, s, n, m) && TaskKept(env, n, m)
    ensures forall k | k in n.tasks :: TaskKept(env, n, k)
  {
    forall k | k in n.tasks ensures TaskKept(env, n, k) {
      if k != m { assert TaskKept(env, s, k); }
    }
  }

  lemma ExtendedDocs(env: Env, s: System, n: System, m: nat)
    requires Sound(env, s) && Extends(env, s, n, m)
    ensures forall at, d | at in s.lake && d in s.lake[at] :: DocKept(env, n, at, d)
    ensures forall r | r in s.ready :: ReadyKept(env, n, r)
    ensures forall x | x in n.routed :: RoutedKept(n, x)
  {
    forall at, d | at in s.lake && d in s.lake[at] ensures DocKept(env, n, at, d) {
      assert DocKept(env, s, at, d);
    }
    forall r | r in s.ready ensures ReadyKept(env, n, r) {
      assert ReadyKept(env, s, r);
      var k :| IsMessageOf(env, s, k, r);
      assert IsMessageOf(env, n, k, r);
    }
    forall x | x in n.routed ensures RoutedKept(n, x) {
      assert RoutedKept(s, x);
    }
  }

  /** The new document joins its collection, as its id is fresh. */
  lemma Written(env: Env, s: System, step: Step)
    requires Sound(env, s) && Enabled(env, s, step) && step.Write? && step.applied
    ensures var n, at := Next(env, s, step), TargetOf(env, s.tasks[step.n].request).value;
            n.lake == s.lake[at := DocsIn(s, at) + {DocFor(env, s.tasks[step.n], step.id, step.size)}]
  {
    var at := TargetOf(env, s.tasks[step.n].request).value;
    forall d | d in DocsIn(s, at) ensures d.id != step.id { assert DocKept(env, s, at, d); }
  }

  lemma WriteExtends(env: Env, s: System, step: Step)
    requires Sound(env, s) && Enabled(env, s, step) && step.Write?
    ensures Extends(env, s, Next(env, s, step), step.n) && TaskKept(env, Next(env, s, step), step.n)
  {
    assert TaskKept(env, s, step.n);
    if step.applied { Written(env, s, step); }
  }

  lemma WriteSound(env: Env, s: System, step: Step)
    requires Sound(env, s) && Enabled(env, s, step) && step.Write?
    ensures Sound(env, Next(env, s, step))
  {
    var n, m := Next(env, s, step), step.n;
    WriteExtends(env, s, step);
    ExtendedTasks(env, s, n, m);
    ExtendedDocs(env, s, n, m);
    if step.applied { Written(env, s, step); }
  }

  lemma PublishExtends(env: Env, s: System, step: Step)
    requires Sound(env, s) && Enabled(env, s, step) && step.Publish?
    ensures Extends(env, s, Next(env, s, step), step.n) && TaskKept(env, Next(env, s, step), step.n)
  {
    assert TaskKept(env, s, step.n);
  }

  lemma PublishSound(env: Env, s: System, step: Step)
    requires Sound(env, s) && Enabled(env, s, step) && step.Publish?
    ensures Sound(env, Next(env, s, step))
  {
    var n, m := Next(env, s, step), step.n;
    PublishExtends(env, s, step);
    ExtendedTasks(env, s, n, m);
    ExtendedDocs(env, s, n, m);
    forall r | r in n.ready ensures ReadyKept(env, n, r) {
      if r !in s.ready { assert IsMessageOf(env, n, m, r); }
    }
  }

  /** Arriving, uploading, replying and crashing change no collection and no queue. */
  lemma LocalExtends(env: Env, s: System, step: Step)
    requires Sound(env, s) && Enabled(env, s, step) && (step.Arrive? || step.Upload? || step.Reply? || step.Crash?)
    ensures Extends(env, s, Next(env, s, step), step.n) && TaskKept(env, Next(env, s, step), step.n)
  {
    assert step.n in s.tasks ==> TaskKept(env, s, step.n);
  }

  lemma NextSound(env: Env, s: System, step: Step)
    requires Sound(env, s) && Enabled(env, s, step)
    ensures Sound(env, Next(env, s, step))
  {
    var n := Next(env, s, step);
    match step
    case Write(_, _, _, _, _) => WriteSound(env, s, step);
    case Publish(_, _, _) => PublishSound(env, s, step);
    case Route(_, _) => RouteSound(env, s, step);
    case _ =>
      LocalExtends(env, s, step);
      ExtendedTasks(env, s, n, step.n);
      ExtendedDocs(env, s, n, step.n);
  }

  lemma RouteSound(env: Env, s: System, step: Step)
    requires Sound(env, s) && Enabled(env, s, step) && step.Route?
    ensures Sound(env, Next(env, s, step))
  {
    var n := Next(env, s, step);
    forall k | k in n.tasks ensures TaskKept(env, n, k) { assert TaskKept(env, s, k); }
    forall at, d | at in n.lake && d in n.lake[at] ensures DocKept(env, n, at, d) { assert DocKept(env, s, at, d); }
    forall r | r in n.ready ensures ReadyKept(env, n, r) {
      assert ReadyKept(env, s, r);
      var k :| IsMessageOf(env, s, k, r);
      assert IsMessageOf(env, n, k, r);
    }
    forall x | x in n.routed ensures RoutedKept(n, x) {
      if x in s.routed { assert RoutedKept(s, x); }
    }
  }

  /** Requests stay as they arrived, and nothing stored, uploaded or announced goes away. */
  ghost predicate Grew(s: System, r: System) {
    && (forall n | n in s.tasks :: n in r.tasks && r.tasks[n].request == s.tasks[n].request)
    && (forall at :: DocsIn(s, at) <= DocsIn(r, at))
    && (forall id | id in s.inserted :: id in r.inserted && r.inserted[id] == s.inserted[id])
    && s.ready <= r.ready && s.routed <= r.routed && s.objects.Keys <= r.objects.Keys
  }

  lemma NextGrows(env: Env, s: System, step: Step)
    requires Enabled(env, s, step)
    ensures Grew(s, Next(env, s, step))
  {
    if step.Write? {
      var n := Next(env, s, step);
      forall at ensures DocsIn(s, at) <= DocsIn(n, at) {}
    }
  }

  lemma {:induction false} NothingIsUndone(env: Env, s: System, steps: seq<Step>)
    ensures Grew(s, Run(env, s, steps))
    decreases |steps|
  {
    if steps != [] {
      var next := if Enabled(env, s, steps[0]) then Next(env, s, steps[0]) else s;
      if Enabled(env, s, steps[0]) { NextGrows(env, s, steps[0]); }
      NothingIsUndone(env, next, steps[1..]);
      GrewTransitive(s, next, Run(env, next, steps[1..]));
    }
  }

  lemma GrewTransitive(a: System, b: System, c: System)
    requires Grew(a, b) && Grew(b, c)
    ensures Grew(a, c)
  {
    forall at ensures DocsIn(a, at) <= DocsIn(c, at) { assert DocsIn(a, at) <= DocsIn(b, at); }
  }

  lemma {:induction false} RunSound(env: Env, s: System, steps: seq<Step>)
    requires Sound(env, s)
    ensures Sound(env, Run(env, s, steps))
    decreases |steps|
  {
    if steps != [] {
      if Enabled(env, s, steps[0]) { NextSound(env, s, steps[0]); }
      RunSound(env, if Enabled(env, s, steps[0]) then Next(env, s, steps[0]) else s, steps[1..]);
    }
  }

  /* ---------------------------------------------------------------- short runs */

  function StepOrSkip(env: Env, s: System, step: Step): System {
    if Enabled(env, s, step) then Next(env, s, step) else s
  }

  lemma FiveSteps(env: Env, s: System, x1: Step, x2: Step, x3: Step, x4: Step, x5: Step)
    ensures Run(env, s, [x1, x2, x3, x4, x5]) ==
            StepOrSkip(env, StepOrSkip(env, StepOrSkip(env, StepOrSkip(env, StepOrSkip(env, s, x1), x2), x3), x4), x5)
  {
    RunStep(env, s, x1, [x2, x3, x4, x5]);
    var s1 := StepOrSkip(env, s, x1);
    RunStep(env, s1, x2, [x3, x4, x5]);
    var s2 := StepOrSkip(env, s1, x2);
    RunStep(env, s2, x3, [x4, x5]);
    var s3 := StepOrSkip(env, s2, x3);
    RunStep(env, s3, x4, [x5]);
    RunStep(env, StepOrSkip(env, s3, x4), x5, []);
    assert [x1, x2, x3, x4, x5] == [x1] + [x2, x3, x4, x5] && [x2, x3, x4, x5] == [x2] + [x3, x4, x5];
    assert [x3, x4, x5] == [x3] + [x4, x5] && [x4, x5] == [x4] + [x5] && [x5] == [x5] + [];
  }

  lemma ThreeSteps(env: Env, s: System, x1: Step, x2: Step, x3: Step)
    ensures Run(env, s, [x1, x2, x3]) == StepOrSkip(env, StepOrSkip(env, StepOrSkip(env, s, x1), x2), x3)
  {
    var s1 := StepOrSkip(env, s, x1);
    RunStep(env, s, x1, [x2, x3]);
    RunStep(env, s1, x2, [x3]);
    RunStep(env, StepOrSkip(env, s1, x2), x3, []);
    assert [x1, x2, x3] == [x1] + [x2, x3] && [x2, x3] == [x2] + [x3] && [x3] == [x3] + [];
  }

  lemma RunStep(env: Env, s: System, step: Step, rest: seq<Step>)
    ensures Run(env, s, [step] + rest) == Run(env, StepOrSkip(env, s, step), rest)
  {
    assert ([step] + rest)[1..] == rest;
  }

  lemma {:induction false} RunConcat(env: Env, s: System, a: seq<Step>, b: seq<Step>)
    ensures Run(env, s, a + b) == Run(env, Run(env, s, a), b)
    decreases |a|
  {
    if a == [] {
      assert a + b == b;
    } else {
      assert (a + b)[0] == a[0] && (a + b)[1..] == a[1..] + b;
      RunConcat(env, StepOrSkip(env, s, a[0]), a[1..], b);
    }
  }
}
