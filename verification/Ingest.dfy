/** One request to raw-writer-2 from start to end, as one uninterrupted run of the protocol. */
module Ingest {
  import opened Bytes
  import opened Wrappers
  import opened Strings
  import opened Hex
  import opened Store
  import opened Addressing
  import opened Objects
  import opened RawWriter2
  import opened IngestProtocol
  import opened Values
  import opened Lakes
  import RawWriter

  /** How the outside will answer, the document's id and size included. */
  datatype Fate = Fate(
    bodyRead: bool, compressOk: bool, uploadOk: bool, id: RawWriter.Oid, size: nat, writeOk: bool, publishOk: bool)

  function TaskAfterUpload(env: Env, r: Request, fate: Fate): Task {
    Task(Writing, r, if Spills(env, r) then Some(fate.compressOk) else None, None, false)
  }

  /** The insert succeeds when it has a collection to go to and the server takes the document. */
  predicate Inserted(env: Env, r: Request, fate: Fate) {
    && TargetOf(env, r).Some? && fate.writeOk
    && Storable(DocFor(env, TaskAfterUpload(env, r, fate), fate.id, fate.size))
  }

  predicate Succeeds(env: Env, r: Request, fate: Fate) {
    && ValidMeta(r) && fate.bodyRead && (Spills(env, r) ==> fate.uploadOk) && Inserted(env, r, fate) && fate.publishOk
  }

  /** The steps of a request nothing interrupts; a run skips those it does not come to. */
  function StepsFor(env: Env, n: nat, r: Request, fate: Fate): seq<Step> {
    [Arrive(n, r, fate.bodyRead), Upload(n, fate.compressOk, fate.uploadOk, fate.uploadOk),
     Step.Write(n, fate.id, fate.size, Inserted(env, r, fate), Inserted(env, r, fate)),
     Publish(n, fate.publishOk, fate.publishOk), Reply(n)]
  }

  function StatusOf(env: Env, r: Request, fate: Fate): nat {
    if Succeeds(env, r, fate) then OK else if !ValidMeta(r) then BAD_REQUEST else SERVER_ERROR
  }

  function Answered(s: System, n: nat, t: Task, status: nat): System {
    s.(tasks := s.tasks[n := t.(pc := Replied(status))])
  }

  /** The state a request leaves, written out. */
  function Finished(env: Env, s: System, n: nat, r: Request, fate: Fate): System {
    var uploaded := ValidMeta(r) && fate.bodyRead && Spills(env, r) && fate.uploadOk;
    var written := ValidMeta(r) && fate.bodyRead && (Spills(env, r) ==> fate.uploadOk) && Inserted(env, r, fate);
    var t := Task(Replied(StatusOf(env, r, fate)), r, if uploaded then Some(fate.compressOk) else None, None, false);
    var s1 := if !uploaded then s else
      s.(objects := s.objects[ObjectKey(env, r, fate.compressOk) := ObjectData(env, r, fate.compressOk)]);
    if !written then s1.(tasks := s.tasks[n := t])
    else
      var at := TargetOf(env, r).value;
      var d: Record := DocFor(env, TaskAfterUpload(env, r, fate), fate.id, fate.size);
      s1.(lake := s.lake[at := Apply(DocsIn(s, at), Insert(d))],
          inserted := s.inserted[fate.id := n],
          ready := if fate.publishOk then s.ready + [MessageFor(r, at, fate.id)] else s.ready,
          tasks := s.tasks[n := t.(doc := Some(d), announced := fate.publishOk)])
  }

  /** Where the request is after its first two steps. */
  function PcAfterUpload(env: Env, r: Request, fate: Fate): Pc {
    var pc := FirstPc(env, r, fate.bodyRead);
    if pc.Uploading? then After(fate.uploadOk, Writing) else pc
  }

  function AfterUpload(env: Env, s: System, n: nat, r: Request, fate: Fate): System {
    var uploaded := FirstPc(env, r, fate.bodyRead).Uploading? && fate.uploadOk;
    s.(objects := if uploaded then s.objects[ObjectKey(env, r, fate.compressOk) := ObjectData(env, r, fate.compressOk)]
                  else s.objects,
       tasks := s.tasks[n := Task(PcAfterUpload(env, r, fate), r, if uploaded then Some(fate.compressOk) else None, None, false)])
  }

  lemma ArriveAndUpload(env: Env, s: System, n: nat, r: Request, fate: Fate)
    requires n !in s.tasks
    ensures StepOrSkip(env, StepOrSkip(env, s, Arrive(n, r, fate.bodyRead)),
                       Upload(n, fate.compressOk, fate.uploadOk, fate.uploadOk)) == AfterUpload(env, s, n, r, fate)
  {
    Overwritten(s.tasks, n, Task(FirstPc(env, r, fate.bodyRead), r, None, None, false), AfterUpload(env, s, n, r, fate).tasks[n]);
  }

  lemma Overwritten<V>(m: map<nat, V>, n: nat, a: V, b: V)
    ensures m[n := a][n := b] == m[n := b]
  {
  }

  /** Nothing more happens to a request that has failed but its answer. */
  lemma AnswerFailure(env: Env, s: System, n: nat, t: Task, write: Step, publish: Step)
    requires n in s.tasks && s.tasks[n] == t && t.pc.Answering?
    requires write.Write? && write.n == n && publish.Publish? && publish.n == n
    ensures StepOrSkip(env, StepOrSkip(env, StepOrSkip(env, s, write), publish), Reply(n)) == Answered(s, n, t, t.pc.status)
  {
  }

  /** A document that was stored is announced and answered. */
  lemma PublishAndAnswer(env: Env, s: System, n: nat, t: Task, ok: bool)
    requires n in s.tasks && s.tasks[n] == t && t.pc.Publishing? && t.doc.Some? && TargetOf(env, t.request).Some?
    ensures StepOrSkip(env, StepOrSkip(env, s, Publish(n, ok, ok)), Reply(n)) ==
            Answered(s.(ready := if ok then s.ready + [MessageFor(t.request, TargetOf(env, t.request).value, t.doc.value.id)]
                                 else s.ready),
                     n, t.(announced := ok), if ok then OK else SERVER_ERROR)
  {
    var s1 := Published(env, s, n, ok, ok);
    Overwritten(s.tasks, n, s1.tasks[n], s1.tasks[n].(pc := Replied(if ok then OK else SERVER_ERROR)));
  }

  /** The last three steps. */
  function Finish(env: Env, s: System, n: nat, fate: Fate, ok: bool): System {
    StepOrSkip(env, StepOrSkip(env, StepOrSkip(env, s, Step.Write(n, fate.id, fate.size, ok, ok)),
                               Publish(n, fate.publishOk, fate.publishOk)), Reply(n))
  }

  lemma FinishFailed(env: Env, s: System, n: nat, r: Request, fate: Fate)
    requires n !in s.tasks && fate.id !in s.inserted && !PcAfterUpload(env, r, fate).Writing?
    ensures Finish(env, AfterUpload(env, s, n, r, fate), n, fate, Inserted(env, r, fate)) == Finished(env, s, n, r, fate)
  {
    var s2, ok := AfterUpload(env, s, n, r, fate), Inserted(env, r, fate);
    var t2 := s2.tasks[n];
    AnswerFailure(env, s2, n, t2, Step.Write(n, fate.id, fate.size, ok, ok), Publish(n, fate.publishOk, fate.publishOk));
    Overwritten(s.tasks, n, t2, t2.(pc := Replied(t2.pc.status)));
  }

  lemma FinishUnwritten(env: Env, s: System, n: nat, r: Request, fate: Fate)
    requires n !in s.tasks && fate.id !in s.inserted && PcAfterUpload(env, r, fate).Writing? && !Inserted(env, r, fate)
    ensures Finish(env, AfterUpload(env, s, n, r, fate), n, fate, false) == Finished(env, s, n, r, fate)
  {
    var s2 := AfterUpload(env, s, n, r, fate);
    var t2 := s2.tasks[n];
    var write := Step.Write(n, fate.id, fate.size, false, false);
    var s3 := StepOrSkip(env, s2, write);
    var t3 := t2.(pc := Answering(SERVER_ERROR));
    Overwritten(s.tasks, n, t2, t3);
    assert s3 == s2.(tasks := s.tasks[n := t3]);
    AnswerFailure(env, s3, n, t3, write, Publish(n, fate.publishOk, fate.publishOk));
    Overwritten(s.tasks, n, t3, t3.(pc := Replied(SERVER_ERROR)));
  }

  lemma FinishWritten(env: Env, s: System, n: nat, r: Request, fate: Fate)
    requires n !in s.tasks && fate.id !in s.inserted && PcAfterUpload(env, r, fate).Writing? && Inserted(env, r, fate)
    ensures Finish(env, AfterUpload(env, s, n, r, fate), n, fate, true) == Finished(env, s, n, r, fate)
  {
    var s2 := AfterUpload(env, s, n, r, fate);
    var t2 := s2.tasks[n];
    assert t2 == TaskAfterUpload(env, r, fate);
    var s3 := Wrote(env, s2, n, fate.id, fate.size, true, true);
    assert s3 == StepOrSkip(env, s2, Step.Write(n, fate.id, fate.size, true, true));
    var t3 := s3.tasks[n];
    Overwritten(s.tasks, n, t2, t3);
    PublishAndAnswer(env, s3, n, t3, fate.publishOk);
    Overwritten(s.tasks, n, t3, t3.(announced := fate.publishOk, pc := Replied(StatusOf(env, r, fate))));
  }

  lemma OneRequest(env: Env, s: System, n: nat, r: Request, fate: Fate)
    requires n !in s.tasks && fate.id !in s.inserted
    ensures Run(env, s, StepsFor(env, n, r, fate)) == Finished(env, s, n, r, fate)
  {
    var x1, x2 := Arrive(n, r, fate.bodyRead), Upload(n, fate.compressOk, fate.uploadOk, fate.uploadOk);
    var ok := Inserted(env, r, fate);
    FiveSteps(env, s, x1, x2, Step.Write(n, fate.id, fate.size, ok, ok), Publish(n, fate.publishOk, fate.publishOk), Reply(n));
    ArriveAndUpload(env, s, n, r, fate);
    if !PcAfterUpload(env, r, fate).Writing? {
      FinishFailed(env, s, n, r, fate);
    } else if ok {
      FinishWritten(env, s, n, r, fate);
    } else {
      FinishUnwritten(env, s, n, r, fate);
    }
  }

  /** The status: 400 exactly when metadata is missing, 200 exactly when in addition everything succeeds. */
  lemma StatusIs(env: Env, r: Request, fate: Fate)
    ensures StatusOf(env, r, fate) in {200, 400, 500}
    ensures StatusOf(env, r, fate) == 400 <==> r.provider1 == [] || r.provider2 == [] || r.provenance == []
    ensures StatusOf(env, r, fate) == 200 <==>
              && r.provider1 != [] && r.provider2 != [] && r.provenance != [] && fate.bodyRead
              && (|r.raw| >= env.threshold ==> fate.uploadOk) && Inserted(env, r, fate) && fate.publishOk
  {
  }

  /** A request that ends with a 200 has inserted one document, with its own timestamp, media type and headers and
      the id the server gave it, into the collection its path names, and published one message about it. */
  lemma OneRequestStores(env: Env, s: System, n: nat, r: Request, fate: Fate)
    requires n !in s.tasks && fate.id !in s.inserted && StatusOf(env, r, fate) == 200 && SLASH !in r.provider1
    ensures var after, at := Run(env, s, StepsFor(env, n, r, fate)), Target(env.dbPrefix + r.provider1, r.provider2);
            && n in after.tasks && after.tasks[n].doc.Some?
            && var d := after.tasks[n].doc.value;
               && d.id == fate.id && d.timestamp == r.timestamp && d.contentType == r.mediaType
               && (forall f :: f in d.meta <==> f in r.extra) && (forall f | f in r.extra :: d.meta[f] == Str(r.extra[f]))
               && DocsIn(after, at) == Apply(DocsIn(s, at), Insert(d))
               && (forall u | u != at :: DocsIn(after, u) == DocsIn(s, u))
               && |after.ready| == |s.ready| + 1 && after.ready[..|s.ready|] == s.ready
               && after.ready[|s.ready|].id == ToHex(d.id) && after.ready[|s.ready|].target == at
  {
    OneRequest(env, s, n, r, fate);
    Writer2TargetIs(env.dbPrefix, r.provider1, r.provider2);
  }

  /** Uploads a body that is too large, compressed if it is text: the reference, or none when the upload fails. */
  method SpillBody(env: Env, objects: map<text, text>, r: Request, fate: Fate)
    returns (after: map<text, text>, rawRef: Option<text>)
    ensures rawRef.Some? <==> (|r.raw| >= env.threshold ==> fate.uploadOk)
    ensures rawRef.Some? ==> rawRef.value == RefOf(env, TaskAfterUpload(env, r, fate))
    ensures after == if |r.raw| >= env.threshold && fate.uploadOk
                     then objects[ObjectKey(env, r, fate.compressOk) := ObjectData(env, r, fate.compressOk)] else objects
  {
    if |r.raw| < env.threshold {
      return objects, Some([]);
    }
    var data, suffix := r.raw, [];
    if RawWriter2.IsText(r.mediaType) {
      if fate.compressOk {
        data, suffix := env.compress(r.raw), ZST;
      }
    }
    var key := Provider(r) + [SLASH] + r.stamp + [95] + ToHex(env.hash(r.raw)) + suffix;
    if !fate.uploadOk {
      return objects, None;
    }
    return objects[key := data], Some(S3Urn(env.bucket, key));
  }

  /** Uploads a large body, stores the document, publishes the message and answers; the first failure ends the
      request with what was done so far left in place. */
  method HandleIngest(env: Env, s: System, n: nat, r: Request, fate: Fate) returns (after: System, status: nat)
    requires n !in s.tasks && fate.id !in s.inserted
    ensures after == Run(env, s, StepsFor(env, n, r, fate))
    ensures status == StatusOf(env, r, fate)
  {
    OneRequest(env, s, n, r, fate);
    after := s;
    var t := Task(Crashed, r, None, None, false);
    if !ValidMeta(r) {
      return Answered(after, n, t, BAD_REQUEST), BAD_REQUEST;
    }
    if !fate.bodyRead {
      return Answered(after, n, t, SERVER_ERROR), SERVER_ERROR;
    }
    var objects, rawRef := SpillBody(env, s.objects, r, fate);
    after := after.(objects := objects);
    if rawRef == None {
      return Answered(after, n, t, SERVER_ERROR), SERVER_ERROR;
    }
    t := t.(upload := if |r.raw| >= env.threshold then Some(fate.compressOk) else None);
    var target := ProviderParts(env.dbPrefix, Provider(r));
    var doc := BuildDoc(r, fate.id, rawRef.value).(size := fate.size);
    assert doc == DocFor(env, TaskAfterUpload(env, r, fate), fate.id, fate.size);
    if target == None || !fate.writeOk || !Storable(doc) {
      return Answered(after, n, t, SERVER_ERROR), SERVER_ERROR;
    }
    after := after.(lake := after.lake[target.value := Apply(DocsIn(after, target.value), Insert(doc))],
                    inserted := after.inserted[fate.id := n]);
    t := t.(doc := Some(doc));
    if !fate.publishOk {
      return Answered(after, n, t, SERVER_ERROR), SERVER_ERROR;
    }
    after := after.(ready := after.ready + [MessageFor(r, target.value, fate.id)]);
    return Answered(after, n, t.(announced := true), OK), OK;
  }
}
