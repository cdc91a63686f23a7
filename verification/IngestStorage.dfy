/** Whether what raw-writer-2 spills can be read back: the objects behind stored documents. */
module IngestStorage {
  import opened Bytes
  import opened Wrappers
  import opened Strings
  import opened Hex
  import opened Values
  import opened Store
  import opened Lakes
  import opened Compaction
  import opened Addressing
  import opened Objects
  import opened Inlining
  import opened RawWriter2
  import opened IngestProtocol
  import RawWriter

  /** The uploaded object, if any, unpacks to the request's body. */
  predicate Held(env: Env, objects: map<text, text>, t: Task) {
    t.upload.Some? ==> Holds(env, objects, ObjectKey(env, t.request, t.upload.value), t.request.raw)
  }

  /** The server can take a document for the request. */
  predicate CanStore(env: Env, r: Request) {
    && ValidMeta(r) && TargetOf(env, r).Some?
    && forall f | f in r.extra :: |r.extra[f]| < MAX_DOCUMENT_BYTES
  }

  /** Two spilled bodies of one provider and second differ, and their truncated hashes do not. */
  predicate Collide(env: Env, a: Request, b: Request) {
    && Spills(env, a) && Spills(env, b)
    && Provider(a) == Provider(b) && a.stamp == b.stamp && env.hash(a.raw) == env.hash(b.raw) && a.raw != b.raw
  }

  /** b's upload can replace the object of a stored document of a. */
  predicate Clash(env: Env, a: Request, b: Request) {
    CanStore(env, a) && ValidMeta(b) && Collide(env, a, b)
  }

  /** The bucket's name can stand in a URN. */
  predicate SafeBucket(env: Env) {
    env.bucket != [] && COLON !in env.bucket
  }

  /** A body that is spilled can be found and decompressed again. */
  predicate Readable(env: Env, r: Request) {
    Spills(env, r) ==> SafeBucket(env) && RoundTrips(env, r)
  }

  /** The bodies behind documents are readable and survive every other upload. */
  ghost predicate Faithful(env: Env, s: System) {
    && (forall n | n in s.tasks :: CanStore(env, s.tasks[n].request) ==> Readable(env, s.tasks[n].request))
    && forall a, b | a in s.tasks && b in s.tasks :: !Clash(env, s.tasks[a].request, s.tasks[b].request)
  }

  ghost predicate AllHeld(env: Env, s: System) {
    forall n | n in s.tasks :: CanStore(env, s.tasks[n].request) ==> Held(env, s.objects, s.tasks[n])
  }

  lemma UploadKeepsHeld(env: Env, s: System, step: Step)
    requires Sound(env, s) && AllHeld(env, s) && Faithful(env, s) && Enabled(env, s, step) && step.Upload?
    ensures AllHeld(env, Next(env, s, step))
  {
    var n, m := Next(env, s, step), step.n;
    var r := s.tasks[m].request;
    assert TaskKept(env, s, m);
    forall k | k in n.tasks && CanStore(env, n.tasks[k].request) ensures Held(env, n.objects, n.tasks[k]) {
      var t := n.tasks[k];
      if k == m {
        UploadHolds(env, s.objects, r, step.compressOk);
      } else {
        assert t == s.tasks[k] && TaskKept(env, s, k);
        if t.upload.Some? && ObjectKey(env, t.request, t.upload.value) == ObjectKey(env, r, step.compressOk) {
          KeyInjective(env, t.request, t.upload.value, r, step.compressOk);
          assert !Clash(env, t.request, r);
          SameObject(env, s.objects, t.request, t.upload.value, r, step.compressOk);
        }
      }
    }
  }

  /** Equal bodies under one key leave one object. */
  lemma SameObject(env: Env, objects: map<text, text>, a: Request, aOk: bool, b: Request, bOk: bool)
    requires RoundTrips(env, a) && a.raw == b.raw && ObjectKey(env, a, aOk) == ObjectKey(env, b, bOk)
    ensures Holds(env, objects[ObjectKey(env, b, bOk) := ObjectData(env, b, bOk)], ObjectKey(env, a, aOk), a.raw)
  {
    KeyInjective(env, a, aOk, b, bOk);
    UploadHolds(env, objects, a, aOk);
  }

  lemma NextHeld(env: Env, s: System, step: Step)
    requires Sound(env, s) && AllHeld(env, s) && Faithful(env, s) && Enabled(env, s, step)
    ensures AllHeld(env, Next(env, s, step))
  {
    if step.Upload? { UploadKeepsHeld(env, s, step); }
  }

  lemma {:induction false} RunHeld(env: Env, s: System, steps: seq<Step>)
    requires Sound(env, s) && AllHeld(env, s) && Faithful(env, Run(env, s, steps))
    ensures AllHeld(env, Run(env, s, steps))
    decreases |steps|
  {
    if steps != [] {
      FaithfulBefore(env, s, steps);
      if Enabled(env, s, steps[0]) {
        NextSound(env, s, steps[0]);
        NextHeld(env, s, steps[0]);
      }
      RunHeld(env, if Enabled(env, s, steps[0]) then Next(env, s, steps[0]) else s, steps[1..]);
    }
  }

  lemma FaithfulBefore(env: Env, s: System, steps: seq<Step>)
    requires Faithful(env, Run(env, s, steps))
    ensures Faithful(env, s)
  {
    NothingIsUndone(env, s, steps);
  }

  /* ---------------------------------------------------------------- what the bridge serves */

  /** The bridge serves the document with the body its request carried. */
  predicate Serves(env: Env, objects: map<text, text>, d: Record, r: Request) {
    Inlined(d, FetchFrom(env.bucket, objects, env.decompress)) == Success(d.(rawdata := Payload(r)))
  }

  /** The reference names an uploaded object that unpacks to the body. */
  predicate Refers(env: Env, objects: map<text, text>, ref: text, r: Request) {
    && ParseS3Urn(ref).Some?
    && ParseS3Urn(ref).value.bucket == env.bucket
    && Holds(env, objects, ParseS3Urn(ref).value.key, r.raw)
  }

  /** What fetching a reference gives. */
  lemma FetchesReference(env: Env, objects: map<text, text>, key: text)
    requires key != []
    ensures HasRetriever(S3Urn(env.bucket, key))
    ensures FetchFrom(env.bucket, objects, env.decompress)(S3Urn(env.bucket, key)) ==
            if SafeBucket(env) && key in objects then Unpacked(key, objects[key], env.decompress) else None
  {
    S3UrnParsesIff(env.bucket, key);
    ParsedS3Urn(env.bucket, key);
  }

  /** A spilled document is served with its body exactly when the bucket can be named and the object holds the body. */
  lemma SpilledServedIff(env: Env, objects: map<text, text>, t: Task, id: text, size: nat)
    requires t.upload.Some?
    ensures Serves(env, objects, DocFor(env, t, id, size), t.request) <==>
            SafeBucket(env) && Holds(env, objects, ObjectKey(env, t.request, t.upload.value), t.request.raw)
  {
    var key := ObjectKey(env, t.request, t.upload.value);
    FetchesReference(env, objects, key);
    SameTextTypes(t.request.mediaType);
    assert DocFor(env, t, id, size).rawRef == S3Urn(env.bucket, key) != [];
  }

  lemma DocIsServed(env: Env, objects: map<text, text>, t: Task, id: text, size: nat)
    requires (t.upload.Some? ==> SafeBucket(env)) && Held(env, objects, t)
    ensures var d := DocFor(env, t, id, size);
            && Serves(env, objects, d, t.request)
            && (d.rawRef != [] ==> Refers(env, objects, d.rawRef, t.request))
  {
    SameTextTypes(t.request.mediaType);
    if t.upload.Some? {
      SpilledServedIff(env, objects, t, id, size);
      S3UrnParsesIff(env.bucket, ObjectKey(env, t.request, t.upload.value));
    }
  }

  /** A document that was stored could be. */
  lemma StoredCanBeStored(env: Env, s: System, n: nat)
    requires Sound(env, s) && n in s.tasks && s.tasks[n].doc.Some?
    ensures CanStore(env, s.tasks[n].request)
  {
    var t := s.tasks[n];
    assert TaskKept(env, s, n);
    var d: Doc := t.doc.value;
    forall f | f in t.request.extra ensures |t.request.extra[f]| < MAX_DOCUMENT_BYTES {
      assert f in d.meta && d.meta[f] == Str(t.request.extra[f]);
    }
  }

  /** In every reachable state, whatever the bodies, each stored document lies where its request said and carries
      a reference exactly when its body was too large. */
  lemma StoredAsSent(env: Env, steps: seq<Step>, at: Target, d: Doc)
    requires d in DocsIn(Run(env, START, steps), at)
    ensures var s := Run(env, START, steps);
            && d.id in s.inserted && s.inserted[d.id] in s.tasks
            && var t := s.tasks[s.inserted[d.id]];
               && t.doc == Some(d) && TargetOf(env, t.request) == Some(at) && CanStore(env, t.request)
               && d == DocFor(env, t, d.id, d.size)
               && (d.rawRef != [] <==> Spills(env, t.request)) && (t.upload.Some? <==> Spills(env, t.request))
  {
    var s := Run(env, START, steps);
    RunSound(env, START, steps);
    assert DocKept(env, s, at, d);
    assert TaskKept(env, s, s.inserted[d.id]);
    StoredCanBeStored(env, s, s.inserted[d.id]);
  }

  /** A stored document's event time, media type and metadata are its request's own, and it lies in the database and
      collection its request's path names. */
  lemma StoredSaysWhatWasSent(env: Env, steps: seq<Step>, at: Target, d: Doc)
    requires d in DocsIn(Run(env, START, steps), at)
    ensures var s := Run(env, START, steps);
            && d.id in s.inserted && s.inserted[d.id] in s.tasks
            && var r := s.tasks[s.inserted[d.id]].request;
               && d.timestamp == r.timestamp && d.contentType == r.mediaType
               && (forall f :: f in d.meta <==> f in r.extra)
               && (forall f | f in r.extra :: d.meta[f] == Str(r.extra[f]))
               && (SLASH !in r.provider1 ==> at == Target(env.dbPrefix + r.provider1, r.provider2))
  {
    StoredAsSent(env, steps, at, d);
    var s := Run(env, START, steps);
    var r := s.tasks[s.inserted[d.id]].request;
    if SLASH !in r.provider1 { Writer2TargetIs(env.dbPrefix, r.provider1, r.provider2); }
  }

  function RequestOf(s: System, d: Doc): Request
    requires d.id in s.inserted && s.inserted[d.id] in s.tasks
  {
    s.tasks[s.inserted[d.id]].request
  }

  /** Of the documents stored in a collection for requests with one value of a header, the compacted view serves the
      one whose request has the latest timestamp, and of several such the one with the greatest id. */
  lemma CompactedServesLatestRequest(env: Env, steps: seq<Step>, at: Target, f: text, d: Doc)
    requires d in DocsIn(Run(env, START, steps), at)
    ensures var s := Run(env, START, steps);
            var docs := DocsIn(s, at);
            && (forall e | e in docs :: e.id in s.inserted && s.inserted[e.id] in s.tasks)
            && (d in Current(docs, f) <==>
                  && f in RequestOf(s, d).extra
                  && forall e | e in docs && f in RequestOf(s, e).extra && RequestOf(s, e).extra[f] == RequestOf(s, d).extra[f] ::
                       || RequestOf(s, e).timestamp < RequestOf(s, d).timestamp
                       || (RequestOf(s, e).timestamp == RequestOf(s, d).timestamp && (e.id == d.id || Less(e.id, d.id))))
  {
    var s := Run(env, START, steps);
    var docs := DocsIn(s, at);
    forall e | e in docs
      ensures e.id in s.inserted && s.inserted[e.id] in s.tasks
      ensures e.timestamp == RequestOf(s, e).timestamp
      ensures f in e.meta <==> f in RequestOf(s, e).extra
      ensures f in e.meta ==> e.meta[f] == Str(RequestOf(s, e).extra[f])
    {
      StoredSaysWhatWasSent(env, steps, at, e);
    }
    UniqueInState(env, steps, at);
    CurrentIff(docs, f, d);
  }

  lemma UniqueInState(env: Env, steps: seq<Step>, at: Target)
    ensures UniqueIds(DocsIn(Run(env, START, steps), at))
  {
    var s := Run(env, START, steps);
    RunSound(env, START, steps);
    forall a, b | a in DocsIn(s, at) && b in DocsIn(s, at) && a.id == b.id ensures a == b {
      assert DocKept(env, s, at, a) && DocKept(env, s, at, b);
    }
  }

  /** No dangling references: a reference names an uploaded object holding its document's body, and the bridge
      serves every document with that body. */
  lemma StoredIsServed(env: Env, steps: seq<Step>, at: Target, d: Doc)
    requires Faithful(env, Run(env, START, steps)) && d in DocsIn(Run(env, START, steps), at)
    ensures var s := Run(env, START, steps);
            && d.id in s.inserted && s.inserted[d.id] in s.tasks
            && var r := s.tasks[s.inserted[d.id]].request;
               && TargetOf(env, r) == Some(at)
               && (d.rawRef != [] <==> Spills(env, r))
               && (d.rawRef != [] ==> Refers(env, s.objects, d.rawRef, r))
               && Serves(env, s.objects, d, r)
  {
    var s := Run(env, START, steps);
    StoredAsSent(env, steps, at, d);
    RunHeld(env, START, steps);
    DocIsServed(env, s.objects, s.tasks[s.inserted[d.id]], d.id, d.size);
  }
}
