/** What the writers store, read back through the bridge's own methods. */
module ReadBack {
  import opened Bytes
  import opened Wrappers
  import opened Strings
  import opened Store
  import opened Lakes
  import opened Names
  import opened Addressing
  import opened Views
  import opened Rdt
  import opened Inlining
  import opened RawWriter2
  import Client
  import Paging
  import Server
  import IngestProtocol
  import IngestStorage
  import IngestGuarantees
  import RawWriter
  import WriterProtocol
  import WriterGuarantees

  /* ---------------------------------------------------------------- by URN */

  /** A document where raw-writer-2 puts it, under the prefix it shares with the bridge, is what the bridge gives for
      the URN raw-writer-2 publishes. */
  method ByUrn(bridge: Bridge, provider: text, d: Doc) returns (r: Result<Doc, RdtError>)
    requires bridge.lake.Valid()
    requires ProviderParts(bridge.dbPrefix, provider).Some?
    requires COLON !in provider && SLASH !in Cut(provider, SLASH)[1]
    requires d in bridge.lake.DocsIn(ProviderParts(bridge.dbPrefix, provider).value)
    ensures r == Success(d)
  {
    Writer2AgreesIff(bridge.dbPrefix, provider, d.id);
    r := bridge.GetDocument(RawUrn(provider, d.id));
    var at := ProviderParts(bridge.dbPrefix, provider).value;
    assert HasId(bridge.lake.DocsIn(at), d.id);
  }

  /** A document where raw-writer puts it, in its provider's database under the shared prefix, likewise. */
  method ByWriterUrn(bridge: Bridge, provider: text, d: Doc) returns (r: Result<Doc, RdtError>)
    requires bridge.lake.Valid()
    requires ConstructTableTarget(provider).Some? && COLON !in provider
    requires var t := ConstructTableTarget(provider).value; d in bridge.lake.DocsIn(Target(bridge.dbPrefix + t.db, t.collection))
    ensures r == Success(d)
  {
    WriterAgreesIff(provider, d.id);
    r := bridge.GetDocument(RawUrn(provider, d.id));
    var t := ConstructTableTarget(provider).value;
    assert HasId(bridge.lake.DocsIn(Target(bridge.dbPrefix + t.db, t.collection)), d.id);
  }

  /* ---------------------------------------------------------------- by name */

  /** Either view of a database and collection, asked for by their logical names, is read from where raw-writer-2 puts
      the documents of the provider they make up. */
  method ByName(bridge: Bridge, o: Ordering, db: text, collection: text, token: text, limit: int)
    returns (r: Result<Paging.Page, RdtError>)
    requires bridge.lake.Valid()
    requires ValidDatabaseName(db) && ValidCollectionName(collection) && ValidOrdering(o)
    ensures ProviderParts(bridge.dbPrefix, db + [SLASH] + collection).Some?
    ensures var at := ProviderParts(bridge.dbPrefix, db + [SLASH] + collection).value;
            r == Answer(o, at in bridge.lake.collections, bridge.lake.DocsIn(at), token, limit, bridge.maxPageBytes)
  {
    NamesAreClean(db, collection);
    Writer2TargetIs(bridge.dbPrefix, db, collection);
    r := Client.Request(bridge, o, db, collection, token, limit);
  }

  /* ---------------------------------------------------------------- the last hop */

  /** The bridge has the writer's prefix and reads the lake the requests have filled. */
  ghost predicate Reads(bridge: Bridge, env: Env, s: IngestProtocol.System)
    reads bridge.lake
  {
    bridge.dbPrefix == env.dbPrefix && bridge.lake.collections == s.lake
  }

  /** A routed message of raw-writer-2, at any later time: the endpoint, given the message's URN, replies with the
      document stored for its request, carrying that request's body, media type, timestamp and headers. */
  method ServeRouted(
      bridge: Bridge, ghost env: Env, ghost steps: seq<IngestProtocol.Step>, ghost more: seq<IngestProtocol.Step>,
      x: IngestProtocol.Routed, retrieve: text -> Option<text>)
    returns (r: Server.DocumentReply, ghost n: nat)
    requires bridge.lake.Valid()
    requires var later := IngestProtocol.Run(env, IngestProtocol.Run(env, IngestProtocol.START, steps), more);
             && IngestStorage.Faithful(env, later) && Reads(bridge, env, later)
             && retrieve == FetchFrom(env.bucket, later.objects, env.decompress)
    requires x in IngestProtocol.Run(env, IngestProtocol.START, steps).routed
    ensures var later := IngestProtocol.Run(env, IngestProtocol.Run(env, IngestProtocol.START, steps), more);
            && n in later.tasks
            && var q := later.tasks[n].request;
               COLON !in Provider(q) && SLASH !in Cut(Provider(q), SLASH)[1] ==>
                 && r.Document?
                 && r.d.rawdata == (if Inlining.IsText(q.mediaType) then Text(q.raw) else Store.Bytes(q.raw))
                 && r.d.contentType == q.mediaType && r.d.timestamp == q.timestamp
                 && (forall f :: f in r.d.meta <==> f in q.extra)
  {
    ghost var later := IngestProtocol.Run(env, IngestProtocol.Run(env, IngestProtocol.START, steps), more);
    ghost var d: Doc;
    n, d := IngestGuarantees.EndToEnd(env, steps, more, x);
    r := Server.GetDocument(bridge, x.payload.urn, retrieve);
    ghost var q := later.tasks[n].request;
    SameTextTypes(q.mediaType);
    if COLON !in Provider(q) && SLASH !in Cut(Provider(q), SLASH)[1] {
      FoundIsServed(env, steps, more, x, n, d, r);
    }
  }

  lemma FoundIsServed(
      env: Env, steps: seq<IngestProtocol.Step>, more: seq<IngestProtocol.Step>,
      x: IngestProtocol.Routed, n: nat, d: Doc, r: Server.DocumentReply)
    requires var later := IngestProtocol.Run(env, IngestProtocol.Run(env, IngestProtocol.START, steps), more);
             && n in later.tasks && later.tasks[n].doc == Some(d)
             && IngestGuarantees.Finds(env, later, x.payload.urn, d)
             && (forall e | IngestGuarantees.Finds(env, later, x.payload.urn, e) :: e == d)
             && IngestStorage.Serves(env, later.objects, d, later.tasks[n].request)
             && var a := Resolve(x.payload.urn).value;
                Server.AnswersWith(IngestProtocol.DocsIn(later, Target(env.dbPrefix + a.target.db, a.target.collection)), a.id,
                                   FetchFrom(env.bucket, later.objects, env.decompress), r)
    ensures var q := IngestProtocol.Run(env, IngestProtocol.Run(env, IngestProtocol.START, steps), more).tasks[n].request;
            && r == Server.Document(d.(rawdata := Payload(q)))
            && d.contentType == q.mediaType && d.timestamp == q.timestamp
            && forall f :: f in d.meta <==> f in q.extra
  {
    var later := IngestProtocol.Run(env, IngestProtocol.Run(env, IngestProtocol.START, steps), more);
    IngestProtocol.RunConcat(env, IngestProtocol.START, steps, more);
    IngestProtocol.RunSound(env, IngestProtocol.START, steps + more);
    assert IngestProtocol.TaskKept(env, later, n);
  }

  /** The bridge's lake holds, under its prefix, what raw-writer's goroutines have stored. */
  ghost predicate Mirrors(bridge: Bridge, w: RawWriter.World)
    reads bridge.lake
  {
    forall x | x in w.stored :: x.doc in bridge.lake.DocsIn(Target(bridge.dbPrefix + x.target.db, x.target.collection))
  }

  /** A ready message of raw-writer whose provider has no colon: the bridge gives, for its URN, the document stored for
      the message, if no publish that reported failure published something. */
  method ServeReady(bridge: Bridge, ghost steps: seq<WriterProtocol.Step>, m: RawWriter.ReadyMessage)
    returns (r: Result<Doc, RdtError>)
    requires bridge.lake.Valid() && Mirrors(bridge, WriterProtocol.Run(WriterProtocol.START, steps).world)
    requires forall step | step in steps :: WriterGuarantees.PublishIsHonest(step)
    requires m in WriterProtocol.Run(WriterProtocol.START, steps).world.ready
    ensures var s := WriterProtocol.Run(WriterProtocol.START, steps);
            && m.id in s.inserted && s.inserted[m.id] in s.tasks && s.tasks[s.inserted[m.id]].job.Some?
            && (COLON !in s.tasks[s.inserted[m.id]].job.value.provider ==>
                  r.Success? && r.value.id == m.id && RawWriter.Stored(m.target, r.value) in s.world.stored)
  {
    ghost var s := WriterProtocol.Run(WriterProtocol.START, steps);
    WriterGuarantees.ReadyLeadsToDocument(steps, m);
    WriterGuarantees.NoReadyMessageDangles(steps);
    assert WriterGuarantees.Names(m, s.world.stored);
    r := bridge.GetDocument(m.urn);
    ghost var x :| x in s.world.stored && x.target == m.target && x.doc.id == m.id;
    assert HasId(bridge.lake.DocsIn(Target(bridge.dbPrefix + m.target.db, m.target.collection)), x.doc.id);
  }
}
