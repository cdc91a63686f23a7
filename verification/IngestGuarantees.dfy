/** What raw-writer-2, the router and the bridge guarantee together, over all interleavings, failures and crashes. */
module IngestGuarantees {
  import opened Bytes
  import opened Wrappers
  import opened Strings
  import opened Hex
  import opened Values
  import opened Store
  import opened Lakes
  import opened Addressing
  import opened Objects
  import opened Inlining
  import opened RawWriter2
  import opened IngestProtocol
  import opened IngestStorage

  /* ---------------------------------------------------------------- messages */

  ghost predicate NamesDocument(s: System, m: ReadyPayload) {
    exists d | d in DocsIn(s, m.target) :: m.id == ToHex(d.id)
  }

  /** Whatever fails, crashes or collides, every ready message and every routed one names a stored document, and
      stays so. */
  lemma NoMessageDangles(env: Env, steps: seq<Step>, more: seq<Step>)
    ensures var s, later := Run(env, START, steps), Run(env, Run(env, START, steps), more);
            && (forall m | m in s.ready :: NamesDocument(later, m))
            && (forall x | x in s.routed :: NamesDocument(later, x.payload) && RoutingKey(x.payload.urn) == Some(x.key))
  {
    var s, later := Run(env, START, steps), Run(env, Run(env, START, steps), more);
    RunSound(env, START, steps);
    NothingIsUndone(env, s, more);
    forall m | m in s.ready ensures NamesDocument(later, m) {
      assert ReadyKept(env, s, m);
      var n :| IsMessageOf(env, s, n, m);
      assert TaskKept(env, s, n);
      assert s.tasks[n].doc.value in DocsIn(s, m.target) && DocsIn(s, m.target) <= DocsIn(later, m.target);
    }
    forall x | x in s.routed ensures x.payload in s.ready && RoutingKey(x.payload.urn) == Some(x.key) {
      assert RoutedKept(s, x);
    }
  }

  /* ---------------------------------------------------------------- replies */

  /** The request's document is stored, with a reference exactly when its body is too large, and its message sent. */
  ghost predicate Done(env: Env, s: System, n: nat)
    requires n in s.tasks
  {
    var t := s.tasks[n];
    && t.doc.Some? && TargetOf(env, t.request).Some?
    && t.doc.value in DocsIn(s, TargetOf(env, t.request).value)
    && MessageFor(t.request, TargetOf(env, t.request).value, t.doc.value.id) in s.ready
    && (|t.request.raw| >= env.threshold <==> t.doc.value.rawRef != [])
  }

  /** Some stored document was made for request n. */
  ghost predicate LeftDocument(s: System, n: nat) {
    exists at, d | at in s.lake && d in s.lake[at] :: d.id in s.inserted && s.inserted[d.id] == n
  }

  lemma LeftDocumentIff(env: Env, s: System, n: nat)
    requires Sound(env, s) && n in s.tasks
    ensures LeftDocument(s, n) <==> s.tasks[n].doc.Some?
  {
    if LeftDocument(s, n) {
      var at, d :| at in s.lake && d in s.lake[at] && d.id in s.inserted && s.inserted[d.id] == n;
      assert DocKept(env, s, at, d);
    }
    if s.tasks[n].doc.Some? {
      assert TaskKept(env, s, n);
      var at, d := TargetOf(env, s.tasks[n].request).value, s.tasks[n].doc.value;
      assert at in s.lake && d in s.lake[at];
    }
  }

  /** Whatever fails, crashes or collides, a 200 means the document is stored and its message published; a 400 means
      exactly that metadata is missing, and then nothing was stored; any other failure is a 500. */
  lemma RepliesAreHonest(env: Env, steps: seq<Step>, n: nat)
    requires n in Run(env, START, steps).tasks && Run(env, START, steps).tasks[n].pc.Replied?
    ensures var s := Run(env, START, steps);
            var t := s.tasks[n];
            && t.pc.status in {200, 400, 500}
            && (t.pc.status == 200 ==> Done(env, s, n))
            && (t.pc.status == 400 <==> t.request.provider1 == [] || t.request.provider2 == [] || t.request.provenance == [])
            && (t.pc.status == 400 ==> !LeftDocument(s, n))
  {
    var s := Run(env, START, steps);
    var t := s.tasks[n];
    RunSound(env, START, steps);
    assert TaskKept(env, s, n);
    assert Answered(t, t.pc.status);
    LeftDocumentIff(env, s, n);
  }

  /** And when bodies are readable and do not clash, a 200 means the bridge serves the body, then and later. */
  lemma OkMeansServed(env: Env, steps: seq<Step>, more: seq<Step>, n: nat)
    requires Faithful(env, Run(env, Run(env, START, steps), more))
    requires n in Run(env, START, steps).tasks && Run(env, START, steps).tasks[n].pc == Replied(OK)
    ensures var s, later := Run(env, START, steps), Run(env, Run(env, START, steps), more);
            && s.tasks[n].doc.Some?
            && Serves(env, later.objects, s.tasks[n].doc.value, s.tasks[n].request)
  {
    var s := Run(env, START, steps);
    RepliesAreHonest(env, steps, n);
    RunConcat(env, START, steps, more);
    NothingIsUndone(env, s, more);
    var at, d := TargetOf(env, s.tasks[n].request).value, s.tasks[n].doc.value;
    StoredAsSent(env, steps, at, d);
    RunSound(env, START, steps);
    assert TaskKept(env, s, n);
    StoredIsServed(env, steps + more, at, d);
  }

  /* ---------------------------------------------------------------- from the writer to the reader */

  /** The document the bridge finds for a URN, under its own prefix. */
  ghost predicate Finds(env: Env, s: System, urn: text, d: Doc) {
    && Resolve(urn).Some?
    && d.id == Resolve(urn).value.id
    && var t := Resolve(urn).value.target;
       d in DocsIn(s, Target(env.dbPrefix + t.db, t.collection))
  }

  /** Whatever fails, crashes or collides, a routed message's URN leads the bridge, now and at any later time, to the
      one document stored for a request, and the routing key spells its collection. */
  lemma LeadsToDocument(env: Env, steps: seq<Step>, more: seq<Step>, x: Routed) returns (n: nat, d: Doc)
    requires x in Run(env, START, steps).routed
    ensures var later := Run(env, Run(env, START, steps), more);
            && n in later.tasks && later.tasks[n].doc == Some(d) && IsMessageOf(env, later, n, x.payload)
            && var r := later.tasks[n].request;
               COLON !in Provider(r) && SLASH !in Cut(Provider(r), SLASH)[1] ==>
                 && Finds(env, later, x.payload.urn, d)
                 && (forall e | Finds(env, later, x.payload.urn, e) :: e == d)
                 && x.key == Resolve(x.payload.urn).value.target.db + [DOT] + Resolve(x.payload.urn).value.target.collection
  {
    var s, later := Run(env, START, steps), Run(env, Run(env, START, steps), more);
    RunSound(env, START, steps);
    RunSound(env, s, more);
    NothingIsUndone(env, s, more);
    assert RoutedKept(s, x) && x.payload in later.ready;
    assert ReadyKept(env, later, x.payload);
    n :| IsMessageOf(env, later, n, x.payload);
    assert TaskKept(env, later, n);
    var t := later.tasks[n];
    var r := t.request;
    d := t.doc.value;
    if COLON !in Provider(r) && SLASH !in Cut(Provider(r), SLASH)[1] {
      Writer2AgreesIff(env.dbPrefix, Provider(r), d.id);
      RoutingKeyAgreesIff(Provider(r), d.id);
      forall e | Finds(env, later, x.payload.urn, e) ensures e == d {
        assert DocKept(env, later, TargetOf(env, r).value, e);
      }
    }
  }

  /** And when bodies are readable and do not clash, the bridge serves that document with its request's body. */
  lemma EndToEnd(env: Env, steps: seq<Step>, more: seq<Step>, x: Routed) returns (n: nat, d: Doc)
    requires Faithful(env, Run(env, Run(env, START, steps), more))
    requires x in Run(env, START, steps).routed
    ensures var later := Run(env, Run(env, START, steps), more);
            && n in later.tasks && later.tasks[n].doc == Some(d) && IsMessageOf(env, later, n, x.payload)
            && var r := later.tasks[n].request;
               COLON !in Provider(r) && SLASH !in Cut(Provider(r), SLASH)[1] ==>
                 && Finds(env, later, x.payload.urn, d)
                 && (forall e | Finds(env, later, x.payload.urn, e) :: e == d)
                 && Serves(env, later.objects, d, r)
  {
    n, d := LeadsToDocument(env, steps, more, x);
    var later := Run(env, Run(env, START, steps), more);
    RunConcat(env, START, steps, more);
    RunSound(env, START, steps + more);
    assert TaskKept(env, later, n);
    StoredIsServed(env, steps + more, TargetOf(env, later.tasks[n].request).value, d);
  }
}
