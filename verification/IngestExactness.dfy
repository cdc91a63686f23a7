/** Exactly when every stored document is served with the body it was sent with. */
module IngestExactness {
  import opened Bytes
  import opened Wrappers
  import opened Strings
  import opened Values
  import opened Store
  import opened Lakes
  import opened Addressing
  import opened Objects
  import opened RawWriter2
  import opened IngestProtocol
  import opened IngestStorage
  import opened Pigeonhole

  predicate ArrivalsFrom(steps: seq<Step>, rs: iset<Request>) {
    forall x | x in steps :: x.Arrive? ==> x.request in rs
  }

  predicate ServedAsSent(env: Env, s: System, d: Doc) {
    && d.id in s.inserted && s.inserted[d.id] in s.tasks
    && Serves(env, s.objects, d, s.tasks[s.inserted[d.id]].request)
  }

  /** Whatever happens to requests from rs, in whatever order, what is stored is served. */
  ghost predicate AlwaysServed(env: Env, rs: iset<Request>) {
    forall steps, at, d | ArrivalsFrom(steps, rs) && d in DocsIn(Run(env, START, steps), at) ::
      ServedAsSent(env, Run(env, START, steps), d)
  }

  /** Every body that can be stored is readable, and no two that can be uploaded and stored collide. */
  ghost predicate NoneClash(env: Env, rs: iset<Request>) {
    && (forall a | a in rs :: CanStore(env, a) ==> Readable(env, a))
    && forall a, b | a in rs && b in rs :: !Clash(env, a, b)
  }

  lemma {:induction false} TasksFrom(env: Env, s: System, steps: seq<Step>, rs: iset<Request>)
    requires ArrivalsFrom(steps, rs) && forall n | n in s.tasks :: s.tasks[n].request in rs
    ensures forall n | n in Run(env, s, steps).tasks :: Run(env, s, steps).tasks[n].request in rs
    decreases |steps|
  {
    if steps != [] {
      assert steps[0] in steps && forall x | x in steps[1..] :: x in steps;
      TasksFrom(env, StepOrSkip(env, s, steps[0]), steps[1..], rs);
    }
  }

  lemma NoClashServes(env: Env, rs: iset<Request>)
    requires NoneClash(env, rs)
    ensures AlwaysServed(env, rs)
  {
    forall steps, at, d | ArrivalsFrom(steps, rs) && d in DocsIn(Run(env, START, steps), at)
      ensures ServedAsSent(env, Run(env, START, steps), d)
    {
      TasksFrom(env, START, steps, rs);
      StoredIsServed(env, steps, at, d);
    }
  }

  /* ---------------------------------------------------------------- the failing runs */

  /** One large body is uploaded and its document stored. */
  function StoringSteps(a: Request, compressOk: bool): seq<Step> {
    [Arrive(0, a, true), Upload(0, compressOk, true, true), Step.Write(0, ZERO_ID, MAX_DOCUMENT_BYTES, true, true)]
  }

  function StoredTask(a: Request, compressOk: bool): Task {
    Task(Writing, a, Some(compressOk), None, false)
  }

  lemma StorableDoc(env: Env, a: Request, compressOk: bool)
    requires CanStore(env, a)
    ensures Storable(DocFor(env, StoredTask(a, compressOk), ZERO_ID, MAX_DOCUMENT_BYTES))
  {
  }

  /** The state once the body is uploaded. */
  function FirstUploaded(env: Env, a: Request, compressOk: bool): System {
    START.(objects := map[ObjectKey(env, a, compressOk) := ObjectData(env, a, compressOk)],
           tasks := map[0 := StoredTask(a, compressOk)])
  }

  lemma FirstUpload(env: Env, a: Request, compressOk: bool)
    requires ValidMeta(a) && Spills(env, a)
    ensures StepOrSkip(env, StepOrSkip(env, START, Arrive(0, a, true)), Upload(0, compressOk, true, true)) ==
            FirstUploaded(env, a, compressOk)
  {
  }

  lemma FirstWrite(env: Env, a: Request, compressOk: bool)
    requires CanStore(env, a) && Spills(env, a)
    ensures var s := StepOrSkip(env, FirstUploaded(env, a, compressOk), Step.Write(0, ZERO_ID, MAX_DOCUMENT_BYTES, true, true));
            && s.objects == FirstUploaded(env, a, compressOk).objects
            && DocFor(env, StoredTask(a, compressOk), ZERO_ID, MAX_DOCUMENT_BYTES) in DocsIn(s, TargetOf(env, a).value)
            && s.tasks.Keys == {0} && s.tasks[0].request == a && s.inserted == map[ZERO_ID := 0]
  {
    StorableDoc(env, a, compressOk);
  }

  lemma Stored(env: Env, a: Request, compressOk: bool)
    requires CanStore(env, a) && Spills(env, a)
    ensures var s := Run(env, START, StoringSteps(a, compressOk));
            && s.objects == map[ObjectKey(env, a, compressOk) := ObjectData(env, a, compressOk)]
            && DocFor(env, StoredTask(a, compressOk), ZERO_ID, MAX_DOCUMENT_BYTES) in DocsIn(s, TargetOf(env, a).value)
            && s.tasks.Keys == {0} && s.tasks[0].request == a && s.inserted == map[ZERO_ID := 0]
  {
    ThreeSteps(env, START, Arrive(0, a, true), Upload(0, compressOk, true, true),
               Step.Write(0, ZERO_ID, MAX_DOCUMENT_BYTES, true, true));
    FirstUpload(env, a, compressOk);
    FirstWrite(env, a, compressOk);
  }

  /** A body that is not readable is not served once it is stored. */
  lemma UnreadableIsNotServed(env: Env, rs: iset<Request>, a: Request)
    requires a in rs && CanStore(env, a) && !Readable(env, a)
    ensures !AlwaysServed(env, rs)
  {
    var steps, at := StoringSteps(a, true), TargetOf(env, a).value;
    var s := Run(env, START, steps);
    Stored(env, a, true);
    StorableDoc(env, a, true);
    var d: Doc := DocFor(env, StoredTask(a, true), ZERO_ID, MAX_DOCUMENT_BYTES);
    SpilledServedIff(env, s.objects, StoredTask(a, true), ZERO_ID, MAX_DOCUMENT_BYTES);
    SuffixTellsCompression(env, a, true);
    assert d in DocsIn(s, at) && !ServedAsSent(env, s, d);
  }

  /** A second upload under the same key replaces the object. */
  function ClashingSteps(a: Request, b: Request): seq<Step> {
    StoringSteps(a, false) + [Arrive(1, b, true), Upload(1, false, true, true)]
  }

  lemma Replaced(env: Env, a: Request, b: Request)
    requires Clash(env, a, b)
    ensures var s, s3 := Run(env, START, ClashingSteps(a, b)), Run(env, START, StoringSteps(a, false));
            && s.objects == s3.objects[ObjectKey(env, a, false) := b.raw]
            && s.lake == s3.lake && s.inserted == s3.inserted && 0 in s.tasks && s.tasks[0].request == a
  {
    var s3 := Run(env, START, StoringSteps(a, false));
    Stored(env, a, false);
    RunConcat(env, START, StoringSteps(a, false), [Arrive(1, b, true), Upload(1, false, true, true)]);
    var s4 := Next(env, s3, Arrive(1, b, true));
    RunStep(env, s3, Arrive(1, b, true), [Upload(1, false, true, true)]);
    RunStep(env, s4, Upload(1, false, true, true), []);
    assert [Arrive(1, b, true), Upload(1, false, true, true)] == [Arrive(1, b, true)] + [Upload(1, false, true, true)];
    assert [Upload(1, false, true, true)] == [Upload(1, false, true, true)] + [];
    assert ObjectKey(env, a, false) == ObjectKey(env, b, false);
  }

  /** When two bodies clash, the first one's document is served with another body, or not at all. */
  lemma ClashIsNotServed(env: Env, rs: iset<Request>, a: Request, b: Request)
    requires a in rs && b in rs && Clash(env, a, b)
    ensures !AlwaysServed(env, rs)
  {
    var s := Run(env, START, ClashingSteps(a, b));
    Stored(env, a, false);
    Replaced(env, a, b);
    NotServedOnceReplaced(env, s, a, b.raw);
    ClashArrivals(a, b, rs);
    var d: Doc := DocFor(env, StoredTask(a, false), ZERO_ID, MAX_DOCUMENT_BYTES);
    NotServedIn(env, rs, ClashingSteps(a, b), TargetOf(env, a).value, d);
  }

  lemma ClashArrivals(a: Request, b: Request, rs: iset<Request>)
    requires a in rs && b in rs
    ensures ArrivalsFrom(ClashingSteps(a, b), rs)
  {
  }

  lemma NotServedIn(env: Env, rs: iset<Request>, steps: seq<Step>, at: Target, d: Doc)
    requires ArrivalsFrom(steps, rs) && d in DocsIn(Run(env, START, steps), at)
    requires !ServedAsSent(env, Run(env, START, steps), d)
    ensures !AlwaysServed(env, rs)
  {
  }

  lemma NotServedOnceReplaced(env: Env, s: System, a: Request, body: text)
    requires 0 in s.tasks && s.tasks[0].request == a && s.inserted == map[ZERO_ID := 0] && body != a.raw
    requires ObjectKey(env, a, false) in s.objects && s.objects[ObjectKey(env, a, false)] == body
    requires CanStore(env, a)
    ensures Storable(DocFor(env, StoredTask(a, false), ZERO_ID, MAX_DOCUMENT_BYTES))
    ensures !ServedAsSent(env, s, DocFor(env, StoredTask(a, false), ZERO_ID, MAX_DOCUMENT_BYTES))
  {
    StorableDoc(env, a, false);
    SuffixTellsCompression(env, a, false);
    SpilledServedIff(env, s.objects, StoredTask(a, false), ZERO_ID, MAX_DOCUMENT_BYTES);
  }

  /** For any set of requests: every stored document is served with its body in every run whose requests come from
      the set, exactly when every body in it that can be stored is readable, and no two of the set that can be
      uploaded and stored have the same provider, second and truncated hash but different bodies. */
  lemma AlwaysServedIff(env: Env, rs: iset<Request>)
    ensures AlwaysServed(env, rs) <==> NoneClash(env, rs)
  {
    if NoneClash(env, rs) {
      NoClashServes(env, rs);
    } else if a :| a in rs && CanStore(env, a) && !Readable(env, a) {
      UnreadableIsNotServed(env, rs, a);
    } else {
      var a, b :| a in rs && b in rs && Clash(env, a, b);
      ClashIsNotServed(env, rs, a, b);
    }
  }

  /* ---------------------------------------------------------------- some bodies always clash */

  /** A request to a/b with a body of n in nine bytes behind as many zeros as make it spill. */
  function Numbered(env: Env, n: nat): Request {
    Request([97], [98], seq(STAMP_LENGTH, _ => 48), 0, [99], map[], [], seq(env.threshold, _ => 0) + Digits(n, 9))
  }

  lemma NumberedCanStore(env: Env, n: nat)
    ensures CanStore(env, Numbered(env, n)) && Spills(env, Numbered(env, n))
  {
    CutUnique([97], SLASH, [98]);
  }

  lemma NumberedDiffer(env: Env, i: nat, j: nat)
    requires i < j < Power(9)
    ensures Numbered(env, i).raw != Numbered(env, j).raw
  {
    DigitsRoundTrip(i, 9);
    DigitsRoundTrip(j, 9);
    assert Numbered(env, i).raw[env.threshold..] == Digits(i, 9);
    assert Numbered(env, j).raw[env.threshold..] == Digits(j, 9);
  }

  /** Whatever the hash, two requests clash. */
  lemma SomeClash(env: Env) returns (a: Request, b: Request)
    ensures Clash(env, a, b)
  {
    var place := (n: nat) => ValueOf(env.hash(Numbered(env, n).raw));
    forall n: nat ensures place(n) < Power(8) {
      ValueRoundTrip(env.hash(Numbered(env, n).raw));
    }
    var i, j := TwoShareAPlace(Power(8), place);
    a, b := Numbered(env, i), Numbered(env, j);
    ValueRoundTrip(env.hash(a.raw));
    ValueRoundTrip(env.hash(b.raw));
    NumberedCanStore(env, i);
    NumberedCanStore(env, j);
    assert Power(8) < Power(9);
    NumberedDiffer(env, i, j);
  }

  /** So there is no configuration under which every body is safe. */
  lemma NotEverythingIsServed(env: Env, rs: iset<Request>)
    requires forall r: Request :: r in rs
    ensures !AlwaysServed(env, rs)
  {
    var a, b := SomeClash(env);
    ClashIsNotServed(env, rs, a, b);
  }
}
