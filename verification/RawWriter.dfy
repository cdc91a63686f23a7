/** raw-writer: one message is validated, stored and announced, or nothing is left of it. */
module RawWriter {
  import opened Bytes
  import opened Strings
  import opened Wrappers
  import opened Hex
  import opened Store
  import opened Lakes
  import opened Addressing
  import opened Atomically

  datatype Stored = Stored(target: Target, doc: Doc)

  datatype ReadyMessage = Ready(id: text, target: Target, urn: text)

  /** What the writer changes: the stored documents and the ready queue. */
  datatype World = World(stored: set<Stored>, ready: seq<ReadyMessage>)

  /** A message body: unusable JSON, or the fields the writer reads and the document it becomes. */
  datatype Body = NotJson | Body(timestamp: Option<int>, provider: Option<text>, content: Doc)

  type Oid = t: text | |t| == OBJECT_ID_LENGTH witness ZERO_ID

  /** How the driver and the broker will answer. */
  datatype Fortune = Fortune(id: Oid, insertFails: bool, publishFails: bool, deleteFails: bool)

  datatype MqError = Unprocessable | HandlingFailed

  /* ---------------------------------------------------------------- validation */

  datatype Job = Job(provider: text, target: Target, content: Doc)

  /** The document as it will be stored, dated with the parsed timestamp; none when anything is missing or malformed. */
  function Prepare(body: Body): Option<Job> {
    match body
    case NotJson => None
    case Body(timestamp, provider, content) =>
      if timestamp == None || provider == None then None
      else
        match ConstructTableTarget(provider.value)
        case None => None
        case Some(t) => Some(Job(provider.value, t, content.(timestamp := timestamp.value)))
  }

  function DocOf(job: Job, id: Oid): Doc {
    job.content.(id := id)
  }

  function MessageFor(job: Job, id: Oid): ReadyMessage {
    Ready(id, job.target, RawUrn(job.provider, id))
  }

  /* ---------------------------------------------------------------- the two quarks */

  predicate Taken(stored: set<Stored>, t: Target, id: text) {
    exists x | x in stored :: x.target == t && x.doc.id == id
  }

  function Delete(w: World, t: Target, id: text): World {
    w.(stored := set x | x in w.stored && !(x.target == t && x.doc.id == id))
  }

  function InsertQuark(job: Job, fate: Fortune): Quark<World, text> {
    NewQuark(
      (w: World) =>
        if fate.insertFails || Taken(w.stored, job.target, fate.id) then (w, Failure(ActionError))
        else (w.(stored := w.stored + {Stored(job.target, DocOf(job, fate.id))}), Success(fate.id)),
      Some((w: World, id: text) => if fate.deleteFails then w else Delete(w, job.target, id)))
  }

  function PublishQuark(job: Job, fate: Fortune): Quark<World, text> {
    NewQuark(
      (w: World) =>
        if fate.publishFails then (w, Failure(ActionError))
        else (w.(ready := w.ready + [MessageFor(job, fate.id)]), Success([])),
      None)
  }

  function Quarks(job: Job, fate: Fortune): seq<Quark<World, text>> {
    [InsertQuark(job, fate), PublishQuark(job, fate)]
  }

  /** Deleting undoes the insert, and neither notices a publish in between. */
  lemma QuarksAreCompensable(job: Job, fate: Fortune)
    requires !fate.deleteFails
    ensures Compensable(Quarks(job, fate))
  {
    var insert, publish := InsertQuark(job, fate), PublishQuark(job, fate);
    forall w: World | insert.action(w).1.Success?
      ensures insert.rollback(insert.action(w).0, insert.action(w).1.value) == w
    {
      assert Delete(insert.action(w).0, job.target, fate.id).stored == w.stored;
    }
    assert Undoes(insert) && FailsCleanly(insert) && FailsCleanly(publish);
    assert Independent(insert, publish);
  }

  /** Whether the handler reports success. */
  predicate Handles(body: Body, w: World, fate: Fortune) {
    && Prepare(body).Some? && !fate.insertFails && !fate.publishFails
    && !Taken(w.stored, Prepare(body).value.target, fate.id)
  }

  /** The world the handler leaves: the saga's, or the one it found when the message is malformed. */
  function Handled(body: Body, w: World, fate: Fortune): World {
    match Prepare(body)
    case None => w
    case Some(job) => Outcome(Quarks(job, fate), w)
  }

  /** The document stored for a message is its body under the id it was given, dated with the timestamp it carries;
      it is stored where its provider says. */
  lemma StoredIsBody(body: Body, id: Oid)
    requires Prepare(body).Some?
    ensures var d := DocOf(Prepare(body).value, id);
            && body.Body? && body.timestamp == Some(d.timestamp) && d.id == id
            && d.meta == body.content.meta && d.size == body.content.size && d.contentType == body.content.contentType
            && d.rawdata == body.content.rawdata && d.rawRef == body.content.rawRef
    ensures body.provider == Some(Prepare(body).value.provider)
    ensures ConstructTableTarget(body.provider.value) == Some(Prepare(body).value.target)
  {
  }

  /** The message names the document by the id it was given, its collection, and a URN that leads the bridge to it and
      whose routing key spells the collection. */
  lemma MessageLeadsToDocument(job: Job, id: Oid)
    requires ConstructTableTarget(job.provider) == Some(job.target) && COLON !in job.provider
    ensures var m := MessageFor(job, id);
            && m.id == id && m.target == job.target
            && Resolve(m.urn) == Some(Address(m.target, id))
            && RoutingKey(m.urn) == Some(m.target.db + [DOT] + m.target.collection)
  {
    WriterAgreesIff(job.provider, id);
    RoutingKeyAgreesIff(job.provider, id);
  }

  /** Handles one message: on success exactly one document and the message naming it are added, on failure
      nothing, unless the compensating delete itself failed, which leaves the document. */
  method HandleMqMsg(body: Body, before: World, fate: Fortune) returns (after: World, err: Option<MqError>)
    ensures err == None ==>
              Prepare(body).Some? &&
              var job := Prepare(body).value;
              && !Taken(before.stored, job.target, fate.id)
              && after == World(before.stored + {Stored(job.target, DocOf(job, fate.id))},
                                before.ready + [MessageFor(job, fate.id)])
    ensures err.Some? && !fate.deleteFails ==> after == before
    ensures err.Some? ==> after.ready == before.ready
    ensures err.Some? && after != before ==>
              && fate.publishFails && fate.deleteFails && Prepare(body).Some?
              && after.stored == before.stored + {Stored(Prepare(body).value.target, DocOf(Prepare(body).value, fate.id))}
    ensures err == None <==> Handles(body, before, fate)
    ensures after == Handled(body, before, fate)
    ensures err == None && COLON !in body.provider.value ==>
              && |after.ready| == |before.ready| + 1
              && var m := after.ready[|before.ready|];
                 && m.id == fate.id && Resolve(m.urn) == Some(Address(m.target, fate.id))
                 && RoutingKey(m.urn) == Some(m.target.db + [DOT] + m.target.collection)
  {
    var prepared := Prepare(body);
    if prepared == None {
      return before, Some(Unprocessable);
    }
    var job := prepared.value;
    var atom := new Atom(Quarks(job, fate));
    var failed, calls;
    after, failed, calls := atom.Run(before);
    QuarksOutcome(job, fate, before);
    if failed.Some? {
      if !fate.deleteFails {
        QuarksAreCompensable(job, fate);
        FailedRunRestores(Quarks(job, fate), before);
      }
      return after, Some(HandlingFailed);
    }
    StoredIsBody(body, fate.id);
    if COLON !in job.provider { MessageLeadsToDocument(job, fate.id); }
    return after, None;
  }

  lemma QuarksOutcome(job: Job, fate: Fortune, w: World)
    ensures var (w1, res) := InsertQuark(job, fate).action(w);
            var p := Act(Quarks(job, fate), w);
            if res.Failure? then p == Progress(w, [], true)
            else
              var (w2, res2) := PublishQuark(job, fate).action(w1);
              && p == Progress(w2, if res2.Failure? then [fate.id] else [fate.id, []], res2.Failure?)
              && Compensate(Quarks(job, fate), [fate.id], w2) == InsertQuark(job, fate).rollback(w2, fate.id)
  {
    var quarks := Quarks(job, fate);
    assert quarks[1..] == [PublishQuark(job, fate)] && quarks[1..][1..] == [];
    assert [fate.id][1..] == [];
    forall x ensures Compensate(quarks[1..], [fate.id][1..], x) == x {}
    var (w1, res) := InsertQuark(job, fate).action(w);
    var (w2, res2) := PublishQuark(job, fate).action(w1);
    assert Act(quarks[1..][1..], w2) == Progress(w2, [], false);
    assert Act(quarks[1..], w1) == Progress(w2, if res2.Failure? then [] else [[]], res2.Failure?);
  }
}
