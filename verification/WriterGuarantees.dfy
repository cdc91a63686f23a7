/** What raw-writer guarantees over all interleavings of its goroutines. */
module WriterGuarantees {
  import opened Bytes
  import opened Wrappers
  import opened Sorting
  import opened Store
  import opened Strings
  import opened Addressing
  import opened RawWriter
  import opened WriterProtocol

  ghost function StoredIds(s: System): set<text> {
    set x | x in s.world.stored :: x.doc.id
  }

  ghost function ReadyIds(s: System): set<text> {
    set r | r in s.world.ready :: r.id
  }

  /** A ready message names a stored document: its collection and id. */
  ghost predicate Names(r: ReadyMessage, stored: set<Stored>) {
    exists x | x in stored :: x.target == r.target && x.doc.id == r.id
  }

  /* ---------------------------------------------------------------- any schedule, any fault */

  /** Among the steps a run takes: the messages whose insert took effect, whose publish reached the broker, and
      whose rollback deleted the document. */
  datatype History = History(inserted: set<nat>, published: set<nat>, undone: set<nat>)

  const NOTHING := History({}, {}, {})

  function Note(h: History, step: Step): History {
    match step
    case Insert(m, _, _, applied) => if applied then h.(inserted := h.inserted + {m}) else h
    case Publish(m, _, delivered) => if delivered then h.(published := h.published + {m}) else h
    case Rollback(m, ok) => if ok then h.(undone := h.undone + {m}) else h
    case _ => h
  }

  function HistoryOf(s: System, steps: seq<Step>, h: History): History
    decreases |steps|
  {
    if steps == [] then h
    else if Enabled(s, steps[0]) then HistoryOf(Next(s, steps[0]), steps[1..], Note(h, steps[0]))
    else HistoryOf(s, steps[1..], h)
  }

  predicate RecordsTask(t: Task, m: nat, h: History) {
    && (t.announced <==> m in h.published)
    && (t.stored <==> m in h.inserted && m !in h.undone)
    && (m in h.published || m in h.undone ==> m in h.inserted)
    && (t.pc.Inserting? ==> m !in h.inserted)
    && (t.pc.Publishing? || t.pc.Undoing? ==> m !in h.undone)
  }

  /** The tasks' flags are what the steps taken so far say. */
  ghost predicate Records(s: System, h: History) {
    && (forall m | m in h.inserted :: m in s.tasks)
    && (forall m | m !in s.tasks :: m !in h.published && m !in h.undone)
    && forall m | m in s.tasks :: RecordsTask(s.tasks[m], m, h)
  }

  lemma NextRecords(s: System, step: Step, h: History)
    requires Accounted(s) && Records(s, h) && Enabled(s, step)
    ensures Records(Next(s, step), Note(h, step))
  {
    assert step.m in s.tasks ==> TaskKept(s, step.m);
  }

  lemma {:induction false} RunRecords(s: System, steps: seq<Step>, h: History)
    requires Accounted(s) && Records(s, h)
    ensures Records(Run(s, steps), HistoryOf(s, steps, h))
    decreases |steps|
  {
    if steps != [] {
      if Enabled(s, steps[0]) {
        NextAccounted(s, steps[0]);
        NextRecords(s, steps[0], h);
        RunRecords(Next(s, steps[0]), steps[1..], Note(h, steps[0]));
      } else {
        RunRecords(s, steps[1..], h);
      }
    }
  }

  /** For every schedule, with failures and crashes anywhere: no ready message dangles exactly when no message was
      both taken by the broker and rolled back, and the stored documents are the announced ones exactly when the
      messages inserted and not rolled back are the ones the broker took. */
  lemma Books(steps: seq<Step>)
    ensures var s, h := Run(START, steps), HistoryOf(START, steps, NOTHING);
            && ((forall r | r in s.world.ready :: Names(r, s.world.stored)) <==> h.published !! h.undone)
            && (StoredIds(s) == ReadyIds(s) <==> h.inserted - h.undone == h.published)
  {
    var s, h := Run(START, steps), HistoryOf(START, steps, NOTHING);
    RunAccounted(START, steps);
    RunRecords(START, steps, NOTHING);
    BooksAgree(s);
    BooksDangle(s);
    FlagsAgree(s, h);
  }

  lemma FlagsAgree(s: System, h: History)
    requires Records(s, h)
    ensures (forall m | m in s.tasks :: s.tasks[m].announced ==> s.tasks[m].stored) <==> h.published !! h.undone
    ensures (forall m | m in s.tasks :: s.tasks[m].stored == s.tasks[m].announced) <==> h.inserted - h.undone == h.published
  {
    forall m | m in h.published ensures m in s.tasks && s.tasks[m].announced && (m in h.undone <==> !s.tasks[m].stored) {
      assert m in s.tasks && RecordsTask(s.tasks[m], m, h);
    }
    forall m | m in s.tasks
      ensures s.tasks[m].announced <==> m in h.published
      ensures s.tasks[m].stored <==> m in h.inserted - h.undone
    {
      assert RecordsTask(s.tasks[m], m, h);
    }
    if forall m | m in s.tasks :: s.tasks[m].stored == s.tasks[m].announced {
      forall m ensures m in h.inserted - h.undone <==> m in h.published {}
    }
  }

  predicate MadeFor(s: System, id: text, m: nat) {
    id in s.inserted && s.inserted[id] == m
  }

  predicate OwnId(s: System, m: nat)
    requires m in s.tasks
  {
    MadeFor(s, s.tasks[m].id, m)
  }

  lemma TaskStored(s: System, m: nat)
    requires Accounted(s) && m in s.tasks
    ensures s.tasks[m].stored <==> s.tasks[m].id in StoredIds(s) && OwnId(s, m)
  {
    assert TaskKept(s, m);
    if s.tasks[m].id in StoredIds(s) && OwnId(s, m) {
      var x :| x in s.world.stored && x.doc.id == s.tasks[m].id;
      assert StoredKept(s, x);
    }
  }

  lemma TaskAnnounced(s: System, m: nat)
    requires Accounted(s) && m in s.tasks
    ensures s.tasks[m].announced <==> s.tasks[m].id in ReadyIds(s) && OwnId(s, m)
  {
    assert TaskKept(s, m);
    if s.tasks[m].id in ReadyIds(s) && OwnId(s, m) {
      var r :| r in s.world.ready && r.id == s.tasks[m].id;
      assert ReadyKept(s, r);
    }
  }

  lemma IdsHaveTasks(s: System, id: text)
    requires Accounted(s) && (id in StoredIds(s) || id in ReadyIds(s))
    ensures id in s.inserted && s.inserted[id] in s.tasks && s.tasks[s.inserted[id]].id == id
  {
    if id in StoredIds(s) {
      var x :| x in s.world.stored && x.doc.id == id;
      assert StoredKept(s, x);
    } else {
      var r :| r in s.world.ready && r.id == id;
      assert ReadyKept(s, r);
    }
  }

  lemma BooksAgree(s: System)
    requires Accounted(s)
    ensures StoredIds(s) == ReadyIds(s) <==> forall m | m in s.tasks :: s.tasks[m].stored == s.tasks[m].announced
  {
    forall m | m in s.tasks
      ensures s.tasks[m].stored <==> s.tasks[m].id in StoredIds(s) && OwnId(s, m)
      ensures s.tasks[m].announced <==> s.tasks[m].id in ReadyIds(s) && OwnId(s, m)
    {
      TaskStored(s, m);
      TaskAnnounced(s, m);
    }
    if forall m | m in s.tasks :: s.tasks[m].stored == s.tasks[m].announced {
      forall id ensures id in StoredIds(s) <==> id in ReadyIds(s) {
        if id in StoredIds(s) || id in ReadyIds(s) { IdsHaveTasks(s, id); }
      }
      assert StoredIds(s) == ReadyIds(s);
    }
  }

  lemma BooksDangle(s: System)
    requires Accounted(s)
    ensures (forall r | r in s.world.ready :: Names(r, s.world.stored))
            <==> forall m | m in s.tasks :: s.tasks[m].announced ==> s.tasks[m].stored
  {
    if forall r | r in s.world.ready :: Names(r, s.world.stored) {
      forall m | m in s.tasks && s.tasks[m].announced ensures s.tasks[m].stored {
        assert TaskKept(s, m);
        var r := MessageFor(s.tasks[m].job.value, s.tasks[m].id);
        assert Names(r, s.world.stored);
        TaskStored(s, m);
      }
    }
    if forall m | m in s.tasks :: s.tasks[m].announced ==> s.tasks[m].stored {
      forall r | r in s.world.ready ensures Names(r, s.world.stored) {
        assert ReadyKept(s, r) && TaskKept(s, s.inserted[r.id]);
      }
    }
  }

  /** Acked, nacked and crashed are for good, and a published message stays published. */
  lemma {:induction false} SettledStays(s: System, steps: seq<Step>)
    ensures s.world.ready <= Run(s, steps).world.ready
    ensures forall m | m in s.tasks && Final(s.tasks[m].pc) ::
              m in Run(s, steps).tasks && Run(s, steps).tasks[m] == s.tasks[m]
    decreases |steps|
  {
    if steps != [] {
      SettledStays(if Enabled(s, steps[0]) then Next(s, steps[0]) else s, steps[1..]);
    }
  }

  /** A message that is neither acked nor nacked nor lost in a crash can always go on, whatever happens next. */
  lemma NeverStuck(s: System, m: nat, id: Oid, ok: bool) returns (step: Step)
    requires m in s.tasks && !Final(s.tasks[m].pc) && id !in s.inserted
    ensures Enabled(s, step) && !step.Crash? && Rank(Next(s, step).tasks[m].pc) < Rank(s.tasks[m].pc)
  {
    match s.tasks[m].pc
    case Inserting => step := Step.Insert(m, id, ok, ok);
    case Publishing => step := Publish(m, ok, ok);
    case Undoing => step := Rollback(m, ok);
    case Succeeded => step := Settle(m);
    case Failed => step := Settle(m);
  }

  /** How many steps a goroutine can still take. */
  function Rank(pc: Pc): nat {
    match pc
    case Inserting => 4
    case Publishing => 3
    case Undoing => 2
    case Succeeded => 1
    case Failed => 1
    case _ => 0
  }

  /** What any one message leaves behind, for every schedule: a document exactly when its insert took effect and no
      rollback deleted it, a ready message exactly when the broker took it. */
  lemma LeftBehind(steps: seq<Step>, m: nat)
    requires m in Run(START, steps).tasks
    ensures var s, h := Run(START, steps), HistoryOf(START, steps, NOTHING);
            && ((exists x | x in s.world.stored :: MadeFor(s, x.doc.id, m)) <==> m in h.inserted - h.undone)
            && ((exists r | r in s.world.ready :: MadeFor(s, r.id, m)) <==> m in h.published)
  {
    var s, h := Run(START, steps), HistoryOf(START, steps, NOTHING);
    RunAccounted(START, steps);
    RunRecords(START, steps, NOTHING);
    assert TaskKept(s, m) && RecordsTask(s.tasks[m], m, h);
    forall x | x in s.world.stored && MadeFor(s, x.doc.id, m) ensures s.tasks[m].stored { assert StoredKept(s, x); }
    forall r | r in s.world.ready && MadeFor(s, r.id, m) ensures s.tasks[m].announced { assert ReadyKept(s, r); }
    if s.tasks[m].stored {
      var x := Stored(s.tasks[m].job.value.target, DocOf(s.tasks[m].job.value, s.tasks[m].id));
      assert x in s.world.stored && MadeFor(s, x.doc.id, m);
    }
    if s.tasks[m].announced {
      var r := MessageFor(s.tasks[m].job.value, s.tasks[m].id);
      assert r in s.world.ready && MadeFor(s, r.id, m);
    }
  }

  /** Whatever fails or crashes, an acked message has its document and its ready message. */
  lemma AckedHasBoth(steps: seq<Step>, m: nat)
    requires m in Run(START, steps).tasks && Run(START, steps).tasks[m].pc.Acked?
    ensures var s := Run(START, steps);
            var t := s.tasks[m];
            && t.job.Some? && MadeFor(s, t.id, m)
            && Stored(t.job.value.target, DocOf(t.job.value, t.id)) in s.world.stored
            && MessageFor(t.job.value, t.id) in s.world.ready
  {
    RunAccounted(START, steps);
    assert TaskKept(Run(START, steps), m);
  }

  /** Jobs are what their bodies were prepared to. */
  ghost predicate JobsPrepared(s: System) {
    forall m | m in s.tasks && s.tasks[m].job.Some? ::
      ConstructTableTarget(s.tasks[m].job.value.provider) == Some(s.tasks[m].job.value.target)
  }

  lemma {:induction false} RunPrepared(s: System, steps: seq<Step>)
    requires JobsPrepared(s)
    ensures JobsPrepared(Run(s, steps))
    decreases |steps|
  {
    if steps != [] { RunPrepared(StepOrSkip(s, steps[0]), steps[1..]); }
  }

  /** Whatever fails or crashes, every ready message is about one task, and when that task's provider has no colon its
      URN leads the bridge to the message's own collection and id, and its routing key spells the collection. */
  lemma ReadyLeadsToDocument(steps: seq<Step>, r: ReadyMessage)
    requires r in Run(START, steps).world.ready
    ensures var s := Run(START, steps);
            && r.id in s.inserted && s.inserted[r.id] in s.tasks
            && var job := s.tasks[s.inserted[r.id]].job;
               && job.Some? && ConstructTableTarget(job.value.provider) == Some(r.target)
               && (COLON !in job.value.provider ==>
                     && Resolve(r.urn) == Some(Address(r.target, r.id))
                     && RoutingKey(r.urn) == Some(r.target.db + [DOT] + r.target.collection))
  {
    var s := Run(START, steps);
    RunAccounted(START, steps);
    RunPrepared(START, steps);
    assert ReadyKept(s, r);
    var t := s.tasks[s.inserted[r.id]];
    assert TaskKept(s, s.inserted[r.id]);
    if COLON !in t.job.value.provider { MessageLeadsToDocument(t.job.value, t.id); }
  }

  /* ---------------------------------------------------------------- when a failed publish publishes nothing */

  predicate PublishIsHonest(step: Step) {
    step.Publish? && step.delivered ==> step.ok
  }

  ghost predicate NoneUndoneAnnounced(s: System) {
    forall m | m in s.tasks :: (s.tasks[m].announced ==> s.tasks[m].stored) && (s.tasks[m].pc.Undoing? ==> !s.tasks[m].announced)
  }

  lemma {:induction false} HonestRun(s: System, steps: seq<Step>)
    requires Accounted(s) && NoneUndoneAnnounced(s) && forall step | step in steps :: PublishIsHonest(step)
    ensures NoneUndoneAnnounced(Run(s, steps))
    decreases |steps|
  {
    if steps != [] {
      assert steps[0] in steps && forall step | step in steps[1..] :: step in steps;
      if Enabled(s, steps[0]) {
        NextAccounted(s, steps[0]);
        HonestStep(s, steps[0]);
      }
      HonestRun(if Enabled(s, steps[0]) then Next(s, steps[0]) else s, steps[1..]);
    }
  }

  lemma HonestStep(s: System, step: Step)
    requires Accounted(s) && NoneUndoneAnnounced(s) && PublishIsHonest(step) && Enabled(s, step)
    ensures NoneUndoneAnnounced(Next(s, step))
  {
    assert step.m in s.tasks ==> TaskKept(s, step.m);
  }

  /** When a publish that reports failure has published nothing, every ready message names a stored document in
      every reachable state, whatever else fails and wherever the process crashes. */
  lemma NoReadyMessageDangles(steps: seq<Step>)
    requires forall step | step in steps :: PublishIsHonest(step)
    ensures forall r | r in Run(START, steps).world.ready :: Names(r, Run(START, steps).world.stored)
  {
    RunAccounted(START, steps);
    HonestRun(START, steps);
    BooksDangle(Run(START, steps));
  }

  /** A document named by a ready message is never rolled back. */
  lemma AnnouncedIsNeverRolledBack(steps: seq<Step>, more: seq<Step>, r: ReadyMessage)
    requires forall step | step in steps + more :: PublishIsHonest(step)
    requires r in Run(START, steps).world.ready
    ensures Names(r, Run(START, steps + more).world.stored)
  {
    RunConcat(START, steps, more);
    SettledStays(Run(START, steps), more);
    NoReadyMessageDangles(steps + more);
  }

  /* ---------------------------------------------------------------- when compensation can be relied on */

  /** Operations that report failure have done nothing, and deletes succeed. */
  predicate Reliable(step: Step) {
    match step
    case Insert(_, _, ok, applied) => applied ==> ok
    case Publish(_, ok, delivered) => delivered ==> ok
    case Rollback(_, ok) => ok
    case _ => true
  }

  ghost predicate NothingLeft(s: System) {
    forall m | m in s.tasks ::
      var t := s.tasks[m];
      && (t.pc.Undoing? ==> !t.announced)
      && (t.pc.Failed? || t.pc.Nacked? ==> !t.stored && !t.announced)
  }

  lemma ReliableStep(s: System, step: Step)
    requires Accounted(s) && NothingLeft(s) && Reliable(step) && Enabled(s, step)
    ensures NothingLeft(Next(s, step))
  {
    assert step.m in s.tasks ==> TaskKept(s, step.m);
  }

  lemma {:induction false} ReliableRun(s: System, steps: seq<Step>)
    requires Accounted(s) && NothingLeft(s) && forall step | step in steps :: Reliable(step)
    ensures NothingLeft(Run(s, steps))
    decreases |steps|
  {
    if steps != [] {
      assert steps[0] in steps && forall step | step in steps[1..] :: step in steps;
      if Enabled(s, steps[0]) {
        NextAccounted(s, steps[0]);
        ReliableStep(s, steps[0]);
      }
      ReliableRun(if Enabled(s, steps[0]) then Next(s, steps[0]) else s, steps[1..]);
    }
  }

  ghost function AckedTasks(s: System): set<nat> {
    set m | m in s.tasks && s.tasks[m].pc.Acked?
  }

  ghost predicate AllSettled(s: System) {
    forall m | m in s.tasks :: s.tasks[m].pc.Acked? || s.tasks[m].pc.Nacked?
  }

  /** Then a nacked message has left neither document nor message, wherever other goroutines crash. */
  lemma NackedLeavesNothing(steps: seq<Step>, m: nat)
    requires forall step | step in steps :: Reliable(step)
    requires m in Run(START, steps).tasks && Run(START, steps).tasks[m].pc.Nacked?
    ensures var s := Run(START, steps);
            && (forall x | x in s.world.stored :: !MadeFor(s, x.doc.id, m))
            && (forall r | r in s.world.ready :: !MadeFor(s, r.id, m))
  {
    var s := Run(START, steps);
    RunAccounted(START, steps);
    ReliableRun(START, steps);
    forall x | x in s.world.stored ensures !MadeFor(s, x.doc.id, m) { assert StoredKept(s, x); }
    forall r | r in s.world.ready ensures !MadeFor(s, r.id, m) { assert ReadyKept(s, r); }
  }

  /** Once every message is acked or nacked, the documents, the ready messages and the acked messages are as many,
      and the same ids. */
  lemma Conservation(steps: seq<Step>)
    requires forall step | step in steps :: Reliable(step)
    requires AllSettled(Run(START, steps))
    ensures var s := Run(START, steps);
            && StoredIds(s) == ReadyIds(s) == (set m | m in AckedTasks(s) :: s.tasks[m].id)
            && |s.world.stored| == |s.world.ready| == |AckedTasks(s)|
  {
    RunAccounted(START, steps);
    ReliableRun(START, steps);
    SettledBalance(Run(START, steps));
  }

  lemma SettledBalance(s: System)
    requires Accounted(s) && NothingLeft(s) && AllSettled(s)
    ensures StoredIds(s) == ReadyIds(s) == (set m | m in AckedTasks(s) :: s.tasks[m].id)
    ensures |s.world.stored| == |s.world.ready| == |AckedTasks(s)|
  {
    forall m | m in s.tasks
      ensures s.tasks[m].stored == s.tasks[m].announced == (m in AckedTasks(s))
    {
      assert TaskKept(s, m);
    }
    BooksAgree(s);
    StoredAreAcked(s);
    CountIds(s);
  }

  lemma StoredAreAcked(s: System)
    requires Accounted(s) && forall m | m in s.tasks :: s.tasks[m].stored == (m in AckedTasks(s))
    ensures StoredIds(s) == set m | m in AckedTasks(s) :: s.tasks[m].id
  {
    var acked := set m | m in AckedTasks(s) :: s.tasks[m].id;
    forall id ensures id in StoredIds(s) <==> id in acked {
      if id in StoredIds(s) {
        IdsHaveTasks(s, id);
        TaskStored(s, s.inserted[id]);
      }
      if id in acked {
        var m :| m in AckedTasks(s) && s.tasks[m].id == id;
        TaskStored(s, m);
      }
    }
  }

  lemma CountIds(s: System)
    requires Accounted(s)
    ensures |s.world.stored| == |StoredIds(s)| && |s.world.ready| == |ReadyIds(s)|
    ensures (forall m | m in AckedTasks(s) :: OwnId(s, m)) && |AckedTasks(s)| == |set m | m in AckedTasks(s) :: s.tasks[m].id|
  {
    forall x, y | x in s.world.stored && y in s.world.stored && x.doc.id == y.doc.id ensures x == y {
      assert StoredKept(s, x) && StoredKept(s, y);
    }
    ImageCount(s.world.stored, (x: Stored) => x.doc.id, StoredIds(s));
    var ids := seq(|s.world.ready|, i requires 0 <= i < |s.world.ready| => s.world.ready[i].id);
    forall id ensures id in ids <==> id in ReadyIds(s) {
      if id in ReadyIds(s) {
        var r :| r in s.world.ready && r.id == id;
        var i :| 0 <= i < |s.world.ready| && s.world.ready[i] == r;
        assert ids[i] == id;
      }
    }
    DistinctCount(ids, ReadyIds(s));
    forall m | m in AckedTasks(s) ensures OwnId(s, m) { assert TaskKept(s, m); }
    var tasks := s.tasks;
    ImageCount(AckedTasks(s), (m: nat) => if m in tasks then tasks[m].id else [],
               set m | m in AckedTasks(s) :: s.tasks[m].id);
  }

  lemma {:induction false} RunConcat(s: System, a: seq<Step>, b: seq<Step>)
    ensures Run(s, a + b) == Run(Run(s, a), b)
    decreases |a|
  {
    if a == [] {
      assert a + b == b;
    } else {
      assert (a + b)[0] == a[0] && (a + b)[1..] == a[1..] + b;
      RunConcat(if Enabled(s, a[0]) then Next(s, a[0]) else s, a[1..], b);
    }
  }

  /** The hypothesis is needed: when the broker takes a message but reports a failure, the rollback leaves a
      ready message that names nothing. */
  lemma DeliveredButReportedFailed(body: Body, id: Oid)
    requires Prepare(body).Some?
    ensures var s := Run(START, [Receive(0, body), Step.Insert(0, id, true, true), Publish(0, false, true),
                                 Rollback(0, true), Settle(0)]);
            && 0 in s.tasks && s.tasks[0].pc.Nacked? && s.world.stored == {}
            && s.world.ready == [MessageFor(Prepare(body).value, id)]
  {
    FiveSteps(START, Receive(0, body), Step.Insert(0, id, true, true), Publish(0, false, true), Rollback(0, true), Settle(0));
    var s2 := Next(Next(START, Receive(0, body)), Step.Insert(0, id, true, true));
    assert s2.world.stored == {Stored(Prepare(body).value.target, DocOf(Prepare(body).value, id))};
  }
}
