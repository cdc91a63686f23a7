/** Any number of raw-writer goroutines over one store and one ready queue, step by step. */
module WriterProtocol {
  import opened Bytes
  import opened Wrappers
  import opened Store
  import opened Lakes
  import opened Atomically
  import opened RawWriter

  /** Where a message's goroutine is. */
  datatype Pc = Inserting | Publishing | Undoing | Succeeded | Failed | Acked | Nacked | Crashed

  /** id is the document inserted for the message; stored and announced say what is left of it. */
  datatype Task = Task(pc: Pc, job: Option<Job>, id: Oid, stored: bool, announced: bool)

  /** inserted remembers which message each ObjectId was made for. */
  datatype System = System(world: World, tasks: map<nat, Task>, inserted: map<text, nat>)

  const START := System(World({}, []), map[], map[])

  /** ok is what the operation answered; in Insert, applied says whether the document was stored, and in Publish,
      delivered whether the broker took the message, which either may have happened despite a reported failure. */
  datatype Step =
    | Receive(m: nat, body: Body)
    | Insert(m: nat, id: Oid, ok: bool, applied: bool)
    | Publish(m: nat, ok: bool, delivered: bool)
    | Rollback(m: nat, ok: bool)
    | Settle(m: nat)
    | Crash(m: nat)

  predicate Final(pc: Pc) {
    pc.Acked? || pc.Nacked? || pc.Crashed?
  }

  predicate Enabled(s: System, step: Step) {
    if step.Receive? then step.m !in s.tasks
    else
      && step.m in s.tasks
      && var pc := s.tasks[step.m].pc;
         match step
         case Insert(_, id, ok, applied) => pc.Inserting? && id !in s.inserted && (ok ==> applied)
         case Publish(_, ok, delivered) => pc.Publishing? && (ok ==> delivered)
         case Rollback(_, _) => pc.Undoing?
         case Settle(_) => pc.Succeeded? || pc.Failed?
         case Crash(_) => !Final(pc)
  }

  /** Only tasks that parsed get as far as a job. */
  function JobOf(t: Task): Job {
    if t.job.Some? then t.job.value else Job([], Target([], []), Record(ZERO_ID, 0, map[], 1, [], Absent, []))
  }

  function Next(s: System, step: Step): System
    requires Enabled(s, step)
  {
    var m := step.m;
    match step
    case Receive(_, body) =>
      var job := Prepare(body);
      s.(tasks := s.tasks[m := Task(if job.Some? then Inserting else Failed, job, ZERO_ID, false, false)])
    case Insert(_, id, ok, applied) =>
      var t := s.tasks[m].(pc := if ok then Publishing else Failed);
      if !applied then s.(tasks := s.tasks[m := t])
      else
        var (w, _) := InsertQuark(JobOf(t), Fortune(id, false, false, false)).action(s.world);
        System(w, s.tasks[m := t.(id := id, stored := true)], s.inserted[id := m])
    case Publish(_, ok, delivered) =>
      var t := s.tasks[m];
      var (w, _) := PublishQuark(JobOf(t), Fortune(t.id, false, !delivered, false)).action(s.world);
      s.(world := w, tasks := s.tasks[m := t.(pc := if ok then Succeeded else Undoing, announced := delivered)])
    case Rollback(_, ok) =>
      var t := s.tasks[m];
      var w := InsertQuark(JobOf(t), Fortune(t.id, false, false, !ok)).rollback(s.world, t.id);
      s.(world := w, tasks := s.tasks[m := t.(pc := Failed, stored := !ok)])
    case Settle(_) =>
      var t := s.tasks[m];
      s.(tasks := s.tasks[m := t.(pc := if t.pc.Succeeded? then Acked else Nacked)])
    case Crash(_) =>
      s.(tasks := s.tasks[m := s.tasks[m].(pc := Crashed)])
  }

  /** A run takes the enabled steps of a schedule; the others do nothing. */
  function Run(s: System, steps: seq<Step>): System
    decreases |steps|
  {
    if steps == [] then s
    else Run(if Enabled(s, steps[0]) then Next(s, steps[0]) else s, steps[1..])
  }

  /* ---------------------------------------------------------------- accounting */

  ghost predicate TaskKept(s: System, m: nat)
    requires m in s.tasks
  {
    var t := s.tasks[m];
    && (t.stored ==>
          && t.job.Some? && t.id in s.inserted && s.inserted[t.id] == m
          && Stored(t.job.value.target, DocOf(t.job.value, t.id)) in s.world.stored)
    && (t.announced ==>
          && t.job.Some? && t.id in s.inserted && s.inserted[t.id] == m
          && MessageFor(t.job.value, t.id) in s.world.ready)
    && (t.pc.Inserting? ==> t.job.Some? && !t.stored && !t.announced)
    && (t.pc.Publishing? ==> t.stored && !t.announced)
    && (t.pc.Undoing? ==> t.stored)
    && (t.pc.Succeeded? || t.pc.Acked? ==> t.stored && t.announced)
  }

  ghost predicate StoredKept(s: System, x: Stored) {
    && x.doc.id in s.inserted && s.inserted[x.doc.id] in s.tasks
    && var t := s.tasks[s.inserted[x.doc.id]];
       t.stored && t.id == x.doc.id && t.job.Some? && x == Stored(t.job.value.target, DocOf(t.job.value, t.id))
  }

  ghost predicate ReadyKept(s: System, r: ReadyMessage) {
    && r.id in s.inserted && s.inserted[r.id] in s.tasks
    && var t := s.tasks[s.inserted[r.id]];
       t.announced && t.id == r.id && t.job.Some? && r == MessageFor(t.job.value, t.id)
  }

  /** Documents and ready messages are exactly those the tasks account for, each for its own task. */
  ghost predicate Accounted(s: System) {
    && (forall m | m in s.tasks :: TaskKept(s, m))
    && (forall x | x in s.world.stored :: StoredKept(s, x))
    && (forall r | r in s.world.ready :: ReadyKept(s, r))
    && (forall i, j | 0 <= i < j < |s.world.ready| :: s.world.ready[i].id != s.world.ready[j].id)
  }

  lemma NextAccounted(s: System, step: Step)
    requires Accounted(s) && Enabled(s, step)
    ensures Accounted(Next(s, step))
  {
    var n, m := Next(s, step), step.m;
    match step
    case Receive(_, _) => UntouchedWorld(s, n, m);
    case Insert(_, _, _, applied) => if applied { InsertAccounted(s, step); } else { UntouchedWorld(s, n, m); }
    case Publish(_, _, _) => PublishAccounted(s, step);
    case Rollback(_, ok) => if ok { RollbackAccounted(s, step); } else { UntouchedWorld(s, n, m); }
    case Settle(_) => UntouchedWorld(s, n, m);
    case Crash(_) => UntouchedWorld(s, n, m);
  }

  lemma UntouchedWorld(s: System, n: System, m: nat)
    requires Accounted(s) && n.world == s.world && n.inserted == s.inserted
    requires m in n.tasks && n.tasks == s.tasks[m := n.tasks[m]] && TaskKept(n, m)
    requires m in s.tasks ==> n.tasks[m].(pc := s.tasks[m].pc) == s.tasks[m]
    requires m !in s.tasks ==> !n.tasks[m].stored && !n.tasks[m].announced
    ensures Accounted(n)
  {
    forall k | k in n.tasks ensures TaskKept(n, k) {
      if k != m { assert TaskKept(s, k); }
    }
    forall x | x in n.world.stored ensures StoredKept(n, x) { assert StoredKept(s, x); }
    forall r | r in n.world.ready ensures ReadyKept(n, r) { assert ReadyKept(s, r); }
  }

  lemma InsertAccounted(s: System, step: Step)
    requires Accounted(s) && Enabled(s, step) && step.Insert? && step.applied
    ensures Accounted(Next(s, step))
  {
    var n, m, id := Next(s, step), step.m, step.id;
    var job := JobOf(s.tasks[m]);
    assert TaskKept(s, m);
    assert !Taken(s.world.stored, job.target, id) by {
      forall x | x in s.world.stored ensures x.doc.id != id { assert StoredKept(s, x); }
    }
    assert n.world.stored == s.world.stored + {Stored(job.target, DocOf(job, id))};
    forall k | k in n.tasks ensures TaskKept(n, k) { assert TaskKept(s, k); }
    forall x | x in n.world.stored ensures StoredKept(n, x) {
      if x in s.world.stored { assert StoredKept(s, x); }
    }
    forall r | r in n.world.ready ensures ReadyKept(n, r) { assert ReadyKept(s, r); }
  }

  lemma PublishAccounted(s: System, step: Step)
    requires Accounted(s) && Enabled(s, step) && step.Publish?
    ensures Accounted(Next(s, step))
  {
    var n, m := Next(s, step), step.m;
    var t := s.tasks[m];
    assert TaskKept(s, m);
    var r := MessageFor(JobOf(t), t.id);
    assert n.world.ready == if step.delivered then s.world.ready + [r] else s.world.ready;
    forall k | k in n.tasks ensures TaskKept(n, k) { assert TaskKept(s, k); }
    forall x | x in n.world.stored ensures StoredKept(n, x) { assert StoredKept(s, x); }
    forall q | q in n.world.ready ensures ReadyKept(n, q) {
      if q in s.world.ready { assert ReadyKept(s, q); }
    }
    forall i | 0 <= i < |s.world.ready| ensures s.world.ready[i].id != t.id {
      assert ReadyKept(s, s.world.ready[i]);
    }
  }

  lemma RollbackAccounted(s: System, step: Step)
    requires Accounted(s) && Enabled(s, step) && step.Rollback? && step.ok
    ensures Accounted(Next(s, step))
  {
    var n, m := Next(s, step), step.m;
    var t := s.tasks[m];
    assert TaskKept(s, m);
    forall x | x in s.world.stored && x.doc.id == t.id ensures x.target == JobOf(t).target { assert StoredKept(s, x); }
    assert n.world.stored == set x | x in s.world.stored && x.doc.id != t.id;
    forall k | k in n.tasks ensures TaskKept(n, k) { assert TaskKept(s, k); }
    forall x | x in n.world.stored ensures StoredKept(n, x) { assert StoredKept(s, x); }
    forall r | r in n.world.ready ensures ReadyKept(n, r) { assert ReadyKept(s, r); }
  }

  lemma {:induction false} RunAccounted(s: System, steps: seq<Step>)
    requires Accounted(s)
    ensures Accounted(Run(s, steps))
    decreases |steps|
  {
    if steps != [] {
      if Enabled(s, steps[0]) { NextAccounted(s, steps[0]); }
      RunAccounted(if Enabled(s, steps[0]) then Next(s, steps[0]) else s, steps[1..]);
    }
  }

  /* ---------------------------------------------------------------- one message */

  /** The steps of a message nothing interrupts; a run skips those it does not come to. */
  function StepsFor(m: nat, body: Body, fate: Fortune): seq<Step> {
    [Receive(m, body), Step.Insert(m, fate.id, !fate.insertFails, !fate.insertFails),
     Publish(m, !fate.publishFails, !fate.publishFails), Rollback(m, !fate.deleteFails), Settle(m)]
  }

  function StepOrSkip(s: System, step: Step): System {
    if Enabled(s, step) then Next(s, step) else s
  }

  lemma RunStep(s: System, step: Step, rest: seq<Step>)
    ensures Run(s, [step] + rest) == Run(StepOrSkip(s, step), rest)
  {
    assert ([step] + rest)[1..] == rest;
  }

  lemma FiveSteps(s: System, x1: Step, x2: Step, x3: Step, x4: Step, x5: Step)
    ensures Run(s, [x1, x2, x3, x4, x5]) ==
            StepOrSkip(StepOrSkip(StepOrSkip(StepOrSkip(StepOrSkip(s, x1), x2), x3), x4), x5)
  {
    var s1 := StepOrSkip(s, x1);
    var s2 := StepOrSkip(s1, x2);
    var s3 := StepOrSkip(s2, x3);
    RunStep(s, x1, [x2, x3, x4, x5]);
    RunStep(s1, x2, [x3, x4, x5]);
    RunStep(s2, x3, [x4, x5]);
    RunStep(s3, x4, [x5]);
    RunStep(StepOrSkip(s3, x4), x5, []);
    assert [x1, x2, x3, x4, x5] == [x1] + [x2, x3, x4, x5] && [x2, x3, x4, x5] == [x2] + [x3, x4, x5];
    assert [x3, x4, x5] == [x3] + [x4, x5] && [x4, x5] == [x4] + [x5] && [x5] == [x5] + [];
  }

  lemma FreshIsNotTaken(s: System, t: Target, id: text)
    requires Accounted(s) && id !in s.inserted
    ensures !Taken(s.world.stored, t, id)
  {
    forall x | x in s.world.stored ensures x.doc.id != id { assert StoredKept(s, x); }
  }

  /** The message after its first two steps. */
  function TaskAfterInsert(body: Body, fate: Fortune): Task {
    var job := Prepare(body);
    var inserted := job.Some? && !fate.insertFails;
    Task(if inserted then Publishing else Failed, job, if inserted then fate.id else ZERO_ID, inserted, false)
  }

  lemma ReceiveAndInsert(s: System, m: nat, body: Body, fate: Fortune)
    requires m !in s.tasks && fate.id !in s.inserted
    ensures var job := Prepare(body);
            var r := StepOrSkip(StepOrSkip(s, Receive(m, body)), Step.Insert(m, fate.id, !fate.insertFails, !fate.insertFails));
            && r.world == (if job.Some? then InsertQuark(job.value, fate).action(s.world).0 else s.world)
            && m in r.tasks && r.tasks[m] == TaskAfterInsert(body, fate)
  {
  }

  /** What is left of a message once it has been inserted, or has failed. */
  lemma FinishMessage(s: System, m: nat, t: Task, fate: Fortune)
    requires m in s.tasks && s.tasks[m] == t && (t.pc.Failed? || (t.pc.Publishing? && t.job.Some? && t.id == fate.id))
    ensures var publish, undo := Publish(m, !fate.publishFails, !fate.publishFails), Rollback(m, !fate.deleteFails);
            var r := StepOrSkip(StepOrSkip(StepOrSkip(s, publish), undo), Settle(m));
            && m in r.tasks
            && if t.pc.Failed? then r.world == s.world && r.tasks[m].pc == Nacked
               else
                 var (w, res) := PublishQuark(t.job.value, fate).action(s.world);
                 if res.Success? then r.world == w && r.tasks[m].pc == Acked
                 else r.world == InsertQuark(t.job.value, fate).rollback(w, fate.id) && r.tasks[m].pc == Nacked
  {
  }

  /** A message whose handler is not interrupted takes one run of the protocol's steps: the saga leaves the world
      the steps leave, and the message is acked exactly when the saga succeeds. */
  lemma OneMessage(s: System, m: nat, body: Body, fate: Fortune)
    requires Accounted(s) && m !in s.tasks && fate.id !in s.inserted
    ensures var r := Run(s, StepsFor(m, body, fate));
            && r.world == Handled(body, s.world, fate)
            && m in r.tasks && r.tasks[m].pc == if Handles(body, s.world, fate) then Acked else Nacked
  {
    var x1, x2 := Receive(m, body), Step.Insert(m, fate.id, !fate.insertFails, !fate.insertFails);
    var x3, x4 := Publish(m, !fate.publishFails, !fate.publishFails), Rollback(m, !fate.deleteFails);
    FiveSteps(s, x1, x2, x3, x4, Settle(m));
    var s2 := StepOrSkip(StepOrSkip(s, x1), x2);
    ReceiveAndInsert(s, m, body, fate);
    FinishMessage(s2, m, TaskAfterInsert(body, fate), fate);
    if Prepare(body).Some? { SagaOutcome(s, body, fate); }
  }

  lemma SagaOutcome(s: System, body: Body, fate: Fortune)
    requires Accounted(s) && fate.id !in s.inserted && Prepare(body).Some?
    ensures !Taken(s.world.stored, Prepare(body).value.target, fate.id)
    ensures var job := Prepare(body).value;
            var (w1, res1) := InsertQuark(job, fate).action(s.world);
            var (w2, res2) := PublishQuark(job, fate).action(w1);
            Handled(body, s.world, fate) ==
              if res1.Failure? then w1
              else if res2.Failure? then InsertQuark(job, fate).rollback(w2, fate.id)
              else w2
  {
    var job := Prepare(body).value;
    FreshIsNotTaken(s, job.target, fate.id);
    QuarksOutcome(job, fate, s.world);
  }

  /** One goroutine of handleMq: the handler, then ack or nack. */
  method HandleMq(s: System, m: nat, body: Body, fate: Fortune) returns (world: World, acked: bool)
    requires Accounted(s) && m !in s.tasks && fate.id !in s.inserted
    ensures var r := Run(s, StepsFor(m, body, fate));
            && world == r.world && m in r.tasks && r.tasks[m].pc == if acked then Acked else Nacked
  {
    var err;
    world, err := HandleMqMsg(body, s.world, fate);
    acked := err == None;
    OneMessage(s, m, body, fate);
  }
}
