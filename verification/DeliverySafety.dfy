/** What every run of the delivery protocol keeps: the rows, the objects and the messages. */
module DeliverySafety {
  import opened Common
  import opened TaskRows
  import opened Delivery

  // ---------------------------------------------------------------------------
  // Object keys
  // ---------------------------------------------------------------------------

  /** The slash ends the trace id, so no two (trace, task) pairs share a key. */
  lemma {:induction false} KeyInjective(a: string, t: TaskId, b: string, u: TaskId)
    requires TraceId(a) && TraceId(b) && Key(a, t) == Key(b, u)
    ensures a == b && t == u
  {
    var k := Key(a, t);
    assert k[|a|] == '/' && k[|b|] == '/';
    assert forall i :: 0 <= i < |a| ==> k[i] == a[i];
    assert forall i :: 0 <= i < |b| ==> k[i] == b[i];
    assert |a| == |b|;
    assert a == k[..|a|] == b;
    assert t + ".json" == k[|a| + 1..] == u + ".json";
    assert t == k[|a| + 1..][..|t|];
  }

  // ---------------------------------------------------------------------------
  // The invariant of all steps, component by component
  // ---------------------------------------------------------------------------

  predicate LinkedAttempt(at: Attempt, msgs: seq<Message>) {
    && at.msg < |msgs|
    && at.task == msgs[at.msg].body
    && TraceId(at.trace)
    && (at.task.None? ==> at.pc.Received? || at.pc.Done? || at.pc.Crashed?)
  }

  ghost predicate Linked(attempts: seq<Attempt>, msgs: seq<Message>) {
    forall a :: 0 <= a < |attempts| ==> LinkedAttempt(attempts[a], msgs)
  }

  /** Every object is stored under its own key. */
  ghost predicate Keyed(objects: map<string, Artifact>) {
    forall k :: k in objects ==> k == Key(objects[k].trace, objects[k].task) && TraceId(objects[k].trace)
  }

  /** An attempt that is past its put has its artifact in the store. */
  predicate PastPut(at: Attempt) { at.task.Some? && (at.pc.Deleting? || at.pc.Completing?) }

  ghost predicate PutsStored(attempts: seq<Attempt>, objects: map<string, Artifact>) {
    forall a :: 0 <= a < |attempts| && PastPut(attempts[a]) ==>
      Key(attempts[a].trace, attempts[a].task.value) in objects
  }

  predicate BackedRow(r: Row, t: TaskId, objects: map<string, Artifact>) {
    r.status == Completed ==>
      r.artifactKey.Some? && r.artifactKey.value in objects && objects[r.artifactKey.value].task == t
  }

  /** A completed row names a stored object of its own task. */
  ghost predicate Backed(rows: Rows, objects: map<string, Artifact>) {
    forall t :: t in rows ==> BackedRow(rows[t], t, objects)
  }

  ghost predicate Created(creators: map<TaskId, CreatorPc>, rows: Rows) {
    forall t :: t in creators ==> t in rows
  }

  ghost predicate Core(s: State) {
    && Linked(s.attempts, s.msgs)
    && AllShaped(s.rows, s.clock)
    && Keyed(s.objects)
    && PutsStored(s.attempts, s.objects)
    && Backed(s.rows, s.objects)
    && Created(s.creators, s.rows)
  }

  // --- one effect at a time ---------------------------------------------------

  /** The message list only grows, and a message keeps its body. */
  ghost predicate Extends(msgs: seq<Message>, msgs': seq<Message>) {
    && |msgs| <= |msgs'|
    && forall m :: 0 <= m < |msgs| ==> msgs'[m].body == msgs[m].body
  }

  lemma LinkedExtends(attempts: seq<Attempt>, msgs: seq<Message>, msgs': seq<Message>)
    requires Linked(attempts, msgs) && Extends(msgs, msgs')
    ensures Linked(attempts, msgs')
  {
    forall a | 0 <= a < |attempts| ensures LinkedAttempt(attempts[a], msgs') {
      assert LinkedAttempt(attempts[a], msgs);
    }
  }

  lemma PutKeepsBacked(rows: Rows, objects: map<string, Artifact>, o: Artifact)
    requires Backed(rows, objects) && Keyed(objects) && TraceId(o.trace)
    ensures Backed(rows, PutArtifact(objects, o)) && Keyed(PutArtifact(objects, o))
  {
    var k := Key(o.trace, o.task);
    if k in objects {
      KeyInjective(objects[k].trace, objects[k].task, o.trace, o.task);
    }
    forall t | t in rows ensures BackedRow(rows[t], t, PutArtifact(objects, o)) {
      assert BackedRow(rows[t], t, objects);
    }
  }

  /** A write keeps completed rows backed when, if it completes a row, its key holds that task's object. */
  lemma WriteKeepsRows(rows: Rows, t: TaskId, w: Write, fault: Fault, now: Instant, objects: map<string, Artifact>)
    requires AllShaped(rows, now) && Backed(rows, objects)
    requires w.SetCompleted? ==> w.key in objects && objects[w.key].task == t
    ensures AllShaped(WriteRows(rows, t, w, fault, now), now)
    ensures Backed(WriteRows(rows, t, w, fault, now), objects)
    ensures WriteRows(rows, t, w, fault, now).Keys == rows.Keys
  {
    ExecKeepsShape(rows, t, w, now);
    ExecFrame(rows, t, w, now);
    var rows' := WriteRows(rows, t, w, fault, now);
    forall u | u in rows' ensures BackedRow(rows'[u], u, objects) {
      assert BackedRow(rows[u], u, objects);
    }
  }

  /** What the control flow of `Process` promises about each of its effects. */
  lemma DecideFacts(cfg: Config, at: Attempt, claimable: bool, step: WorkStep)
    requires Decide(cfg, at, claimable, step).Some?
    ensures
      var e := Decide(cfg, at, claimable, step).value;
      var at' := at.(pc := e.pc, won := e.won);
      && (at.task.None? ==> e.pc.Done? || e.pc.Crashed?)
      && (PastPut(at') ==>
            PastPut(at) || (e.artifact.Some? && e.artifact.value.task == at.task.value && e.artifact.value.trace == at.trace))
      && (e.artifact.Some? ==> at.task.Some? && e.artifact.value.task == at.task.value && e.artifact.value.trace == at.trace)
      && (e.write.Some? && e.write.value.SetCompleted? ==> PastPut(at) && e.write.value.key == Key(at.trace, at.task.value))
      && (e.delete ==> PastPut(at))
      && (e.write.Some? ==> e.artifact.None?)
  {
  }

  lemma PerformKeepsAttempts(s: State, a: nat, e: Effect)
    requires a < |s.attempts| && Core(s)
    requires
      var at := s.attempts[a];
      var at' := at.(pc := e.pc, won := e.won);
      && (at.task.None? ==> e.pc.Done? || e.pc.Crashed?)
      && (PastPut(at') ==>
            PastPut(at) || (e.artifact.Some? && e.artifact.value.task == at.task.value && e.artifact.value.trace == at.trace))
    ensures Linked(Perform(s, a, e).attempts, Perform(s, a, e).msgs)
    ensures PutsStored(Perform(s, a, e).attempts, Perform(s, a, e).objects)
  {
    var s' := Perform(s, a, e);
    LinkedExtends(s.attempts, s.msgs, s'.msgs);
    assert LinkedAttempt(s'.attempts[a], s'.msgs) by {
      assert LinkedAttempt(s.attempts[a], s'.msgs);
    }
    forall b | 0 <= b < |s'.attempts| && PastPut(s'.attempts[b])
      ensures Key(s'.attempts[b].trace, s'.attempts[b].task.value) in s'.objects
    {
      if b != a {
        assert PastPut(s.attempts[b]);
      }
    }
  }

  lemma WorkKeepsCore(cfg: Config, s: State, a: nat, step: WorkStep)
    requires Core(s)
    ensures Core(ApplyWork(cfg, s, a, step))
  {
    if a < |s.attempts| && Decide(cfg, s.attempts[a], Claimable(s, s.attempts[a].task), step).Some? {
      var at := s.attempts[a];
      var e := Decide(cfg, at, Claimable(s, at.task), step).value;
      DecideFacts(cfg, at, Claimable(s, at.task), step);
      PerformKeepsAttempts(s, a, e);
      assert LinkedAttempt(at, s.msgs);
      if e.artifact.Some? {
        PutKeepsBacked(s.rows, s.objects, e.artifact.value);
      }
      if e.write.Some? && at.task.Some? {
        if e.write.value.SetCompleted? {
          var k := Key(at.trace, at.task.value);
          KeyInjective(s.objects[k].trace, s.objects[k].task, at.trace, at.task.value);
        }
        WriteKeepsRows(s.rows, at.task.value, e.write.value, e.fault, s.clock, s.objects);
      }
    }
  }

  lemma ApiExtends(s: State, t: TaskId, step: ApiStep)
    ensures Extends(s.msgs, ApplyApi(s, t, step).msgs)
    ensures ApplyApi(s, t, step).attempts == s.attempts && ApplyApi(s, t, step).objects == s.objects
  {
  }

  lemma ApiKeepsCore(s: State, t: TaskId, step: ApiStep)
    requires Core(s)
    ensures Core(ApplyApi(s, t, step))
  {
    var s' := ApplyApi(s, t, step);
    ApiExtends(s, t, step);
    LinkedExtends(s.attempts, s.msgs, s'.msgs);
    if step.Reject? && t in s.creators && s.creators[t].Rejecting? {
      WriteKeepsRows(s.rows, t, SetPublishFailed(s.creators[t].reason), step.rejectFault, s.clock, s.objects);
    }
    forall u | u in s'.rows && !step.Reject? ensures BackedRow(s'.rows[u], u, s'.objects) {
      assert u in s.rows ==> BackedRow(s.rows[u], u, s.objects);
    }
  }

  /** The queue service changes only messages, and adds the attempt it hands a message to. */
  lemma QueueFrame(cfg: Config, s: State, m: nat, step: QueueStep)
    ensures
      var s' := ApplyQueue(cfg, s, m, step);
      && Extends(s.msgs, s'.msgs)
      && s' == s.(msgs := s'.msgs, attempts := s'.attempts)
      && (s'.attempts == s.attempts
          || (&& m < |s'.msgs|
              && |s'.attempts| == |s.attempts| + 1
              && s'.attempts[..|s.attempts|] == s.attempts
              && s'.attempts[|s.attempts|].pc.Received?
              && LinkedAttempt(s'.attempts[|s.attempts|], s'.msgs)))
  {
  }

  lemma QueueKeepsCore(cfg: Config, s: State, m: nat, step: QueueStep)
    requires Core(s)
    ensures Core(ApplyQueue(cfg, s, m, step))
  {
    var s' := ApplyQueue(cfg, s, m, step);
    QueueFrame(cfg, s, m, step);
    LinkedExtends(s.attempts, s.msgs, s'.msgs);
    forall a | 0 <= a < |s'.attempts|
      ensures LinkedAttempt(s'.attempts[a], s'.msgs)
      ensures PastPut(s'.attempts[a]) ==> a < |s.attempts| && s'.attempts[a] == s.attempts[a]
    {
      if a < |s.attempts| {
        assert s'.attempts[a] == s'.attempts[..|s.attempts|][a];
        assert LinkedAttempt(s.attempts[a], s'.msgs);
      }
    }
  }

  /** An operator step changes only messages, retries and the discarded tasks, and requeues at most one row. */
  lemma OperatorFrame(s: State, step: OperatorStep)
    ensures
      var s' := ApplyOperator(s, step);
      && s'.attempts == s.attempts && s'.objects == s.objects
      && s'.creators == s.creators && s'.clock == s.clock
      && (s'.rows == s.rows
          || (&& step.RetryRevert? && step.r < |s.retries| && s.retries[step.r].body.Some?
              && s'.rows == WriteRows(s.rows, s.retries[step.r].body.value, RevertToPendingForRetry, step.retryFault, s.clock)))
  {
  }

  lemma OperatorExtends(s: State, step: OperatorStep)
    ensures Extends(s.msgs, ApplyOperator(s, step).msgs)
  {
  }

  lemma WorkExtends(cfg: Config, s: State, a: nat, step: WorkStep)
    ensures Extends(s.msgs, ApplyWork(cfg, s, a, step).msgs)
  {
  }

  lemma StepExtends(cfg: Config, s: State, step: Step)
    ensures Extends(s.msgs, Apply(cfg, s, step).msgs)
  {
    match step
    case Api(t, api) => ApiExtends(s, t, api);
    case Queue(m, queue) => QueueFrame(cfg, s, m, queue);
    case Work(a, work) => WorkExtends(cfg, s, a, work);
    case Operator(op) => OperatorExtends(s, op);
    case _ =>
  }

  lemma OperatorKeepsCore(s: State, step: OperatorStep)
    requires Core(s)
    ensures Core(ApplyOperator(s, step))
  {
    var s' := ApplyOperator(s, step);
    OperatorFrame(s, step);
    OperatorExtends(s, step);
    LinkedExtends(s.attempts, s.msgs, s'.msgs);
    if s'.rows != s.rows {
      WriteKeepsRows(s.rows, s.retries[step.r].body.value, RevertToPendingForRetry, step.retryFault, s.clock, s.objects);
    }
  }

  lemma ChaosKeepsCore(s: State, step: ChaosStep)
    requires Core(s)
    ensures Core(ApplyChaos(s, step))
  {
    var s' := ApplyChaos(s, step);
    forall t | t in s'.rows ensures BackedRow(s'.rows[t], t, s.objects) && Shaped(s'.rows[t], s.clock) {
      assert BackedRow(s.rows[t], t, s.objects) && Shaped(s.rows[t], s.clock);
    }
  }

  lemma StepKeepsCore(cfg: Config, s: State, step: Step)
    requires Core(s)
    ensures Core(Apply(cfg, s, step))
  {
    match step
    case Api(t, api) => ApiKeepsCore(s, t, api);
    case Queue(m, queue) => QueueKeepsCore(cfg, s, m, queue);
    case Work(a, work) => WorkKeepsCore(cfg, s, a, work);
    case Operator(op) => OperatorKeepsCore(s, op);
    case Chaos(chaos) => ChaosKeepsCore(s, chaos);
    case Tick =>
      forall t | t in s.rows ensures Shaped(s.rows[t], s.clock + 1) {
        assert Shaped(s.rows[t], s.clock);
      }
  }

  lemma RowsPersist(cfg: Config, s: State, step: Step)
    ensures Persist(s.rows, Apply(cfg, s, step).rows)
  {
    match step
    case Operator(op) => OperatorFrame(s, op);
    case Queue(m, queue) => QueueFrame(cfg, s, m, queue);
    case _ =>
  }

  lemma {:induction false} RunKeepsCore(cfg: Config, steps: seq<Step>)
    ensures Core(Run(cfg, INIT, steps))
  {
    if steps != [] {
      RunKeepsCore(cfg, steps[..|steps| - 1]);
      StepKeepsCore(cfg, Run(cfg, INIT, steps[..|steps| - 1]), steps[|steps| - 1]);
    }
  }

  // ---------------------------------------------------------------------------
  // Completion is final
  // ---------------------------------------------------------------------------

  lemma StepKeepsCompleted(cfg: Config, s: State, step: Step, t: TaskId)
    requires t in s.rows && s.rows[t].status == Completed
    ensures t in Apply(cfg, s, step).rows && Apply(cfg, s, step).rows[t] == s.rows[t]
  {
    match step
    case Operator(op) => OperatorFrame(s, op);
    case _ =>
  }

  /** No later step of anyone, chaos runner included, changes a completed row. */
  lemma {:induction false} CompletedRowIsFinal(cfg: Config, s: State, steps: seq<Step>, t: TaskId)
    requires t in s.rows && s.rows[t].status == Completed
    ensures t in Run(cfg, s, steps).rows && Run(cfg, s, steps).rows[t] == s.rows[t]
  {
    if steps != [] {
      CompletedRowIsFinal(cfg, s, steps[..|steps| - 1], t);
      StepKeepsCompleted(cfg, Run(cfg, s, steps[..|steps| - 1]), steps[|steps| - 1], t);
    }
  }
}
