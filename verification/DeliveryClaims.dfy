/** Exclusive claims: who may change a task that is being processed. */
module DeliveryClaims {
  import opened Common
  import opened TaskRows
  import opened Delivery
  import opened DeliverySafety

  /** Between its successful claim and its finalising update an attempt holds its task. */
  predicate Holding(at: Attempt) {
    && at.task.Some?
    && (at.pc.Claimed? || at.pc.Storing? || at.pc.Deleting? || at.pc.Completing? || at.pc.Reverting? || at.pc.Failing?)
  }

  predicate Holds(at: Attempt, t: TaskId) { Holding(at) && at.task.value == t }

  predicate InProcess(rows: Rows, t: TaskId) { t in rows && rows[t].status == Processing }

  /** At most one attempt holds the task, and then its row is in `processing`. */
  ghost predicate HeldOnce(attempts: seq<Attempt>, rows: Rows, t: TaskId) {
    && (forall a :: 0 <= a < |attempts| && Holds(attempts[a], t) ==> InProcess(rows, t))
    && (forall a, b | 0 <= a < |attempts| && 0 <= b < |attempts| ::
          Holds(attempts[a], t) && Holds(attempts[b], t) ==> a == b)
  }

  /** The object an attempt has put is still the one it put. */
  predicate PutIsCurrent(at: Attempt, objects: map<string, Artifact>)
    requires PastPut(at)
  {
    var k := Key(at.trace, at.task.value);
    k in objects && objects[k].model == at.pc.ai.tokens.model && objects[k].output == at.pc.ai.output
  }

  ghost predicate PutsCurrent(attempts: seq<Attempt>, objects: map<string, Artifact>, t: TaskId) {
    forall a :: 0 <= a < |attempts| && PastPut(attempts[a]) && attempts[a].task.value == t ==>
      PutIsCurrent(attempts[a], objects)
  }

  /** A completed row records the model of the object it names. */
  predicate ModelRow(r: Row, objects: map<string, Artifact>) {
    r.status == Completed && r.artifactKey.Some? && r.artifactKey.value in objects ==>
      objects[r.artifactKey.value].model == r.tokens.model
  }

  ghost predicate ExclusiveFor(s: State, t: TaskId) {
    && HeldOnce(s.attempts, s.rows, t)
    && PutsCurrent(s.attempts, s.objects, t)
    && (t in s.rows ==> ModelRow(s.rows[t], s.objects))
  }

  ghost predicate Exclusive(s: State) {
    forall t :: ExclusiveFor(s, t)
  }

  // --- the worker ---------------------------------------------------------------

  lemma DecideHolds(cfg: Config, at: Attempt, claimable: bool, step: WorkStep)
    requires Decide(cfg, at, claimable, step).Some?
    ensures
      var e := Decide(cfg, at, claimable, step).value;
      var at' := at.(pc := e.pc, won := e.won);
      && (Holding(at') ==> Holding(at) || (e.write == Some(SetProcessing) && claimable && e.fault.NoFault?))
      && (e.write.Some? ==>
            if e.write.value.SetProcessing? then !Holding(at)
            else Guard(e.write.value) == Processing && Holding(at) && !Holding(at'))
      && (e.artifact.Some? ==> Holding(at) && !PastPut(at))
      && (PastPut(at') && !PastPut(at) ==>
            && e.artifact.Some?
            && e.artifact.value.model == at'.pc.ai.tokens.model && e.artifact.value.output == at'.pc.ai.output)
      && (PastPut(at') && PastPut(at) ==> at'.pc.ai == at.pc.ai)
      && (e.write.Some? && e.write.value.SetCompleted? ==> PastPut(at) && e.write.value.tokens == at.pc.ai.tokens)
  {
  }

  /** Nobody holds a pending task, so a claim has no rival, and a holder's finalising update leaves no other holder. */
  lemma WorkKeepsHolders(cfg: Config, s: State, a: nat, step: WorkStep, t: TaskId)
    requires HeldOnce(s.attempts, s.rows, t) && a < |s.attempts|
    requires Decide(cfg, s.attempts[a], Claimable(s, s.attempts[a].task), step).Some?
    ensures HeldOnce(ApplyWork(cfg, s, a, step).attempts, ApplyWork(cfg, s, a, step).rows, t)
  {
    hide Decide, Claimable;
    var at := s.attempts[a];
    var e := Decide(cfg, at, Claimable(s, at.task), step).value;
    DecideHolds(cfg, at, Claimable(s, at.task), step);
    ClaimableMeans(s, at.task);
    var s' := Perform(s, a, e);
    assert ApplyWork(cfg, s, a, step) == s';
    PerformKeepsHolders(s, a, e, t, Claimable(s, at.task));
  }

  lemma ClaimableMeans(s: State, task: Option<TaskId>)
    ensures Claimable(s, task) <==> task.Some? && Affects(s.rows, task.value, SetProcessing)
  {
  }

  lemma PerformKeepsHolders(s: State, a: nat, e: Effect, t: TaskId, claimable: bool)
    requires HeldOnce(s.attempts, s.rows, t) && a < |s.attempts|
    requires claimable <==> s.attempts[a].task.Some? && Affects(s.rows, s.attempts[a].task.value, SetProcessing)
    requires
      var at := s.attempts[a];
      var at' := at.(pc := e.pc, won := e.won);
      && (Holding(at') ==> Holding(at) || (e.write == Some(SetProcessing) && claimable && e.fault.NoFault?))
      && (e.write.Some? ==>
            if e.write.value.SetProcessing? then !Holding(at)
            else Guard(e.write.value) == Processing && Holding(at) && !Holding(at'))
    ensures HeldOnce(Perform(s, a, e).attempts, Perform(s, a, e).rows, t)
  {
    var at := s.attempts[a];
    var s' := Perform(s, a, e);
    assert forall b :: 0 <= b < |s'.attempts| && b != a ==> s'.attempts[b] == s.attempts[b];
    assert at.task != Some(t) ==> (InProcess(s'.rows, t) <==> InProcess(s.rows, t));
  }

  /** A put by the holder of a task leaves the objects of all other tasks alone. */
  lemma PutKeepsOthers(objects: map<string, Artifact>, o: Artifact, k: string)
    requires Keyed(objects) && TraceId(o.trace) && k in objects && objects[k].task != o.task
    ensures k in PutArtifact(objects, o) && PutArtifact(objects, o)[k] == objects[k]
  {
    if k == Key(o.trace, o.task) {
      KeyInjective(objects[k].trace, objects[k].task, o.trace, o.task);
    }
  }

  /** A put under another task's key, or by the only holder of this task. */
  lemma WorkKeepsObjects(cfg: Config, s: State, a: nat, step: WorkStep, t: TaskId)
    requires Core(s) && ExclusiveFor(s, t) && a < |s.attempts|
    requires Decide(cfg, s.attempts[a], Claimable(s, s.attempts[a].task), step).Some?
    ensures PutsCurrent(ApplyWork(cfg, s, a, step).attempts, ApplyWork(cfg, s, a, step).objects, t)
  {
    hide Decide, Key, WriteRows;
    var at := s.attempts[a];
    var e := Decide(cfg, at, Claimable(s, at.task), step).value;
    DecideHolds(cfg, at, Claimable(s, at.task), step);
    DecideFacts(cfg, at, Claimable(s, at.task), step);
    var s' := Perform(s, a, e);
    assert LinkedAttempt(at, s.msgs);
    forall b | 0 <= b < |s'.attempts| && PastPut(s'.attempts[b]) && s'.attempts[b].task.value == t
      ensures PutIsCurrent(s'.attempts[b], s'.objects)
    {
      if b != a {
        assert Holds(s.attempts[b], t) && PutIsCurrent(s.attempts[b], s.objects) && LinkedAttempt(s.attempts[b], s.msgs);
        if e.artifact.Some? {
          var k := Key(s.attempts[b].trace, t);
          KeyInjective(s.objects[k].trace, s.objects[k].task, s.attempts[b].trace, t);
          PutKeepsOthers(s.objects, e.artifact.value, k);
        }
      } else if PastPut(at) {
        assert PutIsCurrent(at, s.objects) && e.artifact.None?;
      }
    }
  }

  /** What is known of the attempt that holds a task. */
  lemma HolderStands(s: State, a: nat, t: TaskId)
    requires Core(s) && ExclusiveFor(s, t) && a < |s.attempts| && Holds(s.attempts[a], t)
    ensures InProcess(s.rows, t) && TraceId(s.attempts[a].trace)
    ensures PastPut(s.attempts[a]) ==> PutIsCurrent(s.attempts[a], s.objects)
  {
    assert LinkedAttempt(s.attempts[a], s.msgs);
  }

  /** A put leaves the object of a completed row alone: its task has no holder. */
  lemma PutKeepsModel(s: State, a: nat, o: Artifact, t: TaskId)
    requires Core(s) && ExclusiveFor(s, t) && t in s.rows && a < |s.attempts|
    requires Holding(s.attempts[a]) && o.task == s.attempts[a].task.value && o.trace == s.attempts[a].trace
    ensures ModelRow(s.rows[t], PutArtifact(s.objects, o))
  {
    hide Key, HeldOnce, PutsCurrent;
    assert LinkedAttempt(s.attempts[a], s.msgs) && BackedRow(s.rows[t], t, s.objects);
    if s.rows[t].status == Completed {
      if o.task == t {
        HolderStands(s, a, t);
      }
      PutKeepsOthers(s.objects, o, s.rows[t].artifactKey.value);
    }
  }

  lemma WorkKeepsModel(cfg: Config, s: State, a: nat, step: WorkStep, t: TaskId)
    requires Core(s) && ExclusiveFor(s, t) && a < |s.attempts| && t in s.rows
    requires Decide(cfg, s.attempts[a], Claimable(s, s.attempts[a].task), step).Some?
    ensures t in ApplyWork(cfg, s, a, step).rows
    ensures ModelRow(ApplyWork(cfg, s, a, step).rows[t], ApplyWork(cfg, s, a, step).objects)
  {
    hide Decide, Claimable, Key, Core, HeldOnce, PutsCurrent;
    var at := s.attempts[a];
    var e := Decide(cfg, at, Claimable(s, at.task), step).value;
    DecideHolds(cfg, at, Claimable(s, at.task), step);
    DecideFacts(cfg, at, Claimable(s, at.task), step);
    var s' := Perform(s, a, e);
    if e.artifact.Some? {
      PutKeepsModel(s, a, e.artifact.value, t);
    } else if s'.rows[t] != s.rows[t] && e.write.value.SetCompleted? {
      HolderStands(s, a, t);
    }
  }

  // --- everybody else -----------------------------------------------------------

  /** A step that changes no attempt but may add an idle one, stores nothing, and keeps the row in `processing`. */
  lemma OthersKeepExclusive(s: State, s': State, t: TaskId)
    requires ExclusiveFor(s, t) && |s.attempts| <= |s'.attempts| && s'.objects == s.objects
    requires forall a :: 0 <= a < |s.attempts| ==> s'.attempts[a] == s.attempts[a]
    requires forall a :: |s.attempts| <= a < |s'.attempts| ==> s'.attempts[a].pc.Received?
    requires InProcess(s.rows, t) ==> InProcess(s'.rows, t)
    requires t in s'.rows && s'.rows[t].status == Completed ==> t in s.rows && s'.rows[t] == s.rows[t]
    ensures ExclusiveFor(s', t)
  {
    assert forall a :: 0 <= a < |s'.attempts| && Holds(s'.attempts[a], t) ==> a < |s.attempts| && Holds(s.attempts[a], t);
    assert forall a :: 0 <= a < |s'.attempts| && PastPut(s'.attempts[a]) ==> a < |s.attempts| && PastPut(s.attempts[a]);
  }

  /** The one step that takes `processing` away from a live attempt. */
  predicate TakesOver(step: Step) { step.Chaos? && step.chaos.FailStuckTasks? }

  predicate ChaosTask(rows: Rows, t: TaskId) { t in rows && IsChaos(rows[t]) }

  lemma QueueKeepsExclusive(cfg: Config, s: State, m: nat, step: QueueStep, t: TaskId)
    requires ExclusiveFor(s, t)
    ensures ExclusiveFor(ApplyQueue(cfg, s, m, step), t)
  {
    var s' := ApplyQueue(cfg, s, m, step);
    QueueFrame(cfg, s, m, step);
    forall a | 0 <= a < |s.attempts| ensures s'.attempts[a] == s.attempts[a] {
      assert s'.attempts[a] == s'.attempts[..|s.attempts|][a];
    }
    OthersKeepExclusive(s, s', t);
  }

  lemma ApiKeepsExclusive(s: State, u: TaskId, step: ApiStep, t: TaskId)
    requires ExclusiveFor(s, t)
    ensures ExclusiveFor(ApplyApi(s, u, step), t)
  {
    ApiExtends(s, u, step);
    OthersKeepExclusive(s, ApplyApi(s, u, step), t);
  }

  lemma OperatorKeepsExclusive(s: State, step: OperatorStep, t: TaskId)
    requires ExclusiveFor(s, t)
    ensures ExclusiveFor(ApplyOperator(s, step), t)
  {
    OperatorFrame(s, step);
    OthersKeepExclusive(s, ApplyOperator(s, step), t);
  }

  lemma WorkKeepsExclusive(cfg: Config, s: State, a: nat, step: WorkStep, t: TaskId)
    requires Core(s) && ExclusiveFor(s, t)
    ensures ExclusiveFor(ApplyWork(cfg, s, a, step), t)
  {
    hide Core, HeldOnce, PutsCurrent, ModelRow, Perform, Decide;
    if a < |s.attempts| && Decide(cfg, s.attempts[a], Claimable(s, s.attempts[a].task), step).Some? {
      WorkKeepsHolders(cfg, s, a, step, t);
      WorkKeepsObjects(cfg, s, a, step, t);
      WorkAddsNoRow(cfg, s, a, step);
      if t in s.rows {
        WorkKeepsModel(cfg, s, a, step, t);
      }
    }
  }

  lemma WorkAddsNoRow(cfg: Config, s: State, a: nat, step: WorkStep)
    ensures ApplyWork(cfg, s, a, step).rows.Keys == s.rows.Keys
  {
  }

  /** The chaos runner's bulk failure is the only step that disturbs a task, and only a chaos task. */
  lemma StepKeepsExclusiveFor(cfg: Config, s: State, step: Step, t: TaskId)
    requires Core(s) && ExclusiveFor(s, t) && !(TakesOver(step) && ChaosTask(s.rows, t))
    ensures ExclusiveFor(Apply(cfg, s, step), t)
  {
    hide Core, ExclusiveFor, ApplyWork, ApplyApi, ApplyQueue, ApplyOperator;
    match step
    case Work(a, work) => WorkKeepsExclusive(cfg, s, a, work, t);
    case Api(u, api) => ApiKeepsExclusive(s, u, api, t);
    case Queue(m, queue) => QueueKeepsExclusive(cfg, s, m, queue, t);
    case Operator(op) => OperatorKeepsExclusive(s, op, t);
    case Chaos(chaos) => OthersKeepExclusive(s, ApplyChaos(s, chaos), t);
    case Tick => OthersKeepExclusive(s, Apply(cfg, s, step), t);
  }

  lemma StepKeepsExclusive(cfg: Config, s: State, step: Step)
    requires Core(s) && Exclusive(s) && !TakesOver(step)
    ensures Exclusive(Apply(cfg, s, step))
  {
    hide Core, ExclusiveFor, Apply;
    forall t ensures ExclusiveFor(Apply(cfg, s, step), t) {
      StepKeepsExclusiveFor(cfg, s, step, t);
    }
  }

  ghost predicate NoTakeover(steps: seq<Step>) {
    forall i :: 0 <= i < |steps| ==> !TakesOver(steps[i])
  }

  /**
   Exclusive claim and backed completion, over every run without chaos take-over: overlapping
   deliveries, crashes anywhere, failing and half-failing database calls, operator retries.
   */
  lemma {:induction false} RunKeepsExclusive(cfg: Config, s: State, steps: seq<Step>)
    requires Core(s) && Exclusive(s) && NoTakeover(steps)
    ensures Core(Run(cfg, s, steps)) && Exclusive(Run(cfg, s, steps))
  {
    hide Core, Exclusive, Apply;
    if steps != [] {
      RunKeepsExclusive(cfg, s, steps[..|steps| - 1]);
      StepKeepsCore(cfg, Run(cfg, s, steps[..|steps| - 1]), steps[|steps| - 1]);
      StepKeepsExclusive(cfg, Run(cfg, s, steps[..|steps| - 1]), steps[|steps| - 1]);
    }
  }

  /** The chaos runner may fail its own tasks in bulk during the run; this task is none of them. */
  ghost predicate Spared(cfg: Config, s: State, steps: seq<Step>, t: TaskId) {
    NoTakeover(steps) || !ChaosTask(Run(cfg, s, steps).rows, t)
  }

  /** So does a run in which it strikes, for every task that is not the chaos runner's. */
  lemma {:induction false} RunKeepsExclusiveFor(cfg: Config, s: State, steps: seq<Step>, t: TaskId)
    requires Core(s) && ExclusiveFor(s, t) && Spared(cfg, s, steps, t)
    ensures Core(Run(cfg, s, steps)) && ExclusiveFor(Run(cfg, s, steps), t)
  {
    hide Core, ExclusiveFor, Apply;
    if steps != [] {
      var before, step := steps[..|steps| - 1], steps[|steps| - 1];
      RowsPersist(cfg, Run(cfg, s, before), step);
      RunKeepsExclusiveFor(cfg, s, before, t);
      StepKeepsCore(cfg, Run(cfg, s, before), step);
      StepKeepsExclusiveFor(cfg, Run(cfg, s, before), step, t);
    }
  }

  lemma InitIsExclusive()
    ensures Core(INIT) && Exclusive(INIT)
  {
  }

  /** At most one attempt holds a task, and then the task's row is in `processing`. */
  lemma ClaimsAreExclusive(cfg: Config, steps: seq<Step>, t: TaskId)
    requires Spared(cfg, INIT, steps, t)
    ensures HeldOnce(Run(cfg, INIT, steps).attempts, Run(cfg, INIT, steps).rows, t)
  {
    InitIsExclusive();
    RunKeepsExclusiveFor(cfg, INIT, steps, t);
  }

  /**
   A completed row names a stored object of its own task and model, under a key that no other
   completed task names; and both the row and the object stay as they are in every continuation.
   */
  lemma {:induction false} CompletionIsFinalAndBacked(cfg: Config, steps: seq<Step>, more: seq<Step>, t: TaskId, u: TaskId)
    requires Spared(cfg, INIT, steps + more, t)
    requires t in Run(cfg, INIT, steps).rows && Run(cfg, INIT, steps).rows[t].status == Completed
    ensures
      var s := Run(cfg, INIT, steps);
      var s' := Run(cfg, INIT, steps + more);
      var r := s.rows[t];
      && r.artifactKey.Some? && r.artifactKey.value in s.objects
      && s.objects[r.artifactKey.value].task == t
      && s.objects[r.artifactKey.value].model == r.tokens.model
      && t in s'.rows && s'.rows[t] == r
      && r.artifactKey.value in s'.objects
      && s'.objects[r.artifactKey.value] == s.objects[r.artifactKey.value]
      && (u in s'.rows && s'.rows[u].status == Completed && s'.rows[u].artifactKey == r.artifactKey ==> u == t)
  {
    hide Run, Key;
    InitIsExclusive();
    var s := Run(cfg, INIT, steps);
    RunConcat(cfg, INIT, steps, more);
    var s' := Run(cfg, s, more);
    CompletedRowIsFinal(cfg, s, more, t);
    assert Spared(cfg, INIT, steps, t) && Spared(cfg, s, more, t) by { SparedInParts(cfg, steps, more, t); }
    RunKeepsExclusiveFor(cfg, INIT, steps, t);
    assert BackedRow(s.rows[t], t, s.objects) && ModelRow(s.rows[t], s.objects);
    ObjectIsFinal(cfg, s, more, t);
    RunKeepsExclusiveFor(cfg, s, more, t);
    assert BackedRow(s'.rows[t], t, s'.objects);
    assert u in s'.rows ==> BackedRow(s'.rows[u], u, s'.objects);
  }

  lemma SparedInParts(cfg: Config, steps: seq<Step>, more: seq<Step>, t: TaskId)
    requires Spared(cfg, INIT, steps + more, t) && t in Run(cfg, INIT, steps).rows
    requires
      var s := Run(cfg, INIT, steps);
      t in Run(cfg, s, more).rows && Run(cfg, s, more).rows[t] == s.rows[t]
    ensures Spared(cfg, INIT, steps, t) && Spared(cfg, Run(cfg, INIT, steps), more, t)
  {
    hide Run, TakesOver;
    RunConcat(cfg, INIT, steps, more);
    if NoTakeover(steps + more) {
      forall i | 0 <= i < |steps| ensures !TakesOver(steps[i]) {
        assert steps[i] == (steps + more)[i];
      }
      forall i | 0 <= i < |more| ensures !TakesOver(more[i]) {
        assert more[i] == (steps + more)[|steps| + i];
      }
    }
  }

  lemma StepKeepsObject(cfg: Config, s: State, step: Step, t: TaskId)
    requires Core(s) && ExclusiveFor(s, t) && t in s.rows && s.rows[t].status == Completed
    ensures
      var k := s.rows[t].artifactKey.value;
      k in s.objects && k in Apply(cfg, s, step).objects && Apply(cfg, s, step).objects[k] == s.objects[k]
  {
    assert BackedRow(s.rows[t], t, s.objects);
    match step
    case Work(a, work) =>
      if a < |s.attempts| && Decide(cfg, s.attempts[a], Claimable(s, s.attempts[a].task), work).Some? {
        var at := s.attempts[a];
        var e := Decide(cfg, at, Claimable(s, at.task), work).value;
        DecideHolds(cfg, at, Claimable(s, at.task), work);
        DecideFacts(cfg, at, Claimable(s, at.task), work);
        if e.artifact.Some? {
          assert !Holds(at, t) && LinkedAttempt(at, s.msgs);
          PutKeepsOthers(s.objects, e.artifact.value, s.rows[t].artifactKey.value);
        }
      }
    case Api(u, api) => ApiExtends(s, u, api);
    case Operator(op) => OperatorFrame(s, op);
    case _ =>
  }

  lemma {:induction false} ObjectIsFinal(cfg: Config, s: State, more: seq<Step>, t: TaskId)
    requires Core(s) && ExclusiveFor(s, t) && Spared(cfg, s, more, t) && t in s.rows && s.rows[t].status == Completed
    ensures
      var k := s.rows[t].artifactKey.value;
      k in s.objects && k in Run(cfg, s, more).objects && Run(cfg, s, more).objects[k] == s.objects[k]
  {
    hide Apply, HeldOnce, PutsCurrent, Exclusive;
    assert BackedRow(s.rows[t], t, s.objects);
    if more != [] {
      var prefix := more[..|more| - 1];
      CompletedRowIsFinal(cfg, s, prefix, t);
      CompletedRowIsFinal(cfg, s, more, t);
      ObjectIsFinal(cfg, s, prefix, t);
      RunKeepsExclusiveFor(cfg, s, prefix, t);
      StepKeepsObject(cfg, Run(cfg, s, prefix), more[|more| - 1], t);
    }
  }

  // ---------------------------------------------------------------------------
  // The chaos runner's take-over
  // ---------------------------------------------------------------------------

  /** Failing the stuck chaos tasks keeps claims exclusive exactly when no live attempt holds one of them. */
  lemma {:induction false} TakeoverIsSafeExactlyWhenUnheld(cfg: Config, s: State, reason: string)
    requires Core(s) && Exclusive(s)
    ensures
      Exclusive(Apply(cfg, s, Chaos(FailStuckTasks(reason))))
      <==> forall a :: 0 <= a < |s.attempts| && Holding(s.attempts[a]) ==> !ChaosTask(s.rows, s.attempts[a].task.value)
  {
    hide Core;
    var s' := Apply(cfg, s, Chaos(FailStuckTasks(reason)));
    if forall a :: 0 <= a < |s.attempts| && Holding(s.attempts[a]) ==> !ChaosTask(s.rows, s.attempts[a].task.value) {
      forall t ensures ExclusiveFor(s', t) {
        assert ExclusiveFor(s, t);
        UnheldTakeover(s, reason, t);
      }
    } else {
      var a :| 0 <= a < |s.attempts| && Holding(s.attempts[a]) && ChaosTask(s.rows, s.attempts[a].task.value);
      var t := s.attempts[a].task.value;
      assert ExclusiveFor(s, t) && Holds(s.attempts[a], t);
      assert Holds(s'.attempts[a], t) && !InProcess(s'.rows, t);
      assert !ExclusiveFor(s', t);
    }
  }

  lemma UnheldTakeover(s: State, reason: string, t: TaskId)
    requires ExclusiveFor(s, t)
    requires forall a :: 0 <= a < |s.attempts| && Holding(s.attempts[a]) ==> !ChaosTask(s.rows, s.attempts[a].task.value)
    ensures ExclusiveFor(ApplyChaos(s, FailStuckTasks(reason)), t)
  {
  }

  // ---------------------------------------------------------------------------
  // Orphaned tasks
  // ---------------------------------------------------------------------------

  ghost predicate Held(s: State, t: TaskId) {
    exists a :: 0 <= a < |s.attempts| && Holds(s.attempts[a], t)
  }

  lemma WorkKeepsOrphan(cfg: Config, s: State, a: nat, step: WorkStep, t: TaskId)
    requires InProcess(s.rows, t) && !Held(s, t) && a < |s.attempts|
    ensures InProcess(ApplyWork(cfg, s, a, step).rows, t) && !Held(ApplyWork(cfg, s, a, step), t)
  {
    var at := s.attempts[a];
    var s' := ApplyWork(cfg, s, a, step);
    if Decide(cfg, at, Claimable(s, at.task), step).Some? {
      DecideHolds(cfg, at, Claimable(s, at.task), step);
      assert !Holds(at, t);
      assert !Holds(s'.attempts[a], t);
      assert forall b :: 0 <= b < |s'.attempts| && b != a ==> s'.attempts[b] == s.attempts[b];
    }
  }

  /** Without a holder nobody takes the task out of `processing`, and nobody can claim it. */
  lemma StepKeepsOrphan(cfg: Config, s: State, step: Step, t: TaskId)
    requires InProcess(s.rows, t) && !Held(s, t) && !TakesOver(step)
    ensures InProcess(Apply(cfg, s, step).rows, t) && !Held(Apply(cfg, s, step), t)
  {
    var s' := Apply(cfg, s, step);
    match step
    case Work(a, work) =>
      if a < |s.attempts| {
        WorkKeepsOrphan(cfg, s, a, work, t);
      }
    case Queue(m, queue) =>
      QueueFrame(cfg, s, m, queue);
      forall b | 0 <= b < |s'.attempts| ensures !Holds(s'.attempts[b], t) {
        if b < |s.attempts| {
          assert s'.attempts[b] == s'.attempts[..|s.attempts|][b];
        }
      }
    case Operator(op) => OperatorFrame(s, op);
    case Api(u, api) => ApiExtends(s, u, api);
    case _ =>
  }

  lemma {:induction false} OrphansStay(cfg: Config, s: State, steps: seq<Step>, t: TaskId)
    requires InProcess(s.rows, t) && !Held(s, t) && NoTakeover(steps)
    ensures InProcess(Run(cfg, s, steps).rows, t) && !Held(Run(cfg, s, steps), t)
  {
    if steps != [] {
      OrphansStay(cfg, s, steps[..|steps| - 1], t);
      StepKeepsOrphan(cfg, Run(cfg, s, steps[..|steps| - 1]), steps[|steps| - 1], t);
    }
  }

  /** A crash of the holder, wherever it stands, orphans its task. */
  lemma CrashOrphans(cfg: Config, s: State, a: nat, t: TaskId)
    requires Exclusive(s) && a < |s.attempts| && Holds(s.attempts[a], t)
    ensures
      var s' := Apply(cfg, s, Work(a, Crash));
      InProcess(s'.rows, t) && !Held(s', t)
  {
    assert ExclusiveFor(s, t);
    var s' := Apply(cfg, s, Work(a, Crash));
    forall b | 0 <= b < |s'.attempts| ensures !Holds(s'.attempts[b], t) {
      assert b != a ==> s'.attempts[b] == s.attempts[b];
    }
  }

  /** What is left for a holder to do when nothing goes wrong. */
  function Rest(pc: Pc, t: TaskId): seq<WorkStep> {
    match pc
    case Claimed =>
      [Infer(Response(200, Some(ReplyBody("completed", MockResult(t))))), Put(true, true), DeleteMessage(true),
       Complete(NoFault)]
    case Storing(_) => [Put(true, true), DeleteMessage(true), Complete(NoFault)]
    case Deleting(_) => [DeleteMessage(true), Complete(NoFault)]
    case Completing(_) => [Complete(NoFault)]
    case Reverting => [Revert(NoFault)]
    case Failing(_) => [Fail(NoFault)]
    case _ => []
  }

  lemma RestDecides(cfg: Config, at: Attempt, t: TaskId)
    requires Holds(at, t)
    ensures
      var rest := Rest(at.pc, t);
      && rest != []
      && Decide(cfg, at, false, rest[0]).Some?
      && var e := Decide(cfg, at, false, rest[0]).value;
         var at' := at.(pc := e.pc, won := e.won);
         if |rest| == 1 then e.write.Some? && Guard(e.write.value) == Processing && e.fault.NoFault?
         else e.write.None? && Holds(at', t) && |Rest(at'.pc, t)| < |rest|
  {
  }

  /** The last step of a holder takes its task out of `processing`; the others lead to it. */
  lemma RestAdvances(cfg: Config, s: State, a: nat, t: TaskId)
    requires Exclusive(s) && a < |s.attempts| && Holds(s.attempts[a], t)
    ensures
      var rest := Rest(s.attempts[a].pc, t);
      && rest != []
      && var s' := Apply(cfg, s, Work(a, rest[0]));
         if |rest| == 1 then !InProcess(s'.rows, t)
         else |s'.attempts| == |s.attempts| && Holds(s'.attempts[a], t) && |Rest(s'.attempts[a].pc, t)| < |rest|
  {
    assert ExclusiveFor(s, t);
    assert !Claimable(s, s.attempts[a].task);
    RestDecides(cfg, s.attempts[a], t);
    var rest := Rest(s.attempts[a].pc, t);
    var e := Decide(cfg, s.attempts[a], false, rest[0]).value;
    var s' := Apply(cfg, s, Work(a, rest[0]));
    assert s' == Perform(s, a, e);
    assert s'.attempts[a] == s.attempts[a].(pc := e.pc, won := e.won);
  }

  lemma {:induction false} HolderCanFinish(cfg: Config, s: State, a: nat, t: TaskId) returns (steps: seq<Step>)
    requires Core(s) && Exclusive(s) && a < |s.attempts| && Holds(s.attempts[a], t)
    ensures !InProcess(Run(cfg, s, steps).rows, t)
    ensures forall i :: 0 <= i < |steps| ==> steps[i].Work? && steps[i].a == a && !steps[i].work.Crash?
    decreases |Rest(s.attempts[a].pc, t)|
  {
    var step := Work(a, Rest(s.attempts[a].pc, t)[0]);
    RestAdvances(cfg, s, a, t);
    var s' := Apply(cfg, s, step);
    StepKeepsCore(cfg, s, step);
    StepKeepsExclusive(cfg, s, step);
    assert Run(cfg, s, [step]) == s' by {
      assert [step][..0] == [];
      assert Run(cfg, s, []) == s;
    }
    if |Rest(s.attempts[a].pc, t)| == 1 {
      steps := [step];
    } else {
      var more := HolderCanFinish(cfg, s', a, t);
      RunConcat(cfg, s, [step], more);
      steps := [step] + more;
    }
  }

  /**
   A task in `processing` can leave that status, without the chaos runner, exactly when a live
   attempt holds it. So a crash after the message was deleted and before the row was completed
   leaves the task in `processing` for ever, whatever is redelivered, retried or replayed.
   */
  lemma ProcessingEndsExactlyWhenHeld(cfg: Config, s: State, t: TaskId)
    requires Core(s) && Exclusive(s) && InProcess(s.rows, t)
    ensures (exists steps :: NoTakeover(steps) && !InProcess(Run(cfg, s, steps).rows, t)) <==> Held(s, t)
  {
    if Held(s, t) {
      var a :| 0 <= a < |s.attempts| && Holds(s.attempts[a], t);
      var steps := HolderCanFinish(cfg, s, a, t);
    } else {
      forall steps | NoTakeover(steps) ensures InProcess(Run(cfg, s, steps).rows, t) {
        OrphansStay(cfg, s, steps, t);
      }
    }
  }
}
