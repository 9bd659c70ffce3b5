/** Where what is stored and recorded comes from: the AI runtime's replies, one by one. */
module DeliveryAnswers {
  import opened Common
  import opened TaskRows
  import opened Delivery
  import opened DeliverySafety
  import opened DeliveryClaims

  /** A response below 500 that decoded and does not say that the inference failed. */
  predicate GoodReply(reply: Reply) {
    reply.Response? && reply.httpStatus < 500 && reply.body.Some? && reply.body.value.executionStatus != "failed"
  }

  /** The result of a good reply, or the mock result when the AI runtime is switched off. */
  predicate IsAnswer(cfg: Config, t: TaskId, reply: Reply, ai: AiResult) {
    if cfg.aiEnabled then GoodReply(reply) && ai == reply.body.value.ai
    else ai == AiResult("mock output for task " + t, Tokens(0, 0, 0.0, "mock"))
  }

  /** The result an attempt carries along once it has one. */
  function Carried(at: Attempt): Option<AiResult> {
    if at.pc.Storing? || at.pc.Deleting? || at.pc.Completing? then Some(at.pc.ai) else None
  }

  /** What an attempt does with replies and results. */
  lemma DecideAnswers(cfg: Config, at: Attempt, claimable: bool, step: WorkStep)
    requires Decide(cfg, at, claimable, step).Some?
    ensures
      var e := Decide(cfg, at, claimable, step).value;
      var at' := at.(pc := e.pc, won := e.won);
      && (Carried(at').Some? ==>
            && at.task.Some?
            && (Carried(at') == Carried(at)
                || (at.pc.Claimed? && step.Infer? && IsAnswer(cfg, at.task.value, step.reply, Carried(at').value))))
      && (e.artifact.Some? ==>
            && at.task.Some? && Carried(at).Some?
            && e.artifact.value == Artifact(at.task.value, at.trace, Carried(at).value.tokens.model, Carried(at).value.output))
      && (e.write.Some? && e.write.value.SetCompleted? ==>
            && at.task.Some? && Carried(at).Some?
            && e.write.value == SetCompleted(at.trace + "/" + at.task.value + ".json", Carried(at).value.tokens))
  {
  }

  /** An attempt whose reply is not good fails its task at its limit and hands it back below it, and stores nothing. */
  lemma BadReplyGivesUp(cfg: Config, at: Attempt, claimable: bool, reply: Reply)
    requires at.task.Some? && at.pc.Claimed? && cfg.aiEnabled && !GoodReply(reply)
    ensures Decide(cfg, at, claimable, Infer(reply)).Some?
    ensures
      var e := Decide(cfg, at, claimable, Infer(reply)).value;
      && e.pc == (if at.receiveCount >= cfg.workerLimit then Failing("ai_runtime_error") else Reverting)
      && e.artifact.None? && e.write.None? && !e.delete
  {
  }

  // ---------------------------------------------------------------------------
  // Over all runs
  // ---------------------------------------------------------------------------

  /** Step `n` of the run is the inference of attempt `a` for task `t`, and it gave `ai`. */
  ghost predicate InferredAt(cfg: Config, steps: seq<Step>, n: nat, a: nat, t: TaskId, ai: AiResult) {
    && n < |steps| && steps[n].Work? && steps[n].a == a && steps[n].work.Infer?
    && IsAnswer(cfg, t, steps[n].work.reply, ai)
    && var attempts := Run(cfg, INIT, steps[..n]).attempts;
       a < |attempts| && attempts[a].task == Some(t) && attempts[a].pc == Claimed
  }

  ghost predicate HasAnswer(cfg: Config, steps: seq<Step>, a: nat, t: TaskId, ai: AiResult) {
    exists n :: InferredAt(cfg, steps, n, a, t, ai)
  }

  /** Attempt `a`, for task `t` under this trace id, got `ai`. */
  ghost predicate Got(cfg: Config, steps: seq<Step>, attempts: seq<Attempt>, a: nat, t: TaskId, trace: string, ai: AiResult) {
    a < |attempts| && attempts[a].task == Some(t) && attempts[a].trace == trace && HasAnswer(cfg, steps, a, t, ai)
  }

  ghost predicate CarriesAnswers(cfg: Config, steps: seq<Step>, attempts: seq<Attempt>) {
    forall a :: 0 <= a < |attempts| && Carried(attempts[a]).Some? ==>
      attempts[a].task.Some? && HasAnswer(cfg, steps, a, attempts[a].task.value, Carried(attempts[a]).value)
  }

  /** The artifact is what some attempt of its task got. */
  ghost predicate ComesFromAnswer(cfg: Config, steps: seq<Step>, attempts: seq<Attempt>, o: Artifact) {
    exists a, ai :: Got(cfg, steps, attempts, a, o.task, o.trace, ai) && o.output == ai.output && o.model == ai.tokens.model
  }

  ghost predicate ObjectsComeFromAnswers(cfg: Config, steps: seq<Step>, attempts: seq<Attempt>, objects: map<string, Artifact>) {
    forall k :: k in objects ==> ComesFromAnswer(cfg, steps, attempts, objects[k])
  }

  /** The row's tokens are those some attempt got, and its key is that attempt's. */
  ghost predicate RecordsAnswer(cfg: Config, steps: seq<Step>, attempts: seq<Attempt>, t: TaskId, r: Row) {
    exists a, trace, ai ::
      Got(cfg, steps, attempts, a, t, trace, ai) && r.tokens == ai.tokens && r.artifactKey == Some(trace + "/" + t + ".json")
  }

  ghost predicate RowsRecordAnswers(cfg: Config, steps: seq<Step>, attempts: seq<Attempt>, rows: Rows) {
    forall t :: t in rows && rows[t].status == Completed ==> RecordsAnswer(cfg, steps, attempts, t, rows[t])
  }

  ghost predicate Answered(cfg: Config, steps: seq<Step>, s: State) {
    && CarriesAnswers(cfg, steps, s.attempts)
    && ObjectsComeFromAnswers(cfg, steps, s.attempts, s.objects)
    && RowsRecordAnswers(cfg, steps, s.attempts, s.rows)
  }

  /** Attempts are only added, and keep their task and trace id. */
  ghost predicate AttemptsPersist(attempts: seq<Attempt>, attempts': seq<Attempt>) {
    && |attempts| <= |attempts'|
    && forall a :: 0 <= a < |attempts| ==> attempts'[a].task == attempts[a].task && attempts'[a].trace == attempts[a].trace
  }

  lemma AnswerStays(cfg: Config, steps: seq<Step>, step: Step, a: nat, t: TaskId, ai: AiResult)
    requires HasAnswer(cfg, steps, a, t, ai)
    ensures HasAnswer(cfg, steps + [step], a, t, ai)
  {
    hide Run;
    var n: nat :| InferredAt(cfg, steps, n, a, t, ai);
    assert (steps + [step])[..n] == steps[..n];
    assert InferredAt(cfg, steps + [step], n, a, t, ai);
  }

  lemma GotStays(cfg: Config, steps: seq<Step>, step: Step, attempts: seq<Attempt>, attempts': seq<Attempt>, a: nat, t: TaskId,
                 trace: string, ai: AiResult)
    requires Got(cfg, steps, attempts, a, t, trace, ai) && AttemptsPersist(attempts, attempts')
    ensures Got(cfg, steps + [step], attempts', a, t, trace, ai)
  {
    hide HasAnswer;
    AnswerStays(cfg, steps, step, a, t, ai);
  }

  lemma ObjectStays(cfg: Config, steps: seq<Step>, step: Step, attempts: seq<Attempt>, attempts': seq<Attempt>, o: Artifact)
    requires ComesFromAnswer(cfg, steps, attempts, o) && AttemptsPersist(attempts, attempts')
    ensures ComesFromAnswer(cfg, steps + [step], attempts', o)
  {
    hide Got;
    var a, ai :| Got(cfg, steps, attempts, a, o.task, o.trace, ai) && o.output == ai.output && o.model == ai.tokens.model;
    GotStays(cfg, steps, step, attempts, attempts', a, o.task, o.trace, ai);
  }

  lemma RowStays(cfg: Config, steps: seq<Step>, step: Step, attempts: seq<Attempt>, attempts': seq<Attempt>, t: TaskId, r: Row)
    requires RecordsAnswer(cfg, steps, attempts, t, r) && AttemptsPersist(attempts, attempts')
    ensures RecordsAnswer(cfg, steps + [step], attempts', t, r)
  {
    hide Got;
    var a, trace, ai :|
      Got(cfg, steps, attempts, a, t, trace, ai) && r.tokens == ai.tokens && r.artifactKey == Some(trace + "/" + t + ".json");
    GotStays(cfg, steps, step, attempts, attempts', a, t, trace, ai);
  }

  /** A step that gives no attempt a result, stores nothing and completes nothing. */
  lemma OthersKeepAnswered(cfg: Config, steps: seq<Step>, step: Step, s: State, s': State)
    requires Answered(cfg, steps, s) && AttemptsPersist(s.attempts, s'.attempts) && s'.objects == s.objects
    requires forall a :: 0 <= a < |s'.attempts| && Carried(s'.attempts[a]).Some? ==>
      a < |s.attempts| && Carried(s.attempts[a]) == Carried(s'.attempts[a])
    requires forall t :: t in s'.rows && s'.rows[t].status == Completed ==> t in s.rows && s'.rows[t] == s.rows[t]
    ensures Answered(cfg, steps + [step], s')
  {
    hide HasAnswer, ComesFromAnswer, RecordsAnswer;
    forall a | 0 <= a < |s'.attempts| && Carried(s'.attempts[a]).Some?
      ensures s'.attempts[a].task.Some?
      ensures HasAnswer(cfg, steps + [step], a, s'.attempts[a].task.value, Carried(s'.attempts[a]).value)
    {
      AnswerStays(cfg, steps, step, a, s.attempts[a].task.value, Carried(s.attempts[a]).value);
    }
    forall k | k in s'.objects ensures ComesFromAnswer(cfg, steps + [step], s'.attempts, s'.objects[k]) {
      ObjectStays(cfg, steps, step, s.attempts, s'.attempts, s.objects[k]);
    }
    forall t | t in s'.rows && s'.rows[t].status == Completed
      ensures RecordsAnswer(cfg, steps + [step], s'.attempts, t, s'.rows[t])
    {
      RowStays(cfg, steps, step, s.attempts, s'.attempts, t, s.rows[t]);
    }
  }

  lemma CarriedIsGot(cfg: Config, steps: seq<Step>, step: Step, s: State, attempts': seq<Attempt>, a: nat)
    requires CarriesAnswers(cfg, steps, s.attempts) && AttemptsPersist(s.attempts, attempts')
    requires a < |s.attempts| && Carried(s.attempts[a]).Some?
    ensures s.attempts[a].task.Some?
    ensures Got(cfg, steps + [step], attempts', a, s.attempts[a].task.value, s.attempts[a].trace, Carried(s.attempts[a]).value)
  {
    hide HasAnswer;
    AnswerStays(cfg, steps, step, a, s.attempts[a].task.value, Carried(s.attempts[a]).value);
  }

  lemma WorkKeepsCarried(cfg: Config, steps: seq<Step>, s: State, a: nat, work: WorkStep)
    requires s == Run(cfg, INIT, steps) && Answered(cfg, steps, s) && a < |s.attempts|
    requires Decide(cfg, s.attempts[a], Claimable(s, s.attempts[a].task), work).Some?
    ensures CarriesAnswers(cfg, steps + [Work(a, work)], ApplyWork(cfg, s, a, work).attempts)
  {
    hide Decide, Claimable, Run, ObjectsComeFromAnswers, RowsRecordAnswers;
    var at := s.attempts[a];
    var claimable := Claimable(s, at.task);
    var e := Decide(cfg, at, claimable, work).value;
    DecideAnswers(cfg, at, claimable, work);
    var s', longer := Perform(s, a, e), steps + [Work(a, work)];
    assert longer[..|steps|] == steps;
    forall b | 0 <= b < |s'.attempts| && Carried(s'.attempts[b]).Some?
      ensures s'.attempts[b].task.Some?
      ensures HasAnswer(cfg, longer, b, s'.attempts[b].task.value, Carried(s'.attempts[b]).value)
    {
      if Carried(s'.attempts[b]) == Carried(s.attempts[b]) {
        AnswerStays(cfg, steps, Work(a, work), b, s.attempts[b].task.value, Carried(s.attempts[b]).value);
      } else {
        assert InferredAt(cfg, longer, |steps|, a, at.task.value, Carried(s'.attempts[a]).value);
      }
    }
  }

  lemma PerformPersists(s: State, a: nat, e: Effect)
    requires a < |s.attempts|
    ensures AttemptsPersist(s.attempts, Perform(s, a, e).attempts)
  {
  }

  lemma WorkKeepsStored(cfg: Config, steps: seq<Step>, s: State, a: nat, work: WorkStep)
    requires Answered(cfg, steps, s) && a < |s.attempts|
    requires Decide(cfg, s.attempts[a], Claimable(s, s.attempts[a].task), work).Some?
    ensures
      var s' := ApplyWork(cfg, s, a, work);
      ObjectsComeFromAnswers(cfg, steps + [Work(a, work)], s'.attempts, s'.objects)
  {
    hide Decide, Claimable, ComesFromAnswer, CarriesAnswers, RowsRecordAnswers, Key;
    var at := s.attempts[a];
    var claimable := Claimable(s, at.task);
    var e := Decide(cfg, at, claimable, work).value;
    DecideAnswers(cfg, at, claimable, work);
    var s', longer := Perform(s, a, e), steps + [Work(a, work)];
    PerformPersists(s, a, e);
    if e.artifact.Some? {
      CarriedIsGot(cfg, steps, Work(a, work), s, s'.attempts, a);
      GotIsAnswer(cfg, longer, s'.attempts, a, e.artifact.value, Carried(at).value);
    }
    forall k | k in s'.objects ensures ComesFromAnswer(cfg, longer, s'.attempts, s'.objects[k]) {
      if k in s.objects && s'.objects[k] == s.objects[k] {
        ObjectStays(cfg, steps, Work(a, work), s.attempts, s'.attempts, s.objects[k]);
      }
    }
  }

  lemma GotIsAnswer(cfg: Config, steps: seq<Step>, attempts: seq<Attempt>, a: nat, o: Artifact, ai: AiResult)
    requires Got(cfg, steps, attempts, a, o.task, o.trace, ai) && o.output == ai.output && o.model == ai.tokens.model
    ensures ComesFromAnswer(cfg, steps, attempts, o)
  {
  }

  lemma GotIsRecorded(cfg: Config, steps: seq<Step>, attempts: seq<Attempt>, a: nat, t: TaskId, trace: string, r: Row,
                      ai: AiResult)
    requires Got(cfg, steps, attempts, a, t, trace, ai) && r.tokens == ai.tokens
    requires r.artifactKey == Some(trace + "/" + t + ".json")
    ensures RecordsAnswer(cfg, steps, attempts, t, r)
  {
  }

  lemma WorkKeepsRows(cfg: Config, steps: seq<Step>, s: State, a: nat, work: WorkStep)
    requires Answered(cfg, steps, s) && a < |s.attempts|
    requires Decide(cfg, s.attempts[a], Claimable(s, s.attempts[a].task), work).Some?
    ensures
      var s' := ApplyWork(cfg, s, a, work);
      RowsRecordAnswers(cfg, steps + [Work(a, work)], s'.attempts, s'.rows)
  {
    hide Decide, Claimable, RecordsAnswer, CarriesAnswers, ObjectsComeFromAnswers;
    var at := s.attempts[a];
    var claimable := Claimable(s, at.task);
    var e := Decide(cfg, at, claimable, work).value;
    DecideAnswers(cfg, at, claimable, work);
    var s', longer := Perform(s, a, e), steps + [Work(a, work)];
    PerformPersists(s, a, e);
    forall t | t in s'.rows && s'.rows[t].status == Completed ensures RecordsAnswer(cfg, longer, s'.attempts, t, s'.rows[t]) {
      if s'.rows[t] == s.rows[t] {
        RowStays(cfg, steps, Work(a, work), s.attempts, s'.attempts, t, s.rows[t]);
      } else {
        CarriedIsGot(cfg, steps, Work(a, work), s, s'.attempts, a);
        GotIsRecorded(cfg, longer, s'.attempts, a, t, at.trace, s'.rows[t], Carried(at).value);
      }
    }
  }

  /** The steps of everybody but the attempts. */
  lemma StepBringsNoAnswer(cfg: Config, s: State, step: Step)
    requires !step.Work?
    ensures
      var s' := Apply(cfg, s, step);
      && AttemptsPersist(s.attempts, s'.attempts) && s'.objects == s.objects
      && (forall a :: 0 <= a < |s'.attempts| && Carried(s'.attempts[a]).Some? ==>
            a < |s.attempts| && Carried(s.attempts[a]) == Carried(s'.attempts[a]))
      && (forall t :: t in s'.rows && s'.rows[t].status == Completed ==> t in s.rows && s'.rows[t] == s.rows[t])
  {
    match step
    case Api(t, api) => ApiExtends(s, t, api);
    case Queue(m, queue) => QueueBringsNoAnswer(cfg, s, m, queue);
    case Operator(op) => OperatorFrame(s, op);
    case _ =>
  }

  lemma QueueBringsNoAnswer(cfg: Config, s: State, m: nat, step: QueueStep)
    ensures
      var s' := ApplyQueue(cfg, s, m, step);
      && AttemptsPersist(s.attempts, s'.attempts) && s'.objects == s.objects && s'.rows == s.rows
      && (forall a :: 0 <= a < |s'.attempts| && Carried(s'.attempts[a]).Some? ==>
            a < |s.attempts| && Carried(s.attempts[a]) == Carried(s'.attempts[a]))
  {
    QueueFrame(cfg, s, m, step);
    var s' := ApplyQueue(cfg, s, m, step);
    forall a | 0 <= a < |s.attempts| ensures s'.attempts[a] == s.attempts[a] {
      assert s'.attempts[a] == s'.attempts[..|s.attempts|][a];
    }
  }

  lemma StepKeepsAnswered(cfg: Config, steps: seq<Step>, s: State, step: Step)
    requires s == Run(cfg, INIT, steps) && Answered(cfg, steps, s)
    ensures Answered(cfg, steps + [step], Apply(cfg, s, step))
  {
    hide Run, CarriesAnswers, ObjectsComeFromAnswers, RowsRecordAnswers, Decide, Claimable, Perform;
    var s' := Apply(cfg, s, step);
    if step.Work? && step.a < |s.attempts|
       && Decide(cfg, s.attempts[step.a], Claimable(s, s.attempts[step.a].task), step.work).Some? {
      WorkKeepsCarried(cfg, steps, s, step.a, step.work);
      WorkKeepsStored(cfg, steps, s, step.a, step.work);
      WorkKeepsRows(cfg, steps, s, step.a, step.work);
      assert steps + [step] == steps + [Work(step.a, step.work)];
    } else if step.Work? {
      OthersKeepAnswered(cfg, steps, step, s, s');
    } else {
      StepBringsNoAnswer(cfg, s, step);
      OthersKeepAnswered(cfg, steps, step, s, s');
    }
  }

  lemma NothingAnswered(cfg: Config)
    ensures Answered(cfg, [], INIT)
  {
  }

  lemma {:induction false} RunKeepsAnswered(cfg: Config, steps: seq<Step>)
    ensures Answered(cfg, steps, Run(cfg, INIT, steps))
  {
    hide Answered, Apply;
    if steps == [] {
      NothingAnswered(cfg);
    } else {
      var before := steps[..|steps| - 1];
      RunKeepsAnswered(cfg, before);
      StepKeepsAnswered(cfg, before, Run(cfg, INIT, before), steps[|steps| - 1]);
      assert before + [steps[|steps| - 1]] == steps;
    }
  }

  /**
   In every run, chaos included: what is stored for a task is the output and the model of a good reply
   that an attempt of this task received (or the mock result), and what a completed row records are the
   tokens of such a reply.
   */
  lemma StoredIsAnswered(cfg: Config, steps: seq<Step>, k: string, t: TaskId)
    ensures
      var s := Run(cfg, INIT, steps);
      k in s.objects ==> ComesFromAnswer(cfg, steps, s.attempts, s.objects[k])
    ensures
      var s := Run(cfg, INIT, steps);
      t in s.rows && s.rows[t].status == Completed ==> RecordsAnswer(cfg, steps, s.attempts, t, s.rows[t])
  {
    hide Run, ComesFromAnswer, RecordsAnswer;
    RunKeepsAnswered(cfg, steps);
  }

  /** With the AI runtime on and no good reply, a run stores and completes nothing. */
  lemma NoGoodReplyStoresNothing(cfg: Config, steps: seq<Step>)
    requires cfg.aiEnabled
    requires forall n :: 0 <= n < |steps| && steps[n].Work? && steps[n].work.Infer? ==> !GoodReply(steps[n].work.reply)
    ensures Run(cfg, INIT, steps).objects == map[]
    ensures forall t :: t in Run(cfg, INIT, steps).rows ==> Run(cfg, INIT, steps).rows[t].status != Completed
  {
    hide Run, ComesFromAnswer, RecordsAnswer;
    var s := Run(cfg, INIT, steps);
    RunKeepsAnswered(cfg, steps);
    forall k ensures k !in s.objects {
      if k in s.objects {
        NoAnswer(cfg, steps, s.attempts, s.objects[k].task, s.objects[k], NewRow("", None, 0));
      }
    }
    forall t | t in s.rows ensures s.rows[t].status != Completed {
      NoAnswer(cfg, steps, s.attempts, t, Artifact(t, "", "", ""), s.rows[t]);
    }
  }

  lemma NoAnswer(cfg: Config, steps: seq<Step>, attempts: seq<Attempt>, t: TaskId, o: Artifact, r: Row)
    requires cfg.aiEnabled
    requires forall n :: 0 <= n < |steps| && steps[n].Work? && steps[n].work.Infer? ==> !GoodReply(steps[n].work.reply)
    ensures !ComesFromAnswer(cfg, steps, attempts, o) && !RecordsAnswer(cfg, steps, attempts, t, r)
  {
    hide Run;
  }

  // ---------------------------------------------------------------------------
  // One reply per completed task
  // ---------------------------------------------------------------------------

  /** The row's tokens and its object's output and model are those of one and the same reply. */
  ghost predicate HoldsOneAnswer(cfg: Config, steps: seq<Step>, s: State, t: TaskId)
    requires t in s.rows
  {
    exists a, trace, ai :: Got(cfg, steps, s.attempts, a, t, trace, ai) && Shows(s, t, trace, ai)
  }

  predicate Shows(s: State, t: TaskId, trace: string, ai: AiResult)
    requires t in s.rows
  {
    var key := trace + "/" + t + ".json";
    && s.rows[t].artifactKey == Some(key) && s.rows[t].tokens == ai.tokens
    && key in s.objects && s.objects[key].output == ai.output && s.objects[key].model == ai.tokens.model
  }

  lemma SparedBefore(cfg: Config, steps: seq<Step>, step: Step, t: TaskId)
    requires Spared(cfg, INIT, steps + [step], t)
    ensures Spared(cfg, INIT, steps, t)
  {
    hide Run, TakesOver;
    RunSnoc(cfg, INIT, steps, step);
    RowsPersist(cfg, Run(cfg, INIT, steps), step);
    assert forall i :: 0 <= i < |steps| ==> steps[i] == (steps + [step])[i];
  }

  /** Completing shows the result that the attempt carries. */
  lemma CompletingShows(cfg: Config, steps: seq<Step>, s: State, a: nat, work: WorkStep, t: TaskId)
    requires Core(s) && ExclusiveFor(s, t) && CarriesAnswers(cfg, steps, s.attempts) && a < |s.attempts|
    requires Decide(cfg, s.attempts[a], Claimable(s, s.attempts[a].task), work).Some?
    requires t in s.rows && s.rows[t].status != Completed
    requires
      var s' := ApplyWork(cfg, s, a, work);
      t in s'.rows && s'.rows[t].status == Completed
    ensures HoldsOneAnswer(cfg, steps + [Work(a, work)], ApplyWork(cfg, s, a, work), t)
  {
    hide Decide, Claimable, CarriesAnswers, HeldOnce, LinkedAttempt;
    var at := s.attempts[a];
    var claimable := Claimable(s, at.task);
    var e := Decide(cfg, at, claimable, work).value;
    DecideAnswers(cfg, at, claimable, work);
    DecideFacts(cfg, at, claimable, work);
    var s' := Perform(s, a, e);
    assert PutIsCurrent(at, s.objects);
    PerformPersists(s, a, e);
    CarriedIsGot(cfg, steps, Work(a, work), s, s'.attempts, a);
    assert Shows(s', t, at.trace, Carried(at).value);
  }

  /** And nobody changes it afterwards. */
  lemma ShownStays(cfg: Config, steps: seq<Step>, step: Step, s: State, t: TaskId)
    requires Core(s) && ExclusiveFor(s, t) && t in s.rows && s.rows[t].status == Completed && HoldsOneAnswer(cfg, steps, s, t)
    requires AttemptsPersist(s.attempts, Apply(cfg, s, step).attempts)
    ensures t in Apply(cfg, s, step).rows && HoldsOneAnswer(cfg, steps + [step], Apply(cfg, s, step), t)
  {
    hide Core, ExclusiveFor, Apply, Got, AttemptsPersist;
    var a, trace, ai :| Got(cfg, steps, s.attempts, a, t, trace, ai) && Shows(s, t, trace, ai);
    StepKeepsCompleted(cfg, s, step, t);
    StepKeepsObject(cfg, s, step, t);
    GotStays(cfg, steps, step, s.attempts, Apply(cfg, s, step).attempts, a, t, trace, ai);
    assert Shows(Apply(cfg, s, step), t, trace, ai);
  }

  lemma StepPersists(cfg: Config, s: State, step: Step)
    ensures AttemptsPersist(s.attempts, Apply(cfg, s, step).attempts)
  {
    hide Decide, Claimable;
    if !step.Work? {
      StepBringsNoAnswer(cfg, s, step);
    }
  }

  lemma OnlyCompletingCompletes(cfg: Config, s: State, step: Step, t: TaskId)
    requires t in Apply(cfg, s, step).rows && Apply(cfg, s, step).rows[t].status == Completed
    requires t !in s.rows || s.rows[t].status != Completed
    ensures step.Work? && step.a < |s.attempts| && t in s.rows
    ensures Decide(cfg, s.attempts[step.a], Claimable(s, s.attempts[step.a].task), step.work).Some?
  {
    hide Decide, Claimable;
    if !step.Work? {
      StepBringsNoAnswer(cfg, s, step);
    }
  }

  /**
   In every run without the chaos runner's take-over, and in every run at all for tasks that are not
   its own: a completed task's tokens, output and model are those of one good reply (or the mock
   result), received by the attempt whose trace id its key carries.
   */
  lemma {:induction false} CompletedHoldsOneAnswer(cfg: Config, steps: seq<Step>, t: TaskId)
    requires Spared(cfg, INIT, steps, t)
    requires t in Run(cfg, INIT, steps).rows && Run(cfg, INIT, steps).rows[t].status == Completed
    ensures HoldsOneAnswer(cfg, steps, Run(cfg, INIT, steps), t)
  {
    hide Apply, ApplyWork, HoldsOneAnswer, Core, ExclusiveFor, Spared, CarriesAnswers, AttemptsPersist, Decide, Claimable;
    if steps != [] {
      var before, step := steps[..|steps| - 1], steps[|steps| - 1];
      assert before + [step] == steps;
      SparedBefore(cfg, before, step, t);
      InitIsExclusive();
      ExclusiveEverywhere(t);
      RunKeepsExclusiveFor(cfg, INIT, before, t);
      RunKeepsAnswered(cfg, before);
      var s := Run(cfg, INIT, before);
      if t in s.rows && s.rows[t].status == Completed {
        CompletedHoldsOneAnswer(cfg, before, t);
        StepPersists(cfg, s, step);
        ShownStays(cfg, before, step, s, t);
      } else {
        OnlyCompletingCompletes(cfg, s, step, t);
        StepIsWork(cfg, s, step);
        CompletingShows(cfg, before, s, step.a, step.work, t);
      }
    }
  }

  lemma ExclusiveEverywhere(t: TaskId)
    ensures ExclusiveFor(INIT, t)
  {
  }

  lemma StepIsWork(cfg: Config, s: State, step: Step)
    requires step.Work?
    ensures Apply(cfg, s, step) == ApplyWork(cfg, s, step.a, step.work) && step == Work(step.a, step.work)
  {
  }
}
