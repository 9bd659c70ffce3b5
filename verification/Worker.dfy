/**
 The worker as imperative code over the services it shares with the API's handlers.

 `Cluster` holds what the services hold (task rows, messages, objects) and, for the protocol, the
 control states of the calls in progress. Its methods are the service calls: they change the
 fields in place and may fail in every way the protocol allows. Between any two of them `Yield`
 lets everybody else take any number of steps. `Valid` says that the fields are what the recorded
 `trace` of protocol steps leads to, so whatever holds of all runs holds of this code at every
 point between two calls.
 */
module Worker {
  import opened Common
  import opened TaskRows
  import opened TaskTable
  import opened Delivery
  import opened DeliverySafety
  import opened DeliveryClaims
  import opened DeliveryAnswers
  import opened DeliveryMessages

  /** A call in progress, whose own steps nobody else takes. */
  datatype Actor = AttemptActor(a: nat) | CreatorActor(t: TaskId) | RetryActor(r: nat)

  predicate Mine(me: Actor, step: Step) {
    match me
    case AttemptActor(a) => step.Work? && step.a == a
    case CreatorActor(t) => step.Api? && step.t == t
    case RetryActor(r) => step.Operator? && (step.op.RetryDelete? || step.op.RetryRevert?) && step.op.r == r
  }

  /** The control state of a call in progress. */
  predicate SameControl(me: Actor, s: State, s': State) {
    match me
    case AttemptActor(a) => a < |s.attempts| ==> a < |s'.attempts| && s'.attempts[a] == s.attempts[a]
    case CreatorActor(t) =>
      && (t in s.creators ==> t in s'.creators && s'.creators[t] == s.creators[t])
      && (t !in s.creators && t !in s.rows ==> t !in s'.creators && t !in s'.rows)
    case RetryActor(r) => r < |s.retries| ==> r < |s'.retries| && s'.retries[r] == s.retries[r]
  }

  lemma OthersKeepControl(cfg: Config, me: Actor, s: State, step: Step)
    requires !Mine(me, step)
    ensures SameControl(me, s, Apply(cfg, s, step))
  {
    match step
    case Queue(m, queue) => QueueFrame(cfg, s, m, queue);
      if me.AttemptActor? && me.a < |s.attempts| {
        assert Apply(cfg, s, step).attempts[me.a] == Apply(cfg, s, step).attempts[..|s.attempts|][me.a];
      }
    case Operator(op) => OperatorFrame(s, op);
    case Api(t, api) => ApiExtends(s, t, api);
    case _ =>
  }

  /** A step that only updates the attempt's row. */
  lemma WriteStep(cfg: Config, s: State, a: nat, step: WorkStep, pc: Pc, w: Write, fault: Fault)
    requires a < |s.attempts| && s.attempts[a].task.Some?
    requires Decide(cfg, s.attempts[a], Claimable(s, s.attempts[a].task), step) == Some(Writes(s.attempts[a], pc, w, fault))
    ensures Apply(cfg, s, Work(a, step))
         == s.(attempts := s.attempts[a := s.attempts[a].(pc := pc)],
               rows := WriteRows(s.rows, s.attempts[a].task.value, w, fault, s.clock))
  {
  }

  lemma FailStep(cfg: Config, s: State, a: nat, id: TaskId, reason: string, fault: Fault)
    requires a < |s.attempts| && s.attempts[a].task == Some(id) && s.attempts[a].pc == Failing(reason)
    ensures Apply(cfg, s, Work(a, WorkStep.Fail(fault)))
         == s.(attempts := s.attempts[a := s.attempts[a].(pc := Done)],
               rows := WriteRows(s.rows, id, Write.SetFailed(reason), fault, s.clock))
  {
    WriteStep(cfg, s, a, WorkStep.Fail(fault), Done, Write.SetFailed(reason), fault);
  }

  lemma RevertStep(cfg: Config, s: State, a: nat, id: TaskId, fault: Fault)
    requires a < |s.attempts| && s.attempts[a].task == Some(id) && s.attempts[a].pc.Reverting?
    ensures Apply(cfg, s, Work(a, WorkStep.Revert(fault)))
         == s.(attempts := s.attempts[a := s.attempts[a].(pc := Releasing)],
               rows := WriteRows(s.rows, id, Write.RevertToPending, fault, s.clock))
  {
    WriteStep(cfg, s, a, WorkStep.Revert(fault), Releasing, Write.RevertToPending, fault);
  }

  /** The step that stores an artifact, or fails to. */
  lemma PutStep(cfg: Config, s: State, a: nat, id: TaskId, ai: AiResult, stored: bool, ok: bool)
    requires a < |s.attempts| && s.attempts[a].task == Some(id) && s.attempts[a].pc == Storing(ai) && (ok ==> stored)
    ensures
      var at := s.attempts[a];
      Apply(cfg, s, Work(a, Put(stored, ok)))
        == s.(attempts := s.attempts[a := at.(pc := if ok then Deleting(ai) else Failing("s3_write_error"))],
              objects := if stored then s.objects[Key(at.trace, id) := Artifact(id, at.trace, ai.tokens.model, ai.output)] else s.objects)
  {
  }

  /** The steps of attempt `a` in a trace. */
  ghost function Own(trace: seq<Step>, a: nat): seq<WorkStep> {
    if trace == [] then []
    else
      var step := trace[|trace| - 1];
      Own(trace[..|trace| - 1], a) + if step.Work? && step.a == a then [step.work] else []
  }

  lemma OwnSnoc(trace: seq<Step>, a: nat, step: Step)
    ensures Own(trace + [step], a) == Own(trace, a) + if step.Work? && step.a == a then [step.work] else []
  {
    assert (trace + [step])[..|trace|] == trace;
  }

  /** The claim at position `k` of a trace was won exactly if the call succeeded and the row was pending then. */
  ghost predicate ClaimAt(cfg: Config, trace: seq<Step>, k: nat, a: nat, id: TaskId, fault: Fault, won: bool) {
    && k < |trace| && trace[k] == Work(a, WorkStep.Claim(fault))
    && (won <==> fault.NoFault? && Affects(Run(cfg, INIT, trace[..k]).rows, id, Write.SetProcessing))
  }

  lemma ClaimAtStays(cfg: Config, trace: seq<Step>, trace': seq<Step>, k: nat, a: nat, id: TaskId, fault: Fault, won: bool)
    requires ClaimAt(cfg, trace, k, a, id, fault, won) && trace <= trace'
    ensures ClaimAt(cfg, trace', k, a, id, fault, won)
  {
    assert trace'[..k] == trace[..k];
  }

  class Cluster {
    const cfg: Config
    const db: Table
    var msgs: seq<Message>
    var objects: map<string, Artifact>
    var clock: Instant
    var creators: map<TaskId, CreatorPc>
    var attempts: seq<Attempt>
    var retries: seq<Retry>
    var discarded: set<TaskId>
    ghost var trace: seq<Step>

    constructor (cfg: Config)
      ensures Valid() && trace == [] && this.cfg == cfg && fresh(db)
    {
      this.cfg := cfg;
      db := new Table();
      msgs, objects, clock := [], map[], 0;
      creators, attempts, retries, discarded := map[], [], [], {};
      trace := [];
    }

    function View(): State
      reads this, db
    {
      State(db.rows, creators, msgs, attempts, retries, objects, discarded, clock)
    }

    ghost predicate Valid()
      reads this, db
    {
      View() == Run(cfg, INIT, trace) && NoTakeover(trace)
    }

    /** Everything the protocol guarantees about runs without chaos take-over. */
    lemma Facts()
      requires Valid()
      ensures Core(View()) && Exclusive(View()) && AllAccounted(View())
    {
      RunKeepsExclusive(cfg, INIT, trace);
      RunKeepsAccounted(cfg, trace);
    }

    /** One step of the protocol has been taken. */
    ghost method Record(s: State, step: Step)
      requires s == Run(cfg, INIT, trace) && NoTakeover(trace) && !TakesOver(step)
      requires View() == Apply(cfg, s, step)
      modifies this`trace
      ensures Valid() && trace == old(trace) + [step]
      ensures step.Work? ==> Own(trace, step.a) == old(Own(trace, step.a)) + [step.work]
    {
      RunSnoc(cfg, INIT, trace, step);
      if step.Work? {
        OwnSnoc(trace, step.a, step);
      }
      trace := trace + [step];
    }

    /** The other actors take any number of steps. */
    method Yield(me: Actor)
      requires Valid()
      modifies this, db
      ensures Extends(old(msgs), msgs) && Persist(old(db.rows), db.rows)
      ensures Valid() && SameControl(me, old(View()), View())
      ensures old(trace) <= trace && (me.AttemptActor? ==> Own(trace, me.a) == old(Own(trace, me.a)))
      ensures forall t :: t in old(db.rows) && old(db.rows)[t].status == Completed ==> t in db.rows && db.rows[t] == old(db.rows)[t]
    {
      var n: nat := *;
      while n > 0
        invariant Valid() && SameControl(me, old(View()), View()) && Extends(old(msgs), msgs)
        invariant Persist(old(db.rows), db.rows)
        invariant old(trace) <= trace && (me.AttemptActor? ==> Own(trace, me.a) == old(Own(trace, me.a)))
        invariant forall t :: t in old(db.rows) && old(db.rows)[t].status == Completed ==> t in db.rows && db.rows[t] == old(db.rows)[t]
      {
        var step: Step := *;
        if !Mine(me, step) && !TakesOver(step) {
          if me.AttemptActor? {
            OwnSnoc(trace, me.a, step);
          }
          Take(step);
          OthersKeepControl(cfg, me, Run(cfg, INIT, trace[..|trace| - 1]), step);
        }
        n := n - 1;
      }
    }

    method Take(step: Step)
      requires Valid() && !TakesOver(step)
      modifies this, db
      ensures Valid() && View() == Apply(cfg, old(View()), step) && trace == old(trace) + [step]
      ensures step.Work? ==> Own(trace, step.a) == old(Own(trace, step.a)) + [step.work]
      ensures Extends(old(msgs), msgs) && Persist(old(db.rows), db.rows)
      ensures forall t :: t in old(db.rows) && old(db.rows)[t].status == Completed ==> t in db.rows && db.rows[t] == old(db.rows)[t]
    {
      var s := Apply(cfg, View(), step);
      ghost var before := View();
      StepExtends(cfg, before, step);
      RowsPersist(cfg, before, step);
      forall t | t in db.rows && db.rows[t].status == Completed ensures t in s.rows && s.rows[t] == db.rows[t] {
        StepKeepsCompleted(cfg, View(), step, t);
      }
      db.rows, msgs, objects, clock := s.rows, s.msgs, s.objects, s.clock;
      creators, attempts, retries, discarded := s.creators, s.attempts, s.retries, s.discarded;
      Record(before, step);
    }

    /** Between two effects of an attempt: the others run, and then the worker lives on or dies. */
    method Pause(a: nat, dies: bool)
      requires Valid() && a < |attempts| && Live(attempts[a])
      modifies this, db
      ensures Valid() && a < |attempts|
      ensures !dies ==> attempts[a] == old(attempts[a])
      ensures dies ==> attempts[a].pc.Crashed? && attempts[a].won == old(attempts[a].won)
      ensures old(trace) <= trace && Own(trace, a) == old(Own(trace, a)) + if dies then [Crash] else []
    {
      Yield(AttemptActor(a));
      if dies {
        Take(Work(a, Crash));
      }
    }

    /** Attempt `a` of task `id` stands at `pc`. */
    predicate At(a: nat, id: TaskId, pc: Pc)
      reads this, db
    {
      a < |attempts| && attempts[a].task == Some(id) && attempts[a].pc == pc
    }

    predicate InStatus(id: TaskId, status: Status)
      reads this, db
    {
      id in db.rows && db.rows[id].status == status
    }

    /** A holder's task is in process, and its artifact is current once it is past its put. */
    lemma HolderFacts(a: nat, id: TaskId)
      requires Valid() && a < |attempts| && Holds(attempts[a], id)
      ensures InStatus(id, Processing)
      ensures
        var key := Key(attempts[a].trace, id);
        PastPut(attempts[a]) ==>
          && key in objects && objects[key].task == id
          && objects[key].model == attempts[a].pc.ai.tokens.model && objects[key].output == attempts[a].pc.ai.output
    {
      Facts();
      assert ExclusiveFor(View(), id) && LinkedAttempt(attempts[a], msgs);
      if PastPut(attempts[a]) {
        var key := Key(attempts[a].trace, id);
        KeyInjective(objects[key].trace, objects[key].task, attempts[a].trace, id);
      }
    }

    // -------------------------------------------------------------------------
    // PostgreSQL, as an attempt calls it
    // -------------------------------------------------------------------------

    method Claim(a: nat, id: TaskId, fault: Fault) returns (r: DbResult)
      requires Valid() && At(a, id, Received)
      modifies this, db
      ensures trace == old(trace) + [Work(a, WorkStep.Claim(fault))]
      ensures Own(trace, a) == old(Own(trace, a)) + [WorkStep.Claim(fault)]
      ensures ClaimAt(cfg, trace, |old(trace)|, a, id, fault, r.Ok?)
      ensures Valid() && r == Report(fault, Affects(old(db.rows), id, Write.SetProcessing))
      ensures r.Ok? ==> At(a, id, Claimed) && attempts[a] == old(attempts)[a].(pc := Claimed, won := true)
      ensures !r.Ok? ==> At(a, id, Done) && attempts[a] == old(attempts)[a].(pc := Done)
    {
      hide Run, NoTakeover, Extends, Key;
      ghost var before := View();
      r := db.SetProcessing(id, clock, fault);
      attempts := attempts[a := if r.Ok? then attempts[a].(pc := Claimed, won := true) else attempts[a].(pc := Done)];
      assert (trace + [Work(a, WorkStep.Claim(fault))])[..|trace|] == trace;
      Record(before, Work(a, WorkStep.Claim(fault)));
    }

    /** A holder's update never meets a state conflict: it affects its row unless the call fails. */
    method Complete(a: nat, id: TaskId, key: string, ai: AiResult, fault: Fault) returns (r: DbResult)
      requires Valid() && At(a, id, Completing(ai)) && key == Key(attempts[a].trace, id)
      modifies this, db
      ensures old(trace) <= trace && Own(trace, a) == old(Own(trace, a)) + [WorkStep.Complete(fault)]
      ensures Valid() && At(a, id, Done) && attempts[a].won == old(attempts)[a].won
      ensures r == Report(fault, true)
      ensures key in objects && objects[key].task == id
      ensures objects[key].model == ai.tokens.model && objects[key].output == ai.output
      ensures r.Ok? ==> InStatus(id, Completed) && db.rows[id].artifactKey == Some(key) && db.rows[id].tokens == ai.tokens
    {
      hide Run, NoTakeover, Extends, Key, Apply;
      HolderFacts(a, id);
      ghost var before := View();
      r := db.SetCompleted(id, key, ai.tokens, clock, fault);
      attempts := attempts[a := attempts[a].(pc := Done)];
      WriteStep(cfg, before, a, WorkStep.Complete(fault), Done, Write.SetCompleted(key, ai.tokens), fault);
      Record(before, Work(a, WorkStep.Complete(fault)));
    }

    method Revert(a: nat, id: TaskId, fault: Fault) returns (r: DbResult)
      requires Valid() && At(a, id, Reverting)
      modifies this, db
      ensures old(trace) <= trace && Own(trace, a) == old(Own(trace, a)) + [WorkStep.Revert(fault)]
      ensures Valid() && At(a, id, Releasing) && attempts[a].won == old(attempts)[a].won
      ensures r == Report(fault, true)
      ensures r.Ok? ==> InStatus(id, Pending) && db.rows[id].startedAt.None?
    {
      hide Run, NoTakeover, Extends, Key, Apply, Decide, Holding;
      HolderFacts(a, id);
      ghost var before := View();
      r := db.RevertToPending(id, clock, fault);
      attempts := attempts[a := attempts[a].(pc := Releasing)];
      RevertStep(cfg, before, a, id, fault);
      Record(before, Work(a, WorkStep.Revert(fault)));
    }

    method Fail(a: nat, id: TaskId, reason: string, fault: Fault) returns (r: DbResult)
      requires Valid() && At(a, id, Failing(reason))
      modifies this, db
      ensures old(trace) <= trace && Own(trace, a) == old(Own(trace, a)) + [WorkStep.Fail(fault)]
      ensures Valid() && At(a, id, Done) && attempts[a].won == old(attempts)[a].won
      ensures r == Report(fault, true)
      ensures r.Ok? ==> InStatus(id, Failed) && db.rows[id].error == Some(reason)
    {
      hide Run, NoTakeover, Extends, Key, Apply, Decide, Holding;
      HolderFacts(a, id);
      ghost var before := View();
      r := db.SetFailed(id, reason, clock, fault);
      attempts := attempts[a := attempts[a].(pc := Done)];
      FailStep(cfg, before, a, id, reason, fault);
      Record(before, Work(a, WorkStep.Fail(fault)));
    }

    // -------------------------------------------------------------------------
    // SQS, S3 and the AI runtime, as an attempt calls them
    // -------------------------------------------------------------------------

    /** A message that names no task is left in the queue. */
    method LeaveInQueue(a: nat)
      requires Valid() && a < |attempts| && attempts[a].task.None? && attempts[a].pc.Received?
      modifies this, db
      ensures old(trace) <= trace && Own(trace, a) == old(Own(trace, a)) + [Discard]
      ensures Valid() && a < |attempts| && attempts[a] == old(attempts[a]).(pc := Done)
    {
      Take(Work(a, Discard));
    }

    /** The reply, or the mock result when the AI runtime is switched off. */
    method Infer(a: nat, id: TaskId, reply: Reply) returns (ai: Option<AiResult>)
      requires Valid() && At(a, id, Claimed)
      modifies this, db
      ensures old(trace) <= trace && Own(trace, a) == old(Own(trace, a)) + [WorkStep.Infer(reply)]
      ensures Valid() && a < |attempts| && attempts[a] == old(attempts[a]).(pc := attempts[a].pc)
      ensures ai.Some? ==> At(a, id, Storing(ai.value))
      ensures ai == if cfg.aiEnabled then ReplyResult(reply) else Some(MockResult(id))
      ensures ai.Some? <==> !cfg.aiEnabled || GoodReply(reply)
      ensures ai.Some? ==> IsAnswer(cfg, id, reply, ai.value)
      ensures ai.None? ==>
        At(a, id, if attempts[a].receiveCount >= cfg.workerLimit then Failing("ai_runtime_error") else Reverting)
    {
      ai := if cfg.aiEnabled then ReplyResult(reply) else Some(MockResult(id));
      Take(Work(a, WorkStep.Infer(reply)));
    }

    method PutObject(a: nat, id: TaskId, key: string, artifact: Artifact, stored: bool, acked: bool, ghost ai: AiResult)
      returns (ok: bool)
      requires Valid() && At(a, id, Storing(ai)) && key == Key(attempts[a].trace, id)
      requires artifact == Artifact(id, attempts[a].trace, ai.tokens.model, ai.output)
      modifies this, db
      ensures old(trace) <= trace && Own(trace, a) == old(Own(trace, a)) + [Put(stored, stored && acked)]
      ensures Valid() && a < |attempts| && attempts[a] == old(attempts[a]).(pc := attempts[a].pc)
      ensures ok <==> stored && acked
      ensures ok ==> At(a, id, Deleting(ai)) && key in objects && objects[key] == artifact
      ensures !ok ==> At(a, id, Failing("s3_write_error"))
    {
      hide Run, NoTakeover, Extends, Key, Apply;
      ghost var before := View();
      ok := stored && acked;
      if stored {
        objects := objects[key := artifact];
      }
      attempts := attempts[a := attempts[a].(pc := if ok then Deleting(attempts[a].pc.ai) else Failing("s3_write_error"))];
      PutStep(cfg, before, a, id, ai, stored, ok);
      Record(before, Work(a, Put(stored, ok)));
    }

    /** Deleting by receipt handle; a stale handle or an error leaves the message. */
    method DeleteMessage(a: nat, id: TaskId, removed: bool, ghost ai: AiResult)
      requires Valid() && At(a, id, Deleting(ai))
      modifies this, db
      ensures old(trace) <= trace && Own(trace, a) == old(Own(trace, a)) + [WorkStep.DeleteMessage(removed)]
      ensures Valid() && At(a, id, Completing(ai)) && attempts[a] == old(attempts[a]).(pc := Completing(ai))
      ensures attempts[a].msg < |msgs| && (removed ==> msgs[attempts[a].msg].place.Gone? || msgs[attempts[a].msg].place.Dead?)
    {
      hide Run, NoTakeover, Exclusive, AllAccounted, Key;
      Facts();
      assert LinkedAttempt(attempts[a], msgs);
      Take(Work(a, WorkStep.DeleteMessage(removed)));
    }

    method ChangeMessageVisibility(a: nat, id: TaskId)
      requires Valid() && At(a, id, Releasing)
      modifies this, db
      ensures old(trace) <= trace && Own(trace, a) == old(Own(trace, a)) + [Release]
      ensures Valid() && At(a, id, Done) && attempts[a].won == old(attempts)[a].won
    {
      Take(Work(a, Release));
    }

    /** The queue hands out a visible message that has deliveries left, and counts the delivery. */
    method ReceiveMessage() returns (a: Option<nat>)
      requires Valid()
      modifies this, db
      ensures Valid()
      ensures a.Some? ==>
        && a.value < |attempts| && attempts[a.value].pc.Received?
        && 1 <= attempts[a.value].receiveCount <= cfg.redriveLimit
        && attempts[a.value].msg < |msgs| && msgs[attempts[a.value].msg].receives == attempts[a.value].receiveCount
    {
      var m: nat := *;
      var traceId: string := *;
      var n := |attempts|;
      Take(Queue(m, Receive(traceId)));
      a := if |attempts| > n then Some(n) else None;
    }
  }

  // ---------------------------------------------------------------------------
  // The worker
  // ---------------------------------------------------------------------------

  datatype Outcome =
    | Skipped
    | Retrying
    | TaskFailed(reason: string)
    | TaskCompleted(key: string, recorded: bool)
    | Died

  /** How the calls of one delivery turn out, and at which of its pauses the worker dies, if at any. */
  datatype Weather = Weather(
    claim: Fault,
    reply: Reply,
    stored: bool,
    acked: bool,
    removed: bool,
    complete: Fault,
    revert: Fault,
    fail: Fault,
    diesAt: Option<nat>)

  predicate Dies(w: Weather, pause: nat) { w.diesAt == Some(pause) }

  function Inferred(cfg: Config, id: TaskId, w: Weather): Option<AiResult> {
    if cfg.aiEnabled then ReplyResult(w.reply) else Some(MockResult(id))
  }

  /** What a claimed delivery, of the given receive count and trace id, comes to. */
  function Verdict(cfg: Config, receives: nat, trace: string, id: TaskId, w: Weather): Outcome {
    if Dies(w, 1) || Dies(w, 2) then Died
    else if Inferred(cfg, id, w).None? then AfterError(cfg, receives, w)
    else AfterAnswer(Key(trace, id), w)
  }

  function AfterError(cfg: Config, receives: nat, w: Weather): Outcome {
    if receives >= cfg.workerLimit then TaskFailed("ai_runtime_error") else if Dies(w, 3) then Died else Retrying
  }

  function AfterAnswer(key: string, w: Weather): Outcome {
    if Dies(w, 3) then Died
    else if !(w.stored && w.acked) then TaskFailed("s3_write_error")
    else if Dies(w, 4) then Died
    else TaskCompleted(key, w.complete.NoFault?)
  }

  /** The steps of a claimed delivery that comes to `outcome`, in their order. */
  function Journey(outcome: Outcome, w: Weather): seq<WorkStep> {
    match outcome
    case Retrying => [WorkStep.Claim(w.claim), WorkStep.Infer(w.reply), WorkStep.Revert(w.revert), Release]
    case TaskFailed(reason) =>
      if reason == "s3_write_error"
      then [WorkStep.Claim(w.claim), WorkStep.Infer(w.reply), Put(w.stored, false), WorkStep.Fail(w.fail)]
      else [WorkStep.Claim(w.claim), WorkStep.Infer(w.reply), WorkStep.Fail(w.fail)]
    case TaskCompleted(_, _) =>
      [WorkStep.Claim(w.claim), WorkStep.Infer(w.reply), Put(true, true), WorkStep.DeleteMessage(w.removed),
       WorkStep.Complete(w.complete)]
    case _ => [WorkStep.Claim(w.claim)]
  }

  /** The verdict of a worker that does not die. */
  function Survived(cfg: Config, receives: nat, trace: string, id: TaskId, w: Weather): Outcome {
    Verdict(cfg, receives, trace, id, w.(diesAt := None))
  }

  /** The steps of a claimed delivery: those of its outcome, broken off where the worker dies. */
  function Steps(cfg: Config, receives: nat, trace: string, id: TaskId, w: Weather): seq<WorkStep> {
    var whole := Journey(Survived(cfg, receives, trace, id, w), w);
    if Verdict(cfg, receives, trace, id, w).Died? && w.diesAt.value <= |whole| then whole[..w.diesAt.value] + [Crash] else whole
  }

  /**
   An attempt deletes its message only after a confirmed put, and only if it completes its task or
   dies before it can: no failure and no retry takes the message off the queue.
   */
  lemma OnlySuccessDeletes(cfg: Config, receives: nat, trace: string, id: TaskId, w: Weather, k: nat)
    requires k < |Steps(cfg, receives, trace, id, w)| && Steps(cfg, receives, trace, id, w)[k].DeleteMessage?
    ensures k == 3 && Steps(cfg, receives, trace, id, w)[2] == Put(true, true)
    ensures Survived(cfg, receives, trace, id, w).TaskCompleted?
    ensures Verdict(cfg, receives, trace, id, w).TaskCompleted? || Dies(w, 4)
  {
  }

  function StepsAfterError(cfg: Config, receives: nat, w: Weather): seq<WorkStep> {
    if receives >= cfg.workerLimit then [WorkStep.Fail(w.fail)]
    else [WorkStep.Revert(w.revert)] + [if Dies(w, 3) then Crash else Release]
  }

  function StepsAfterAnswer(w: Weather): seq<WorkStep> {
    [Put(w.stored, w.stored && w.acked)] +
    if Dies(w, 3) then [Crash]
    else if !(w.stored && w.acked) then [WorkStep.Fail(w.fail)]
    else [WorkStep.DeleteMessage(w.removed)] + [if Dies(w, 4) then Crash else WorkStep.Complete(w.complete)]
  }

  function StepsAfterClaim(cfg: Config, receives: nat, id: TaskId, w: Weather): seq<WorkStep> {
    if Dies(w, 1) then [Crash]
    else
      [WorkStep.Infer(w.reply)] +
      if Dies(w, 2) then [Crash]
      else if Inferred(cfg, id, w).None? then StepsAfterError(cfg, receives, w)
      else StepsAfterAnswer(w)
  }

  lemma StepsInParts(cfg: Config, receives: nat, trace: string, id: TaskId, w: Weather)
    requires !Dies(w, 0)
    ensures Steps(cfg, receives, trace, id, w) == [WorkStep.Claim(w.claim)] + StepsAfterClaim(cfg, receives, id, w)
  {
    hide ReplyResult, MockResult, Key;
    var whole := Journey(Survived(cfg, receives, trace, id, w), w);
    var claim, infer := WorkStep.Claim(w.claim), WorkStep.Infer(w.reply);
    assert whole[..1] == [claim] && whole[..2] == [claim, infer];
    if Inferred(cfg, id, w).None? {
      assert |whole| > 3 ==> whole[..3] == [claim, infer, WorkStep.Revert(w.revert)];
    } else {
      assert whole[..3] == [claim, infer, Put(w.stored, w.stored && w.acked)];
      assert |whole| > 4 ==> whole[..4] == [claim, infer, Put(true, true), WorkStep.DeleteMessage(w.removed)];
    }
  }

  /** Without a good reply the AI runtime's answer is an error, and no step puts, deletes or completes. */
  lemma BadReplyLeadsNowhere(cfg: Config, receives: nat, trace: string, id: TaskId, w: Weather)
    requires cfg.aiEnabled && !GoodReply(w.reply) && !Dies(w, 0)
    ensures
      var outcome := Verdict(cfg, receives, trace, id, w);
      outcome.Died? || (if receives >= cfg.workerLimit then outcome == TaskFailed("ai_runtime_error") else outcome.Retrying?)
    ensures
      var steps := Steps(cfg, receives, trace, id, w);
      forall k :: 0 <= k < |steps| ==> !steps[k].Put? && !steps[k].DeleteMessage? && !steps[k].Complete?
  {
    StepsInParts(cfg, receives, trace, id, w);
    hide Steps, Key, MockResult;
  }

  lemma DeathHasATime(cfg: Config, receives: nat, trace: string, id: TaskId, w: Weather)
    ensures Verdict(cfg, receives, trace, id, w).Died? ==> Dies(w, 1) || Dies(w, 2) || Dies(w, 3) || Dies(w, 4)
  {
  }

  lemma Chain<T>(a: seq<T>, b: seq<T>, c: seq<T>)
    ensures a + b + c == a + (b + c)
  {
  }

  class Processor {
    var currentTaskID: TaskId

    constructor ()
      ensures currentTaskID == ""
    {
      currentTaskID := "";
    }

    /**
     One delivery. Whatever the others do in between and wherever calls fail or the worker dies: the
     claim is won exactly if the call succeeds and the row is pending at that moment; an attempt that
     wins it takes exactly the steps of its verdict, in their order, any other takes one step and does
     nothing; a completed one had a good reply, has its output and model in the store, and its row names
     them unless the last update failed; one without a good reply puts, deletes and completes nothing.
     */
    method Process(c: Cluster, a: nat, w: Weather) returns (outcome: Outcome)
      requires c.Valid() && a < |c.attempts| && c.attempts[a].pc.Received? && !c.attempts[a].won
      requires currentTaskID == ""
      modifies c, c.db, this
      ensures c.Valid() && a < |c.attempts|
      ensures if outcome.Died? then c.attempts[a].pc.Crashed? else c.attempts[a].pc.Done? && currentTaskID == ""
      ensures outcome.Died? ==> Dies(w, 0) || Dies(w, 1) || Dies(w, 2) || Dies(w, 3) || Dies(w, 4)
      ensures old(c.attempts)[a].task.None? ==> outcome.Skipped?
      ensures old(c.attempts)[a].task.Some? && !Dies(w, 0) ==>
        exists k :: ClaimAt(c.cfg, c.trace, k, a, old(c.attempts)[a].task.value, w.claim, c.attempts[a].won)
      ensures !c.attempts[a].won ==>
        && (outcome.Skipped? || Dies(w, 0))
        && exists step: WorkStep :: !step.DeleteMessage? && Own(c.trace, a) == old(Own(c.trace, a)) + [step]
      ensures c.attempts[a].won ==>
        && old(c.attempts)[a].task.Some?
        && var at, id := old(c.attempts)[a], old(c.attempts)[a].task.value;
           && outcome == Verdict(c.cfg, at.receiveCount, at.trace, id, w)
           && Recorded(c, id, w, outcome)
           && Own(c.trace, a) == old(Own(c.trace, a)) + Steps(c.cfg, at.receiveCount, at.trace, id, w)
      ensures c.attempts[a].won && c.cfg.aiEnabled && !GoodReply(w.reply) ==>
        && (outcome.Died? || (if old(c.attempts)[a].receiveCount >= c.cfg.workerLimit
                              then outcome == TaskFailed("ai_runtime_error") else outcome.Retrying?))
        && forall k :: |old(Own(c.trace, a))| <= k < |Own(c.trace, a)| ==>
             !Own(c.trace, a)[k].Put? && !Own(c.trace, a)[k].DeleteMessage? && !Own(c.trace, a)[k].Complete?
    {
      hide Cluster.Valid, Own, Run, Key, Verdict, Steps, StepsAfterClaim, ClaimAt;
      var at := c.attempts[a];
      if at.task.None? {
        c.LeaveInQueue(a);
        assert !Discard.DeleteMessage?;
        return Skipped;
      }
      var id := at.task.value;
      currentTaskID := id;

      c.Pause(a, Dies(w, 0));
      if Dies(w, 0) {
        assert !Crash.DeleteMessage?;
        return Died;
      }
      ghost var k := |c.trace|;
      var claim := c.Claim(a, id, w.claim);
      ghost var claimed := c.trace;
      if !claim.Ok? {
        currentTaskID := "";
        assert !WorkStep.Claim(w.claim).DeleteMessage?;
        return Skipped;
      }
      outcome := Execute(c, a, id, w);
      StepsInParts(c.cfg, at.receiveCount, at.trace, id, w);
      Chain(old(Own(c.trace, a)), [WorkStep.Claim(w.claim)], StepsAfterClaim(c.cfg, at.receiveCount, id, w));
      ClaimAtStays(c.cfg, claimed, c.trace, k, a, id, w.claim, true);
      DeathHasATime(c.cfg, at.receiveCount, at.trace, id, w);
      if c.cfg.aiEnabled && !GoodReply(w.reply) {
        BadReplyLeadsNowhere(c.cfg, at.receiveCount, at.trace, id, w);
      }
      if !outcome.Died? {
        currentTaskID := "";
      }
    }

    /**
     A completed task had a good reply, unless the AI runtime is off; what it said is stored, and the
     row is completed with its key and tokens unless the update failed. A failed task's row is failed
     for the reason unless the update failed.
     */
    ghost predicate Recorded(c: Cluster, id: TaskId, w: Weather, outcome: Outcome)
      reads c, c.db
    {
      && (outcome.TaskCompleted? ==> exists ai :: IsAnswer(c.cfg, id, w.reply, ai) && HasResult(c, id, outcome, ai))
      && (outcome.TaskFailed? && w.fail.NoFault? ==>
            c.InStatus(id, Failed) && c.db.rows[id].error == Some(outcome.reason))
    }

    /** The result is stored, and recorded if the outcome says so. */
    ghost predicate HasResult(c: Cluster, id: TaskId, outcome: Outcome, ai: AiResult)
      requires outcome.TaskCompleted?
      reads c, c.db
    {
      && outcome.key in c.objects && c.objects[outcome.key].task == id
      && c.objects[outcome.key].output == ai.output && c.objects[outcome.key].model == ai.tokens.model
      && (outcome.recorded ==>
            c.InStatus(id, Completed) && c.db.rows[id].artifactKey == Some(outcome.key) && c.db.rows[id].tokens == ai.tokens)
    }

    /** The attempt has ended, in the state its outcome says. */
    predicate Ended(c: Cluster, a: nat, outcome: Outcome)
      reads c
    {
      && a < |c.attempts| && c.attempts[a].won
      && if outcome.Died? then c.attempts[a].pc.Crashed? else c.attempts[a].pc.Done?
    }

    /** The part of `Process` after a successful claim. */
    method Execute(c: Cluster, a: nat, id: TaskId, w: Weather) returns (outcome: Outcome)
      requires c.Valid() && c.At(a, id, Claimed) && c.attempts[a].won && !Dies(w, 0)
      modifies c, c.db
      ensures c.Valid() && Ended(c, a, outcome) && old(c.trace) <= c.trace
      ensures outcome == Verdict(c.cfg, old(c.attempts)[a].receiveCount, old(c.attempts)[a].trace, id, w)
      ensures Recorded(c, id, w, outcome)
      ensures Own(c.trace, a) == old(Own(c.trace, a)) + StepsAfterClaim(c.cfg, old(c.attempts)[a].receiveCount, id, w)
    {
      hide Cluster.Valid, Own, Run, Key, StepsAfterError, StepsAfterAnswer, AfterAnswer;
      ghost var before := Own(c.trace, a);
      c.Pause(a, Dies(w, 1));
      if Dies(w, 1) { return Died; }
      var ai := c.Infer(a, id, w.reply);
      c.Pause(a, Dies(w, 2));
      if Dies(w, 2) {
        Chain(before, [WorkStep.Infer(w.reply)], [Crash]);
        return Died;
      }
      if ai.None? {
        Chain(before, [WorkStep.Infer(w.reply)], StepsAfterError(c.cfg, c.attempts[a].receiveCount, w));
        outcome := GiveUp(c, a, id, w);
      } else {
        Chain(before, [WorkStep.Infer(w.reply)], StepsAfterAnswer(w));
        outcome := Store(c, a, id, ai.value, w);
      }
    }

    /** After a failed inference: fail the task for good, or hand it back for another delivery. */
    method GiveUp(c: Cluster, a: nat, id: TaskId, w: Weather) returns (outcome: Outcome)
      requires c.Valid() && a < |c.attempts| && c.attempts[a].won
      requires c.At(a, id, if c.attempts[a].receiveCount >= c.cfg.workerLimit then Failing("ai_runtime_error") else Reverting)
      modifies c, c.db
      ensures c.Valid() && Ended(c, a, outcome) && old(c.trace) <= c.trace
      ensures outcome == AfterError(c.cfg, old(c.attempts)[a].receiveCount, w)
      ensures Recorded(c, id, w, outcome)
      ensures Own(c.trace, a) == old(Own(c.trace, a)) + StepsAfterError(c.cfg, old(c.attempts)[a].receiveCount, w)
    {
      hide Cluster.Valid, Own, Run, Key;
      ghost var before := Own(c.trace, a);
      if c.attempts[a].receiveCount >= c.cfg.workerLimit {
        var _ := c.Fail(a, id, "ai_runtime_error", w.fail);
        return TaskFailed("ai_runtime_error");
      }
      var _ := c.Revert(a, id, w.revert);
      c.Pause(a, Dies(w, 3));
      Chain(before, [WorkStep.Revert(w.revert)], [if Dies(w, 3) then Crash else Release]);
      if Dies(w, 3) { return Died; }
      c.ChangeMessageVisibility(a, id);
      return Retrying;
    }

    /** After a successful inference: put the artifact, then delete the message, then complete the row. */
    method Store(c: Cluster, a: nat, id: TaskId, ai: AiResult, w: Weather) returns (outcome: Outcome)
      requires c.Valid() && c.At(a, id, Storing(ai)) && c.attempts[a].won && IsAnswer(c.cfg, id, w.reply, ai)
      modifies c, c.db
      ensures c.Valid() && Ended(c, a, outcome) && old(c.trace) <= c.trace
      ensures outcome == AfterAnswer(Key(old(c.attempts)[a].trace, id), w)
      ensures Recorded(c, id, w, outcome)
      ensures Own(c.trace, a) == old(Own(c.trace, a)) + StepsAfterAnswer(w)
    {
      hide Cluster.Valid, Own, Run, Key;
      ghost var before := Own(c.trace, a);
      ghost var put := Put(w.stored, w.stored && w.acked);
      var trace := c.attempts[a].trace;
      var key := Key(trace, id);
      var stored := c.PutObject(a, id, key, Artifact(id, trace, ai.tokens.model, ai.output), w.stored, w.acked, ai);
      c.Pause(a, Dies(w, 3));
      if Dies(w, 3) {
        Chain(before, [put], [Crash]);
        return Died;
      }
      if !stored {
        var _ := c.Fail(a, id, "s3_write_error", w.fail);
        Chain(before, [put], [WorkStep.Fail(w.fail)]);
        return TaskFailed("s3_write_error");
      }
      outcome := Finish(c, a, id, key, ai, w);
      Chain(before, [put], StepsAfterAnswer(w)[1..]);
    }

    /** After a confirmed put: delete the message, then complete the row. */
    method Finish(c: Cluster, a: nat, id: TaskId, key: string, ai: AiResult, w: Weather) returns (outcome: Outcome)
      requires c.Valid() && c.At(a, id, Deleting(ai)) && c.attempts[a].won && key == Key(c.attempts[a].trace, id)
      modifies c, c.db
      ensures c.Valid() && Ended(c, a, outcome) && old(c.trace) <= c.trace
      ensures outcome == if Dies(w, 4) then Died else TaskCompleted(key, w.complete.NoFault?)
      ensures outcome.TaskCompleted? ==> HasResult(c, id, outcome, ai)
      ensures Own(c.trace, a) == old(Own(c.trace, a))
                + ([WorkStep.DeleteMessage(w.removed)] + [if Dies(w, 4) then Crash else WorkStep.Complete(w.complete)])
    {
      hide Cluster.Valid, Own, Run, Key;
      ghost var before := Own(c.trace, a);
      c.DeleteMessage(a, id, w.removed, ai);
      c.Pause(a, Dies(w, 4));
      if Dies(w, 4) {
        Chain(before, [WorkStep.DeleteMessage(w.removed)], [Crash]);
        return Died;
      }
      var completed := c.Complete(a, id, key, ai, w.complete);
      Chain(before, [WorkStep.DeleteMessage(w.removed)], [WorkStep.Complete(w.complete)]);
      return TaskCompleted(key, completed.Ok?);
    }
  }
}
