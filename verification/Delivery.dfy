/**
 The task delivery protocol as a state machine.

 One `Step` is one effect of one actor: an API request, the queue service, an attempt (one call of
 the worker's `Process`), an operator, or the chaos runner. Everything outside the actors' control
 (which message is received, whether a call fails, whether a failed call took effect all the same)
 is an argument of the step, so a run is a sequence of steps and `Run` is a function. A step that
 is not enabled leaves the state as it is; every sequence of steps is therefore a run.
 */
module Delivery {
  import opened Common
  import opened TaskRows

  /**
   `workerLimit` is the receive count at which the worker gives up on a task, `redriveLimit` the
   number of deliveries after which the queue moves a message to the dead letter queue.
   */
  datatype Config = Config(workerLimit: nat, redriveLimit: nat, aiEnabled: bool)

  /** The deployed limits. */
  const DEPLOYED_LIMITS := Config(3, 3, true)

  // ---------------------------------------------------------------------------
  // State
  // ---------------------------------------------------------------------------

  /** Where a message is: in the main queue (visible or in flight), in the DLQ, or deleted. */
  datatype Place = Visible | InFlight | Dead | Gone

  /** A message; its identity is its index. `body` is `None` when the body names no task. */
  datatype Message = Message(body: Option<TaskId>, receives: nat, place: Place)

  datatype AiResult = AiResult(output: string, tokens: Tokens)

  /** Where an attempt stands, with the local variables it still needs. */
  datatype Pc =
    | Received
    | Claimed
    | Storing(ai: AiResult)
    | Deleting(ai: AiResult)
    | Completing(ai: AiResult)
    | Reverting
    | Releasing
    | Failing(reason: string)
    | Done
    | Crashed

  /** One call of `Process`; `won` records that its claim succeeded. */
  datatype Attempt = Attempt(msg: nat, task: Option<TaskId>, receiveCount: nat, trace: string, won: bool, pc: Pc)

  predicate Live(at: Attempt) { !at.pc.Done? && !at.pc.Crashed? }

  /** Where the request that created a task stands. */
  datatype CreatorPc = Publishing | Rejecting(reason: string) | Accepted | Rejected

  datatype RetryPc = DeletingDead | RevertingRow | Finished

  /** One operator retry: the DLQ message its handle names, if any, and the task named by the body it sent. */
  datatype Retry = Retry(dead: Option<nat>, body: Option<TaskId>, pc: RetryPc)

  datatype Artifact = Artifact(task: TaskId, trace: string, model: string, output: string)

  datatype State = State(
    rows: Rows,
    creators: map<TaskId, CreatorPc>,
    msgs: seq<Message>,
    attempts: seq<Attempt>,
    retries: seq<Retry>,
    objects: map<string, Artifact>,
    discarded: set<TaskId>,
    clock: Instant)

  const INIT := State(map[], map[], [], [], [], map[], {}, 0)

  // ---------------------------------------------------------------------------
  // Steps
  // ---------------------------------------------------------------------------

  /** The reply of the AI runtime as the worker sees it. */
  datatype Reply =
    | TransportError
    | Response(httpStatus: nat, body: Option<ReplyBody>)
  datatype ReplyBody = ReplyBody(executionStatus: string, ai: AiResult)

  /** A reply is an error unless it is below 500, decodes, and does not say "failed". */
  function ReplyResult(reply: Reply): Option<AiResult> {
    match reply
    case TransportError => None
    case Response(httpStatus, body) =>
      if httpStatus >= 500 || body.None? || body.value.executionStatus == "failed" then None
      else Some(body.value.ai)
  }

  function MockResult(t: TaskId): AiResult {
    AiResult("mock output for task " + t, Tokens(0, 0, 0.0, "mock"))
  }

  datatype ApiStep =
    | Insert(payload: string, replayOf: Option<TaskId>)
    | Publish(sent: bool, acked: bool, reason: string)
    | Reject(rejectFault: Fault)

  datatype QueueStep =
    | Receive(trace: string)
    | Expire

  datatype WorkStep =
    | Discard
    | Claim(claimFault: Fault)
    | Infer(reply: Reply)
    | Put(stored: bool, acked: bool)
    | DeleteMessage(removed: bool)
    | Complete(completeFault: Fault)
    | Revert(revertFault: Fault)
    | Release
    | Fail(failFault: Fault)
    | Crash

  datatype OperatorStep =
    | RetrySend(handle: Option<nat>, body: Option<TaskId>, sent: bool, acked: bool)
    | RetryDelete(r: nat, removed: bool)
    | RetryRevert(r: nat, retryFault: Fault)
    | DlqDelete(dead: nat)
    | PurgeDlq
    | PurgeMain

  datatype ChaosStep =
    | FailStuckTasks(reason: string)
    | FailAbandonedTasks(reason: string)

  datatype Step =
    | Api(t: TaskId, api: ApiStep)
    | Queue(m: nat, queue: QueueStep)
    | Work(a: nat, work: WorkStep)
    | Operator(op: OperatorStep)
    | Chaos(chaos: ChaosStep)
    | Tick

  // ---------------------------------------------------------------------------
  // Effects
  // ---------------------------------------------------------------------------

  /** The object key of a task's artifact. */
  function Key(trace: string, t: TaskId): string {
    trace + "/" + t + ".json"
  }

  /** Whether purging the given queue deletes the message. */
  predicate Purged(msg: Message, dlq: bool) {
    if dlq then msg.place.Dead? else msg.place.Visible? || msg.place.InFlight?
  }

  function Purge(msgs: seq<Message>, dlq: bool): seq<Message> {
    seq(|msgs|, i requires 0 <= i < |msgs| => if Purged(msgs[i], dlq) then msgs[i].(place := Gone) else msgs[i])
  }

  function PurgedTasks(msgs: seq<Message>, dlq: bool): set<TaskId> {
    set m | 0 <= m < |msgs| && Purged(msgs[m], dlq) && msgs[m].body.Some? :: msgs[m].body.value
  }

  /** The task a message names, as a set. */
  function Named(body: Option<TaskId>): set<TaskId> {
    if body.Some? then {body.value} else {}
  }

  function ApplyApi(s: State, t: TaskId, step: ApiStep): State {
    match step
    case Insert(payload, replayOf) =>
      // a fresh id; a replayed task exists, whatever its status has become since it was checked
      if t in s.rows || t in s.creators || (replayOf.Some? && replayOf.value !in s.rows) then s
      else s.(rows := s.rows[t := NewRow(payload, replayOf, s.clock)], creators := s.creators[t := Publishing])
    case Publish(sent, acked, reason) =>
      if t !in s.creators || s.creators[t] != Publishing || (acked && !sent) then s
      else
        s.(creators := s.creators[t := if acked then Accepted else Rejecting(reason)],
           msgs := if sent then s.msgs + [Message(Some(t), 0, Visible)] else s.msgs)
    case Reject(fault) =>
      if t !in s.creators || !s.creators[t].Rejecting? then s
      else
        s.(creators := s.creators[t := Rejected],
           rows := WriteRows(s.rows, t, SetPublishFailed(s.creators[t].reason), fault, s.clock))
  }

  /** A trace id contains no slash. */
  predicate TraceId(trace: string) { '/' !in trace }

  function ApplyQueue(cfg: Config, s: State, m: nat, step: QueueStep): State {
    if m >= |s.msgs| then s else
    match step
    case Receive(trace) =>
      if !s.msgs[m].place.Visible? || !TraceId(trace) then s
      else if s.msgs[m].receives >= cfg.redriveLimit then s.(msgs := s.msgs[m := s.msgs[m].(place := Dead)])
      else
        var msg := s.msgs[m].(receives := s.msgs[m].receives + 1, place := InFlight);
        s.(msgs := s.msgs[m := msg],
           attempts := s.attempts + [Attempt(m, msg.body, msg.receives, trace, false, Received)])
    case Expire =>
      if s.msgs[m].place.InFlight? then s.(msgs := s.msgs[m := s.msgs[m].(place := Visible)]) else s
  }

  /**
   What an attempt's next step does: its new control state, the row update and object it writes,
   and whether it deletes its message.
   */
  datatype Effect = Effect(
    pc: Pc,
    won: bool,
    write: Option<Write>,
    fault: Fault,
    artifact: Option<Artifact>,
    delete: bool)

  function Local(at: Attempt, pc: Pc): Effect {
    Effect(pc, at.won, None, NoFault, None, false)
  }

  function Writes(at: Attempt, pc: Pc, w: Write, fault: Fault): Effect {
    Local(at, pc).(write := Some(w), fault := fault)
  }

  /**
   The body of `Process`, one step at a time. `claimable` says whether the claiming update would
   affect a row. `None` means that the step is not the attempt's next one.
   */
  function Decide(cfg: Config, at: Attempt, claimable: bool, step: WorkStep): Option<Effect> {
    if at.pc.Done? || at.pc.Crashed? then None
    else if step.Crash? then Some(Local(at, Crashed))
    else if at.task.None? then
      if step.Discard? && at.pc.Received? then Some(Local(at, Done)) else None
    else
      var t := at.task.value;
      match (at.pc, step)
      case (Received, Claim(fault)) =>
        if fault.NoFault? && claimable then Some(Writes(at, Claimed, SetProcessing, fault).(won := true))
        else Some(Writes(at, Done, SetProcessing, fault))
      case (Claimed, Infer(reply)) =>
        if !cfg.aiEnabled then Some(Local(at, Storing(MockResult(t))))
        else
          (match ReplyResult(reply)
           case Some(ai) => Some(Local(at, Storing(ai)))
           case None =>
             Some(Local(at, if at.receiveCount >= cfg.workerLimit then Failing("ai_runtime_error") else Reverting)))
      case (Storing(ai), Put(stored, acked)) =>
        if acked && !stored then None
        else
          var artifact := Artifact(t, at.trace, ai.tokens.model, ai.output);
          Some(Local(at, if acked then Deleting(ai) else Failing("s3_write_error"))
               .(artifact := if stored then Some(artifact) else None))
      case (Deleting(ai), DeleteMessage(removed)) =>
        Some(Local(at, Completing(ai)).(delete := removed))
      case (Completing(ai), Complete(fault)) =>
        Some(Writes(at, Done, SetCompleted(Key(at.trace, t), ai.tokens), fault))
      case (Reverting, Revert(fault)) =>
        Some(Writes(at, Releasing, RevertToPending, fault))
      case (Releasing, Release) =>
        Some(Local(at, Done))
      case (Failing(reason), Fail(fault)) =>
        Some(Writes(at, Done, SetFailed(reason), fault))
      case _ => None
  }

  function PutArtifact(objects: map<string, Artifact>, o: Artifact): map<string, Artifact> {
    objects[Key(o.trace, o.task) := o]
  }

  /** Deleting by receipt handle removes a message that is still in the main queue. */
  function DeleteFromMain(msgs: seq<Message>, m: nat): seq<Message> {
    if m < |msgs| && (msgs[m].place.Visible? || msgs[m].place.InFlight?)
    then msgs[m := msgs[m].(place := Gone)] else msgs
  }

  function Perform(s: State, a: nat, e: Effect): State
    requires a < |s.attempts|
  {
    var at := s.attempts[a];
    s.(attempts := s.attempts[a := at.(pc := e.pc, won := e.won)],
       rows := if e.write.Some? && at.task.Some?
               then WriteRows(s.rows, at.task.value, e.write.value, e.fault, s.clock) else s.rows,
       objects := if e.artifact.Some? then PutArtifact(s.objects, e.artifact.value) else s.objects,
       msgs := if e.delete then DeleteFromMain(s.msgs, at.msg) else s.msgs)
  }

  predicate Claimable(s: State, task: Option<TaskId>) {
    task.Some? && Affects(s.rows, task.value, SetProcessing)
  }

  function ApplyWork(cfg: Config, s: State, a: nat, step: WorkStep): State {
    if a >= |s.attempts| then s
    else
      match Decide(cfg, s.attempts[a], Claimable(s, s.attempts[a].task), step)
      case Some(e) => Perform(s, a, e)
      case None => s
  }

  function ApplyOperator(s: State, step: OperatorStep): State {
    match step
    case RetrySend(handle, body, sent, acked) =>
      // the handle may name no message at all; the copy is sent all the same
      if (handle.Some? && handle.value >= |s.msgs|) || (acked && !sent) then s
      else
        s.(msgs := if sent then s.msgs + [Message(body, 0, Visible)] else s.msgs,
           retries := s.retries + [Retry(handle, body, if acked then DeletingDead else Finished)])
    case RetryDelete(r, removed) =>
      if r >= |s.retries| || !s.retries[r].pc.DeletingDead? then s
      else
        var rt := s.retries[r];
        var dead := if rt.dead.Some? then rt.dead.value else |s.msgs|;
        var gone := removed && dead < |s.msgs| && s.msgs[dead].place.Dead?;
        // a retry whose body names another task amounts to deleting this one's message
        s.(retries := s.retries[r := rt.(pc := RevertingRow)],
           msgs := if gone then s.msgs[dead := s.msgs[dead].(place := Gone)] else s.msgs,
           discarded := if gone && s.msgs[dead].body != rt.body
                        then s.discarded + Named(s.msgs[dead].body) else s.discarded)
    case RetryRevert(r, fault) =>
      if r >= |s.retries| || !s.retries[r].pc.RevertingRow? then s
      else
        var rt := s.retries[r];
        s.(retries := s.retries[r := rt.(pc := Finished)],
           rows := if rt.body.Some?
                   then WriteRows(s.rows, rt.body.value, RevertToPendingForRetry, fault, s.clock) else s.rows)
    case DlqDelete(dead) =>
      if dead >= |s.msgs| || !s.msgs[dead].place.Dead? then s
      else
        s.(msgs := s.msgs[dead := s.msgs[dead].(place := Gone)],
           discarded := s.discarded + Named(s.msgs[dead].body))
    case PurgeDlq =>
      s.(msgs := Purge(s.msgs, true), discarded := s.discarded + PurgedTasks(s.msgs, true))
    case PurgeMain =>
      s.(msgs := Purge(s.msgs, false), discarded := s.discarded + PurgedTasks(s.msgs, false))
  }

  function ApplyChaos(s: State, step: ChaosStep): State {
    match step
    case FailStuckTasks(reason) => s.(rows := FailStuck(s.rows, reason, s.clock))
    case FailAbandonedTasks(reason) => s.(rows := FailAbandoned(s.rows, reason, s.clock))
  }

  function Apply(cfg: Config, s: State, step: Step): State {
    match step
    case Api(t, api) => ApplyApi(s, t, api)
    case Queue(m, queue) => ApplyQueue(cfg, s, m, queue)
    case Work(a, work) => ApplyWork(cfg, s, a, work)
    case Operator(op) => ApplyOperator(s, op)
    case Chaos(chaos) => ApplyChaos(s, chaos)
    case Tick => s.(clock := s.clock + 1)
  }

  function Run(cfg: Config, s: State, steps: seq<Step>): State {
    if steps == [] then s
    else Apply(cfg, Run(cfg, s, steps[..|steps| - 1]), steps[|steps| - 1])
  }

  lemma RunSnoc(cfg: Config, s: State, steps: seq<Step>, step: Step)
    ensures Run(cfg, s, steps + [step]) == Apply(cfg, Run(cfg, s, steps), step)
  {
    assert (steps + [step])[..|steps|] == steps;
  }

  lemma {:induction false} RunConcat(cfg: Config, s: State, xs: seq<Step>, ys: seq<Step>)
    ensures Run(cfg, s, xs + ys) == Run(cfg, Run(cfg, s, xs), ys)
  {
    if ys == [] {
      assert xs + ys == xs;
    } else {
      var n := |ys| - 1;
      RunConcat(cfg, s, xs, ys[..n]);
      assert (xs + ys)[..|xs + ys| - 1] == xs + ys[..n];
    }
  }
}
