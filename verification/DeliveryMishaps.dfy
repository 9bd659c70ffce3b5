/** Runs from the empty state in which the delivery protocol goes wrong. */
module DeliveryMishaps {
  import opened Common
  import opened TaskRows
  import opened Delivery
  import opened DeliverySafety
  import opened DeliveryClaims

  const TASK: TaskId := "task"
  const TRACE := "trace"
  const ANSWER := Response(200, Some(ReplyBody("completed", AiResult("output", Tokens(1, 1, 1.0, "model")))))

  /** One task, one message, and one attempt that stands at `pc`. */
  ghost predicate Standing(s: State, payload: string, status: Status, pc: Pc) {
    && TASK in s.rows && s.rows[TASK].status == status && s.rows[TASK].payload == payload
    && |s.msgs| == 1 && s.msgs[0].body == Some(TASK) && s.retries == []
    && |s.attempts| == 1 && s.attempts[0].msg == 0 && s.attempts[0].task == Some(TASK)
    && s.attempts[0].pc == pc
  }

  /** The task is accepted, and its message waits in the queue. */
  ghost predicate Waiting(s: State, payload: string) {
    && TASK in s.rows && s.rows[TASK].status == Pending && s.rows[TASK].payload == payload
    && s.msgs == [Message(Some(TASK), 0, Visible)] && s.retries == [] && s.attempts == []
  }

  lemma AcceptedTask(cfg: Config, payload: string) returns (steps: seq<Step>)
    ensures Waiting(Run(cfg, INIT, steps), payload) && NoTakeover(steps)
  {
    var insert, publish := Api(TASK, Insert(payload, None)), Api(TASK, Publish(true, true, ""));
    assert Run(cfg, INIT, []) == INIT;
    RunSnoc(cfg, INIT, [], insert);
    assert [] + [insert] == [insert];
    RunSnoc(cfg, INIT, [insert], publish);
    steps := [insert] + [publish];
  }

  lemma StartsStanding(cfg: Config, s: State, payload: string)
    requires cfg.redriveLimit > 0 && Waiting(s, payload)
    ensures Standing(Apply(cfg, s, Queue(0, Receive(TRACE))), payload, Pending, Received)
  {
  }

  lemma ClaimStands(cfg: Config, s: State, payload: string)
    requires Standing(s, payload, Pending, Received)
    ensures Standing(Apply(cfg, s, Work(0, Claim(NoFault))), payload, Processing, Claimed)
  {
  }

  /** The task is accepted, received and claimed. */
  lemma ClaimedTask(cfg: Config, payload: string) returns (steps: seq<Step>)
    requires cfg.redriveLimit > 0
    ensures Standing(Run(cfg, INIT, steps), payload, Processing, Claimed) && NoTakeover(steps)
  {
    hide Apply, Run, Standing, Waiting;
    steps := AcceptedTask(cfg, payload);
    StartsStanding(cfg, Run(cfg, INIT, steps), payload);
    RunSnoc(cfg, INIT, steps, Queue(0, Receive(TRACE)));
    steps := steps + [Queue(0, Receive(TRACE))];
    ClaimStands(cfg, Run(cfg, INIT, steps), payload);
    RunSnoc(cfg, INIT, steps, Work(0, Claim(NoFault)));
    steps := steps + [Work(0, Claim(NoFault))];
  }

  function Answered(cfg: Config): AiResult {
    if cfg.aiEnabled then ANSWER.body.value.ai else MockResult(TASK)
  }

  lemma Advance(cfg: Config, s: State, payload: string, pc: Pc, step: WorkStep, pc': Pc)
    requires Standing(s, payload, Processing, pc)
    requires
      || (pc.Claimed? && step == Infer(ANSWER) && pc' == Storing(Answered(cfg)))
      || (pc.Storing? && step == Put(true, true) && pc' == Deleting(pc.ai))
      || (pc.Deleting? && step == DeleteMessage(true) && pc' == Completing(pc.ai))
      || (pc.Completing? && step == Crash && pc' == Crashed)
    ensures Standing(Apply(cfg, s, Work(0, step)), payload, Processing, pc')
  {
  }

  /** What the worker does after its claim, up to its death. */
  const FATAL := [Infer(ANSWER), Put(true, true), DeleteMessage(true), Crash]

  /** Where it stands after the first `n` of these steps. */
  function PcAfter(cfg: Config, n: nat): Pc {
    if n == 0 then Claimed
    else if n == 1 then Storing(Answered(cfg))
    else if n == 2 then Deleting(Answered(cfg))
    else if n == 3 then Completing(Answered(cfg))
    else Crashed
  }

  lemma {:induction false} FatalSteps(cfg: Config, n: nat) returns (steps: seq<Step>)
    requires cfg.redriveLimit > 0 && n <= 4
    ensures Standing(Run(cfg, INIT, steps), "input", Processing, PcAfter(cfg, n)) && NoTakeover(steps)
  {
    hide Apply, Run, Standing;
    if n == 0 {
      steps := ClaimedTask(cfg, "input");
    } else {
      var before := FatalSteps(cfg, n - 1);
      var step := FATAL[n - 1];
      Advance(cfg, Run(cfg, INIT, before), "input", PcAfter(cfg, n - 1), step, PcAfter(cfg, n));
      RunSnoc(cfg, INIT, before, Work(0, step));
      steps := before + [Work(0, step)];
    }
  }

  /**
   The worker infers, stores, deletes its message and dies: the task stays in `processing`, held by
   nobody, so it never leaves that status.
   */
  lemma DeathAfterDeleteOrphans(cfg: Config) returns (steps: seq<Step>)
    requires cfg.redriveLimit > 0
    ensures NoTakeover(steps)
    ensures InProcess(Run(cfg, INIT, steps).rows, TASK) && !Held(Run(cfg, INIT, steps), TASK)
  {
    hide Run, Standing;
    steps := FatalSteps(cfg, 4);
    DeadHoldsNothing(Run(cfg, INIT, steps), "input");
  }

  lemma DeadHoldsNothing(s: State, payload: string)
    requires Standing(s, payload, Processing, Crashed)
    ensures InProcess(s.rows, TASK) && !Held(s, TASK)
  {
  }

  /** The chaos runner fails the row of a chaos task under a live attempt. */
  lemma TakeoverFailsHeldTask(cfg: Config, payload: string) returns (steps: seq<Step>)
    requires cfg.redriveLimit > 0 && "chaos-" <= payload
    ensures Standing(Run(cfg, INIT, steps), payload, Failed, Claimed)
  {
    steps := ClaimedTask(cfg, payload);
    var takeover := Chaos(FailStuckTasks("chaos cleanup"));
    RunSnoc(cfg, INIT, steps, takeover);
    steps := steps + [takeover];
  }

  // ---------------------------------------------------------------------------
  // An operator retry, and the next claim
  // ---------------------------------------------------------------------------

  /** The operator's retry of a task whose handle names no message. */
  function RetryOf(t: TaskId, r: nat): seq<Step> {
    [Operator(RetrySend(None, Some(t), true, true)), Operator(RetryDelete(r, false)), Operator(RetryRevert(r, NoFault))]
  }

  function Requeued(s: State, t: TaskId): State
    requires t in s.rows
  {
    s.(rows := s.rows[t := Update(s.rows[t], RevertToPendingForRetry, s.clock)],
       msgs := s.msgs + [Message(Some(t), 0, Visible)],
       retries := s.retries + [Retry(None, Some(t), Finished)])
  }

  lemma RunOne(cfg: Config, s: State, step: Step)
    ensures Run(cfg, s, [step]) == Apply(cfg, s, step)
  {
    RunSnoc(cfg, s, [], step);
    assert [] + [step] == [step];
  }

  lemma RetryRequeues(cfg: Config, s: State, t: TaskId)
    requires t in s.rows && s.rows[t].status == Failed
    ensures Run(cfg, s, RetryOf(t, |s.retries|)) == Requeued(s, t)
  {
    hide Apply, Run;
    var steps := RetryOf(t, |s.retries|);
    RunOne(cfg, s, steps[0]);
    RunSnoc(cfg, s, [steps[0]], steps[1]);
    RunSnoc(cfg, s, [steps[0]] + [steps[1]], steps[2]);
    assert [steps[0]] + [steps[1]] + [steps[2]] == steps;
    RetryEffects(cfg, s, t);
  }

  lemma RetryEffects(cfg: Config, s: State, t: TaskId)
    requires t in s.rows && s.rows[t].status == Failed
    ensures
      var r := |s.retries|;
      var s1 := Apply(cfg, s, Operator(RetrySend(None, Some(t), true, true)));
      var s2 := Apply(cfg, s1, Operator(RetryDelete(r, false)));
      Apply(cfg, s2, Operator(RetryRevert(r, NoFault))) == Requeued(s, t)
  {
    var r := |s.retries|;
    var s1 := Apply(cfg, s, Operator(RetrySend(None, Some(t), true, true)));
    assert s1.retries[r] == Retry(None, Some(t), DeletingDead);
    var s2 := Apply(cfg, s1, Operator(RetryDelete(r, false)));
    assert s2.retries[r] == Retry(None, Some(t), RevertingRow);
    assert s2 == s1.(retries := s2.retries);
    assert s1.retries[r := Retry(None, Some(t), RevertingRow)][r := Retry(None, Some(t), Finished)]
        == s.retries + [Retry(None, Some(t), Finished)];
  }

  /** Message `m` is received, and the new attempt `a` claims its task. */
  function ClaimOf(m: nat, a: nat): seq<Step> {
    [Queue(m, Receive(TRACE)), Work(a, Claim(NoFault))]
  }

  ghost predicate NextClaim(s: State, s': State, t: TaskId)
    requires t in s.rows
  {
    && s'.rows == s.rows[t := Update(s.rows[t], SetProcessing, s.clock)] && s'.clock == s.clock
    && |s'.attempts| == |s.attempts| + 1 && s'.attempts[..|s.attempts|] == s.attempts
    && s'.attempts[|s.attempts|].task == Some(t) && s'.attempts[|s.attempts|].pc == Claimed
  }

  lemma RequeuedIsClaimed(cfg: Config, s: State, m: nat, t: TaskId)
    requires cfg.redriveLimit > 0 && m < |s.msgs| && s.msgs[m] == Message(Some(t), 0, Visible)
    requires t in s.rows && s.rows[t].status == Pending
    ensures NextClaim(s, Run(cfg, s, ClaimOf(m, |s.attempts|)), t)
  {
    hide Apply, Run, NextClaim;
    var steps := ClaimOf(m, |s.attempts|);
    RunOne(cfg, s, steps[0]);
    RunSnoc(cfg, s, [steps[0]], steps[1]);
    assert [steps[0]] + [steps[1]] == steps;
    ClaimEffects(cfg, s, m, t);
  }

  lemma ClaimEffects(cfg: Config, s: State, m: nat, t: TaskId)
    requires cfg.redriveLimit > 0 && m < |s.msgs| && s.msgs[m] == Message(Some(t), 0, Visible)
    requires t in s.rows && s.rows[t].status == Pending
    ensures
      var s1 := Apply(cfg, s, Queue(m, Receive(TRACE)));
      NextClaim(s, Apply(cfg, s1, Work(|s.attempts|, Claim(NoFault))), t)
  {
    var s1 := Apply(cfg, s, Queue(m, Receive(TRACE)));
    assert s1.attempts == s.attempts + [Attempt(m, Some(t), 1, TRACE, false, Received)];
  }

  /** A failed task is retried and claimed again. */
  lemma RetriedAndClaimed(cfg: Config, s: State, t: TaskId)
    requires cfg.redriveLimit > 0 && t in s.rows && s.rows[t].status == Failed
    ensures
      var s' := Run(cfg, s, RetryOf(t, |s.retries|) + ClaimOf(|s.msgs|, |s.attempts|));
      NextClaim(Requeued(s, t), s', t)
  {
    hide Run, NextClaim;
    RetryRequeues(cfg, s, t);
    RequeuedIsClaimed(cfg, Requeued(s, t), |s.msgs|, t);
    RunConcat(cfg, s, RetryOf(t, |s.retries|), ClaimOf(|s.msgs|, |s.attempts|));
  }

  // ---------------------------------------------------------------------------
  // Exclusive claims and the chaos runner
  // ---------------------------------------------------------------------------

  ghost predicate HeldTwice(s: State, payload: string) {
    && TASK in s.rows && s.rows[TASK].payload == payload
    && |s.attempts| == 2 && Holds(s.attempts[0], TASK) && Holds(s.attempts[1], TASK)
  }

  /** After an operator retry a second attempt claims the task: now two hold it. */
  lemma TakeoverLetsTwoHold(cfg: Config, payload: string) returns (steps: seq<Step>)
    requires cfg.redriveLimit > 0 && "chaos-" <= payload
    ensures HeldTwice(Run(cfg, INIT, steps), payload)
  {
    hide Run, Apply;
    var before := TakeoverFailsHeldTask(cfg, payload);
    var s := Run(cfg, INIT, before);
    var more := RetryOf(TASK, 0) + ClaimOf(1, 1);
    RetriedAndClaimed(cfg, s, TASK);
    RunConcat(cfg, INIT, before, more);
    var s' := Run(cfg, s, more);
    assert s'.attempts[0] == s'.attempts[..1][0] == s.attempts[0];
    steps := before + more;
  }

  /** No run lets two attempts hold a task of this payload, or one hold it that is not in `processing`. */
  ghost predicate AlwaysHeldOnce(cfg: Config, payload: string) {
    forall steps, t ::
      var s := Run(cfg, INIT, steps);
      t in s.rows && s.rows[t].payload == payload ==> HeldOnce(s.attempts, s.rows, t)
  }

  lemma {:induction false} NothingIsDelivered(cfg: Config, steps: seq<Step>)
    requires cfg.redriveLimit == 0
    ensures Run(cfg, INIT, steps).attempts == []
  {
    hide ApplyApi, ApplyOperator;
    if steps != [] {
      var s, step := Run(cfg, INIT, steps[..|steps| - 1]), steps[|steps| - 1];
      NothingIsDelivered(cfg, steps[..|steps| - 1]);
      match step
      case Api(t, api) => ApiExtends(s, t, api);
      case Operator(op) => OperatorFrame(s, op);
      case _ =>
    }
  }

  /**
   Over all runs, the chaos runner's included, claims are exclusive exactly for the payloads it does
   not match (and for all if the queue never delivers anything).
   */
  lemma ClaimsAreExclusiveExactly(cfg: Config, payload: string)
    ensures AlwaysHeldOnce(cfg, payload) <==> cfg.redriveLimit == 0 || !("chaos-" <= payload)
  {
    hide Run, HeldOnce;
    if cfg.redriveLimit == 0 {
      forall steps, t ensures HeldOnce(Run(cfg, INIT, steps).attempts, Run(cfg, INIT, steps).rows, t) {
        NothingIsDelivered(cfg, steps);
        NobodyHolds(Run(cfg, INIT, steps).rows, t);
      }
    } else if "chaos-" <= payload {
      var steps := TakeoverLetsTwoHold(cfg, payload);
      TwiceIsNotOnce(Run(cfg, INIT, steps), payload);
    } else {
      forall steps, t |
        var s := Run(cfg, INIT, steps);
        t in s.rows && s.rows[t].payload == payload
        ensures HeldOnce(Run(cfg, INIT, steps).attempts, Run(cfg, INIT, steps).rows, t)
      {
        ClaimsAreExclusive(cfg, steps, t);
      }
    }
  }

  lemma NobodyHolds(rows: Rows, t: TaskId)
    ensures HeldOnce([], rows, t)
  {
  }

  lemma TwiceIsNotOnce(s: State, payload: string)
    requires HeldTwice(s, payload)
    ensures !HeldOnce(s.attempts, s.rows, TASK)
  {
  }

  // ---------------------------------------------------------------------------
  // What the watchdog sees of a retried task
  // ---------------------------------------------------------------------------

  function Ticks(n: nat): seq<Step> {
    if n == 0 then [] else Ticks(n - 1) + [Tick]
  }

  lemma RunNone(cfg: Config, s: State)
    ensures Run(cfg, s, []) == s
  {
  }

  lemma TickTakesNothing()
    ensures !TakesOver(Tick)
  {
  }

  lemma {:induction false} TicksPass(cfg: Config, s: State, n: nat)
    ensures Run(cfg, s, Ticks(n)) == s.(clock := s.clock + n) && NoTakeover(Ticks(n))
  {
    hide Run, ApplyApi, ApplyQueue, ApplyWork, ApplyOperator, ApplyChaos, TakesOver;
    if n == 0 {
      assert Run(cfg, s, []) == s by { RunNone(cfg, s); }
    } else {
      TicksPass(cfg, s, n - 1);
      assert !TakesOver(Tick) by { TickTakesNothing(); }
      RunSnoc(cfg, s, Ticks(n - 1), Tick);
    }
  }

  /** The put of the first attempt fails, and with it the task. */
  lemma FirstAttemptFails(cfg: Config) returns (steps: seq<Step>)
    requires cfg.redriveLimit > 0
    ensures
      var s := Run(cfg, INIT, steps);
      && NoTakeover(steps) && Standing(s, "input", Failed, Done)
      && s.rows[TASK].startedAt.Some? && s.rows[TASK].startedAt.value <= s.clock
  {
    hide Run, Apply, Linked, Keyed, PutsStored, Backed, Created, Shaped;
    var put, fail := Work(0, Put(false, false)), Work(0, Fail(NoFault));
    steps := FatalSteps(cfg, 1);
    var s := Run(cfg, INIT, steps);
    RunKeepsCore(cfg, steps);
    PutFails(cfg, s, Answered(cfg));
    RunSnoc(cfg, INIT, steps, put);
    RunSnoc(cfg, INIT, steps + [put], fail);
    steps := steps + [put] + [fail];
  }

  lemma PutFails(cfg: Config, s: State, ai: AiResult)
    requires Standing(s, "input", Processing, Storing(ai)) && Shaped(s.rows[TASK], s.clock)
    ensures
      var s1 := Apply(cfg, s, Work(0, Put(false, false)));
      var s2 := Apply(cfg, s1, Work(0, Fail(NoFault)));
      && Standing(s2, "input", Failed, Done)
      && s2.rows[TASK].startedAt.Some? && s2.rows[TASK].startedAt.value <= s2.clock
  {
    hide Apply, Standing;
    PutUnconfirmed(cfg, s, ai);
    FailAfterPut(cfg, Apply(cfg, s, Work(0, Put(false, false))));
  }

  lemma PutUnconfirmed(cfg: Config, s: State, ai: AiResult)
    requires Standing(s, "input", Processing, Storing(ai)) && Shaped(s.rows[TASK], s.clock)
    ensures
      var s1 := Apply(cfg, s, Work(0, Put(false, false)));
      Standing(s1, "input", Processing, Failing("s3_write_error")) && Shaped(s1.rows[TASK], s1.clock)
  {
    hide Shaped;
  }

  lemma FailAfterPut(cfg: Config, s: State)
    requires Standing(s, "input", Processing, Failing("s3_write_error")) && Shaped(s.rows[TASK], s.clock)
    ensures
      var s' := Apply(cfg, s, Work(0, Fail(NoFault)));
      && Standing(s', "input", Failed, Done)
      && s'.rows[TASK].startedAt.Some? && s'.rows[TASK].startedAt.value <= s'.clock
  {
  }

  /** Failed, left alone for longer than the threshold, retried and claimed: listed as stuck at that moment. */
  lemma RetriedTaskIsListedStuck(cfg: Config, threshold: nat) returns (steps: seq<Step>)
    requires cfg.redriveLimit > 0
    ensures NoTakeover(steps) && steps != [] && steps[|steps| - 1] == Work(1, Claim(NoFault))
    ensures
      var s := Run(cfg, INIT, steps);
      && |s.attempts| == 2 && s.attempts[1].task == Some(TASK) && s.attempts[1].pc == Claimed
      && TASK in s.rows && ListedStuck(s.rows[TASK], threshold, s.clock)
  {
    hide Run, Apply;
    var before := FirstAttemptFails(cfg);
    var s0 := Run(cfg, INIT, before);
    TicksPass(cfg, s0, threshold + 1);
    RunConcat(cfg, INIT, before, Ticks(threshold + 1));
    var s := s0.(clock := s0.clock + threshold + 1);
    var more := RetryOf(TASK, 0) + ClaimOf(1, 1);
    RetriedAndClaimed(cfg, s, TASK);
    RunConcat(cfg, INIT, before + Ticks(threshold + 1), more);
    steps := before + Ticks(threshold + 1) + more;
  }

  /** Its publish failed, so it never started; retried after the threshold, it is listed as abandoned at once. */
  lemma RetriedTaskIsListedAbandoned(cfg: Config, threshold: nat) returns (steps: seq<Step>)
    ensures NoTakeover(steps) && steps != [] && steps[|steps| - 1] == Operator(RetryRevert(0, NoFault))
    ensures
      var s := Run(cfg, INIT, steps);
      && |s.msgs| == 1 && s.msgs[0] == Message(Some(TASK), 0, Visible)
      && TASK in s.rows && ListedAbandoned(s.rows[TASK], threshold, s.clock)
  {
    hide Run, Apply;
    var before := PublishFails(cfg);
    var s0 := Run(cfg, INIT, before);
    TicksPass(cfg, s0, threshold + 1);
    RunConcat(cfg, INIT, before, Ticks(threshold + 1));
    RetryRequeues(cfg, s0.(clock := s0.clock + threshold + 1), TASK);
    RunConcat(cfg, INIT, before + Ticks(threshold + 1), RetryOf(TASK, 0));
    steps := before + Ticks(threshold + 1) + RetryOf(TASK, 0);
  }

  ghost predicate PublishFailed(s: State) {
    && s.msgs == [] && s.retries == []
    && TASK in s.rows && s.rows[TASK].status == Failed && s.rows[TASK].startedAt.None?
    && s.rows[TASK].createdAt <= s.clock
  }

  const UNPUBLISHED :=
    [Api(TASK, Insert("input", None)), Api(TASK, Publish(false, false, "queue down")), Api(TASK, Reject(NoFault))]

  lemma PublishFails(cfg: Config) returns (steps: seq<Step>)
    ensures PublishFailed(Run(cfg, INIT, steps)) && NoTakeover(steps)
  {
    hide Run, Apply, PublishFailed;
    var insert, publish, reject := UNPUBLISHED[0], UNPUBLISHED[1], UNPUBLISHED[2];
    RunOne(cfg, INIT, insert);
    RunSnoc(cfg, INIT, [insert], publish);
    RunSnoc(cfg, INIT, [insert] + [publish], reject);
    UnpublishedEffects(cfg);
    steps := [insert] + [publish] + [reject];
  }

  lemma UnpublishedEffects(cfg: Config)
    ensures PublishFailed(Apply(cfg, Apply(cfg, Apply(cfg, INIT, UNPUBLISHED[0]), UNPUBLISHED[1]), UNPUBLISHED[2]))
  {
    hide ApplyQueue, ApplyWork, ApplyOperator, ApplyChaos;
  }
}
