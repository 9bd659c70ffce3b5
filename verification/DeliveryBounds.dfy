/** Bounded work: how often a task is delivered, claimed and sent to the AI runtime. */
module DeliveryBounds {
  import opened Common
  import opened TaskRows
  import opened Delivery
  import opened DeliverySafety

  // Indicator functions, for counting with `Sum`.
  function AttemptsOf(t: TaskId): Attempt -> nat { (at: Attempt) => if at.task == Some(t) then 1 else 0 }
  function ClaimsOf(t: TaskId): Attempt -> nat { (at: Attempt) => if at.won && at.task == Some(t) then 1 else 0 }
  function MessagesOf(t: TaskId): Message -> nat { (msg: Message) => if msg.body == Some(t) then 1 else 0 }
  function ReceivesOf(t: TaskId): Message -> nat { (msg: Message) => if msg.body == Some(t) then msg.receives else 0 }
  function RetriesOf(t: TaskId): Retry -> nat { (rt: Retry) => if rt.body == Some(t) then 1 else 0 }

  /** 1 once the creating request has gone past its publish. */
  function Published(s: State, t: TaskId): nat {
    if t in s.creators && s.creators[t] != Publishing then 1 else 0
  }

  /** Every delivery of a message of `t` is one attempt. */
  ghost predicate DeliveriesCounted(attempts: seq<Attempt>, msgs: seq<Message>, t: TaskId) {
    Sum(attempts, AttemptsOf(t)) == Sum(msgs, ReceivesOf(t))
  }

  /** No message is delivered more often than the redrive limit. */
  ghost predicate WithinLimit(msgs: seq<Message>, limit: nat) {
    forall m :: 0 <= m < |msgs| ==> msgs[m].receives <= limit
  }

  /** Every message of `t` was sent by its creation or by one of its retries. */
  ghost predicate SendsCounted(s: State, t: TaskId) {
    Sum(s.msgs, MessagesOf(t)) <= Published(s, t) + Sum(s.retries, RetriesOf(t))
  }

  ghost predicate Counted(cfg: Config, s: State, t: TaskId) {
    DeliveriesCounted(s.attempts, s.msgs, t) && WithinLimit(s.msgs, cfg.redriveLimit) && SendsCounted(s, t)
  }

  // --- one change at a time ---------------------------------------------------

  /** Bodies and receive counts stay, whatever happens to the places. */
  ghost predicate SameCounts(msgs: seq<Message>, msgs': seq<Message>) {
    && |msgs| == |msgs'|
    && forall m :: 0 <= m < |msgs| ==> msgs'[m].body == msgs[m].body && msgs'[m].receives == msgs[m].receives
  }

  lemma SameSums(msgs: seq<Message>, msgs': seq<Message>, t: TaskId)
    requires SameCounts(msgs, msgs')
    ensures Sum(msgs', ReceivesOf(t)) == Sum(msgs, ReceivesOf(t))
    ensures Sum(msgs', MessagesOf(t)) == Sum(msgs, MessagesOf(t))
  {
    SumPointwise(msgs, msgs', ReceivesOf(t));
    SumPointwise(msgs', msgs, ReceivesOf(t));
    SumPointwise(msgs, msgs', MessagesOf(t));
    SumPointwise(msgs', msgs, MessagesOf(t));
  }

  lemma SendCounts(msgs: seq<Message>, body: Option<TaskId>, t: TaskId)
    ensures Sum(msgs + [Message(body, 0, Visible)], ReceivesOf(t)) == Sum(msgs, ReceivesOf(t))
    ensures Sum(msgs + [Message(body, 0, Visible)], MessagesOf(t))
         == Sum(msgs, MessagesOf(t)) + if body == Some(t) then 1 else 0
  {
    SumAppend(msgs, Message(body, 0, Visible), ReceivesOf(t));
    SumAppend(msgs, Message(body, 0, Visible), MessagesOf(t));
  }

  lemma ReceiveCounts(msgs: seq<Message>, m: nat, msg: Message, t: TaskId)
    requires m < |msgs| && msg.body == msgs[m].body
    ensures Sum(msgs[m := msg], ReceivesOf(t))
         == Sum(msgs, ReceivesOf(t)) + if msg.body == Some(t) then msg.receives - msgs[m].receives else 0
    ensures Sum(msgs[m := msg], MessagesOf(t)) == Sum(msgs, MessagesOf(t))
  {
    SumUpdate(msgs, m, msg, ReceivesOf(t));
    SumUpdate(msgs, m, msg, MessagesOf(t));
  }

  lemma AttemptCounts(attempts: seq<Attempt>, at: Attempt, t: TaskId)
    ensures Sum(attempts + [at], AttemptsOf(t)) == Sum(attempts, AttemptsOf(t)) + if at.task == Some(t) then 1 else 0
  {
    SumAppend(attempts, at, AttemptsOf(t));
  }

  lemma SameAttempts(attempts: seq<Attempt>, a: nat, at: Attempt, t: TaskId)
    requires a < |attempts| && at.task == attempts[a].task
    ensures Sum(attempts[a := at], AttemptsOf(t)) == Sum(attempts, AttemptsOf(t))
  {
    SumUpdate(attempts, a, at, AttemptsOf(t));
  }

  lemma SameRetries(retries: seq<Retry>, r: nat, rt: Retry, t: TaskId)
    requires r < |retries| && rt.body == retries[r].body
    ensures Sum(retries[r := rt], RetriesOf(t)) == Sum(retries, RetriesOf(t))
  {
    SumUpdate(retries, r, rt, RetriesOf(t));
  }

  lemma RetryCounts(retries: seq<Retry>, rt: Retry, t: TaskId)
    ensures Sum(retries + [rt], RetriesOf(t)) == Sum(retries, RetriesOf(t)) + if rt.body == Some(t) then 1 else 0
  {
    SumAppend(retries, rt, RetriesOf(t));
  }

  // --- one actor at a time ------------------------------------------------------

  /** A request sends at most one message, and only with its publish. */
  lemma ApiEffect(s: State, u: TaskId, step: ApiStep, t: TaskId)
    ensures
      var s' := ApplyApi(s, u, step);
      && s'.attempts == s.attempts && s'.retries == s.retries
      && Published(s, t) <= Published(s', t)
      && (s'.msgs == s.msgs
          || (s'.msgs == s.msgs + [Message(Some(u), 0, Visible)] && (t == u ==> Published(s, t) < Published(s', t))))
  {
  }

  lemma ApiKeepsCounted(cfg: Config, s: State, u: TaskId, step: ApiStep, t: TaskId)
    requires Counted(cfg, s, t)
    ensures Counted(cfg, ApplyApi(s, u, step), t)
  {
    hide ApplyApi, Sum, Published, AttemptsOf, ReceivesOf, MessagesOf, RetriesOf;
    ApiEffect(s, u, step, t);
    SendCounts(s.msgs, Some(u), t);
  }

  /** One delivery: the receive count and the number of attempts go up together. */
  lemma DeliveryKeepsCounts(attempts: seq<Attempt>, msgs: seq<Message>, m: nat, msg: Message, at: Attempt, limit: nat, t: TaskId)
    requires DeliveriesCounted(attempts, msgs, t) && WithinLimit(msgs, limit) && m < |msgs|
    requires msg.body == msgs[m].body == at.task && msg.receives == msgs[m].receives + 1 <= limit
    ensures DeliveriesCounted(attempts + [at], msgs[m := msg], t) && WithinLimit(msgs[m := msg], limit)
    ensures Sum(msgs[m := msg], MessagesOf(t)) == Sum(msgs, MessagesOf(t))
  {
    ReceiveCounts(msgs, m, msg, t);
    AttemptCounts(attempts, at, t);
  }

  /** The queue either delivers message `m` or only moves it. */
  lemma QueueEffect(cfg: Config, s: State, m: nat, step: QueueStep)
    requires m < |s.msgs|
    ensures
      var s' := ApplyQueue(cfg, s, m, step);
      && s' == s.(msgs := s'.msgs, attempts := s'.attempts)
      && |s'.msgs| == |s.msgs| && s'.msgs == s.msgs[m := s'.msgs[m]] && s'.msgs[m].body == s.msgs[m].body
      && if |s'.attempts| == |s.attempts| then s'.attempts == s.attempts && s'.msgs[m].receives == s.msgs[m].receives
         else
           && |s'.attempts| == |s.attempts| + 1
           && s'.attempts == s.attempts + [s'.attempts[|s.attempts|]]
           && s'.attempts[|s.attempts|].task == s.msgs[m].body
           && s'.msgs[m].receives == s.msgs[m].receives + 1 <= cfg.redriveLimit
  {
  }

  lemma QueueKeepsCounted(cfg: Config, s: State, m: nat, step: QueueStep, t: TaskId)
    requires Counted(cfg, s, t) && m < |s.msgs|
    ensures Counted(cfg, ApplyQueue(cfg, s, m, step), t)
  {
    QueueEffect(cfg, s, m, step);
    var s' := ApplyQueue(cfg, s, m, step);
    if |s'.attempts| == |s.attempts| {
      assert SameCounts(s.msgs, s'.msgs);
      SameSums(s.msgs, s'.msgs, t);
    } else {
      DeliveryKeepsCounts(s.attempts, s.msgs, m, s'.msgs[m], s'.attempts[|s.attempts|], cfg.redriveLimit, t);
    }
  }

  lemma WorkKeepsCounted(cfg: Config, s: State, a: nat, step: WorkStep, t: TaskId)
    requires Counted(cfg, s, t) && a < |s.attempts|
    ensures Counted(cfg, ApplyWork(cfg, s, a, step), t)
  {
    var s' := ApplyWork(cfg, s, a, step);
    assert s'.attempts == s.attempts[a := s'.attempts[a]];
    SameAttempts(s.attempts, a, s'.attempts[a], t);
    assert SameCounts(s.msgs, s'.msgs);
    SameSums(s.msgs, s'.msgs, t);
  }

  lemma RetrySendEffect(s: State, step: OperatorStep)
    requires step.RetrySend?
    ensures
      var s' := ApplyOperator(s, step);
      s' == s || (exists pc ::
          s' == s.(msgs := if step.sent then s.msgs + [Message(step.body, 0, Visible)] else s.msgs,
                   retries := s.retries + [Retry(step.handle, step.body, pc)]))
  {
  }

  lemma RetrySendKeepsCounted(cfg: Config, s: State, step: OperatorStep, t: TaskId)
    requires Counted(cfg, s, t) && step.RetrySend?
    ensures Counted(cfg, ApplyOperator(s, step), t)
  {
    hide ApplyOperator, Sum, AttemptsOf, ReceivesOf, MessagesOf, RetriesOf;
    RetrySendEffect(s, step);
    var s' := ApplyOperator(s, step);
    if s' != s {
      var pc :| s' == s.(msgs := if step.sent then s.msgs + [Message(step.body, 0, Visible)] else s.msgs,
                         retries := s.retries + [Retry(step.handle, step.body, pc)]);
      SendCounts(s.msgs, step.body, t);
      RetryCounts(s.retries, Retry(step.handle, step.body, pc), t);
    }
  }

  lemma OperatorKeepsCounts(s: State, step: OperatorStep)
    requires !step.RetrySend?
    ensures SameCounts(s.msgs, ApplyOperator(s, step).msgs)
    ensures ApplyOperator(s, step).retries == s.retries
         || ((step.RetryDelete? || step.RetryRevert?) && step.r < |s.retries|
             && ApplyOperator(s, step).retries == s.retries[step.r := s.retries[step.r].(pc := ApplyOperator(s, step).retries[step.r].pc)])
  {
  }

  lemma OperatorKeepsCounted(cfg: Config, s: State, step: OperatorStep, t: TaskId)
    requires Counted(cfg, s, t)
    ensures Counted(cfg, ApplyOperator(s, step), t)
  {
    if step.RetrySend? {
      RetrySendKeepsCounted(cfg, s, step, t);
    } else {
      var s' := ApplyOperator(s, step);
      OperatorFrame(s, step);
      OperatorKeepsCounts(s, step);
      SameSums(s.msgs, s'.msgs, t);
      if s'.retries != s.retries {
        SameRetries(s.retries, step.r, s'.retries[step.r], t);
      }
    }
  }

  lemma StepKeepsCounted(cfg: Config, s: State, step: Step, t: TaskId)
    requires Counted(cfg, s, t)
    ensures Counted(cfg, Apply(cfg, s, step), t)
  {
    match step
    case Api(u, api) => ApiKeepsCounted(cfg, s, u, api, t);
    case Queue(m, queue) =>
      if m < |s.msgs| {
        QueueKeepsCounted(cfg, s, m, queue, t);
      }
    case Work(a, work) =>
      if a < |s.attempts| {
        WorkKeepsCounted(cfg, s, a, work, t);
      }
    case Operator(op) => OperatorKeepsCounted(cfg, s, op, t);
    case Chaos(_) =>
    case Tick =>
  }

  lemma {:induction false} RunKeepsCounted(cfg: Config, steps: seq<Step>, t: TaskId)
    ensures Counted(cfg, Run(cfg, INIT, steps), t)
  {
    if steps != [] {
      RunKeepsCounted(cfg, steps[..|steps| - 1], t);
      StepKeepsCounted(cfg, Run(cfg, INIT, steps[..|steps| - 1]), steps[|steps| - 1], t);
    }
  }

  lemma CountedIsBounded(attempts: seq<Attempt>, msgs: seq<Message>, limit: nat, t: TaskId)
    requires DeliveriesCounted(attempts, msgs, t) && WithinLimit(msgs, limit)
    ensures Sum(attempts, ClaimsOf(t)) <= limit * Sum(msgs, MessagesOf(t))
  {
    SumScaled(attempts, ClaimsOf(t), AttemptsOf(t), 1);
    SumScaled(msgs, ReceivesOf(t), MessagesOf(t), limit);
  }

  /**
   Over every run, a task is claimed (and so sent to the AI runtime) at most `redriveLimit` times
   for its creation and for each of its operator retries.
   */
  lemma {:induction false} ClaimsAreBounded(cfg: Config, steps: seq<Step>, t: TaskId)
    ensures
      var s := Run(cfg, INIT, steps);
      Sum(s.attempts, ClaimsOf(t)) <= cfg.redriveLimit * (1 + Sum(s.retries, RetriesOf(t)))
  {
    var s := Run(cfg, INIT, steps);
    RunKeepsCounted(cfg, steps, t);
    CountedIsBounded(s.attempts, s.msgs, cfg.redriveLimit, t);
    Scale(cfg.redriveLimit, Sum(s.msgs, MessagesOf(t)), 1 + Sum(s.retries, RetriesOf(t)));
  }

  lemma Scale(c: nat, x: nat, y: nat)
    requires x <= y
    ensures c * x <= c * y
  {
  }

  // ---------------------------------------------------------------------------
  // Deliveries run out
  // ---------------------------------------------------------------------------

  /** The deliveries a message has left; the sum over all messages is the measure. */
  function Left(limit: nat): Message -> nat {
    (msg: Message) =>
      if (msg.place.Visible? || msg.place.InFlight?) && msg.receives < limit then limit - msg.receives else 0
  }

  predicate Sends(step: Step) {
    || (step.Api? && step.api.Publish?)
    || (step.Operator? && step.op.RetrySend?)
  }

  lemma QueueSpendsDeliveries(cfg: Config, s: State, m: nat, step: QueueStep)
    requires m < |s.msgs|
    ensures
      var s' := ApplyQueue(cfg, s, m, step);
      |s'.attempts| + Sum(s'.msgs, Left(cfg.redriveLimit)) <= |s.attempts| + Sum(s.msgs, Left(cfg.redriveLimit))
  {
    QueueEffect(cfg, s, m, step);
    SumUpdate(s.msgs, m, ApplyQueue(cfg, s, m, step).msgs[m], Left(cfg.redriveLimit));
  }

  /** A message that keeps its receive count and does not come back into the main queue. */
  ghost predicate NoneReturns(msgs: seq<Message>, msgs': seq<Message>) {
    && |msgs| == |msgs'|
    && forall m :: 0 <= m < |msgs| ==> msgs'[m] == msgs[m] || msgs'[m].place.Gone?
  }

  lemma OthersReturnNothing(cfg: Config, s: State, step: Step)
    requires !Sends(step) && !step.Queue?
    ensures |Apply(cfg, s, step).attempts| == |s.attempts| && NoneReturns(s.msgs, Apply(cfg, s, step).msgs)
  {
    match step
    case Operator(op) => OperatorFrame(s, op);
    case _ =>
  }

  lemma StepSpendsDeliveries(cfg: Config, s: State, step: Step)
    requires !Sends(step)
    ensures
      var s' := Apply(cfg, s, step);
      |s'.attempts| + Sum(s'.msgs, Left(cfg.redriveLimit)) <= |s.attempts| + Sum(s.msgs, Left(cfg.redriveLimit))
  {
    if step.Queue? {
      if step.m < |s.msgs| {
        QueueSpendsDeliveries(cfg, s, step.m, step.queue);
      }
    } else {
      OthersReturnNothing(cfg, s, step);
      SumPointwise(s.msgs, Apply(cfg, s, step).msgs, Left(cfg.redriveLimit));
    }
  }

  /**
   Without a new publish or retry, the number of further deliveries is at most what the messages
   in the main queue have left, so delivery stops.
   */
  lemma {:induction false} DeliveriesRunOut(cfg: Config, s: State, steps: seq<Step>)
    requires forall i :: 0 <= i < |steps| ==> !Sends(steps[i])
    ensures |Run(cfg, s, steps).attempts| + Sum(Run(cfg, s, steps).msgs, Left(cfg.redriveLimit))
         <= |s.attempts| + Sum(s.msgs, Left(cfg.redriveLimit))
  {
    if steps != [] {
      DeliveriesRunOut(cfg, s, steps[..|steps| - 1]);
      StepSpendsDeliveries(cfg, Run(cfg, s, steps[..|steps| - 1]), steps[|steps| - 1]);
    }
  }
}
