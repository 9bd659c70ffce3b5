/**
 Stranded tasks. In a quiet run (no crash, no failing row update, every attempt ended before its
 message becomes visible again, no operator retry) every pending task can still be delivered,
 exactly when the worker gives up no later than the queue does.
 */
module DeliveryQuiet {
  import opened Common
  import opened TaskRows
  import opened Delivery
  import opened DeliverySafety
  import opened DeliveryClaims
  import opened DeliveryMessages

  /** A live attempt works on message `m`. */
  predicate WorksOn(at: Attempt, m: nat) { Live(at) && at.msg == m }

  predicate QuietWork(step: WorkStep) {
    match step
    case Claim(fault) => fault.NoFault?
    case Complete(fault) => fault.NoFault?
    case Revert(fault) => fault.NoFault?
    case Fail(fault) => fault.NoFault?
    case Crash => false
    case _ => true
  }

  /** AI errors, object store errors and failing publishes are quiet. */
  ghost predicate QuietStep(s: State, step: Step) {
    match step
    case Api(_, _) => true
    case Queue(m, queue) =>
      queue.Expire? ==> forall a :: 0 <= a < |s.attempts| ==> !WorksOn(s.attempts[a], m)
    case Work(_, work) => QuietWork(work)
    case Operator(op) => op.DlqDelete? || op.PurgeDlq?
    case Chaos(_) => false
    case Tick => true
  }

  ghost predicate QuietRun(cfg: Config, s: State, steps: seq<Step>) {
    steps != [] ==>
      && QuietRun(cfg, s, steps[..|steps| - 1])
      && QuietStep(Run(cfg, s, steps[..|steps| - 1]), steps[|steps| - 1])
  }

  predicate InMain(msg: Message) { msg.place.Visible? || msg.place.InFlight? }

  predicate Settled(r: Row) { r.status == Completed || r.status == Failed }

  /** The message has a delivery left, or has just been delivered and its attempt is about to claim. */
  ghost predicate Deliverable(attempts: seq<Attempt>, msg: Message, m: nat, limit: nat) {
    && InMain(msg)
    && (msg.receives < limit
        || exists a :: 0 <= a < |attempts| && WorksOn(attempts[a], m) && attempts[a].pc.Received?)
  }

  /** The task can still be delivered by some message. */
  ghost predicate CanBeDelivered(cfg: Config, s: State, t: TaskId) {
    exists m :: 0 <= m < |s.msgs| && s.msgs[m].body == Some(t) && Deliverable(s.attempts, s.msgs[m], m, cfg.redriveLimit)
  }

  /** A pending task whose message was published can be delivered, and the DLQ holds only settled tasks. */
  ghost predicate NoneStranded(cfg: Config, s: State) {
    && (forall t :: t in s.rows && s.rows[t].status == Pending && t in s.creators && s.creators[t].Accepted? ==>
          CanBeDelivered(cfg, s, t))
    && (forall m :: 0 <= m < |s.msgs| && s.msgs[m].place.Dead? && s.msgs[m].body.Some? && s.msgs[m].body.value in s.rows ==>
          Settled(s.rows[s.msgs[m].body.value]))
  }

  // ---------------------------------------------------------------------------
  // The invariant of quiet runs
  // ---------------------------------------------------------------------------

  /** Each message names its own task, whose request is past its publish. */
  ghost predicate OneMessageEach(s: State) {
    && (forall m :: 0 <= m < |s.msgs| ==>
          && s.msgs[m].body.Some?
          && s.msgs[m].body.value in s.rows
          && s.msgs[m].body.value in s.creators
          && s.creators[s.msgs[m].body.value] != Publishing)
    && (forall m, n :: 0 <= m < |s.msgs| && 0 <= n < |s.msgs| && s.msgs[m].body == s.msgs[n].body ==> m == n)
    && (forall t :: t in s.creators && s.creators[t] == Publishing ==> t in s.rows && s.rows[t].status == Pending)
  }

  predicate LiveAttempt(at: Attempt, msgs: seq<Message>, limit: nat) {
    Live(at) && at.msg < |msgs| ==>
      && at.receiveCount == msgs[at.msg].receives
      && (msgs[at.msg].place.InFlight? || (msgs[at.msg].place.Gone? && at.pc.Completing?))
      && (at.pc.Reverting? ==> at.receiveCount < limit)
  }

  /** A message has at most one live attempt, which has its latest receive count. */
  ghost predicate LiveOnce(attempts: seq<Attempt>, msgs: seq<Message>, limit: nat) {
    && (forall a :: 0 <= a < |attempts| ==> LiveAttempt(attempts[a], msgs, limit))
    && (forall a, b | 0 <= a < |attempts| && 0 <= b < |attempts| && Live(attempts[a]) && Live(attempts[b]) ::
          attempts[a].msg == attempts[b].msg ==> a == b)
  }

  ghost predicate HeldVia(attempts: seq<Attempt>, m: nat) {
    exists a :: 0 <= a < |attempts| && attempts[a].msg == m && Holding(attempts[a])
  }

  ghost predicate MessageOk(attempts: seq<Attempt>, msg: Message, m: nat, r: Row, limit: nat) {
    && (r.status == Pending ==> Deliverable(attempts, msg, m, limit))
    && (r.status == Processing ==> HeldVia(attempts, m))
    && (msg.place.Dead? ==> Settled(r))
    && (msg.place.Gone? ==> r.status != Pending)
  }

  ghost predicate MessagesOk(s: State, limit: nat)
    requires OneMessageEach(s)
  {
    forall m :: 0 <= m < |s.msgs| ==> MessageOk(s.attempts, s.msgs[m], m, s.rows[s.msgs[m].body.value], limit)
  }

  ghost predicate Quiet(cfg: Config, s: State) {
    && Core(s) && Exclusive(s)
    && OneMessageEach(s)
    && LiveOnce(s.attempts, s.msgs, cfg.redriveLimit)
    && MessagesOk(s, cfg.redriveLimit)
  }

  // --- the API --------------------------------------------------------------------

  lemma ApiKeepsOneMessage(s: State, t: TaskId, step: ApiStep)
    requires OneMessageEach(s)
    ensures OneMessageEach(ApplyApi(s, t, step))
  {
  }

  /** A request fails rows, never changes them otherwise, and sends only while its row is pending. */
  lemma ApiFrame(s: State, t: TaskId, step: ApiStep)
    requires OneMessageEach(s)
    ensures
      var s' := ApplyApi(s, t, step);
      && s'.attempts == s.attempts
      && (forall u :: u in s.rows ==> u in s'.rows && (s'.rows[u] == s.rows[u] || s'.rows[u].status == Failed))
      && (s'.msgs == s.msgs
          || (s'.msgs == s.msgs + [Message(Some(t), 0, Visible)] && t in s'.rows && s'.rows[t].status == Pending))
  {
  }

  lemma FailedIsOk(attempts: seq<Attempt>, msg: Message, m: nat, r: Row, r': Row, limit: nat)
    requires MessageOk(attempts, msg, m, r, limit) && (r' == r || r'.status == Failed)
    ensures MessageOk(attempts, msg, m, r', limit)
  {
  }

  lemma NewMessageIsOk(attempts: seq<Attempt>, t: TaskId, m: nat, r: Row, limit: nat)
    requires r.status == Pending && limit > 0
    ensures MessageOk(attempts, Message(Some(t), 0, Visible), m, r, limit)
  {
  }

  lemma ApiKeepsQuiet(cfg: Config, s: State, t: TaskId, step: ApiStep)
    requires Quiet(cfg, s) && cfg.redriveLimit > 0
    ensures
      var s' := ApplyApi(s, t, step);
      OneMessageEach(s') && LiveOnce(s'.attempts, s'.msgs, cfg.redriveLimit) && MessagesOk(s', cfg.redriveLimit)
  {
    var s' := ApplyApi(s, t, step);
    ApiFrame(s, t, step);
    ApiKeepsOneMessage(s, t, step);
    hide ApplyApi, MessageOk, Exclusive;
    forall a | 0 <= a < |s'.attempts| ensures LiveAttempt(s'.attempts[a], s'.msgs, cfg.redriveLimit) {
      assert LinkedAttempt(s.attempts[a], s.msgs);
      assert LiveAttempt(s.attempts[a], s.msgs, cfg.redriveLimit);
    }
    forall m | 0 <= m < |s'.msgs|
      ensures MessageOk(s'.attempts, s'.msgs[m], m, s'.rows[s'.msgs[m].body.value], cfg.redriveLimit)
    {
      if m < |s.msgs| {
        FailedIsOk(s.attempts, s.msgs[m], m, s.rows[s.msgs[m].body.value], s'.rows[s.msgs[m].body.value], cfg.redriveLimit);
      } else {
        NewMessageIsOk(s.attempts, t, m, s'.rows[t], cfg.redriveLimit);
      }
    }
  }

  // --- the queue --------------------------------------------------------------------

  /** Nobody works on a visible message, so its task is not being processed. */
  lemma VisibleIsIdle(cfg: Config, s: State, m: nat)
    requires Quiet(cfg, s) && m < |s.msgs| && s.msgs[m].place.Visible?
    ensures forall a :: 0 <= a < |s.attempts| ==> !WorksOn(s.attempts[a], m)
    ensures s.rows[s.msgs[m].body.value].status != Processing
    ensures s.rows[s.msgs[m].body.value].status == Pending ==> s.msgs[m].receives < cfg.redriveLimit
  {
    forall a | 0 <= a < |s.attempts| ensures !WorksOn(s.attempts[a], m) {
      assert LiveAttempt(s.attempts[a], s.msgs, cfg.redriveLimit);
    }
    assert MessageOk(s.attempts, s.msgs[m], m, s.rows[s.msgs[m].body.value], cfg.redriveLimit);
    if HeldVia(s.attempts, m) {
      HolderWorks(s.attempts, m);
    }
  }

  lemma HolderWorks(attempts: seq<Attempt>, m: nat)
    requires HeldVia(attempts, m)
    ensures exists a :: 0 <= a < |attempts| && WorksOn(attempts[a], m)
  {
    var a :| 0 <= a < |attempts| && attempts[a].msg == m && Holding(attempts[a]);
    assert WorksOn(attempts[a], m);
  }

  /** Growing the attempts keeps what is known about a message. */
  lemma MessageOkGrows(attempts: seq<Attempt>, attempts': seq<Attempt>, msg: Message, m: nat, r: Row, limit: nat)
    requires MessageOk(attempts, msg, m, r, limit)
    requires |attempts| <= |attempts'| && forall a :: 0 <= a < |attempts| ==> attempts'[a] == attempts[a]
    ensures MessageOk(attempts', msg, m, r, limit)
  {
    if HeldVia(attempts, m) {
      var a :| 0 <= a < |attempts| && attempts[a].msg == m && Holding(attempts[a]);
      assert attempts'[a].msg == m && Holding(attempts'[a]);
    }
    if exists a :: 0 <= a < |attempts| && WorksOn(attempts[a], m) && attempts[a].pc.Received? {
      var a :| 0 <= a < |attempts| && WorksOn(attempts[a], m) && attempts[a].pc.Received?;
      assert WorksOn(attempts'[a], m) && attempts'[a].pc.Received?;
    }
  }

  lemma DeliverKeepsQuiet(cfg: Config, s: State, m: nat, msg: Message, at: Attempt)
    requires Quiet(cfg, s) && m < |s.msgs| && s.msgs[m].place.Visible?
    requires msg == s.msgs[m].(receives := s.msgs[m].receives + 1, place := InFlight)
    requires at.msg == m && at.pc.Received? && at.receiveCount == msg.receives
    ensures
      var s' := s.(msgs := s.msgs[m := msg], attempts := s.attempts + [at]);
      OneMessageEach(s') && LiveOnce(s'.attempts, s'.msgs, cfg.redriveLimit) && MessagesOk(s', cfg.redriveLimit)
  {
    hide Core, Exclusive;
    VisibleIsIdle(cfg, s, m);
    var s' := s.(msgs := s.msgs[m := msg], attempts := s.attempts + [at]);
    assert OneMessageEach(s');
    forall a | 0 <= a < |s'.attempts| ensures LiveAttempt(s'.attempts[a], s'.msgs, cfg.redriveLimit) {
      if a < |s.attempts| {
        assert LiveAttempt(s.attempts[a], s.msgs, cfg.redriveLimit) && !WorksOn(s.attempts[a], m);
      }
    }
    forall n | 0 <= n < |s'.msgs|
      ensures MessageOk(s'.attempts, s'.msgs[n], n, s'.rows[s'.msgs[n].body.value], cfg.redriveLimit)
    {
      if n == m {
        assert WorksOn(s'.attempts[|s.attempts|], m);
      } else {
        MessageOkGrows(s.attempts, s'.attempts, s.msgs[n], n, s.rows[s.msgs[n].body.value], cfg.redriveLimit);
      }
    }
  }

  lemma MoveKeepsQuiet(cfg: Config, s: State, m: nat, place: Place)
    requires Quiet(cfg, s) && m < |s.msgs|
    requires forall a :: 0 <= a < |s.attempts| ==> !WorksOn(s.attempts[a], m)
    requires
      || (place.Visible? && s.msgs[m].place.InFlight?)
      || (place.Dead? && s.msgs[m].place.Visible? && s.msgs[m].receives >= cfg.redriveLimit)
    ensures
      var s' := s.(msgs := s.msgs[m := s.msgs[m].(place := place)]);
      OneMessageEach(s') && LiveOnce(s'.attempts, s'.msgs, cfg.redriveLimit) && MessagesOk(s', cfg.redriveLimit)
  {
    var s' := s.(msgs := s.msgs[m := s.msgs[m].(place := place)]);
    assert OneMessageEach(s');
    if s.msgs[m].place.Visible? {
      VisibleIsIdle(cfg, s, m);
    }
    forall a | 0 <= a < |s'.attempts| ensures LiveAttempt(s'.attempts[a], s'.msgs, cfg.redriveLimit) {
      assert LiveAttempt(s.attempts[a], s.msgs, cfg.redriveLimit) && !WorksOn(s.attempts[a], m);
    }
    forall n | 0 <= n < |s'.msgs|
      ensures MessageOk(s'.attempts, s'.msgs[n], n, s'.rows[s'.msgs[n].body.value], cfg.redriveLimit)
    {
      assert MessageOk(s.attempts, s.msgs[n], n, s.rows[s.msgs[n].body.value], cfg.redriveLimit);
    }
  }

  lemma QueueKeepsQuiet(cfg: Config, s: State, m: nat, step: QueueStep)
    requires Quiet(cfg, s) && QuietStep(s, Queue(m, step))
    ensures
      var s' := ApplyQueue(cfg, s, m, step);
      OneMessageEach(s') && LiveOnce(s'.attempts, s'.msgs, cfg.redriveLimit) && MessagesOk(s', cfg.redriveLimit)
  {
    hide OneMessageEach, LiveOnce, MessagesOk, Core, Exclusive;
    if m < |s.msgs| {
      match step
      case Receive(trace) =>
        if s.msgs[m].place.Visible? && TraceId(trace) {
          if s.msgs[m].receives >= cfg.redriveLimit {
            VisibleIsIdle(cfg, s, m);
            MoveKeepsQuiet(cfg, s, m, Dead);
          } else {
            var msg := s.msgs[m].(receives := s.msgs[m].receives + 1, place := InFlight);
            DeliverKeepsQuiet(cfg, s, m, msg, Attempt(m, msg.body, msg.receives, trace, false, Received));
          }
        }
      case Expire =>
        if s.msgs[m].place.InFlight? {
          MoveKeepsQuiet(cfg, s, m, Visible);
        }
    }
  }

  // --- the worker ---------------------------------------------------------------------

  /** What a quiet step of an attempt does to its own message and task. */
  lemma QuietDecision(cfg: Config, at: Attempt, claimable: bool, step: WorkStep)
    requires cfg.workerLimit <= cfg.redriveLimit || !cfg.aiEnabled
    requires QuietWork(step) && at.task.Some? && Decide(cfg, at, claimable, step).Some?
    ensures
      var e := Decide(cfg, at, claimable, step).value;
      var at' := at.(pc := e.pc, won := e.won);
      && Live(at) && !at'.pc.Crashed?
      && (e.write.Some? ==> e.fault.NoFault?)
      && (e.write.None? ==> (Holding(at) <==> Holding(at')) && (at.pc.Received? <==> at'.pc.Received?))
      && (e.write == Some(SetProcessing) ==> at.pc.Received? && (claimable ==> Holding(at')))
      && (e.write == Some(RevertToPending) ==> at.pc.Reverting?)
      && (e.write.Some? && e.write.value.SetProcessing? ==> e.write == Some(SetProcessing))
      && (e.write.Some? && e.write.value.RevertToPending? ==> e.write == Some(RevertToPending))
      && (at'.pc.Reverting? && !at.pc.Reverting? ==> at.receiveCount < cfg.redriveLimit)
      && (at'.pc.Completing? <==> at.pc.Deleting?) && (at.pc.Completing? ==> !Live(at'))
      && (e.delete ==> at'.pc.Completing?)
  {
  }

  lemma WorkKeepsLiveOnce(cfg: Config, s: State, a: nat, e: Effect, step: WorkStep)
    requires cfg.workerLimit <= cfg.redriveLimit || !cfg.aiEnabled
    requires Quiet(cfg, s) && a < |s.attempts| && s.attempts[a].task.Some? && QuietWork(step)
    requires Decide(cfg, s.attempts[a], Claimable(s, s.attempts[a].task), step) == Some(e)
    ensures LiveOnce(Perform(s, a, e).attempts, Perform(s, a, e).msgs, cfg.redriveLimit)
  {
    hide Decide, Exclusive, MessagesOk;
    var at := s.attempts[a];
    var s' := Perform(s, a, e);
    QuietDecision(cfg, at, Claimable(s, at.task), step);
    assert LinkedAttempt(at, s.msgs);
    forall b | 0 <= b < |s'.attempts| ensures LiveAttempt(s'.attempts[b], s'.msgs, cfg.redriveLimit) {
      assert LiveAttempt(s.attempts[b], s.msgs, cfg.redriveLimit);
    }
  }

  // The message of the attempt that moves, by the kind of row update it makes.

  lemma MoveKeepsOwnMessage(attempts: seq<Attempt>, a: nat, at': Attempt, msg: Message, msg': Message, r: Row, limit: nat)
    requires a < |attempts| && at'.msg == attempts[a].msg
    requires MessageOk(attempts, msg, at'.msg, r, limit)
    requires Holding(attempts[a]) <==> Holding(at')
    requires WorksOn(attempts[a], at'.msg) && attempts[a].pc.Received? ==> WorksOn(at', at'.msg) && at'.pc.Received?
    requires msg' == msg || (msg' == msg.(place := Gone) && r.status == Processing)
    ensures MessageOk(attempts[a := at'], msg', at'.msg, r, limit)
  {
    var attempts' := attempts[a := at'];
    if HeldVia(attempts, at'.msg) {
      var b :| 0 <= b < |attempts| && attempts[b].msg == at'.msg && Holding(attempts[b]);
      assert attempts'[b].msg == at'.msg && Holding(attempts'[b]);
    }
    if exists b :: 0 <= b < |attempts| && WorksOn(attempts[b], at'.msg) && attempts[b].pc.Received? {
      var b :| 0 <= b < |attempts| && WorksOn(attempts[b], at'.msg) && attempts[b].pc.Received?;
      assert WorksOn(attempts'[b], at'.msg) && attempts'[b].pc.Received?;
    }
  }

  lemma ClaimKeepsOwnMessage(cfg: Config, s: State, a: nat, at': Attempt, r': Row)
    requires Quiet(cfg, s) && a < |s.attempts|
    requires
      var at := s.attempts[a];
      && at.pc.Received? && at'.msg == at.msg < |s.msgs| && at'.task == at.task == s.msgs[at.msg].body
      && var r := s.rows[at.task.value];
         if r.status == Pending then r'.status == Processing && Holding(at') else r' == r
    ensures MessageOk(s.attempts[a := at'], s.msgs[at'.msg], at'.msg, r', cfg.redriveLimit)
  {
    var at := s.attempts[a];
    var m := at.msg;
    var r := s.rows[at.task.value];
    assert LiveAttempt(at, s.msgs, cfg.redriveLimit);
    assert MessageOk(s.attempts, s.msgs[m], m, r, cfg.redriveLimit);
    if r.status == Pending {
      assert s.attempts[a := at'][a] == at';
    } else {
      // a holder via `m` would be a second live attempt on it
      assert forall b :: 0 <= b < |s.attempts| && WorksOn(s.attempts[b], m) ==> b == a;
      assert forall b :: 0 <= b < |s.attempts| && s.attempts[b].msg == m && Holding(s.attempts[b]) ==> WorksOn(s.attempts[b], m);
    }
  }

  lemma FinishKeepsOwnMessage(cfg: Config, s: State, a: nat, at': Attempt, r': Row)
    requires Quiet(cfg, s) && a < |s.attempts|
    requires
      var at := s.attempts[a];
      && Holding(at) && at'.msg == at.msg < |s.msgs| && at.task == s.msgs[at.msg].body
      && (r'.status == Pending ==> at.pc.Reverting?)
      && r'.status != Processing
    ensures MessageOk(s.attempts[a := at'], s.msgs[at'.msg], at'.msg, r', cfg.redriveLimit)
  {
    assert LiveAttempt(s.attempts[a], s.msgs, cfg.redriveLimit);
  }

  lemma OwnMessageOk(cfg: Config, s: State, a: nat, e: Effect, step: WorkStep)
    requires cfg.workerLimit <= cfg.redriveLimit || !cfg.aiEnabled
    requires Quiet(cfg, s) && a < |s.attempts| && s.attempts[a].task.Some? && QuietWork(step)
    requires Decide(cfg, s.attempts[a], Claimable(s, s.attempts[a].task), step) == Some(e)
    requires s.attempts[a].msg < |s.msgs| && s.msgs[s.attempts[a].msg].body == s.attempts[a].task
    requires s.attempts[a].task.value in Perform(s, a, e).rows
    ensures
      var m := s.attempts[a].msg;
      MessageOk(Perform(s, a, e).attempts, Perform(s, a, e).msgs[m], m, Perform(s, a, e).rows[s.attempts[a].task.value], cfg.redriveLimit)
  {
    hide Decide, LiveOnce, MessageOk;
    var at := s.attempts[a];
    var at' := at.(pc := e.pc, won := e.won);
    var t := at.task.value;
    var s' := Perform(s, a, e);
    QuietDecision(cfg, at, Claimable(s, at.task), step);
    DecideHolds(cfg, at, Claimable(s, at.task), step);
    DecideFacts(cfg, at, Claimable(s, at.task), step);
    assert ExclusiveFor(s, t);
    assert Holding(at) ==> InProcess(s.rows, t);
    if e.write.None? {
      assert MessageOk(s.attempts, s.msgs[at.msg], at.msg, s.rows[t], cfg.redriveLimit);
      MoveKeepsOwnMessage(s.attempts, a, at', s.msgs[at.msg], s'.msgs[at.msg], s.rows[t], cfg.redriveLimit);
    } else if e.write.value.SetProcessing? {
      ClaimKeepsOwnMessage(cfg, s, a, at', s'.rows[t]);
    } else {
      FinishKeepsOwnMessage(cfg, s, a, at', s'.rows[t]);
    }
  }

  lemma OtherMessageOk(cfg: Config, s: State, a: nat, e: Effect, n: nat)
    requires Quiet(cfg, s) && a < |s.attempts| && s.attempts[a].task.Some? && n < |s.msgs| && n != s.attempts[a].msg
    requires s.attempts[a].msg < |s.msgs| && s.msgs[s.attempts[a].msg].body == s.attempts[a].task
    ensures
      var s' := Perform(s, a, e);
      var u := s.msgs[n].body.value;
      && u in s'.rows && |s'.msgs| == |s.msgs|
      && MessageOk(s'.attempts, s'.msgs[n], n, s'.rows[u], cfg.redriveLimit)
  {
    var s' := Perform(s, a, e);
    var u := s.msgs[n].body.value;
    assert u != s.attempts[a].task.value;
    assert s'.rows[u] == s.rows[u] && s'.msgs[n] == s.msgs[n];
    assert MessageOk(s.attempts, s.msgs[n], n, s.rows[u], cfg.redriveLimit);
    assert forall b :: 0 <= b < |s.attempts| && b != a ==> s'.attempts[b] == s.attempts[b];
    if HeldVia(s.attempts, n) {
      var b :| 0 <= b < |s.attempts| && s.attempts[b].msg == n && Holding(s.attempts[b]);
      assert s'.attempts[b] == s.attempts[b];
    }
    if exists b :: 0 <= b < |s.attempts| && WorksOn(s.attempts[b], n) && s.attempts[b].pc.Received? {
      var b :| 0 <= b < |s.attempts| && WorksOn(s.attempts[b], n) && s.attempts[b].pc.Received?;
      assert s'.attempts[b] == s.attempts[b];
    }
  }

  lemma WorkKeepsOneMessage(s: State, a: nat, e: Effect)
    requires Core(s) && OneMessageEach(s) && a < |s.attempts| && s.attempts[a].task.Some?
    ensures OneMessageEach(Perform(s, a, e))
  {
    var at := s.attempts[a];
    var s' := Perform(s, a, e);
    assert LinkedAttempt(at, s.msgs);
    assert s.creators[at.task.value] != Publishing;
    if e.write.Some? {
      ExecFrame(s.rows, at.task.value, e.write.value, s.clock);
    }
    assert Extends(s.msgs, s'.msgs) && |s'.msgs| == |s.msgs|;
  }

  lemma WorkKeepsQuiet(cfg: Config, s: State, a: nat, step: WorkStep)
    requires cfg.workerLimit <= cfg.redriveLimit || !cfg.aiEnabled
    requires Quiet(cfg, s) && a < |s.attempts| && QuietWork(step)
    ensures
      var s' := ApplyWork(cfg, s, a, step);
      OneMessageEach(s') && LiveOnce(s'.attempts, s'.msgs, cfg.redriveLimit) && MessagesOk(s', cfg.redriveLimit)
  {
    hide Decide, Exclusive, MessageOk;
    var at := s.attempts[a];
    assert LinkedAttempt(at, s.msgs);
    if Decide(cfg, at, Claimable(s, at.task), step).Some? {
      var e := Decide(cfg, at, Claimable(s, at.task), step).value;
      var s' := Perform(s, a, e);
      assert ApplyWork(cfg, s, a, step) == s';
      WorkKeepsOneMessage(s, a, e);
      WorkKeepsLiveOnce(cfg, s, a, e, step);
      forall n | 0 <= n < |s'.msgs|
        ensures MessageOk(s'.attempts, s'.msgs[n], n, s'.rows[s'.msgs[n].body.value], cfg.redriveLimit)
      {
        if n == at.msg {
          OwnMessageOk(cfg, s, a, e, step);
        } else {
          OtherMessageOk(cfg, s, a, e, n);
        }
      }
    }
  }

  // --- the operator -------------------------------------------------------------------

  /** Emptying (part of) the DLQ only touches messages of settled tasks. */
  lemma DlqKeepsQuiet(cfg: Config, s: State, step: OperatorStep)
    requires Quiet(cfg, s) && (step.DlqDelete? || step.PurgeDlq?)
    ensures
      var s' := ApplyOperator(s, step);
      OneMessageEach(s') && LiveOnce(s'.attempts, s'.msgs, cfg.redriveLimit) && MessagesOk(s', cfg.redriveLimit)
  {
    hide Core, Exclusive, Deliverable, HeldVia;
    var s' := ApplyOperator(s, step);
    assert |s'.msgs| == |s.msgs|;
    assert forall m :: 0 <= m < |s.msgs| ==>
      s'.msgs[m] == s.msgs[m] || (s.msgs[m].place.Dead? && s'.msgs[m] == s.msgs[m].(place := Gone));
    assert s' == s.(msgs := s'.msgs, discarded := s'.discarded);
    assert OneMessageEach(s');
    forall a | 0 <= a < |s'.attempts| ensures LiveAttempt(s'.attempts[a], s'.msgs, cfg.redriveLimit) {
      assert LiveAttempt(s.attempts[a], s.msgs, cfg.redriveLimit);
    }
    forall n | 0 <= n < |s'.msgs|
      ensures MessageOk(s'.attempts, s'.msgs[n], n, s'.rows[s'.msgs[n].body.value], cfg.redriveLimit)
    {
      assert MessageOk(s.attempts, s.msgs[n], n, s.rows[s.msgs[n].body.value], cfg.redriveLimit);
    }
  }

  // --- runs ---------------------------------------------------------------------------

  lemma StepKeepsQuiet(cfg: Config, s: State, step: Step)
    requires cfg.workerLimit <= cfg.redriveLimit || !cfg.aiEnabled
    requires Quiet(cfg, s) && QuietStep(s, step) && cfg.redriveLimit > 0
    ensures Quiet(cfg, Apply(cfg, s, step))
  {
    StepKeepsCore(cfg, s, step);
    StepKeepsExclusive(cfg, s, step);
    match step
    case Api(t, api) => ApiKeepsQuiet(cfg, s, t, api);
    case Queue(m, queue) => QueueKeepsQuiet(cfg, s, m, queue);
    case Work(a, work) =>
      if a < |s.attempts| {
        WorkKeepsQuiet(cfg, s, a, work);
      }
    case Operator(op) => DlqKeepsQuiet(cfg, s, op);
    case Tick => TickKeepsQuiet(cfg, s);
  }

  lemma TickKeepsQuiet(cfg: Config, s: State)
    requires Quiet(cfg, s)
    ensures
      var s' := s.(clock := s.clock + 1);
      OneMessageEach(s') && LiveOnce(s'.attempts, s'.msgs, cfg.redriveLimit) && MessagesOk(s', cfg.redriveLimit)
  {
    assert OneMessageEach(s.(clock := s.clock + 1));
  }

  lemma {:induction false} QuietRunsStayQuiet(cfg: Config, steps: seq<Step>)
    requires cfg.workerLimit <= cfg.redriveLimit || !cfg.aiEnabled
    requires QuietRun(cfg, INIT, steps) && cfg.redriveLimit > 0
    ensures Quiet(cfg, Run(cfg, INIT, steps))
  {
    if steps == [] {
      assert Quiet(cfg, INIT);
    } else {
      QuietRunsStayQuiet(cfg, steps[..|steps| - 1]);
      StepKeepsQuiet(cfg, Run(cfg, INIT, steps[..|steps| - 1]), steps[|steps| - 1]);
    }
  }

  // ---------------------------------------------------------------------------
  // A worker that gives up later than the queue strands tasks
  // ---------------------------------------------------------------------------

  const LOST: TaskId := "lost"

  const SUBMISSION := [Api(LOST, Insert("input", None)), Api(LOST, Publish(true, true, ""))]

  /** The task is pending and its message visible, after `k` deliveries that all have ended. */
  ghost predicate Waiting(s: State, k: nat) {
    && LOST in s.rows && s.rows[LOST].status == Pending
    && s.msgs == [Message(Some(LOST), k, Visible)]
    && |s.attempts| == k
    && (forall a :: 0 <= a < k ==> !Live(s.attempts[a]))
  }

  lemma QuietSnoc(cfg: Config, s: State, steps: seq<Step>, step: Step)
    requires QuietRun(cfg, s, steps) && QuietStep(Run(cfg, s, steps), step)
    ensures QuietRun(cfg, s, steps + [step]) && Run(cfg, s, steps + [step]) == Apply(cfg, Run(cfg, s, steps), step)
  {
    assert (steps + [step])[..|steps|] == steps;
  }

  // One delivery whose AI call fails: claimed, reverted, released.

  predicate InRound(pc: Pc) { pc.Received? || pc.Claimed? || pc.Reverting? || pc.Releasing? }

  function RoundStep(pc: Pc): WorkStep
    requires InRound(pc)
  {
    match pc
    case Received => Claim(NoFault)
    case Claimed => Infer(TransportError)
    case Reverting => Revert(NoFault)
    case Releasing => Release
  }

  function RoundNext(pc: Pc): Pc
    requires InRound(pc)
  {
    match pc
    case Received => Claimed
    case Claimed => Reverting
    case Reverting => Releasing
    case Releasing => Done
  }

  /** Attempt `k` is at `pc` of its round, and every earlier attempt has ended. */
  ghost predicate Underway(s: State, k: nat, pc: Pc) {
    && LOST in s.rows
    && s.rows[LOST].status == (if pc.Claimed? || pc.Reverting? then Processing else Pending)
    && s.msgs == [Message(Some(LOST), k + 1, InFlight)]
    && |s.attempts| == k + 1
    && (forall a :: 0 <= a < k ==> !Live(s.attempts[a]))
    && s.attempts[k].pc == pc && s.attempts[k].task == Some(LOST) && s.attempts[k].receiveCount == k + 1
  }

  lemma RoundStarts(cfg: Config, s: State, k: nat)
    requires Waiting(s, k) && k < cfg.redriveLimit
    ensures Underway(Apply(cfg, s, Queue(0, Receive("trace"))), k, Received)
  {
  }

  lemma RoundAdvances(cfg: Config, s: State, k: nat, pc: Pc)
    requires Underway(s, k, pc) && InRound(pc) && cfg.aiEnabled && k + 1 < cfg.workerLimit
    ensures Underway(Apply(cfg, s, Work(k, RoundStep(pc))), k, RoundNext(pc))
  {
    var at := s.attempts[k];
    var e := Decide(cfg, at, Claimable(s, at.task), RoundStep(pc)).value;
    assert e.pc == RoundNext(pc);
    assert Perform(s, k, e).attempts[k] == at.(pc := e.pc, won := e.won);
  }

  lemma RoundEnds(cfg: Config, s: State, k: nat)
    requires Underway(s, k, Done)
    ensures QuietStep(s, Queue(0, Expire)) && Waiting(Apply(cfg, s, Queue(0, Expire)), k + 1)
  {
  }

  lemma {:induction false} FinishRound(cfg: Config, before: seq<Step>, k: nat, pc: Pc) returns (steps: seq<Step>)
    requires QuietRun(cfg, INIT, before) && Underway(Run(cfg, INIT, before), k, pc)
    requires (InRound(pc) || pc.Done?) && cfg.aiEnabled && k + 1 < cfg.workerLimit
    ensures QuietRun(cfg, INIT, steps) && Waiting(Run(cfg, INIT, steps), k + 1)
    decreases if pc.Received? then 4 else if pc.Claimed? then 3 else if pc.Reverting? then 2 else if pc.Releasing? then 1 else 0
  {
    var s := Run(cfg, INIT, before);
    if pc.Done? {
      RoundEnds(cfg, s, k);
      QuietSnoc(cfg, INIT, before, Queue(0, Expire));
      steps := before + [Queue(0, Expire)];
    } else {
      RoundAdvances(cfg, s, k, pc);
      QuietSnoc(cfg, INIT, before, Work(k, RoundStep(pc)));
      steps := FinishRound(cfg, before + [Work(k, RoundStep(pc))], k, RoundNext(pc));
    }
  }

  lemma {:induction false} Rounds(cfg: Config, k: nat) returns (steps: seq<Step>)
    requires cfg.aiEnabled && 0 < cfg.redriveLimit < cfg.workerLimit && k <= cfg.redriveLimit
    ensures QuietRun(cfg, INIT, steps) && Waiting(Run(cfg, INIT, steps), k)
  {
    if k == 0 {
      QuietSnoc(cfg, INIT, [], SUBMISSION[0]);
      QuietSnoc(cfg, INIT, [] + [SUBMISSION[0]], SUBMISSION[1]);
      steps := [] + [SUBMISSION[0]] + [SUBMISSION[1]];
    } else {
      var before := Rounds(cfg, k - 1);
      RoundStarts(cfg, Run(cfg, INIT, before), k - 1);
      QuietSnoc(cfg, INIT, before, Queue(0, Receive("trace")));
      steps := FinishRound(cfg, before + [Queue(0, Receive("trace"))], k - 1, Received);
    }
  }

  lemma {:induction false} LateWorkerStrands(cfg: Config) returns (steps: seq<Step>)
    requires cfg.aiEnabled && 0 < cfg.redriveLimit < cfg.workerLimit
    ensures QuietRun(cfg, INIT, steps) && !NoneStranded(cfg, Run(cfg, INIT, steps))
  {
    var rounds := Rounds(cfg, cfg.redriveLimit);
    var s := Run(cfg, INIT, rounds);
    QuietSnoc(cfg, INIT, rounds, Queue(0, Receive("trace")));
    steps := rounds + [Queue(0, Receive("trace"))];
    var s' := Run(cfg, INIT, steps);
    assert s'.msgs[0].place.Dead? && s'.rows == s.rows;
  }

  lemma QuietStrandsNone(cfg: Config, s: State)
    requires Quiet(cfg, s) && AllAccounted(s)
    ensures NoneStranded(cfg, s)
  {
    hide Core, Exclusive, LiveOnce, Deliverable, HeldVia;
    forall t | t in s.rows && s.rows[t].status == Pending && t in s.creators && s.creators[t].Accepted?
      ensures CanBeDelivered(cfg, s, t)
    {
      var m :| -1 < m < |s.msgs| && 0 <= m && s.msgs[m].body == Some(t);
      assert MessageOk(s.attempts, s.msgs[m], m, s.rows[t], cfg.redriveLimit);
    }
    forall m | 0 <= m < |s.msgs| && s.msgs[m].place.Dead? ensures Settled(s.rows[s.msgs[m].body.value]) {
      assert MessageOk(s.attempts, s.msgs[m], m, s.rows[s.msgs[m].body.value], cfg.redriveLimit);
    }
  }

  /**
   No quiet run strands a pending task, or leaves an unsettled one in the DLQ, exactly when the
   worker's limit is at most the queue's redrive limit (or there is no AI runtime to fail).
   */
  lemma NoStrandingExactly(cfg: Config)
    requires cfg.redriveLimit > 0
    ensures (forall steps :: QuietRun(cfg, INIT, steps) ==> NoneStranded(cfg, Run(cfg, INIT, steps)))
        <==> (cfg.workerLimit <= cfg.redriveLimit || !cfg.aiEnabled)
  {
    if cfg.workerLimit <= cfg.redriveLimit || !cfg.aiEnabled {
      forall steps | QuietRun(cfg, INIT, steps) ensures NoneStranded(cfg, Run(cfg, INIT, steps)) {
        QuietRunsStayQuiet(cfg, steps);
        RunKeepsAccounted(cfg, steps);
        QuietStrandsNone(cfg, Run(cfg, INIT, steps));
      }
    } else {
      var steps := LateWorkerStrands(cfg);
    }
  }

  /** The deployed limits are 3 and 3. */
  lemma {:induction false} DeployedLimitsStrandNothing(steps: seq<Step>)
    requires QuietRun(DEPLOYED_LIMITS, INIT, steps)
    ensures NoneStranded(DEPLOYED_LIMITS, Run(DEPLOYED_LIMITS, INIT, steps))
  {
    NoStrandingExactly(DEPLOYED_LIMITS);
  }
}
