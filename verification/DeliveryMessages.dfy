/** No silent loss: what happens to the messages. */
module DeliveryMessages {
  import opened Common
  import opened TaskRows
  import opened Delivery
  import opened DeliverySafety

  // ---------------------------------------------------------------------------
  // No silent loss
  // ---------------------------------------------------------------------------

  ghost predicate HasArtifact(objects: map<string, Artifact>, t: TaskId) {
    exists k :: k in objects && objects[k].task == t
  }

  /** A message after `m` has the same body. */
  ghost predicate Resent(msgs: seq<Message>, m: int, body: Option<TaskId>) {
    exists n :: m < n < |msgs| && 0 <= n && msgs[n].body == body
  }

  /** The position of the message a retry names; before all messages when it names none. */
  function From(dead: Option<nat>): int {
    if dead.Some? then dead.value else -1
  }

  /** A deleted message leaves behind its artifact, a later message, or an operator's decision. */
  ghost predicate Accounted(s: State, m: nat)
    requires m < |s.msgs|
  {
    s.msgs[m].place.Gone? && s.msgs[m].body.Some? ==>
      var t := s.msgs[m].body.value;
      HasArtifact(s.objects, t) || t in s.discarded || Resent(s.msgs, m, s.msgs[m].body)
  }

  ghost predicate AllAccounted(s: State) {
    && (forall m :: 0 <= m < |s.msgs| ==> Accounted(s, m))
    && (forall r :: 0 <= r < |s.retries| && s.retries[r].pc.DeletingDead? ==>
          Resent(s.msgs, From(s.retries[r].dead), s.retries[r].body))
    && (forall t :: t in s.creators && s.creators[t].Accepted? ==> Resent(s.msgs, -1, Some(t)))
  }

  lemma ResentExtends(msgs: seq<Message>, msgs': seq<Message>, m: int, body: Option<TaskId>)
    requires Extends(msgs, msgs') && Resent(msgs, m, body)
    ensures Resent(msgs', m, body)
  {
    var n :| m < n < |msgs| && 0 <= n && msgs[n].body == body;
    assert msgs'[n].body == body;
  }

  /** Growing the store, the discarded tasks and the message list keeps messages accounted for. */
  lemma AccountedMonotone(s: State, s': State, m: nat)
    requires m < |s.msgs| && Accounted(s, m) && Extends(s.msgs, s'.msgs) && s.discarded <= s'.discarded
    requires forall t :: HasArtifact(s.objects, t) ==> HasArtifact(s'.objects, t)
    requires s'.msgs[m].place.Gone? ==> s.msgs[m].place.Gone?
    ensures Accounted(s', m)
  {
    if Resent(s.msgs, m, s.msgs[m].body) {
      ResentExtends(s.msgs, s'.msgs, m, s.msgs[m].body);
    }
  }

  /** A step that deletes no message and starts no retry keeps everything accounted for. */
  lemma NoDeletionKeepsAccounted(s: State, s': State)
    requires AllAccounted(s) && Extends(s.msgs, s'.msgs) && s.discarded <= s'.discarded && s'.objects == s.objects
    requires forall m :: 0 <= m < |s.msgs| && s'.msgs[m].place.Gone? ==> s.msgs[m].place.Gone?
    requires forall m :: |s.msgs| <= m < |s'.msgs| ==> !s'.msgs[m].place.Gone?
    requires s'.retries == s.retries
    requires forall t :: t in s'.creators && s'.creators[t].Accepted? ==>
      (t in s.creators && s.creators[t].Accepted?) || Resent(s'.msgs, -1, Some(t))
    ensures AllAccounted(s')
  {
    forall m | 0 <= m < |s'.msgs| ensures Accounted(s', m) {
      if m < |s.msgs| {
        AccountedMonotone(s, s', m);
      }
    }
    forall r | 0 <= r < |s'.retries| && s'.retries[r].pc.DeletingDead?
      ensures Resent(s'.msgs, From(s'.retries[r].dead), s'.retries[r].body)
    {
      ResentExtends(s.msgs, s'.msgs, From(s.retries[r].dead), s.retries[r].body);
    }
    forall t | t in s'.creators && s'.creators[t].Accepted? ensures Resent(s'.msgs, -1, Some(t)) {
      if t in s.creators && s.creators[t].Accepted? {
        ResentExtends(s.msgs, s'.msgs, -1, Some(t));
      }
    }
  }

  lemma ApiKeepsAccounted(s: State, t: TaskId, step: ApiStep)
    requires AllAccounted(s)
    ensures AllAccounted(ApplyApi(s, t, step))
  {
    var s' := ApplyApi(s, t, step);
    if step.Publish? && s' != s && step.sent {
      assert s'.msgs[|s.msgs|].body == Some(t);
      assert Resent(s'.msgs, -1, Some(t));
    }
    NoDeletionKeepsAccounted(s, s');
  }

  lemma QueueKeepsAccounted(cfg: Config, s: State, m: nat, step: QueueStep)
    requires AllAccounted(s)
    ensures AllAccounted(ApplyQueue(cfg, s, m, step))
  {
    QueueFrame(cfg, s, m, step);
    NoDeletionKeepsAccounted(s, ApplyQueue(cfg, s, m, step));
  }

  lemma PutKeepsArtifacts(objects: map<string, Artifact>, o: Artifact, t: TaskId)
    requires Keyed(objects) && TraceId(o.trace) && HasArtifact(objects, t)
    ensures HasArtifact(PutArtifact(objects, o), t)
  {
    var k :| k in objects && objects[k].task == t;
    if k == Key(o.trace, o.task) {
      KeyInjective(objects[k].trace, objects[k].task, o.trace, o.task);
    }
    assert k in PutArtifact(objects, o) && PutArtifact(objects, o)[k].task == t;
  }

  lemma WorkKeepsAccounted(cfg: Config, s: State, a: nat, step: WorkStep)
    requires Core(s) && AllAccounted(s) && a < |s.attempts|
    ensures AllAccounted(ApplyWork(cfg, s, a, step))
  {
    var at := s.attempts[a];
    if Decide(cfg, at, Claimable(s, at.task), step).Some? {
      var e := Decide(cfg, at, Claimable(s, at.task), step).value;
      DecideFacts(cfg, at, Claimable(s, at.task), step);
      var s' := Perform(s, a, e);
      assert LinkedAttempt(at, s.msgs);
      forall t | HasArtifact(s.objects, t) ensures HasArtifact(s'.objects, t) {
        if e.artifact.Some? {
          PutKeepsArtifacts(s.objects, e.artifact.value, t);
        }
      }
      if e.delete {
        var k := Key(at.trace, at.task.value);
        KeyInjective(s.objects[k].trace, s.objects[k].task, at.trace, at.task.value);
        assert HasArtifact(s.objects, at.task.value);
      }
      assert Extends(s.msgs, s'.msgs);
      forall m | 0 <= m < |s'.msgs| ensures Accounted(s', m) {
        if !(e.delete && m == at.msg) {
          AccountedMonotone(s, s', m);
        }
      }
      forall r | 0 <= r < |s'.retries| && s'.retries[r].pc.DeletingDead?
        ensures Resent(s'.msgs, From(s'.retries[r].dead), s'.retries[r].body)
      {
        ResentExtends(s.msgs, s'.msgs, From(s.retries[r].dead), s.retries[r].body);
      }
      forall t | t in s'.creators && s'.creators[t].Accepted? ensures Resent(s'.msgs, -1, Some(t)) {
        ResentExtends(s.msgs, s'.msgs, -1, Some(t));
      }
    }
  }

  /** What an operator step does to message `m`: if it deletes it, the deletion is accounted for. */
  lemma OperatorDeletes(s: State, step: OperatorStep, m: nat)
    requires AllAccounted(s) && m < |s.msgs|
    requires !s.msgs[m].place.Gone? && ApplyOperator(s, step).msgs[m].place.Gone?
    ensures Accounted(ApplyOperator(s, step), m)
  {
    var s' := ApplyOperator(s, step);
    OperatorExtends(s, step);
    if step.RetryDelete? && s.msgs[m].body == s.retries[step.r].body {
      ResentExtends(s.msgs, s'.msgs, m, s.msgs[m].body);
    }
  }

  lemma OperatorGrows(s: State, step: OperatorStep)
    requires AllAccounted(s)
    ensures
      var s' := ApplyOperator(s, step);
      && s.discarded <= s'.discarded
      && (forall m :: |s.msgs| <= m < |s'.msgs| ==> !s'.msgs[m].place.Gone?)
      && (forall r :: 0 <= r < |s'.retries| && s'.retries[r].pc.DeletingDead? ==>
            (r < |s.retries| && s.retries[r] == s'.retries[r])
            || (r == |s.retries| && Resent(s'.msgs, From(s'.retries[r].dead), s'.retries[r].body)))
  {
    var s' := ApplyOperator(s, step);
    if step.RetrySend? && step.acked && |s'.retries| > |s.retries| {
      assert s'.msgs[|s.msgs|].body == step.body;
    }
  }

  lemma OperatorKeepsAccounted(s: State, step: OperatorStep)
    requires AllAccounted(s)
    ensures AllAccounted(ApplyOperator(s, step))
  {
    var s' := ApplyOperator(s, step);
    OperatorFrame(s, step);
    OperatorExtends(s, step);
    OperatorGrows(s, step);
    forall m | 0 <= m < |s'.msgs| ensures Accounted(s', m) {
      if m < |s.msgs| {
        if s'.msgs[m].place.Gone? && !s.msgs[m].place.Gone? {
          OperatorDeletes(s, step, m);
        } else {
          AccountedMonotone(s, s', m);
        }
      }
    }
    forall r | 0 <= r < |s'.retries| && s'.retries[r].pc.DeletingDead?
      ensures Resent(s'.msgs, From(s'.retries[r].dead), s'.retries[r].body)
    {
      if r < |s.retries| && s.retries[r] == s'.retries[r] {
        ResentExtends(s.msgs, s'.msgs, From(s.retries[r].dead), s.retries[r].body);
      }
    }
    forall t | t in s'.creators && s'.creators[t].Accepted? ensures Resent(s'.msgs, -1, Some(t)) {
      ResentExtends(s.msgs, s'.msgs, -1, Some(t));
    }
  }

  lemma {:induction false} RunKeepsAccounted(cfg: Config, steps: seq<Step>)
    ensures AllAccounted(Run(cfg, INIT, steps))
  {
    if steps != [] {
      var s := Run(cfg, INIT, steps[..|steps| - 1]);
      RunKeepsAccounted(cfg, steps[..|steps| - 1]);
      RunKeepsCore(cfg, steps[..|steps| - 1]);
      match steps[|steps| - 1]
      case Api(t, api) => ApiKeepsAccounted(s, t, api);
      case Queue(m, queue) => QueueKeepsAccounted(cfg, s, m, queue);
      case Work(a, work) =>
        if a < |s.attempts| {
          WorkKeepsAccounted(cfg, s, a, work);
        }
      case Operator(op) => OperatorKeepsAccounted(s, op);
      case Chaos(chaos) => NoDeletionKeepsAccounted(s, ApplyChaos(s, chaos));
      case Tick => NoDeletionKeepsAccounted(s, s.(clock := s.clock + 1));
    }
  }

  /** Some message of the task is still in the main queue (visible or in flight) or in the DLQ. */
  ghost predicate Queued(msgs: seq<Message>, t: TaskId) {
    exists m :: 0 <= m < |msgs| && msgs[m].body == Some(t) && !msgs[m].place.Gone?
  }

  lemma {:induction false} FollowResends(s: State, m: nat, t: TaskId)
    requires AllAccounted(s) && m < |s.msgs| && s.msgs[m].body == Some(t)
    ensures Queued(s.msgs, t) || HasArtifact(s.objects, t) || t in s.discarded
    decreases |s.msgs| - m
  {
    assert Accounted(s, m);
    if s.msgs[m].place.Gone? && !HasArtifact(s.objects, t) && t !in s.discarded {
      var n :| m < n < |s.msgs| && s.msgs[n].body == Some(t);
      FollowResends(s, n, t);
    }
  }

  /**
   No silent loss: over every run, with crashes between any two effects of `Process` and of an
   operator retry, chaos included, an accepted task has a message in one of the queues, or its
   artifact in the store, unless an operator deleted or purged a message of it.
   */
  lemma NoSilentLoss(cfg: Config, steps: seq<Step>, t: TaskId)
    ensures
      var s := Run(cfg, INIT, steps);
      t in s.creators && s.creators[t].Accepted? ==>
        Queued(s.msgs, t) || HasArtifact(s.objects, t) || t in s.discarded
  {
    RunKeepsAccounted(cfg, steps);
    var s := Run(cfg, INIT, steps);
    if t in s.creators && s.creators[t].Accepted? {
      var m :| -1 < m < |s.msgs| && 0 <= m && s.msgs[m].body == Some(t);
      FollowResends(s, m, t);
    }
  }

  /** A purge deletes exactly what is in the queue, and records every task whose message that was. */
  lemma PurgeEmpties(cfg: Config, s: State, dlq: bool)
    ensures
      var s' := Apply(cfg, s, Operator(if dlq then PurgeDlq else PurgeMain));
      && |s'.msgs| == |s.msgs| && s'.rows == s.rows && s'.attempts == s.attempts
      && forall m :: 0 <= m < |s.msgs| ==>
           var inQueue := if dlq then s.msgs[m].place == Dead else s.msgs[m].place == Visible || s.msgs[m].place == InFlight;
           && s'.msgs[m] == (if inQueue then s.msgs[m].(place := Gone) else s.msgs[m])
           && (inQueue && s.msgs[m].body.Some? ==> s.msgs[m].body.value in s'.discarded)
  {
  }
}
