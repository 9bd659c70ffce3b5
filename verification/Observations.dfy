/** What one poll of the watchdog reads, and the keys that this calls for. */
module Observations {
  import opened Common
  import opened Incidents
  import opened Findings

  datatype Heartbeat = Heartbeat(worker: string, lastSeen: int)

  /** Heartbeats older than two minutes are deleted before the stale ones are looked for. */
  const ORPHAN_SECONDS := 120

  datatype Config = Config(staleSeconds: nat, lagThreshold: nat, failures: int)

  /** What one poll reads; a failed read is `None`. */
  datatype Observation = Observation(
    now: int,
    heartbeats: Option<seq<Heartbeat>>,
    orphansDeleted: bool,
    probeOk: bool,
    queueDepth: Option<int>,
    stuck: Option<seq<Finding>>,
    abandoned: Option<seq<Finding>>,
    dlqDepth: Option<int>)

  predicate AllRead(obs: Observation) {
    obs.heartbeats.Some? && obs.queueDepth.Some? && obs.stuck.Some? && obs.abandoned.Some? && obs.dlqDepth.Some?
  }

  predicate IsStale(cfg: Config, obs: Observation, hb: Heartbeat) {
    var gap := obs.now - hb.lastSeen;
    gap > cfg.staleSeconds && (obs.orphansDeleted ==> gap <= ORPHAN_SECONDS)
  }

  /** The workers that the heartbeat table shows to be stale. */
  function StaleSubjects(cfg: Config, obs: Observation): set<string> {
    if obs.heartbeats.None? then {}
    else
      set i | 0 <= i < |obs.heartbeats.value| && IsStale(cfg, obs, obs.heartbeats.value[i]) :: obs.heartbeats.value[i].worker
  }

  /** Every worker whose heartbeat is past the threshold is found. */
  ghost predicate AllStaleFound(cfg: Config, obs: Observation)
    requires obs.heartbeats.Some?
  {
    forall hb :: hb in obs.heartbeats.value && obs.now - hb.lastSeen > cfg.staleSeconds ==>
      hb.worker in StaleSubjects(cfg, obs)
  }

  /** Workers have one heartbeat each; whether they are all found depends on the two minutes alone. */
  lemma StaleFoundExactly(cfg: Config, obs: Observation)
    requires obs.heartbeats.Some?
    requires
      var hbs := obs.heartbeats.value;
      forall i, j :: 0 <= i < j < |hbs| ==> hbs[i].worker != hbs[j].worker
    ensures AllStaleFound(cfg, obs) <==>
      !obs.orphansDeleted || forall hb ::
        hb in obs.heartbeats.value && obs.now - hb.lastSeen > cfg.staleSeconds ==> obs.now - hb.lastSeen <= ORPHAN_SECONDS
  {
    var hbs := obs.heartbeats.value;
    forall i | 0 <= i < |hbs|
      ensures hbs[i].worker in StaleSubjects(cfg, obs) <==> IsStale(cfg, obs, hbs[i])
    {
      if hbs[i].worker in StaleSubjects(cfg, obs) {
        var j :| 0 <= j < |hbs| && IsStale(cfg, obs, hbs[j]) && hbs[j].worker == hbs[i].worker;
        assert i == j;
      }
    }
    assert forall hb :: hb in hbs ==> (hb.worker in StaleSubjects(cfg, obs) <==> IsStale(cfg, obs, hb));
  }

  /** With a threshold of one minute, a worker silent for 121 seconds is not found. */
  lemma LongSilenceIsNotFound(worker: string, now: int)
    ensures
      var cfg := Config(60, 0, 1);
      var obs := Observation(now, Some([Heartbeat(worker, now - 121)]), true, true, None, None, None, None);
      StaleSubjects(cfg, obs) == {} && !AllStaleFound(cfg, obs)
  {
    assert Heartbeat(worker, now - 121) in [Heartbeat(worker, now - 121)];
  }

  /** The keys that the observed conditions call for, `worker.down` aside. */
  predicate Wanted(cfg: Config, obs: Observation, key: string)
    requires AllRead(obs)
  {
    match GroupOf(key)
    case OfFamily(StaleWorkers) => STALE <= key && SubjectOf(StaleWorkers, key) in StaleSubjects(cfg, obs)
    case OfFamily(StuckTasks) => STUCK <= key && SubjectOf(StuckTasks, key) in Subjects(obs.stuck.value)
    case OfFamily(AbandonedTasks) => ABANDONED <= key && SubjectOf(AbandonedTasks, key) in Subjects(obs.abandoned.value)
    case OfSingle(QueueLag) => obs.queueDepth.value > cfg.lagThreshold
    case OfSingle(DlqNonEmpty) => obs.dlqDepth.value > 0
    case _ => false
  }

  /** One `worker.stale` key per worker that is silent for longer than the threshold, and not for so long that it is deleted. */
  ghost predicate ShowsStale(cfg: Config, obs: Observation, active: map<string, Entry>)
    requires obs.heartbeats.Some?
  {
    forall id :: STALE + id in active <==>
      exists hb :: hb in obs.heartbeats.value && hb.worker == id && obs.now - hb.lastSeen > cfg.staleSeconds
                   && (obs.orphansDeleted ==> obs.now - hb.lastSeen <= 120)
  }

  ghost predicate ShowsTasks(obs: Observation, active: map<string, Entry>)
    requires obs.stuck.Some? && obs.abandoned.Some?
  {
    && (forall id :: STUCK + id in active <==> exists x :: x in obs.stuck.value && x.subject == id)
    && (forall id :: ABANDONED + id in active <==> exists x :: x in obs.abandoned.value && x.subject == id)
  }

  ghost predicate ShowsQueues(cfg: Config, obs: Observation, active: map<string, Entry>)
    requires obs.queueDepth.Some? && obs.dlqDepth.Some?
  {
    && ("queue.lag" in active <==> obs.queueDepth.value > cfg.lagThreshold)
    && ("dlq.nonempty" in active <==> obs.dlqDepth.value > 0)
  }

  ghost predicate NothingElse(active: map<string, Entry>) {
    forall key :: key in active ==>
      key in {"worker.down", "queue.lag", "dlq.nonempty"} || STALE <= key || STUCK <= key || ABANDONED <= key
  }

  /** The map shows what was observed, and nothing else but `worker.down`. */
  ghost predicate Shows(cfg: Config, obs: Observation, active: map<string, Entry>)
    requires AllRead(obs)
  {
    ShowsStale(cfg, obs, active) && ShowsTasks(obs, active) && ShowsQueues(cfg, obs, active) && NothingElse(active)
  }

  lemma StaleSubjectsAre(cfg: Config, obs: Observation, id: string)
    requires obs.heartbeats.Some?
    ensures id in StaleSubjects(cfg, obs) <==>
      exists hb :: hb in obs.heartbeats.value && hb.worker == id && obs.now - hb.lastSeen > cfg.staleSeconds
                   && (obs.orphansDeleted ==> obs.now - hb.lastSeen <= 120)
  {
    var hbs := obs.heartbeats.value;
    if id in StaleSubjects(cfg, obs) {
      var i :| 0 <= i < |hbs| && IsStale(cfg, obs, hbs[i]) && hbs[i].worker == id;
      assert hbs[i] in hbs;
    }
    if hb :| hb in hbs && hb.worker == id && obs.now - hb.lastSeen > cfg.staleSeconds
             && (obs.orphansDeleted ==> obs.now - hb.lastSeen <= 120) {
      var i :| 0 <= i < |hbs| && hbs[i] == hb;
      assert IsStale(cfg, obs, hbs[i]);
    }
  }

  lemma SubjectsAre(findings: seq<Finding>, id: string)
    ensures id in Subjects(findings) <==> exists x :: x in findings && x.subject == id
  {
    if id in Subjects(findings) {
      var i :| 0 <= i < |findings| && findings[i].subject == id;
      assert findings[i] in findings;
    }
  }

  /** A map that holds the wanted keys shows what was observed. */
  lemma WantedIsShown(cfg: Config, obs: Observation, active: map<string, Entry>)
    requires AllRead(obs)
    requires forall key :: key != DOWN ==> (key in active <==> Wanted(cfg, obs, key))
    ensures Shows(cfg, obs, active)
  {
    hide IsStale, StaleSubjects, Subjects, Prefix, SubjectOf, GroupOf;
    assert ShowsStale(cfg, obs, active) by { WantedStale(cfg, obs, active); }
    assert ShowsTasks(obs, active) by { WantedTasks(cfg, obs, active); }
    assert ShowsQueues(cfg, obs, active) by { WantedQueues(cfg, obs, active); }
    assert NothingElse(active) by { WantedOnly(cfg, obs, active); }
  }

  lemma WantedStale(cfg: Config, obs: Observation, active: map<string, Entry>)
    requires AllRead(obs)
    requires forall key :: key != DOWN ==> (key in active <==> Wanted(cfg, obs, key))
    ensures ShowsStale(cfg, obs, active)
  {
    hide StaleSubjects, Subjects, SubjectOf, GroupOf;
    forall id ensures STALE + id in active <==> id in StaleSubjects(cfg, obs) {
      FamilyKey(StaleWorkers, id);
      SingleKeyGroup(WorkerDown, STALE + id);
    }
    forall id { StaleSubjectsAre(cfg, obs, id); }
  }

  lemma WantedTasks(cfg: Config, obs: Observation, active: map<string, Entry>)
    requires AllRead(obs)
    requires forall key :: key != DOWN ==> (key in active <==> Wanted(cfg, obs, key))
    ensures ShowsTasks(obs, active)
  {
    hide StaleSubjects, Subjects, SubjectOf, GroupOf;
    forall id
      ensures STUCK + id in active <==> id in Subjects(obs.stuck.value)
      ensures ABANDONED + id in active <==> id in Subjects(obs.abandoned.value)
    {
      FamilyKey(StuckTasks, id);
      FamilyKey(AbandonedTasks, id);
      SingleKeyGroup(WorkerDown, STUCK + id);
      SingleKeyGroup(WorkerDown, ABANDONED + id);
    }
    forall id { SubjectsAre(obs.stuck.value, id); }
    forall id { SubjectsAre(obs.abandoned.value, id); }
  }

  lemma WantedQueues(cfg: Config, obs: Observation, active: map<string, Entry>)
    requires AllRead(obs)
    requires forall key :: key != DOWN ==> (key in active <==> Wanted(cfg, obs, key))
    ensures ShowsQueues(cfg, obs, active)
  {
    hide StaleSubjects, Subjects, SubjectOf, GroupOf;
    SingleKeyGroup(QueueLag, LAG);
    SingleKeyGroup(DlqNonEmpty, DLQ);
    SingleKeyGroup(WorkerDown, LAG);
    SingleKeyGroup(WorkerDown, DLQ);
  }

  lemma WantedOnly(cfg: Config, obs: Observation, active: map<string, Entry>)
    requires AllRead(obs)
    requires forall key :: key != DOWN ==> (key in active <==> Wanted(cfg, obs, key))
    ensures NothingElse(active)
  {
    hide StaleSubjects, Subjects, SubjectOf;
  }

  /** Workers have one heartbeat each: one that is within the threshold has no key, nor has one without a heartbeat. */
  lemma HealthyWorkersAreNotShown(cfg: Config, obs: Observation, active: map<string, Entry>, id: string)
    requires obs.heartbeats.Some? && ShowsStale(cfg, obs, active)
    requires
      var hbs := obs.heartbeats.value;
      forall i, j :: 0 <= i < j < |hbs| ==> hbs[i].worker != hbs[j].worker
    ensures (forall hb :: hb in obs.heartbeats.value ==> hb.worker != id) ==> STALE + id !in active
    ensures (exists hb :: hb in obs.heartbeats.value && hb.worker == id && obs.now - hb.lastSeen <= cfg.staleSeconds) ==>
      STALE + id !in active
  {
    var hbs := obs.heartbeats.value;
    if STALE + id in active {
      var hb :| hb in hbs && hb.worker == id && obs.now - hb.lastSeen > cfg.staleSeconds;
      var i :| 0 <= i < |hbs| && hbs[i] == hb;
      assert forall other :: other in hbs && other.worker == id ==> other == hb;
    }
  }
}
