/**
 The watchdog's detector as imperative code. Every database effect and every update of the dedup
 map is recorded as a step of the incident protocol, and between any two of them `Yield` lets
 others acknowledge, resolve or add events; so incidents stay unique at every such point, and a
 watchdog that dies there can be restarted on the table it leaves.

 The database assumptions of the protocol are built in: an insert takes effect exactly when it is
 reported to, a resolve of an active event succeeds, and the reload of a restart succeeds.
 */
module Detection {
  import opened Common
  import opened Incidents
  import opened Findings
  import opened DownRule
  import opened Observations

  /** The `healing_events` table, shared with the API and the chaos runner. */
  class EventTable {
    var events: seq<Event>

    constructor ()
      ensures events == []
    {
      events := [];
    }
  }

  /** Events are only added, keep all but their status, and do not become active again. */
  ghost predicate Later(events: seq<Event>, events': seq<Event>) {
    && |events| <= |events'|
    && forall i :: 0 <= i < |events| ==>
         events'[i] == events[i].(status := events'[i].status) && (events[i].status != Active ==> events'[i].status != Active)
  }

  lemma OutsideIsLater(s: State, step: Step)
    requires Outside(step) && Enabled(State(s.events, map[], Idle), step)
    ensures
      var events := Apply(State(s.events, map[], Idle), step).events;
      && Apply(s, step) == s.(events := events) && Later(s.events, events)
      && Enabled(s, step) && Benign(s, step)
  {
  }

  /** Only keys of the group have changed. */
  ghost predicate SameOutside(before: map<string, Entry>, after: map<string, Entry>, g: Group) {
    forall key :: GroupOf(key) != g ==> (key in before <==> key in after) && (key in before ==> after[key] == before[key])
  }

  class Detector {
    const cfg: Config
    const table: EventTable
    /** Whether inserts succeed; when not, any of them may fail. */
    const reliable: bool
    var active: map<string, Entry>
    var healthFailures: nat
    ghost var pc: Pc
    ghost var log: seq<Mark>
    ghost var probed: seq<bool>

    ghost function View(): State
      reads this, table
    {
      State(table.events, active, pc)
    }

    ghost function Last(): Monitor
      reads this`log
    {
      After(cfg.failures, log)
    }

    /** What has decided about `worker.down` so far. */
    ghost function History(): seq<Moment>
      reads this`log
    {
      Trail(cfg.failures, log)
    }

    /** The fields are what the logged history leads to. */
    ghost predicate Valid()
      reads this, table
    {
      && Runs(cfg.failures, log) && probed == Probings(log)
      && Last().state == View() && Last().failures == healthFailures
    }

    /** Idle, with the last probe calling for what `phase` says. */
    ghost predicate Due(phase: Phase)
      reads this, table
    {
      Valid() && pc == Idle && Last().phase == phase
    }

    /** Between two detections. */
    ghost predicate Ready()
      reads this, table
    {
      Due(Settled)
    }

    /** Incidents are unique whenever the detector is valid. */
    lemma Facts()
      requires Valid()
      ensures Inv(View())
    {
      RunsKeepInv(cfg.failures, log);
    }

    /** Whenever the detector is ready, `worker.down` is in its map exactly as the whole history demands. */
    lemma DownFollowsHistory()
      requires Ready()
      ensures DOWN in active <==> Open(cfg.failures, History())
      ensures healthFailures == Streak(History())
    {
      DownIsExact(cfg.failures, log);
    }

    /** After a detection the trailing run of failed probes decides exactly by the condition on the history. */
    lemma FailedProbesDecide()
      requires Ready() && EndsInProbe(History())
      ensures (DOWN in active <==> FailedRun(probed) >= cfg.failures) <==> Decides(cfg.failures, History())
    {
      hide Runs, After, Trail, Decides, FailedRun, Misses;
      DecidesExactly(cfg.failures, log);
      MissesAreFailedProbes(cfg.failures, log);
    }

    ghost method Record(m: Monitor, mark: Mark)
      requires Runs(cfg.failures, log) && m == Last() && Permits(m, mark)
      requires probed == Probings(log) + if mark.Probed? then [mark.ok] else []
      requires Next(cfg.failures, m, mark).state == View() && Next(cfg.failures, m, mark).failures == healthFailures
      modifies this`log
      ensures Valid() && Last() == Next(cfg.failures, m, mark) && log == old(log) + [mark]
      ensures History() == old(History()) + Moments(m.state.events, mark)
      ensures Silent(mark) ==> History() == old(History())
    {
      RunsSnoc(cfg.failures, log, mark);
      TrailSnoc(cfg.failures, log, mark);
      ProbingsSnoc(log, mark);
      log := log + [mark];
    }

    /** A restart on the table and the history that earlier watchdogs, ended at any point, have left behind. */
    constructor (cfg: Config, table: EventTable, reliable: bool, ghost history: seq<Mark>)
      requires Runs(cfg.failures, history) && After(cfg.failures, history).state == State(table.events, map[], Stopped)
      ensures Ready() && this.cfg == cfg && this.table == table && this.reliable == reliable
      ensures log == history + [Did(Restart(true))]
      ensures DOWN in active <==> Open(cfg.failures, History())
      ensures forall key :: key in active <==> exists i: EventId :: ActiveFor(table.events, i, key)
    {
      this.cfg := cfg;
      this.table := table;
      this.reliable := reliable;
      active := map[];
      healthFailures := 0;
      pc := Stopped;
      log := history;
      probed := Probings(history);
      new;
      ReconstructActiveState();
      DownFollowsHistory();
    }

    static lemma RebuildOneMore(events: seq<Event>, i: nat, entries: map<string, Entry>)
      requires i < |events|
      ensures
        var ev := events[i];
        entries + Rebuild(events[..i + 1])
        == (if ev.status == Active && KeyForEvent(ev) != "" then entries[KeyForEvent(ev) := EntryOf(ev, i)] else entries)
           + Rebuild(events[..i])
    {
      assert events[..i + 1][..i] == events[..i];
    }

    /** The loop over the active events, newest first: a later (older) event overwrites. */
    static method LoadEntries(events: seq<Event>) returns (entries: map<string, Entry>)
      ensures entries == Rebuild(events)
    {
      entries := map[];
      var i: int := |events|;
      assert events[..|events|] == events;
      while i > 0
        invariant 0 <= i <= |events|
        invariant entries + Rebuild(events[..i]) == Rebuild(events)
      {
        i := i - 1;
        var ev := events[i];
        RebuildOneMore(events, i, entries);
        if ev.status == Active {
          var key := KeyForEvent(ev);
          if key != "" {
            entries := entries[key := Entry(i, ev.kind, ev.severity, ev.chaosRun)];
          }
        }
      }
    }

    /** Load the active events into the empty map. */
    method ReconstructActiveState()
      requires Runs(cfg.failures, log) && probed == Probings(log) && healthFailures == 0
      requires Last().state == View() && pc == Stopped && active == map[]
      modifies this`active, this`pc, this`log
      ensures Ready() && log == old(log) + [Did(Restart(true))]
      ensures forall key :: key in active <==> exists i: EventId :: ActiveFor(table.events, i, key)
    {
      hide Runs, After, Trail, Moments, Probings, Rebuild, KeyForEvent, ActiveIds;
      ghost var before := Last();
      StoppedIsSettled(cfg.failures, log);
      active := LoadEntries(table.events);
      pc := Idle;
      Record(before, Did(Restart(true)));
      LoadedKeys();
    }

    /** After a reload the keys of the map are the keys of the active events. */
    lemma LoadedKeys()
      requires Valid() && active == Rebuild(table.events)
      ensures forall key :: key in active <==> exists i: EventId :: ActiveFor(table.events, i, key)
    {
      Facts();
      forall key ensures key in active <==> exists i: EventId :: ActiveFor(table.events, i, key) {
        RebuildIsSound(table.events, key);
        if key in active {
          assert ActiveFor(table.events, active[key].id, key);
        } else {
          forall i: EventId ensures !ActiveFor(table.events, i, key) {
            if ActiveFor(table.events, i, key) {
              RebuildIsComplete(table.events, i, key);
            }
          }
        }
      }
    }

    /** The watchdog dies; its map is lost, and the next one can start on what it leaves. */
    method Die()
      requires Valid() && pc != Stopped
      modifies this
      ensures Runs(cfg.failures, log) && Last().state == State(table.events, map[], Stopped)
      ensures log == old(log) + [Did(Crash)]
    {
      ghost var before := Last();
      active := map[];
      pc := Stopped;
      Record(before, Did(Crash));
    }

    /** Others take any number of steps. */
    method Yield()
      requires Valid()
      modifies table, this`log
      ensures Valid() && Last().phase == old(Last().phase) && History() == old(History())
      ensures Later(old(table.events), table.events)
    {
      var n: nat := *;
      while n > 0
        invariant Valid() && Last().phase == old(Last().phase) && History() == old(History())
        invariant Later(old(table.events), table.events)
      {
        var step: Step := *;
        if Outside(step) && Enabled(State(table.events, map[], Idle), step) {
          ghost var before := Last();
          OutsideIsLater(before.state, step);
          table.events := Apply(State(table.events, map[], Idle), step).events;
          Record(before, Did(step));
        }
        n := n - 1;
      }
    }

    // -------------------------------------------------------------------------
    // Emit, resolve, reconcile
    // -------------------------------------------------------------------------

    /** The entry names the event as it was inserted; others may have acknowledged or resolved it since. */
    ghost predicate Names(entry: Entry, ev: Event, from: nat)
      reads this, table
    {
      && from <= entry.id < |table.events| && entry == EntryOf(ev, entry.id)
      && table.events[entry.id] == ev.(status := table.events[entry.id].status)
    }

    /** Insert the event, then enter it in the map; a failed insert leaves the map alone. */
    method Emit(key: string, ev: Event)
      requires Due(if key == DOWN then ToReport else Settled)
      requires key != "" && key !in active && ev.status == Active && KeyForEvent(ev) == key
      modifies this`active, this`pc, this`log, table
      ensures Ready()
      ensures key in active || (active == old(active) && !reliable)
      ensures History() == old(History()) || (key == DOWN && History() == old(History()) + [Unsent])
      ensures key in active ==> Names(active[key], ev, |old(table.events)|)
      ensures forall k :: k != key ==> (k in old(active) <==> k in active) && (k in old(active) ==> active[k] == old(active)[k])
    {
      hide Runs, After, Trail, IsOpen, Probings, KeyForEvent, ActiveIds, Rebuild;
      Yield();
      ghost var before := Last();
      var failed: bool := *;
      if !reliable && failed {
        Record(before, Did(Step.Emit(key, ev, false, false)));
        return;
      }
      var id := |table.events|;
      table.events := table.events + [ev];
      pc := Registering(key, EntryOf(ev, id));
      Record(before, Did(Step.Emit(key, ev, true, true)));

      Yield();
      before := Last();
      active := active[key := Entry(id, ev.kind, ev.severity, ev.chaosRun)];
      pc := Idle;
      Record(before, Did(Register));
    }

    /** Drop the key from the map, then resolve the event if it is still open. */
    method Resolve(key: string)
      requires Due(if key == DOWN then ToResolve else Settled) && key in active
      modifies this`active, this`pc, this`log, table
      ensures Ready() && History() == old(History())
      ensures active == old(active) - {key}
      ensures
        var id := old(active)[key].id;
        id < |old(table.events)| <= |table.events| && table.events[id].status == Resolved
    {
      hide Runs, After, Trail, Moments, Probings, KeyForEvent, OneActivePerKey, AllKeyed, Covered, SeenIsPast, ActiveIds, Rebuild;
      Facts();
      ghost var before := Last();
      var entry := active[key];
      active := active - {key};
      pc := Resolving(entry.id);
      Record(before, Did(Drop(key)));

      Yield();
      before := Last();
      var id := entry.id;
      if table.events[id].status == Active || table.events[id].status == Acknowledged {
        table.events := table.events[id := table.events[id].(status := Resolved)];
      }
      pc := Idle;
      Record(before, Did(UpdateResolved(true)));
    }

    /** Evict the entries whose events are no longer active in the table. */
    method ReconcileActiveState(listed: bool)
      requires Ready()
      modifies this`active, this`pc, this`log, table
      ensures Ready()
      ensures forall key :: key in active ==> key in old(active) && active[key] == old(active)[key]
      ensures !listed ==> active == old(active)
      ensures listed ==> forall key | key in old(active) ::
        EvictionIsJust(old(active)[key].id, key in active, old(table.events), table.events)
    {
      hide Runs, After, Trail, Probings, Later, ActiveIds;
      if active == map[] || !listed {
        return;
      }
      ghost var events := table.events;
      var stillActive := Snapshot();
      ghost var listedEvents := table.events;
      var todo := set key | key in active && active[key].id !in stillActive;
      EvictAll(todo, stillActive);
      ghost var before := Last();
      pc := Idle;
      Record(before, Did(EndReconcile));
      forall key | key in old(active)
        ensures EvictionIsJust(old(active)[key].id, key in active, events, table.events)
      {
        SnapshotJudges(old(active)[key].id, key in active, events, listedEvents, table.events);
      }
    }

    /** An evicted entry's event is not active now, and a kept one's was active before. */
    static ghost predicate EvictionIsJust(id: EventId, kept: bool, events: seq<Event>, events': seq<Event>) {
      if kept then id < |events| ==> events[id].status == Active
      else id < |events'| && events'[id].status != Active
    }

    static lemma SnapshotJudges(id: EventId, kept: bool, events: seq<Event>, listed: seq<Event>, events': seq<Event>)
      requires Later(events, listed) && Later(listed, events')
      requires id < |listed| && (kept <==> id in ActiveIds(listed))
      ensures EvictionIsJust(id, kept, events, events')
    {
    }

    /** Read the ids of the active events. */
    method Snapshot() returns (stillActive: set<EventId>)
      requires Ready()
      modifies this`pc, this`log, table
      ensures Valid() && pc == Evicting(stillActive) && Last().phase == Settled
      ensures stillActive == ActiveIds(table.events) && Later(old(table.events), table.events)
      ensures forall key :: key in active ==> active[key].id < |table.events|
    {
      hide Runs, After, Trail, Probings, OneActivePerKey, AllKeyed, Covered, KeyForEvent, Later;
      Yield();
      ghost var before := Last();
      stillActive := ActiveIds(table.events);
      Facts();
      pc := Evicting(stillActive);
      Record(before, Did(Step.Snapshot));
    }

    method EvictAll(keys: set<string>, ghost seen: set<EventId>)
      requires Valid() && pc == Evicting(seen) && Last().phase == Settled
      requires forall key :: key in keys ==> key in active && active[key].id !in seen
      modifies this`active, this`log, table
      ensures Valid() && Last().phase == Settled
      ensures active == old(active) - keys
      ensures Later(old(table.events), table.events)
    {
      var todo := keys;
      while todo != {}
        invariant Valid() && Last().phase == Settled && todo <= keys && active == old(active) - (keys - todo)
        invariant Later(old(table.events), table.events)
        decreases todo
      {
        var key :| key in todo;
        EvictOne(key, seen);
        todo := todo - {key};
      }
    }

    method EvictOne(key: string, ghost seen: set<EventId>)
      requires Valid() && pc == Evicting(seen) && Last().phase == Settled && key in active && active[key].id !in seen
      modifies this`active, this`log, table
      ensures Valid() && Last().phase == Settled
      ensures active == old(active) - {key}
      ensures Later(old(table.events), table.events)
    {
      Yield();
      ghost var before := Last();
      active := active - {key};
      Record(before, Did(Evict(key)));
    }

    // -------------------------------------------------------------------------
    // The detectors
    // -------------------------------------------------------------------------

    /** The keys of a family are those of the given subjects. */
    ghost predicate FamilyIs(f: Family, subjects: set<string>)
      reads this
    {
      forall key :: GroupOf(key) == OfFamily(f) ==> Prefix(f) <= key && (key in active <==> SubjectOf(f, key) in subjects)
    }

    /** What emitting for some of the findings may change: only keys of these findings are added. */
    static ghost predicate Added(f: Family, findings: seq<Finding>, before: map<string, Entry>, after: map<string, Entry>) {
      && SameOutside(before, after, OfFamily(f))
      && (forall key :: key in before ==> key in after)
      && (forall key :: key in after && key !in before ==> Prefix(f) <= key && SubjectOf(f, key) in Subjects(findings))
    }

    static lemma NothingAdded(f: Family, findings: seq<Finding>, before: map<string, Entry>)
      ensures Added(f, findings, before, before)
    {
    }

    static lemma OneMoreAdded(f: Family, findings: seq<Finding>, i: nat, before: map<string, Entry>,
                              now: map<string, Entry>, after: map<string, Entry>)
      requires i < |findings| && Added(f, findings, before, now)
      requires forall k :: k != Prefix(f) + findings[i].subject ==>
        (k in now <==> k in after) && (k in now ==> after[k] == now[k])
      requires Prefix(f) + findings[i].subject !in now
      ensures Added(f, findings, before, after)
    {
      hide Prefix, Subjects, GroupOf, SubjectOf;
      var key := Prefix(f) + findings[i].subject;
      FamilyKey(f, findings[i].subject);
      SubjectIsFound(findings, i);
      assert forall k :: k != key && k in after && k !in before ==> k in now;
    }

    static lemma SubjectIsFound(findings: seq<Finding>, i: nat)
      requires i < |findings|
      ensures findings[i].subject in Subjects(findings)
    {
    }

    method EmitIfNew(f: Family, findings: seq<Finding>, i: nat, ghost before: map<string, Entry>)
      requires Ready() && i < |findings| && Added(f, findings, before, active)
      modifies this`active, this`pc, this`log, table
      ensures Ready() && Added(f, findings, before, active) && History() == old(History())
      ensures reliable ==> Prefix(f) + findings[i].subject in active
      ensures forall key :: key in old(active) ==> key in active
    {
      hide Runs, After, Trail, Probings, Added, Prefix, GroupOf;
      var key := Prefix(f) + findings[i].subject;
      SingleKeyGroup(WorkerDown, DOWN);
      FamilyKey(f, findings[i].subject);
      if key !in active {
        EventKeepsItsKey(f, findings[i]);
        Emit(key, EventFor(f, findings[i]));
        OneMoreAdded(f, findings, i, before, old(active), active);
      }
    }

    /** Emit an incident for every finding that has none. */
    method EmitFindings(f: Family, findings: seq<Finding>)
      requires Ready()
      modifies this`active, this`pc, this`log, table
      ensures Ready() && Added(f, findings, old(active), active) && History() == old(History())
      ensures reliable ==> forall i :: 0 <= i < |findings| ==> Prefix(f) + findings[i].subject in active
    {
      hide Runs, After, Trail, Probings, Prefix, Added;
      NothingAdded(f, findings, active);
      for i := 0 to |findings|
        invariant Ready() && Added(f, findings, old(active), active) && History() == old(History())
        invariant reliable ==> forall j :: 0 <= j < i ==> Prefix(f) + findings[j].subject in active
      {
        EmitIfNew(f, findings, i, old(active));
      }
    }

    method ResolveKeys(keys: set<string>)
      requires Ready() && keys <= active.Keys && DOWN !in keys
      modifies this`active, this`pc, this`log, table
      ensures Ready() && History() == old(History())
      ensures active == old(active) - keys
    {
      var todo := keys;
      while todo != {}
        invariant Ready() && todo <= keys && active == old(active) - (keys - todo) && History() == old(History())
        decreases todo
      {
        var key :| key in todo;
        Resolve(key);
        todo := todo - {key};
      }
    }

    /** The keys of a family that no finding accounts for. */
    static function Unfounded(f: Family, findings: seq<Finding>, active: map<string, Entry>): set<string> {
      var current := Subjects(findings);
      set key | key in active && Prefix(f) <= key && SubjectOf(f, key) !in current
    }

    static lemma FindingRemains(f: Family, findings: seq<Finding>, emitted: map<string, Entry>, key: string)
      requires forall i :: 0 <= i < |findings| ==> Prefix(f) + findings[i].subject in emitted
      requires Prefix(f) <= key
      ensures key in emitted - Unfounded(f, findings, emitted) <==> SubjectOf(f, key) in Subjects(findings)
    {
      hide Prefix;
      if SubjectOf(f, key) in Subjects(findings) {
        var i :| 0 <= i < |findings| && findings[i].subject == SubjectOf(f, key);
        assert key == Prefix(f) + findings[i].subject;
      }
    }

    /** Emitting every finding and resolving everything else leaves the findings. */
    static lemma FindingsRemain(f: Family, findings: seq<Finding>, emitted: map<string, Entry>)
      requires forall i :: 0 <= i < |findings| ==> Prefix(f) + findings[i].subject in emitted
      ensures forall key :: GroupOf(key) == OfFamily(f) ==>
        Prefix(f) <= key && (key in emitted - Unfounded(f, findings, emitted) <==> SubjectOf(f, key) in Subjects(findings))
    {
      hide Prefix, GroupOf, Subjects, Unfounded;
      forall key | GroupOf(key) == OfFamily(f)
        ensures Prefix(f) <= key && (key in emitted - Unfounded(f, findings, emitted) <==> SubjectOf(f, key) in Subjects(findings))
      {
        FamiliesAreDisjoint(f, key);
        FindingRemains(f, findings, emitted, key);
      }
    }

    /**
     One family's detection: emit what is newly found, resolve what is no longer found. Whatever
     the map held of the family before, it then holds exactly the findings, and nothing else
     has changed.
     */
    method DetectFamily(f: Family, findings: seq<Finding>)
      requires Ready()
      modifies this`active, this`pc, this`log, table
      ensures Ready() && History() == old(History())
      ensures reliable ==> FamilyIs(f, Subjects(findings))
      ensures SameOutside(old(active), active, OfFamily(f))
    {
      hide Runs, After, Trail, Probings, Subjects;
      SingleKeyGroup(WorkerDown, DOWN);
      EmitFindings(f, findings);
      ghost var emitted := active;
      var toResolve := Unfounded(f, findings, active);
      forall key | key in toResolve ensures GroupOf(key) == OfFamily(f) {
        FamiliesAreDisjoint(f, key);
      }
      ResolveKeys(toResolve);
      if reliable {
        FindingsRemain(f, findings, emitted);
      }
    }

    /** What the last probe calls for, given whether the condition is present; only `worker.down` waits for a probe. */
    ghost predicate CalledFor(x: Single, present: bool)
      reads this, table
    {
      Due(if x != WorkerDown || present == (DOWN in active) then Settled else if present then ToReport else ToResolve)
    }

    /** A single condition: emit when it appears, resolve when it has gone. */
    method DetectSingle(x: Single, present: bool, facts: map<string, Json>)
      requires CalledFor(x, present)
      modifies this`active, this`pc, this`log, table
      ensures Ready()
      ensures History() == old(History()) || (x == WorkerDown && History() == old(History()) + [Unsent])
      ensures if present then reliable ==> SingleKey(x) in active else SingleKey(x) !in active
      ensures SameOutside(old(active), active, OfSingle(x))
      ensures present && SingleKey(x) in old(active) ==> active == old(active)
    {
      var key := SingleKey(x);
      SingleKeyGroup(x, key);
      SingleKeyGroup(WorkerDown, key);
      if present {
        if key !in active {
          Emit(key, SingleEvent(x, facts));
        }
      } else if key in active {
        Resolve(key);
      }
    }

    lemma FamilyShowsStale(obs: Observation)
      requires obs.heartbeats.Some? && FamilyIs(StaleWorkers, StaleSubjects(cfg, obs))
      ensures ShowsStale(cfg, obs, active)
    {
      hide StaleSubjects, GroupOf, SubjectOf;
      forall id ensures STALE + id in active <==> id in StaleSubjects(cfg, obs) {
        FamilyKey(StaleWorkers, id);
      }
      forall id { StaleSubjectsAre(cfg, obs, id); }
    }

    /** The loop that looks for stale workers. */
    static method StaleFindings(cfg: Config, obs: Observation) returns (findings: seq<Finding>)
      requires obs.heartbeats.Some?
      ensures Subjects(findings) == StaleSubjects(cfg, obs)
    {
      var heartbeats := obs.heartbeats.value;
      findings := [];
      for i := 0 to |heartbeats|
        invariant Subjects(findings) == set j | 0 <= j < i && IsStale(cfg, obs, heartbeats[j]) :: heartbeats[j].worker
      {
        var gap := obs.now - heartbeats[i].lastSeen;
        // an orphaned heartbeat is gone from the table before the stale ones are listed
        if gap > cfg.staleSeconds && !(obs.orphansDeleted && gap > ORPHAN_SECONDS) {
          var x := Finding(heartbeats[i].worker, None, map["gap_seconds" := Number(gap)]);
          SubjectsSnoc(findings, x);
          findings := findings + [x];
        }
      }
    }

    static lemma SubjectsSnoc(findings: seq<Finding>, x: Finding)
      ensures Subjects(findings + [x]) == Subjects(findings) + {x.subject}
    {
      var longer := findings + [x];
      assert longer[|findings|] == x;
      forall subject | subject in Subjects(findings) ensures subject in Subjects(longer) {
        var i :| 0 <= i < |findings| && findings[i].subject == subject;
        assert longer[i] == findings[i];
      }
    }

    method DetectStaleWorkers(obs: Observation)
      requires Ready()
      modifies this`active, this`pc, this`log, table
      ensures Ready()
      ensures reliable && obs.heartbeats.Some? ==> FamilyIs(StaleWorkers, StaleSubjects(cfg, obs))
      ensures reliable && obs.heartbeats.Some? ==> ShowsStale(cfg, obs, active)
      ensures obs.heartbeats.None? ==> active == old(active)
      ensures SameOutside(old(active), active, OfFamily(StaleWorkers))
    {
      if obs.heartbeats.Some? {
        var findings := StaleFindings(cfg, obs);
        DetectFamily(StaleWorkers, findings);
        if reliable {
          FamilyShowsStale(obs);
        }
      }
    }

    /** Count the misses; report `worker.down` at the threshold and resolve it on success. */
    method DetectWorkerDown(probeOk: bool)
      requires Ready()
      modifies this`active, this`healthFailures, this`pc, this`log, this`probed, table
      ensures Ready() && EndsInProbe(History())
      ensures probed == old(probed) + [probeOk]
      ensures reliable ==>
        Down(healthFailures, DOWN in active)
        == DownStep(cfg.failures, Down(old(healthFailures), DOWN in old(active)), if probeOk then Up else Missed)
      ensures SameOutside(old(active), active, OfSingle(WorkerDown))
    {
      hide Runs, After, Trail, Probings;
      ghost var before := Last();
      healthFailures := if probeOk then 0 else healthFailures + 1;
      probed := probed + [probeOk];
      Record(before, Probed(probeOk));
      if probeOk {
        DetectSingle(WorkerDown, false, map[]);
      } else if healthFailures >= cfg.failures {
        DetectSingle(WorkerDown, true, map["consecutive_failures" := Number(healthFailures)]);
      }
    }

    // -------------------------------------------------------------------------
    // A poll
    // -------------------------------------------------------------------------

    /** The map is as wanted on the keys of a group. */
    ghost predicate Converged(obs: Observation, g: Group)
      requires AllRead(obs)
      reads this
    {
      forall key :: GroupOf(key) == g ==> (key in active <==> Wanted(cfg, obs, key))
    }

    /** The queue, task and DLQ detectors, in the order of the poll. */
    method DetectQueuesAndTasks(obs: Observation)
      requires Ready()
      modifies this`active, this`pc, this`log, table
      ensures Ready() && History() == old(History())
      ensures forall key :: GroupOf(key) == OfFamily(StaleWorkers) || GroupOf(key) == OfSingle(WorkerDown) ==>
        (key in active <==> key in old(active))
      ensures reliable && AllRead(obs) ==>
        && Converged(obs, OfSingle(QueueLag)) && Converged(obs, OfFamily(StuckTasks))
        && Converged(obs, OfFamily(AbandonedTasks)) && Converged(obs, OfSingle(DlqNonEmpty))
    {
      SingleKeys();
      if obs.queueDepth.Some? {
        DetectSingle(QueueLag, obs.queueDepth.value > cfg.lagThreshold, map["depth" := Number(obs.queueDepth.value)]);
      }
      DetectTasks(obs);
      if obs.dlqDepth.Some? {
        DetectSingle(DlqNonEmpty, obs.dlqDepth.value > 0, map["depth" := Number(obs.dlqDepth.value)]);
      }
    }

    static lemma SingleKeys()
      ensures forall key, x :: GroupOf(key) == OfSingle(x) <==> key == SingleKey(x)
    {
      forall key, x ensures GroupOf(key) == OfSingle(x) <==> key == SingleKey(x) {
        SingleKeyGroup(x, key);
      }
    }

    method DetectTasks(obs: Observation)
      requires Ready()
      modifies this`active, this`pc, this`log, table
      ensures Ready() && History() == old(History())
      ensures forall key :: GroupOf(key) != OfFamily(StuckTasks) && GroupOf(key) != OfFamily(AbandonedTasks) ==>
        (key in active <==> key in old(active))
      ensures reliable && AllRead(obs) ==> Converged(obs, OfFamily(StuckTasks)) && Converged(obs, OfFamily(AbandonedTasks))
    {
      if obs.stuck.Some? {
        DetectFamily(StuckTasks, obs.stuck.value);
      }
      if obs.abandoned.Some? {
        DetectFamily(AbandonedTasks, obs.abandoned.value);
      }
    }

    /** Every key in the map belongs to some detector. */
    lemma OnlyRecognisedKeys()
      requires Valid()
      ensures forall key :: key in active ==> GroupOf(key) != Nobody
    {
      Facts();
      forall key | key in active ensures GroupOf(key) != Nobody {
        StoredKeysAreRecognised(table.events[active[key].id]);
      }
    }

    /**
     A poll whose reads and inserts succeed converges: whatever the map held before, and whatever
     others do to the table meanwhile, it then holds exactly the keys of the observed conditions.
     Whether they succeed or not, it probes once, and `worker.down` is then as the whole history
     demands. `keptDown` says whether that incident survived the reconciliation at the start.
     */
    method Poll(obs: Observation, listed: bool) returns (ghost keptDown: bool)
      requires Ready()
      modifies this`active, this`healthFailures, this`pc, this`log, this`probed, table
      ensures Ready() && EndsInProbe(History()) && probed == old(probed) + [obs.probeOk]
      ensures DOWN in active <==> Open(cfg.failures, History())
      ensures healthFailures == Streak(History())
      ensures (DOWN in active <==> FailedRun(probed) >= cfg.failures) <==> Decides(cfg.failures, History())
      ensures reliable && AllRead(obs) ==> forall key :: key != DOWN ==> (key in active <==> Wanted(cfg, obs, key))
      ensures reliable && AllRead(obs) ==> Shows(cfg, obs, active)
      ensures keptDown ==> DOWN in old(active)
      ensures DOWN in old(active) && !keptDown ==> listed
      ensures reliable ==>
        Down(healthFailures, DOWN in active)
        == DownStep(cfg.failures, Down(old(healthFailures), keptDown), if obs.probeOk then Up else Missed)
    {
      hide Runs, After, Trail, Probings, Decides, Open, Streak, StaleSubjects, Subjects, Prefix, SubjectOf;
      SingleKeys();
      ReconcileActiveState(listed);
      keptDown := DOWN in active;
      DetectStaleWorkers(obs);
      DetectWorkerDown(obs.probeOk);
      DetectQueuesAndTasks(obs);
      OnlyRecognisedKeys();
      DownFollowsHistory();
      FailedProbesDecide();
      if reliable && AllRead(obs) {
        assert forall key :: key != DOWN ==> (key in active <==> Wanted(cfg, obs, key));
        hide Wanted, Shows, AllRead;
        WantedIsShown(cfg, obs, active);
      }
    }
  }
}
