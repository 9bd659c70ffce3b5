/**
 The watchdog's incident protocol as a state machine: the in-memory dedup map against the
 `healing_events` table.

 The detector's emit, resolve, reconcile and reconstruct are split into their single effects, so
 that crashes, acknowledgements and external resolutions fall between any two of them. The keys
 and events a detector emits, and whether database calls fail, are arguments of the steps.
 */
module Incidents {
  import opened Common

  /** An event's id is its place in the order of insertion. */
  type EventId = nat

  datatype EventStatus = Active | Acknowledged | Resolved

  datatype Json = Text(text: string) | Number(number: int)
  datatype Details = NotAnObject | Object(fields: map<string, Json>)

  datatype Event = Event(
    kind: string,
    severity: string,
    worker: string,
    details: Details,
    chaosRun: Option<string>,
    status: EventStatus)

  // ---------------------------------------------------------------------------
  // Dedup keys
  // ---------------------------------------------------------------------------

  function TextField(details: Details, name: string): Option<string> {
    if details.Object? && name in details.fields && details.fields[name].Text?
    then Some(details.fields[name].text) else None
  }

  function FieldKey(prefix: string, field: Option<string>): string {
    if field.Some? then prefix + field.value else ""
  }

  const STALE := "worker.stale:"
  const STUCK := "task.stuck:"
  const ABANDONED := "task.abandoned:"
  const DOWN := "worker.down"
  const LAG := "queue.lag"
  const DLQ := "dlq.nonempty"

  /** The dedup key of a stored event; empty when it has none. */
  function KeyForEvent(ev: Event): string {
    if ev.kind == "worker.stale" then
      if ev.worker != "" then STALE + ev.worker else FieldKey(STALE, TextField(ev.details, "worker_id"))
    else if ev.kind == "worker.down" then DOWN
    else if ev.kind == "queue.lag" then LAG
    else if ev.kind == "task.stuck" then FieldKey(STUCK, TextField(ev.details, "task_id"))
    else if ev.kind == "task.abandoned" then FieldKey(ABANDONED, TextField(ev.details, "task_id"))
    else if ev.kind == "dlq.nonempty" then DLQ
    else ""
  }

  // ---------------------------------------------------------------------------
  // State and steps
  // ---------------------------------------------------------------------------

  datatype Entry = Entry(id: EventId, kind: string, severity: string, chaosRun: Option<string>)

  function EntryOf(ev: Event, id: EventId): Entry {
    Entry(id, ev.kind, ev.severity, ev.chaosRun)
  }

  /** Where the detector stands between its effects. */
  datatype Pc =
    | Idle
    | Registering(key: string, entry: Entry)
    | Resolving(id: EventId)
    | Evicting(seen: set<EventId>)
    | Stopped

  datatype State = State(events: seq<Event>, active: map<string, Entry>, pc: Pc)

  const INIT := State([], map[], Stopped)

  datatype Step =
    | Emit(key: string, ev: Event, applied: bool, acked: bool)
    | Register
    | Drop(dropped: string)
    | UpdateResolved(done: bool)
    | Snapshot
    | Evict(evicted: string)
    | EndReconcile
    | Crash
    | Restart(loaded: bool)
    | Acknowledge(e: EventId)
    | ResolveExternally(e: EventId)
    | ResolveAll
    | Audit(record: Event)

  function ActiveIds(events: seq<Event>): set<EventId> {
    set i: EventId | i < |events| && events[i].status == Active
  }

  /**
   The map rebuilt from the table: active events are visited from the newest to the oldest, and a
   later visit overwrites an earlier one.
   */
  function Rebuild(events: seq<Event>): map<string, Entry> {
    if events == [] then map[]
    else
      var n := |events| - 1;
      var ev := events[n];
      (if ev.status == Active && KeyForEvent(ev) != "" then map[KeyForEvent(ev) := EntryOf(ev, n)] else map[])
      + Rebuild(events[..n])
  }

  function SetStatus(events: seq<Event>, i: EventId, status: EventStatus): seq<Event>
    requires i < |events|
  {
    events[i := events[i].(status := status)]
  }

  function ResolveActive(events: seq<Event>): seq<Event> {
    seq(|events|, i requires 0 <= i < |events| =>
      if events[i].status == Active then events[i].(status := Resolved) else events[i])
  }

  /** The steps of everybody but the detector. */
  predicate Outside(step: Step) {
    step.Acknowledge? || step.ResolveExternally? || step.ResolveAll? || step.Audit?
  }

  predicate Enabled(s: State, step: Step) {
    match step
    case Emit(key, ev, applied, acked) =>
      s.pc == Idle && key != "" && key !in s.active && ev.status == Active && KeyForEvent(ev) == key && (acked ==> applied)
    case Register => s.pc.Registering?
    case Drop(key) => s.pc == Idle && key in s.active
    case UpdateResolved(_) => s.pc.Resolving?
    case Snapshot => s.pc == Idle
    case Evict(key) => s.pc.Evicting? && key in s.active && s.active[key].id !in s.pc.seen
    case EndReconcile => s.pc.Evicting?
    case Crash => s.pc != Stopped
    case Restart(_) => s.pc == Stopped
    case Acknowledge(e) => e < |s.events| && s.events[e].status == Active
    case ResolveExternally(e) => e < |s.events| && s.events[e].status == Active
    case ResolveAll => true
    case Audit(record) => record.status == Resolved
  }

  function Apply(s: State, step: Step): State {
    if !Enabled(s, step) then s else
    match step
    case Emit(key, ev, applied, acked) =>
      s.(events := if applied then s.events + [ev] else s.events,
         pc := if acked then Registering(key, EntryOf(ev, |s.events|)) else Idle)
    case Register => s.(active := s.active[s.pc.key := s.pc.entry], pc := Idle)
    case Drop(key) => s.(active := s.active - {key}, pc := Resolving(s.active[key].id))
    case UpdateResolved(done) =>
      s.(events := if done && s.pc.id < |s.events| && s.events[s.pc.id].status != Resolved
                   then SetStatus(s.events, s.pc.id, Resolved) else s.events,
         pc := Idle)
    case Snapshot => s.(pc := Evicting(ActiveIds(s.events)))
    case Evict(key) => s.(active := s.active - {key})
    case EndReconcile => s.(pc := Idle)
    case Crash => s.(active := map[], pc := Stopped)
    case Restart(loaded) => s.(active := if loaded then Rebuild(s.events) else map[], pc := Idle)
    case Acknowledge(e) => s.(events := SetStatus(s.events, e, Acknowledged))
    case ResolveExternally(e) => s.(events := SetStatus(s.events, e, Resolved))
    case ResolveAll => s.(events := ResolveActive(s.events))
    case Audit(record) => s.(events := s.events + [record])
  }

  function Run(s: State, steps: seq<Step>): State {
    if steps == [] then s else Apply(Run(s, steps[..|steps| - 1]), steps[|steps| - 1])
  }

  lemma RunSnoc(s: State, steps: seq<Step>, step: Step)
    ensures Run(s, steps + [step]) == Apply(Run(s, steps), step)
  {
    assert (steps + [step])[..|steps|] == steps;
  }

  // ---------------------------------------------------------------------------
  // One active incident per key
  // ---------------------------------------------------------------------------

  predicate ActiveFor(events: seq<Event>, i: EventId, key: string) {
    i < |events| && events[i].status == Active && KeyForEvent(events[i]) == key
  }

  ghost predicate OneActivePerKey(events: seq<Event>) {
    forall i: EventId, j: EventId, key | ActiveFor(events, i, key) && ActiveFor(events, j, key) :: i == j
  }

  /** Every active event has a key. */
  ghost predicate AllKeyed(events: seq<Event>) {
    forall i: EventId :: !ActiveFor(events, i, "")
  }

  /** Every entry of the map names an event with the entry's key, so distinct keys have distinct ids. */
  ghost predicate EntriesMatch(s: State) {
    forall key :: key in s.active ==>
      s.active[key].id < |s.events| && KeyForEvent(s.events[s.active[key].id]) == key && key != ""
  }

  /** Every active event is in the map, or is the one the detector is about to enter or resolve. */
  ghost predicate Covered(s: State) {
    s.pc != Stopped ==>
      forall i: EventId, key | ActiveFor(s.events, i, key) ::
        || (key in s.active && s.active[key].id == i)
        || (s.pc.Registering? && s.pc.key == key && s.pc.entry.id == i)
        || (s.pc.Resolving? && s.pc.id == i)
  }

  /** The event in hand is not in the map under its key. */
  predicate InHand(s: State) {
    && (s.pc.Registering? ==>
          && s.pc.entry.id < |s.events| && KeyForEvent(s.events[s.pc.entry.id]) == s.pc.key
          && s.pc.key != "" && s.pc.key !in s.active)
    && (s.pc.Resolving? ==> s.pc.id < |s.events| && KeyForEvent(s.events[s.pc.id]) !in s.active)
    && (s.pc == Stopped ==> s.active == map[])
  }

  /** A map entry whose event was not active at the snapshot is not active now. */
  ghost predicate SeenIsPast(s: State) {
    s.pc.Evicting? ==>
      forall key :: key in s.active && s.active[key].id < |s.events| && s.active[key].id !in s.pc.seen ==>
        s.events[s.active[key].id].status != Active
  }

  ghost predicate Inv(s: State) {
    && OneActivePerKey(s.events)
    && AllKeyed(s.events)
    && EntriesMatch(s)
    && Covered(s)
    && InHand(s)
    && SeenIsPast(s)
  }

  /** The database failures that the detector survives. */
  predicate Benign(s: State, step: Step) {
    match step
    case Emit(_, _, applied, acked) => applied ==> acked
    case UpdateResolved(done) =>
      done || !(s.pc.Resolving? && s.pc.id < |s.events| && s.events[s.pc.id].status == Active)
    case Restart(loaded) => loaded || ActiveIds(s.events) == {}
    case _ => true
  }

  /** An entry rebuilt from the table names an active event with its key. */
  lemma {:induction false} RebuildIsSound(events: seq<Event>, key: string)
    ensures key in Rebuild(events) ==> key != "" && ActiveFor(events, Rebuild(events)[key].id, key)
  {
    if events != [] {
      var n := |events| - 1;
      RebuildIsSound(events[..n], key);
      if key in Rebuild(events[..n]) {
        assert ActiveFor(events[..n], Rebuild(events[..n])[key].id, key);
      }
    }
  }

  /** Of the active events with a key, the rebuilt map keeps the oldest. */
  lemma {:induction false} RebuildIsComplete(events: seq<Event>, i: EventId, key: string)
    requires ActiveFor(events, i, key) && key != ""
    ensures key in Rebuild(events) && Rebuild(events)[key].id <= i
  {
    var n := |events| - 1;
    if i < n {
      assert ActiveFor(events[..n], i, key);
      RebuildIsComplete(events[..n], i, key);
    } else {
      RebuildIsSound(events[..n], key);
    }
  }

  lemma RebuildFacts(events: seq<Event>)
    requires OneActivePerKey(events)
    ensures forall key :: key in Rebuild(events) ==> key != "" && ActiveFor(events, Rebuild(events)[key].id, key)
    ensures forall i: EventId, key | ActiveFor(events, i, key) && key != "" ::
      key in Rebuild(events) && Rebuild(events)[key].id == i
  {
    forall key ensures key in Rebuild(events) ==> key != "" && ActiveFor(events, Rebuild(events)[key].id, key) {
      RebuildIsSound(events, key);
    }
    forall i: EventId, key | ActiveFor(events, i, key) && key != ""
      ensures key in Rebuild(events) && Rebuild(events)[key].id == i
    {
      RebuildIsComplete(events, i, key);
    }
  }

  // --- one group of steps at a time -----------------------------------------------

  lemma EmitKeepsInv(s: State, step: Step)
    requires Inv(s) && Enabled(s, step) && Benign(s, step) && (step.Emit? || step.Register?)
    ensures Inv(Apply(s, step))
  {
    var s' := Apply(s, step);
    if step.Emit? && step.applied {
      forall i: EventId, key | ActiveFor(s'.events, i, key) ensures i == |s.events| || ActiveFor(s.events, i, key) {
      }
      assert !exists i: EventId :: ActiveFor(s.events, i, step.key);
    }
  }

  lemma ResolveKeepsInv(s: State, step: Step)
    requires Inv(s) && Enabled(s, step) && Benign(s, step) && (step.Drop? || step.UpdateResolved?)
    ensures Inv(Apply(s, step))
  {
    var s' := Apply(s, step);
    forall i: EventId, key | ActiveFor(s'.events, i, key) ensures ActiveFor(s.events, i, key) {
    }
  }

  lemma ReconcileKeepsInv(s: State, step: Step)
    requires Inv(s) && Enabled(s, step) && (step.Snapshot? || step.Evict? || step.EndReconcile?)
    ensures Inv(Apply(s, step))
  {
  }

  lemma RestartKeepsInv(s: State, step: Step)
    requires Inv(s) && Enabled(s, step) && Benign(s, step) && (step.Crash? || step.Restart?)
    ensures Inv(Apply(s, step))
  {
    RebuildFacts(s.events);
    if step.Restart? && !step.loaded {
      forall i: EventId, key ensures !ActiveFor(s.events, i, key) {
        assert i !in ActiveIds(s.events);
      }
    }
  }

  /** After everything was resolved nothing is active, and what was not active is as before. */
  lemma NothingIsActiveAfterResolveAll(s: State)
    ensures
      var events := Apply(s, ResolveAll).events;
      && |events| == |s.events|
      && forall i :: 0 <= i < |events| ==>
           events[i] == if s.events[i].status == Active then s.events[i].(status := Resolved) else s.events[i]
  {
  }

  /** Whoever else touches the table: no event becomes active, and none changes its key. */
  lemma {:induction false} OutsidersKeepInv(s: State, events: seq<Event>)
    requires Inv(s) && |s.events| <= |events|
    requires forall i: EventId, key :: ActiveFor(events, i, key) ==> ActiveFor(s.events, i, key)
    requires forall i: EventId :: i < |s.events| ==> KeyForEvent(events[i]) == KeyForEvent(s.events[i])
    ensures Inv(s.(events := events))
  {
    var s' := s.(events := events);
    forall key | key in s'.active && s'.active[key].id < |s.events| && s'.pc.Evicting? && s'.active[key].id !in s'.pc.seen
      ensures events[s'.active[key].id].status != Active
    {
      assert !ActiveFor(s.events, s.active[key].id, key);
      assert !ActiveFor(events, s.active[key].id, key);
    }
  }

  lemma StepKeepsInv(s: State, step: Step)
    requires Inv(s) && Benign(s, step)
    ensures Inv(Apply(s, step))
  {
    hide Inv;
    if Enabled(s, step) {
      match step
      case Emit(_, _, _, _) => EmitKeepsInv(s, step);
      case Register => EmitKeepsInv(s, step);
      case Drop(_) => ResolveKeepsInv(s, step);
      case UpdateResolved(_) => ResolveKeepsInv(s, step);
      case Snapshot => ReconcileKeepsInv(s, step);
      case Evict(_) => ReconcileKeepsInv(s, step);
      case EndReconcile => ReconcileKeepsInv(s, step);
      case Crash => RestartKeepsInv(s, step);
      case Restart(_) => RestartKeepsInv(s, step);
      case Acknowledge(e) => OutsidersKeepInv(s, SetStatus(s.events, e, Acknowledged));
      case ResolveExternally(e) => OutsidersKeepInv(s, SetStatus(s.events, e, Resolved));
      case ResolveAll => OutsidersKeepInv(s, ResolveActive(s.events));
      case Audit(record) => OutsidersKeepInv(s, s.events + [record]);
    }
  }

  ghost predicate BenignRun(s: State, steps: seq<Step>) {
    steps != [] ==>
      && BenignRun(s, steps[..|steps| - 1])
      && Benign(Run(s, steps[..|steps| - 1]), steps[|steps| - 1])
  }

  lemma {:induction false} RunKeepsInv(s: State, steps: seq<Step>)
    requires Inv(s) && BenignRun(s, steps)
    ensures Inv(Run(s, steps))
  {
    if steps != [] {
      RunKeepsInv(s, steps[..|steps| - 1]);
      StepKeepsInv(Run(s, steps[..|steps| - 1]), steps[|steps| - 1]);
    }
  }

  /**
   One active incident per key, over every interleaving of emits, resolutions, reconciliations,
   crashes and restarts at any of their effects, acknowledgements and external resolutions.
   */
  lemma IncidentsAreUnique(steps: seq<Step>)
    requires BenignRun(INIT, steps)
    ensures OneActivePerKey(Run(INIT, steps).events)
  {
    assert Inv(INIT);
    RunKeepsInv(INIT, steps);
  }

  // ---------------------------------------------------------------------------
  // Which failures break it
  // ---------------------------------------------------------------------------

  /** An active event that the detector, being idle, has lost track of. */
  predicate Lost(s: State, i: EventId) {
    s.pc == Idle && i < |s.events| && s.events[i].status == Active
    && KeyForEvent(s.events[i]) != "" && KeyForEvent(s.events[i]) !in s.active
  }

  /** The next detection of the same condition makes a second active event. */
  lemma LostEventIsDuplicated(s: State, i: EventId) returns (steps: seq<Step>)
    requires Lost(s, i)
    ensures BenignRun(s, steps) && !OneActivePerKey(Run(s, steps).events)
  {
    var key := KeyForEvent(s.events[i]);
    var again := Emit(key, s.events[i], true, true);
    steps := [again];
    assert steps[..0] == [];
    assert Run(s, []) == s;
    var s' := Apply(s, again);
    assert ActiveFor(s'.events, i, key) && ActiveFor(s'.events, |s.events|, key);
  }

  lemma HarmfulStepLosesAnEvent(s: State, step: Step) returns (i: EventId)
    requires Inv(s) && Enabled(s, step) && !Benign(s, step)
    ensures Lost(Apply(s, step), i)
  {
    match step
    case Emit(key, ev, applied, acked) => i := |s.events|;
    case UpdateResolved(done) =>
      i := s.pc.id;
      assert ActiveFor(s.events, i, KeyForEvent(s.events[i]));
    case Restart(loaded) =>
      i :| i in ActiveIds(s.events);
      assert ActiveFor(s.events, i, KeyForEvent(s.events[i]));
  }

  /**
   A step of the protocol is safe, meaning that incidents stay unique in every benign continuation,
   exactly when it is not one of three failures: an insert that took effect but was reported as
   failed, a failed resolve of a still active event, or a failed reload while events are active.
   */
  lemma SafeExactlyWhenBenign(s: State, step: Step)
    requires Inv(s) && Enabled(s, step)
    ensures (forall more :: BenignRun(Apply(s, step), more) ==> OneActivePerKey(Run(Apply(s, step), more).events))
        <==> Benign(s, step)
  {
    var s' := Apply(s, step);
    if Benign(s, step) {
      StepKeepsInv(s, step);
      forall more | BenignRun(s', more) ensures OneActivePerKey(Run(s', more).events) {
        RunKeepsInv(s', more);
      }
    } else {
      var i := HarmfulStepLosesAnEvent(s, step);
      var more := LostEventIsDuplicated(s', i);
    }
  }

  // Benign runs from the empty state that reach each of the three failures.

  ghost predicate Reaches(steps: seq<Step>, s: State) {
    BenignRun(INIT, steps) && Run(INIT, steps) == s
  }

  lemma OneStepFurther(steps: seq<Step>, s: State, step: Step)
    requires Reaches(steps, s) && Benign(s, step)
    ensures Reaches(steps + [step], Apply(s, step))
  {
    RunSnoc(INIT, steps, step);
    assert (steps + [step])[..|steps|] == steps;
  }

  const LAG_EVENT := Event("queue.lag", "warning", "", Object(map[]), None, Active)
  const LAG_ENTRY := Entry(0, "queue.lag", "warning", None)

  lemma FirstStart() returns (steps: seq<Step>)
    ensures Reaches(steps, State([], map[], Idle))
  {
    steps := [];
    assert Reaches(steps, INIT);
    OneStepFurther(steps, INIT, Restart(true));
    steps := steps + [Restart(true)];
  }

  /** The first incident can be stored and reported as not stored. */
  lemma UnacknowledgedInsertIsReached() returns (steps: seq<Step>, step: Step)
    ensures BenignRun(INIT, steps) && Enabled(Run(INIT, steps), step) && !Benign(Run(INIT, steps), step)
    ensures step == Emit(LAG, LAG_EVENT, true, false)
  {
    steps := FirstStart();
    step := Emit(LAG, LAG_EVENT, true, false);
  }

  lemma FirstIncident() returns (steps: seq<Step>)
    ensures Reaches(steps, State([LAG_EVENT], map[LAG := LAG_ENTRY], Idle))
  {
    hide Reaches;
    var before := FirstStart();
    var emit := Emit(LAG, LAG_EVENT, true, true);
    OneStepFurther(before, State([], map[], Idle), emit);
    assert [] + [LAG_EVENT] == [LAG_EVENT];
    OneStepFurther(before + [emit], State([LAG_EVENT], map[], Registering(LAG, LAG_ENTRY)), Register);
    steps := before + [emit] + [Register];
  }

  /** An incident that is over can fail to be resolved. */
  lemma FailedResolveIsReached() returns (steps: seq<Step>, step: Step)
    ensures BenignRun(INIT, steps) && Enabled(Run(INIT, steps), step) && !Benign(Run(INIT, steps), step)
    ensures step == UpdateResolved(false)
  {
    steps := FirstIncident();
    OneStepFurther(steps, State([LAG_EVENT], map[LAG := LAG_ENTRY], Idle), Drop(LAG));
    steps := steps + [Drop(LAG)];
    step := UpdateResolved(false);
  }

  /** A watchdog that died with an incident open can fail to reload it. */
  lemma FailedReloadIsReached() returns (steps: seq<Step>, step: Step)
    ensures BenignRun(INIT, steps) && Enabled(Run(INIT, steps), step) && !Benign(Run(INIT, steps), step)
    ensures step == Restart(false)
  {
    steps := FirstIncident();
    OneStepFurther(steps, State([LAG_EVENT], map[LAG := LAG_ENTRY], Idle), Crash);
    steps := steps + [Crash];
    step := Restart(false);
    assert 0 in ActiveIds([LAG_EVENT]);
  }
}
