/**
 The rule for `worker.down`: how the counter of failed probes and the incident in the dedup map
 follow from everything that has happened since the first watchdog was started.

 A log interleaves health probes with the effects of the incident protocol. `Permits` says which
 logs a detector writes: it reports `worker.down` only when a probe calls for it, and resolves it
 only after a successful one; everybody else may act at any time, and the watchdog may die at any
 point.
 */
module DownRule {
  import opened Common
  import opened Incidents

  datatype Mark = Did(step: Step) | Probed(ok: bool)

  /** What the last probe still calls for. */
  datatype Phase = Settled | ToReport | ToResolve

  datatype Monitor = Monitor(state: State, failures: nat, phase: Phase)

  const START := Monitor(INIT, 0, Settled)

  predicate ReportsDown(step: Step) { step.Emit? && step.key == DOWN }

  predicate ResolvesDown(step: Step) { step.Drop? && step.dropped == DOWN }

  ghost predicate Permits(m: Monitor, mark: Mark) {
    match mark
    case Probed(_) => m.state.pc == Idle && m.phase == Settled
    case Did(step) =>
      && Enabled(m.state, step) && Benign(m.state, step)
      && (Outside(step) || step.Crash?
          || m.phase == if ReportsDown(step) then ToReport else if ResolvesDown(step) then ToResolve else Settled)
  }

  /** The phase after a probe: report at the threshold, resolve on success, each if not done already. */
  function Called(threshold: int, ok: bool, failures: nat, open: bool): Phase {
    if ok then if open then ToResolve else Settled
    else if failures >= threshold && !open then ToReport else Settled
  }

  function Next(threshold: int, m: Monitor, mark: Mark): Monitor {
    match mark
    case Probed(ok) =>
      var failures := if ok then 0 else m.failures + 1;
      m.(failures := failures, phase := Called(threshold, ok, failures, DOWN in m.state.active))
    case Did(step) =>
      Monitor(Apply(m.state, step),
              if step.Restart? then 0 else m.failures,
              if ReportsDown(step) || ResolvesDown(step) || step.Crash? then Settled else m.phase)
  }

  function After(threshold: int, log: seq<Mark>): Monitor {
    if log == [] then START else Next(threshold, After(threshold, log[..|log| - 1]), log[|log| - 1])
  }

  /** The logs that detectors write, one watchdog after another on the same table. */
  ghost predicate Runs(threshold: int, log: seq<Mark>) {
    log != [] ==>
      && Runs(threshold, log[..|log| - 1])
      && Permits(After(threshold, log[..|log| - 1]), log[|log| - 1])
  }

  lemma RunsSnoc(threshold: int, log: seq<Mark>, mark: Mark)
    ensures After(threshold, log + [mark]) == Next(threshold, After(threshold, log), mark)
    ensures Runs(threshold, log + [mark]) <==> Runs(threshold, log) && Permits(After(threshold, log), mark)
  {
    assert (log + [mark])[..|log|] == log;
  }

  /** The results of the probes. */
  function Probings(log: seq<Mark>): seq<bool> {
    if log == [] then []
    else
      Probings(log[..|log| - 1]) + if log[|log| - 1].Probed? then [log[|log| - 1].ok] else []
  }

  lemma ProbingsSnoc(log: seq<Mark>, mark: Mark)
    ensures Probings(log + [mark]) == Probings(log) + if mark.Probed? then [mark.ok] else []
  {
    assert (log + [mark])[..|log|] == log;
  }

  lemma {:induction false} RunsKeepInv(threshold: int, log: seq<Mark>)
    requires Runs(threshold, log)
    ensures Inv(After(threshold, log).state)
  {
    if log != [] {
      hide Inv, Apply, Enabled, Benign;
      var before, mark := log[..|log| - 1], log[|log| - 1];
      RunsKeepInv(threshold, before);
      if mark.Did? {
        StepKeepsInv(After(threshold, before).state, mark.step);
      }
    } else {
      assert Inv(INIT);
    }
  }

  lemma {:induction false} StoppedIsSettled(threshold: int, log: seq<Mark>)
    requires Runs(threshold, log) && After(threshold, log).state.pc == Stopped
    ensures After(threshold, log).phase == Settled
  {
    if log != [] {
      var before := After(threshold, log[..|log| - 1]);
      if before.state.pc == Stopped {
        StoppedIsSettled(threshold, log[..|log| - 1]);
      }
    }
  }

  // ---------------------------------------------------------------------------
  // What counts
  // ---------------------------------------------------------------------------

  /**
   What decides about `worker.down`: probes; restarts, with what the table then held; the eviction
   of an incident that others acknowledged or resolved; and a report that could not be stored.
   */
  datatype Moment = Up | Missed | Restarted(open: bool) | Evicted | Unsent

  /** The table has an active `worker.down` event. */
  ghost predicate IsOpen(events: seq<Event>) {
    exists i: EventId :: ActiveFor(events, i, DOWN)
  }

  ghost function Moments(events: seq<Event>, mark: Mark): seq<Moment> {
    match mark
    case Probed(ok) => [if ok then Up else Missed]
    case Did(step) =>
      if step.Restart? then [Restarted(IsOpen(events))]
      else if step == Evict(DOWN) then [Evicted]
      else if ReportsDown(step) && !step.acked then [Unsent]
      else []
  }

  ghost function Trail(threshold: int, log: seq<Mark>): seq<Moment> {
    if log == [] then []
    else
      var before := log[..|log| - 1];
      Trail(threshold, before) + Moments(After(threshold, before).state.events, log[|log| - 1])
  }

  /** A mark that does not count. */
  predicate Silent(mark: Mark) {
    && mark.Did? && !mark.step.Restart? && mark.step != Evict(DOWN)
    && !(ReportsDown(mark.step) && !mark.step.acked)
  }

  datatype Down = Down(failures: nat, reported: bool)

  function DownStep(threshold: int, d: Down, m: Moment): Down {
    match m
    case Up => Down(0, false)
    case Missed => Down(d.failures + 1, d.reported || d.failures + 1 >= threshold)
    case Restarted(open) => Down(0, open)
    case Evicted => d.(reported := false)
    case Unsent => d.(reported := false)
  }

  function DownRun(threshold: int, trail: seq<Moment>): Down {
    if trail == [] then Down(0, false)
    else DownStep(threshold, DownRun(threshold, trail[..|trail| - 1]), trail[|trail| - 1])
  }

  lemma DownRunSnoc(threshold: int, trail: seq<Moment>, more: seq<Moment>)
    requires |more| <= 1
    ensures DownRun(threshold, trail + more)
         == if more == [] then DownRun(threshold, trail) else DownStep(threshold, DownRun(threshold, trail), more[0])
  {
    if more == [] {
      assert trail + more == trail;
    } else {
      assert (trail + more)[..|trail|] == trail;
    }
  }

  /** The map follows the trail, up to what the last probe still calls for. */
  predicate Follows(m: Monitor, d: Down) {
    && m.failures == d.failures
    && (m.state.pc != Stopped ==>
          match m.phase
          case Settled =>
            (DOWN in m.state.active || (m.state.pc.Registering? && m.state.pc.key == DOWN)) <==> d.reported
          case ToReport => m.state.pc == Idle && DOWN !in m.state.active && d.reported
          case ToResolve => m.state.pc == Idle && DOWN in m.state.active && !d.reported)
  }

  lemma ReloadedIsOpen(events: seq<Event>)
    requires OneActivePerKey(events)
    ensures DOWN in Rebuild(events) <==> IsOpen(events)
  {
    RebuildFacts(events);
    if DOWN in Rebuild(events) {
      assert ActiveFor(events, Rebuild(events)[DOWN].id, DOWN);
    }
  }

  lemma TrailSnoc(threshold: int, log: seq<Mark>, mark: Mark)
    ensures Trail(threshold, log + [mark]) == Trail(threshold, log) + Moments(After(threshold, log).state.events, mark)
  {
    assert (log + [mark])[..|log|] == log;
  }

  lemma StepFollows(threshold: int, m: Monitor, d: Down, mark: Mark)
    requires Inv(m.state) && Permits(m, mark) && Follows(m, d)
    ensures
      var more := Moments(m.state.events, mark);
      Follows(Next(threshold, m, mark), if more == [] then d else DownStep(threshold, d, more[0]))
  {
    hide EntriesMatch, Covered, InHand, SeenIsPast, AllKeyed, KeyForEvent, Rebuild;
    if mark.Did? && mark.step.Restart? {
      ReloadedIsOpen(m.state.events);
      if !mark.step.loaded {
        forall i: EventId ensures !ActiveFor(m.state.events, i, DOWN) {
          assert i !in ActiveIds(m.state.events);
        }
      }
    }
  }

  lemma {:induction false} RunFollows(threshold: int, log: seq<Mark>)
    requires Runs(threshold, log)
    ensures Follows(After(threshold, log), DownRun(threshold, Trail(threshold, log)))
  {
    hide Inv, Permits, Next, Follows, Moments, DownStep;
    if log == [] {
      assert Follows(START, Down(0, false)) by { StartFollows(); }
    } else {
      var before, mark := log[..|log| - 1], log[|log| - 1];
      RunFollows(threshold, before);
      RunsKeepInv(threshold, before);
      var m := After(threshold, before);
      StepFollows(threshold, m, DownRun(threshold, Trail(threshold, before)), mark);
      AtMostOneMoment(m.state.events, mark);
      DownRunSnoc(threshold, Trail(threshold, before), Moments(m.state.events, mark));
    }
  }

  lemma StartFollows()
    ensures Follows(START, Down(0, false))
  {
  }

  lemma AtMostOneMoment(events: seq<Event>, mark: Mark)
    ensures |Moments(events, mark)| <= 1
  {
  }

  // ---------------------------------------------------------------------------
  // The exact rule
  // ---------------------------------------------------------------------------

  /** The misses since the last successful probe or restart. */
  function Streak(trail: seq<Moment>): nat {
    if trail == [] then 0
    else
      match trail[|trail| - 1]
      case Up => 0
      case Restarted(_) => 0
      case Missed => Streak(trail[..|trail| - 1]) + 1
      case _ => Streak(trail[..|trail| - 1])
  }

  /** A miss that reaches the threshold opens the incident; a restart finds it open. */
  predicate Opens(threshold: int, trail: seq<Moment>, i: nat) {
    && i < |trail|
    && (trail[i] == Restarted(true) || (trail[i] == Missed && Streak(trail[..i + 1]) >= threshold))
  }

  predicate Closes(m: Moment) {
    m == Up || m == Evicted || m == Unsent || m == Restarted(false)
  }

  ghost predicate OpenSince(threshold: int, trail: seq<Moment>, i: nat) {
    Opens(threshold, trail, i) && forall j :: i < j < |trail| ==> !Closes(trail[j])
  }

  /** Something opened the incident, and nothing closed it since. */
  ghost predicate Open(threshold: int, trail: seq<Moment>) {
    exists i: nat :: OpenSince(threshold, trail, i)
  }

  lemma OpenSinceSnoc(threshold: int, trail: seq<Moment>, m: Moment, i: nat)
    ensures i < |trail| ==>
      (OpenSince(threshold, trail + [m], i) <==> OpenSince(threshold, trail, i) && !Closes(m))
  {
    hide Streak;
    var longer := trail + [m];
    if i < |trail| {
      assert longer[..i + 1] == trail[..i + 1];
      assert longer[|trail|] == m;
      assert forall j :: 0 <= j < |trail| ==> longer[j] == trail[j];
    }
  }

  lemma OpenSnoc(threshold: int, trail: seq<Moment>, m: Moment)
    ensures Open(threshold, trail + [m]) <==>
      Opens(threshold, trail + [m], |trail|) || (Open(threshold, trail) && !Closes(m))
  {
    hide Opens, Closes;
    var longer := trail + [m];
    if i: nat :| OpenSince(threshold, trail, i) && !Closes(m) {
      InTrail(threshold, trail, i);
      OpenSinceSnoc(threshold, trail, m, i);
    }
    if Opens(threshold, longer, |trail|) {
      assert OpenSince(threshold, longer, |trail|);
    }
    if i: nat :| OpenSince(threshold, longer, i) {
      InTrail(threshold, longer, i);
      if i < |trail| {
        OpenSinceSnoc(threshold, trail, m, i);
      }
    }
  }

  lemma InTrail(threshold: int, trail: seq<Moment>, i: nat)
    requires OpenSince(threshold, trail, i)
    ensures i < |trail|
  {
  }

  lemma {:induction false} DownRunIsOpen(threshold: int, trail: seq<Moment>)
    ensures DownRun(threshold, trail).failures == Streak(trail)
    ensures DownRun(threshold, trail).reported <==> Open(threshold, trail)
  {
    hide Open;
    if trail == [] {
      assert !Open(threshold, []) by { NothingOpen(threshold); }
    } else {
      var n := |trail| - 1;
      DownRunIsOpen(threshold, trail[..n]);
      OpenSnoc(threshold, trail[..n], trail[n]);
      assert trail[..n] + [trail[n]] == trail;
      assert trail[..n + 1] == trail;
    }
  }

  lemma NothingOpen(threshold: int)
    ensures !Open(threshold, [])
  {
  }

  /**
   Over every history of watchdogs, with deaths and restarts at any effect, acknowledgements and
   resolutions by others at any time, and failing inserts: whenever the detector is between two
   detections, `worker.down` is in its map exactly when a miss reached the threshold (counting since
   the last successful probe or restart) or a restart found the incident open, and since then no
   probe succeeded, the incident was not evicted, no report of it failed and no restart found it
   closed.
   */
  lemma {:induction false} DownIsExact(threshold: int, log: seq<Mark>)
    requires Runs(threshold, log)
    requires After(threshold, log).state.pc == Idle && After(threshold, log).phase == Settled
    ensures DOWN in After(threshold, log).state.active <==> Open(threshold, Trail(threshold, log))
    ensures After(threshold, log).failures == Streak(Trail(threshold, log))
  {
    RunFollows(threshold, log);
    DownRunIsOpen(threshold, Trail(threshold, log));
  }

  // ---------------------------------------------------------------------------
  // When the trailing run of misses decides
  // ---------------------------------------------------------------------------

  /** The trailing run of missed probes in the whole history, restarts or not. */
  function Misses(trail: seq<Moment>): nat {
    if trail == [] || trail[|trail| - 1] == Up then 0
    else Misses(trail[..|trail| - 1]) + if trail[|trail| - 1] == Missed then 1 else 0
  }

  lemma MissesSnoc(trail: seq<Moment>, m: Moment)
    ensures Misses(trail + [m]) == if m == Up then 0 else Misses(trail) + if m == Missed then 1 else 0
  {
    assert (trail + [m])[..|trail|] == trail;
  }

  /** The trailing run of failures among the probes alone. */
  function FailedRun(probed: seq<bool>): nat {
    if probed == [] || probed[|probed| - 1] then 0 else FailedRun(probed[..|probed| - 1]) + 1
  }

  lemma FailedRunSnoc(probed: seq<bool>, ok: bool)
    ensures FailedRun(probed + [ok]) == if ok then 0 else FailedRun(probed) + 1
  {
    assert (probed + [ok])[..|probed|] == probed;
  }

  /** What else a trail records does not change the run of misses. */
  lemma OneMarkCounts(trail: seq<Moment>, probed: seq<bool>, events: seq<Event>, mark: Mark)
    requires Misses(trail) == FailedRun(probed)
    ensures Misses(trail + Moments(events, mark)) == FailedRun(probed + if mark.Probed? then [mark.ok] else [])
  {
    hide Misses, FailedRun, IsOpen;
    var more := Moments(events, mark);
    if mark.Probed? {
      FailedRunSnoc(probed, mark.ok);
      MissesSnoc(trail, more[0]);
    } else {
      assert probed + [] == probed;
      if more == [] {
        assert trail + more == trail;
      } else {
        MissesSnoc(trail, more[0]);
        assert more == [more[0]];
      }
    }
  }

  /** The run of misses on the trail is the run of failures among the probes. */
  lemma {:induction false} MissesAreFailedProbes(threshold: int, log: seq<Mark>)
    ensures Misses(Trail(threshold, log)) == FailedRun(Probings(log))
  {
    hide Moments;
    if log != [] {
      var before := log[..|log| - 1];
      MissesAreFailedProbes(threshold, before);
      OneMarkCounts(Trail(threshold, before), Probings(before), After(threshold, before).state.events, log[|log| - 1]);
    }
  }

  lemma {:induction false} StreakWithinMisses(trail: seq<Moment>)
    ensures Streak(trail) <= Misses(trail)
  {
    if trail != [] {
      StreakWithinMisses(trail[..|trail| - 1]);
    }
  }

  /** The last moment is a probe's, or that of its failed report. */
  predicate EndsInProbe(trail: seq<Moment>) {
    trail != [] && (trail[|trail| - 1] == Up || trail[|trail| - 1] == Missed || trail[|trail| - 1] == Unsent)
  }

  /** A detection has ended, and no restart or eviction came after it. */
  ghost predicate AtRest(threshold: int, log: seq<Mark>) {
    && After(threshold, log).state.pc == Idle && After(threshold, log).phase == Settled
    && EndsInProbe(Trail(threshold, log))
  }

  /** `worker.down` is in the map exactly on a trailing run of the threshold. */
  ghost predicate Agrees(threshold: int, log: seq<Mark>) {
    DOWN in After(threshold, log).state.active <==> Misses(Trail(threshold, log)) >= threshold
  }

  /** The last restart found the incident open, and since then only misses followed. */
  predicate Inherited(trail: seq<Moment>) {
    && trail != []
    && match trail[|trail| - 1]
       case Restarted(open) => open
       case Missed => Inherited(trail[..|trail| - 1])
       case _ => false
  }

  /**
   After a successful probe the run decides if the threshold is positive, after a failed report
   never. After a miss it does once the misses of this life reach the threshold; before that, the
   incident must have been inherited exactly if the whole run reaches it.
   */
  predicate Decides(threshold: int, trail: seq<Moment>)
    requires trail != []
  {
    match trail[|trail| - 1]
    case Up => threshold > 0
    case Missed => Streak(trail) >= threshold || (Inherited(trail) <==> Misses(trail) >= threshold)
    case _ => false
  }

  lemma {:induction false} BelowThresholdOpenIsInherited(threshold: int, trail: seq<Moment>)
    requires Streak(trail) < threshold
    ensures Open(threshold, trail) <==> Inherited(trail)
  {
    DownRunIsOpen(threshold, trail);
    if trail != [] {
      DownRunIsOpen(threshold, trail[..|trail| - 1]);
      if trail[|trail| - 1] == Missed {
        BelowThresholdOpenIsInherited(threshold, trail[..|trail| - 1]);
      }
    }
  }

  /** A report is called for only at the threshold. */
  lemma {:induction false} ReportsAreDue(threshold: int, log: seq<Mark>)
    requires Runs(threshold, log) && After(threshold, log).phase == ToReport
    ensures After(threshold, log).failures >= threshold
  {
    hide Inv, Enabled, Benign;
    if log != [] {
      var before, mark := log[..|log| - 1], log[|log| - 1];
      if After(threshold, before).phase == ToReport {
        ReportsAreDue(threshold, before);
      }
    }
  }

  lemma {:induction false} FailedReportsAreDue(threshold: int, log: seq<Mark>)
    requires Runs(threshold, log)
    ensures
      var trail := Trail(threshold, log);
      trail != [] && trail[|trail| - 1] == Unsent ==> Streak(trail) >= threshold
  {
    hide Inv, Enabled, Benign, Follows, Apply, Streak, IsOpen;
    if log != [] {
      var before, mark := log[..|log| - 1], log[|log| - 1];
      FailedReportsAreDue(threshold, before);
      var trail := Trail(threshold, before);
      if mark.Did? && ReportsDown(mark.step) && !mark.step.acked {
        ReportsAreDue(threshold, before);
        FailuresAreTheStreak(threshold, before);
        StreakPastFailedReport(trail);
      } else {
        assert Trail(threshold, log) == trail || Trail(threshold, log)[|trail|] != Unsent;
      }
    }
  }

  lemma FailuresAreTheStreak(threshold: int, log: seq<Mark>)
    requires Runs(threshold, log)
    ensures After(threshold, log).failures == Streak(Trail(threshold, log))
  {
    RunFollows(threshold, log);
    DownRunIsOpen(threshold, Trail(threshold, log));
  }

  lemma StreakPastFailedReport(trail: seq<Moment>)
    ensures Streak(trail + [Unsent]) == Streak(trail)
  {
    assert (trail + [Unsent])[..|trail|] == trail;
  }

  lemma OpenAfter(threshold: int, trail: seq<Moment>)
    requires trail != []
    ensures trail[|trail| - 1] == Up || trail[|trail| - 1] == Unsent ==> !Open(threshold, trail)
    ensures trail[|trail| - 1] == Missed && Streak(trail) >= threshold ==> Open(threshold, trail)
  {
    hide Open;
    DownRunIsOpen(threshold, trail);
    DownRunIsOpen(threshold, trail[..|trail| - 1]);
  }

  /** Over every history, at the end of a detection. */
  lemma DecidesExactly(threshold: int, log: seq<Mark>)
    requires Runs(threshold, log) && AtRest(threshold, log)
    ensures Agrees(threshold, log) <==> Decides(threshold, Trail(threshold, log))
  {
    hide Runs, After, Trail, Open, Streak, Inherited;
    var trail := Trail(threshold, log);
    DownIsExact(threshold, log);
    OpenAfter(threshold, trail);
    StreakWithinMisses(trail);
    FailedReportsAreDue(threshold, log);
    if Streak(trail) < threshold {
      BelowThresholdOpenIsInherited(threshold, trail);
    }
  }

  lemma {:induction false} PrefixesRun(threshold: int, log: seq<Mark>, n: nat)
    requires Runs(threshold, log) && n <= |log|
    ensures Runs(threshold, log[..n])
  {
    hide Permits;
    if n < |log| {
      PrefixesRun(threshold, log[..|log| - 1], n);
      assert log[..|log| - 1][..n] == log[..n];
    } else {
      assert log[..n] == log;
    }
  }

  /** The trailing run decides at the end of every detection of a history iff it does by this condition. */
  lemma TrailingRunDecidesExactly(threshold: int, log: seq<Mark>)
    requires Runs(threshold, log)
    ensures (forall n :: 0 <= n <= |log| && AtRest(threshold, log[..n]) ==> Agrees(threshold, log[..n]))
       <==> (forall n :: 0 <= n <= |log| && AtRest(threshold, log[..n]) ==> Decides(threshold, Trail(threshold, log[..n])))
  {
    hide Runs, Agrees, Decides;
    forall n | 0 <= n <= |log| && AtRest(threshold, log[..n])
      ensures Agrees(threshold, log[..n]) <==> Decides(threshold, Trail(threshold, log[..n]))
    {
      PrefixesRun(threshold, log, n);
      DecidesExactly(threshold, log[..n]);
    }
  }

  /** Within one life that found no incident open and whose reports were stored, evictions do no harm. */
  lemma EvictionsAreRepaired(threshold: int, log: seq<Mark>)
    requires Runs(threshold, log) && AtRest(threshold, log)
    requires
      var trail := Trail(threshold, log);
      && trail[0] == Restarted(false)
      && forall k :: 0 < k < |trail| ==> !trail[k].Restarted? && trail[k] != Unsent
    ensures Agrees(threshold, log) <==> threshold > 0 || Misses(Trail(threshold, log)) > 0
  {
    hide Runs, After, Agrees;
    InheritsNothing(Trail(threshold, log));
    DecidesExactly(threshold, log);
  }

  lemma {:induction false} InheritsNothing(trail: seq<Moment>)
    requires trail != [] && trail[0] == Restarted(false)
    requires forall k :: 0 < k < |trail| ==> !trail[k].Restarted?
    ensures !Inherited(trail) && Streak(trail) == Misses(trail)
  {
    if |trail| > 1 {
      InheritsNothing(trail[..|trail| - 1]);
    } else {
      assert trail[..0] == [];
    }
  }

  // ---------------------------------------------------------------------------
  // One life
  // ---------------------------------------------------------------------------

  /** A start of the watchdog, and nothing but probes since. */
  predicate OneLife(trail: seq<Moment>) {
    && trail != [] && trail[0].Restarted?
    && forall k :: 0 < k < |trail| ==> trail[k] == Up || trail[k] == Missed
  }

  /** What the rule says of a trail of one life, and that its streak is the trailing run. */
  predicate LifeFollows(threshold: int, trail: seq<Moment>)
    requires trail != [] && trail[0].Restarted?
  {
    && Streak(trail) == Misses(trail)
    && (DownRun(threshold, trail).reported <==>
          (Misses(trail) > 0 && Misses(trail) >= threshold) || (trail[0].open && Up !in trail))
  }

  lemma LifeBegins(threshold: int, open: bool)
    ensures LifeFollows(threshold, [Restarted(open)])
  {
    assert [Restarted(open)][..0] == [];
  }

  lemma LifeGoesOn(threshold: int, trail: seq<Moment>, m: Moment)
    requires trail != [] && trail[0].Restarted? && (m == Up || m == Missed)
    requires LifeFollows(threshold, trail) && DownRun(threshold, trail).failures == Streak(trail)
    ensures LifeFollows(threshold, trail + [m])
  {
    assert (trail + [m])[..|trail|] == trail;
    assert Up in trail + [m] <==> Up in trail || m == Up;
  }

  lemma {:induction false} OpenInOneLife(threshold: int, trail: seq<Moment>)
    requires OneLife(trail)
    ensures LifeFollows(threshold, trail)
  {
    hide LifeFollows;
    var n := |trail| - 1;
    if n == 0 {
      LifeBegins(threshold, trail[0].open);
      assert trail == [Restarted(trail[0].open)];
    } else {
      OpenInOneLife(threshold, trail[..n]);
      DownRunIsOpen(threshold, trail[..n]);
      LifeGoesOn(threshold, trail[..n], trail[n]);
      assert trail[..n] + [trail[n]] == trail;
    }
  }

  /**
   In a life with no eviction and no failed report: exactly when the trailing run reaches the
   threshold, or the start found the incident open and no probe succeeded since.
   */
  lemma DownExactlyInOneLife(threshold: int, log: seq<Mark>)
    requires Runs(threshold, log)
    requires After(threshold, log).state.pc == Idle && After(threshold, log).phase == Settled
    requires OneLife(Trail(threshold, log))
    ensures
      var trail := Trail(threshold, log);
      DOWN in After(threshold, log).state.active <==>
        (Misses(trail) > 0 && Misses(trail) >= threshold) || (trail[0].open && Up !in trail)
    ensures After(threshold, log).failures == Misses(Trail(threshold, log))
  {
    hide Runs, After, Trail, Open, Streak, Misses;
    DownIsExact(threshold, log);
    DownRunIsOpen(threshold, Trail(threshold, log));
    OpenInOneLife(threshold, Trail(threshold, log));
  }

  // ---------------------------------------------------------------------------
  // Histories in which it does not
  // ---------------------------------------------------------------------------

  ghost predicate LeadsTo(log: seq<Mark>, m: Monitor, trail: seq<Moment>) {
    Runs(3, log) && After(3, log) == m && Trail(3, log) == trail
  }

  lemma Extend(log: seq<Mark>, m: Monitor, trail: seq<Moment>, mark: Mark)
    requires LeadsTo(log, m, trail) && Permits(m, mark)
    ensures LeadsTo(log + [mark], Next(3, m, mark), trail + Moments(m.state.events, mark))
  {
    RunsSnoc(3, log, mark);
    assert (log + [mark])[..|log|] == log;
  }

  const DOWN_EVENT := Event("worker.down", "critical", "", Object(map[]), None, Active)

  /** A first life with three misses that are reported. */
  lemma ThreeMisses() returns (log: seq<Mark>)
    ensures LeadsTo(log, Monitor(State([DOWN_EVENT], map[DOWN := EntryOf(DOWN_EVENT, 0)], Idle), 3, Settled),
                    [Restarted(false), Missed, Missed, Missed])
  {
    hide LeadsTo;
    log := TwoMisses();
    var two := [Restarted(false), Missed, Missed];
    Extend(log, Monitor(State([], map[], Idle), 2, Settled), two, Probed(false));
    log := log + [Probed(false)];
    assert two + [Missed] == two + Moments([], Probed(false));
    var three := [Restarted(false), Missed, Missed, Missed];
    assert two + [Missed] == three;
    var emit := Did(Emit(DOWN, DOWN_EVENT, true, true));
    Extend(log, Monitor(State([], map[], Idle), 3, ToReport), three, emit);
    log := log + [emit];
    assert three + [] == three;
    var m := Monitor(State([DOWN_EVENT], map[], Registering(DOWN, EntryOf(DOWN_EVENT, 0))), 3, Settled);
    assert [] + [DOWN_EVENT] == [DOWN_EVENT];
    Extend(log, m, three, Did(Register));
    log := log + [Did(Register)];
  }

  lemma TwoMisses() returns (log: seq<Mark>)
    ensures LeadsTo(log, Monitor(State([], map[], Idle), 2, Settled), [Restarted(false), Missed, Missed])
  {
    hide LeadsTo;
    log := [];
    assert LeadsTo([], START, []) by { Nothing(); }
    Extend(log, START, [], Did(Restart(true)));
    log := log + [Did(Restart(true))];
    assert [] + [Restarted(false)] == [Restarted(false)];
    var m := Monitor(State([], map[], Idle), 0, Settled);
    Extend(log, m, [Restarted(false)], Probed(false));
    log := log + [Probed(false)];
    assert [Restarted(false)] + [Missed] == [Restarted(false), Missed];
    Extend(log, m.(failures := 1), [Restarted(false), Missed], Probed(false));
    log := log + [Probed(false)];
    assert [Restarted(false), Missed] + [Missed] == [Restarted(false), Missed, Missed];
  }

  lemma Nothing()
    ensures LeadsTo([], START, [])
  {
  }

  // The histories end between two detections; the map and the misses are read off their last state and trail.

  const OPEN := map[DOWN := EntryOf(DOWN_EVENT, 0)]
  const THREE := [Restarted(false), Missed, Missed, Missed]
  const ACKED := [DOWN_EVENT.(status := Acknowledged)]

  /** Two misses, a restart, a third miss: three in a row, and not reported. */
  lemma RestartForgetsMisses() returns (log: seq<Mark>, trail: seq<Moment>)
    ensures LeadsTo(log, Monitor(State([], map[], Idle), 1, Settled), trail)
    ensures Misses(trail) == 3
    ensures AtRest(3, log) && !Agrees(3, log)
  {
    hide LeadsTo, Misses;
    log := TwoMisses();
    trail := [Restarted(false), Missed, Missed];
    var m := Monitor(State([], map[], Idle), 2, Settled);
    Extend(log, m, trail, Did(Crash));
    assert trail + [] == trail;
    Extend(log + [Did(Crash)], Monitor(State([], map[], Stopped), 2, Settled), trail, Did(Restart(true)));
    log := log + [Did(Crash)] + [Did(Restart(true))];
    NothingIsOpen();
    Extend(log, m.(failures := 0), trail + [Restarted(false)], Probed(false));
    TwoMissesCount();
    MissesSnoc(trail, Restarted(false));
    MissesSnoc(trail + [Restarted(false)], Missed);
    log := log + [Probed(false)];
    trail := trail + [Restarted(false)] + [Missed];
  }

  lemma NothingIsOpen()
    ensures !IsOpen([]) && Rebuild([]) == map[]
  {
  }

  lemma DownIsOpen()
    ensures IsOpen([DOWN_EVENT]) && Rebuild([DOWN_EVENT]) == OPEN
  {
    assert ActiveFor([DOWN_EVENT], 0, DOWN);
    assert [DOWN_EVENT][..0] == [];
  }

  lemma TwoMissesCount()
    ensures Misses([Restarted(false), Missed, Missed]) == 2
  {
    MissesSnoc([], Restarted(false));
    assert [] + [Restarted(false)] == [Restarted(false)];
    MissesSnoc([Restarted(false)], Missed);
    assert [Restarted(false)] + [Missed] == [Restarted(false), Missed];
    MissesSnoc([Restarted(false), Missed], Missed);
    assert [Restarted(false), Missed] + [Missed] == [Restarted(false), Missed, Missed];
  }

  lemma ThreeMissesCount()
    ensures Misses(THREE) == 3
  {
    TwoMissesCount();
    MissesSnoc([Restarted(false), Missed, Missed], Missed);
    assert [Restarted(false), Missed, Missed] + [Missed] == THREE;
  }

  /** A death before the incident is resolved: the restart finds it open, and one miss later it is still reported. */
  lemma DeathKeepsIncidentOpen() returns (log: seq<Mark>, trail: seq<Moment>)
    ensures LeadsTo(log, Monitor(State([DOWN_EVENT], OPEN, Idle), 1, Settled), trail)
    ensures Misses(trail) == 1
    ensures AtRest(3, log) && !Agrees(3, log)
  {
    hide LeadsTo, Misses;
    log := DiedBeforeResolving();
    trail := THREE + [Up] + [Restarted(true)];
    Extend(log, Monitor(State([DOWN_EVENT], OPEN, Idle), 0, Settled), trail, Probed(false));
    MissesSnoc(THREE, Up);
    MissesSnoc(THREE + [Up], Restarted(true));
    MissesSnoc(trail, Missed);
    log, trail := log + [Probed(false)], trail + [Missed];
  }

  lemma DiedBeforeResolving() returns (log: seq<Mark>)
    ensures LeadsTo(log, Monitor(State([DOWN_EVENT], OPEN, Idle), 0, Settled), THREE + [Up] + [Restarted(true)])
  {
    hide LeadsTo;
    log := ThreeMisses();
    var s, trail := State([DOWN_EVENT], OPEN, Idle), THREE + [Up];
    Extend(log, Monitor(s, 3, Settled), THREE, Probed(true));
    log := log + [Probed(true)];
    Extend(log, Monitor(s, 0, ToResolve), trail, Did(Drop(DOWN)));
    log := log + [Did(Drop(DOWN))];
    assert trail + [] == trail;
    assert s.active - {DOWN} == map[];
    var dropped := Monitor(State([DOWN_EVENT], map[], Resolving(0)), 0, Settled);
    Extend(log, dropped, trail, Did(Crash));
    log := log + [Did(Crash)];
    Extend(log, dropped.(state := State([DOWN_EVENT], map[], Stopped)), trail, Did(Restart(true)));
    DownIsOpen();
    log := log + [Did(Restart(true))];
  }

  /** Three misses, a restart, an acknowledgement, a fourth miss: evicted, and not reported again. */
  lemma AcknowledgedIncidentIsForgotten() returns (log: seq<Mark>, trail: seq<Moment>)
    ensures LeadsTo(log, Monitor(State(ACKED, map[], Idle), 1, Settled), trail)
    ensures Misses(trail) == 4
    ensures AtRest(3, log) && !Agrees(3, log)
  {
    hide LeadsTo, Misses;
    log := EvictedAfterRestart();
    trail := THREE + [Restarted(true)] + [Evicted];
    var m := Monitor(State(ACKED, map[], Idle), 0, Settled);
    Extend(log, m, trail, Probed(false));
    ThreeMissesCount();
    MissesSnoc(THREE, Restarted(true));
    MissesSnoc(THREE + [Restarted(true)], Evicted);
    MissesSnoc(trail, Missed);
    log, trail := log + [Probed(false)], trail + [Missed];
  }

  lemma EvictedAfterRestart() returns (log: seq<Mark>)
    ensures LeadsTo(log, Monitor(State(ACKED, map[], Idle), 0, Settled),
                    THREE + [Restarted(true)] + [Evicted])
  {
    hide LeadsTo;
    log := AcknowledgedAfterRestart();
    var trail := THREE + [Restarted(true)];
    Extend(log, Monitor(State(ACKED, OPEN, Idle), 0, Settled), trail, Did(Snapshot));
    log := log + [Did(Snapshot)];
    assert trail + [] == trail;
    assert ActiveIds(ACKED) == {};
    Extend(log, Monitor(State(ACKED, OPEN, Evicting({})), 0, Settled), trail, Did(Evict(DOWN)));
    log := log + [Did(Evict(DOWN))];
    assert OPEN - {DOWN} == map[];
    Extend(log, Monitor(State(ACKED, map[], Evicting({})), 0, Settled), trail + [Evicted], Did(EndReconcile));
    log := log + [Did(EndReconcile)];
    assert trail + [Evicted] + [] == trail + [Evicted];
  }

  lemma AcknowledgedAfterRestart() returns (log: seq<Mark>)
    ensures LeadsTo(log, Monitor(State(ACKED, OPEN, Idle), 0, Settled),
                    THREE + [Restarted(true)])
  {
    hide LeadsTo;
    log := ThreeMisses();
    var s := State([DOWN_EVENT], OPEN, Idle);
    Extend(log, Monitor(s, 3, Settled), THREE, Did(Crash));
    log := log + [Did(Crash)];
    assert THREE + [] == THREE;
    Extend(log, Monitor(State([DOWN_EVENT], map[], Stopped), 3, Settled), THREE, Did(Restart(true)));
    log := log + [Did(Restart(true))];
    DownIsOpen();
    Extend(log, Monitor(s, 0, Settled), THREE + [Restarted(true)], Did(Acknowledge(0)));
    log := log + [Did(Acknowledge(0))];
    assert THREE + [Restarted(true)] + [] == THREE + [Restarted(true)];
    assert [DOWN_EVENT][0 := DOWN_EVENT.(status := Acknowledged)] == ACKED;
  }

  // An eviction in the same life, which the next miss repairs.

  /** Three misses, an acknowledgement, a fourth miss: evicted, and reported again by the same poll. */
  lemma FourthMissReportsAgain() returns (log: seq<Mark>)
    ensures LeadsTo(log, Monitor(State(ACKED + [DOWN_EVENT], map[DOWN := EntryOf(DOWN_EVENT, 1)], Idle), 4, Settled),
                    THREE + [Evicted] + [Missed])
    ensures AtRest(3, log) && Agrees(3, log)
  {
    hide LeadsTo, Misses;
    log := EvictedInSameLife();
    var trail := THREE + [Evicted];
    Extend(log, Monitor(State(ACKED, map[], Idle), 3, Settled), trail, Probed(false));
    log := log + [Probed(false)];
    var emit := Did(Emit(DOWN, DOWN_EVENT, true, true));
    Extend(log, Monitor(State(ACKED, map[], Idle), 4, ToReport), trail + [Missed], emit);
    log := log + [emit];
    assert trail + [Missed] + [] == trail + [Missed];
    var m := Monitor(State(ACKED + [DOWN_EVENT], map[], Registering(DOWN, EntryOf(DOWN_EVENT, 1))), 4, Settled);
    Extend(log, m, trail + [Missed], Did(Register));
    log := log + [Did(Register)];
    ThreeMissesCount();
    MissesSnoc(THREE, Evicted);
    MissesSnoc(trail, Missed);
  }

  lemma EvictedInSameLife() returns (log: seq<Mark>)
    ensures LeadsTo(log, Monitor(State(ACKED, map[], Idle), 3, Settled), THREE + [Evicted])
  {
    hide LeadsTo;
    log := ThreeMisses();
    assert THREE + [] == THREE;
    Extend(log, Monitor(State([DOWN_EVENT], OPEN, Idle), 3, Settled), THREE, Did(Acknowledge(0)));
    log := log + [Did(Acknowledge(0))];
    assert [DOWN_EVENT][0 := DOWN_EVENT.(status := Acknowledged)] == ACKED;
    Extend(log, Monitor(State(ACKED, OPEN, Idle), 3, Settled), THREE, Did(Snapshot));
    log := log + [Did(Snapshot)];
    assert ActiveIds(ACKED) == {};
    Extend(log, Monitor(State(ACKED, OPEN, Evicting({})), 3, Settled), THREE, Did(Evict(DOWN)));
    log := log + [Did(Evict(DOWN))];
    assert OPEN - {DOWN} == map[];
    Extend(log, Monitor(State(ACKED, map[], Evicting({})), 3, Settled), THREE + [Evicted], Did(EndReconcile));
    log := log + [Did(EndReconcile)];
    assert THREE + [Evicted] + [] == THREE + [Evicted];
  }
}
