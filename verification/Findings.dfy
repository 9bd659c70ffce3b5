/** What the detectors look for: the families of keys they drive. */
module Findings {
  import opened Common
  import opened Incidents

  // ---------------------------------------------------------------------------
  // Families of keys
  // ---------------------------------------------------------------------------

  /** The three detectors that report one incident per subject (a worker or a task). */
  datatype Family = StaleWorkers | StuckTasks | AbandonedTasks

  function Prefix(f: Family): string {
    match f
    case StaleWorkers => STALE
    case StuckTasks => STUCK
    case AbandonedTasks => ABANDONED
  }

  /** One subject found to be in the family's condition, with whatever else the event reports. */
  datatype Finding = Finding(subject: string, chaosRun: Option<string>, facts: map<string, Json>)

  function EventFor(f: Family, x: Finding): Event {
    match f
    case StaleWorkers =>
      Event("worker.stale", "warning", x.subject, Object(x.facts["worker_id" := Text(x.subject)]), None, Active)
    case StuckTasks =>
      Event("task.stuck", "warning", "", Object(x.facts["task_id" := Text(x.subject)]), x.chaosRun, Active)
    case AbandonedTasks =>
      Event("task.abandoned", "warning", "", Object(x.facts["task_id" := Text(x.subject)]), x.chaosRun, Active)
  }

  /** The stored event gives back the key under which it was emitted, even for an empty subject. */
  lemma EventKeepsItsKey(f: Family, x: Finding)
    ensures KeyForEvent(EventFor(f, x)) == Prefix(f) + x.subject != ""
    ensures EventFor(f, x).kind + ":" == Prefix(f) && EventFor(f, x).severity == "warning"
    ensures EventFor(f, x).chaosRun == if f.StaleWorkers? then None else x.chaosRun
  {
    assert STALE + x.subject != "" && STUCK + x.subject != "" && ABANDONED + x.subject != "";
  }

  datatype Single = WorkerDown | QueueLag | DlqNonEmpty

  function SingleKey(x: Single): string {
    match x
    case WorkerDown => DOWN
    case QueueLag => LAG
    case DlqNonEmpty => DLQ
  }

  function SingleEvent(x: Single, facts: map<string, Json>): Event {
    match x
    case WorkerDown => Event("worker.down", "critical", "", Object(facts), None, Active)
    case QueueLag => Event("queue.lag", "warning", "", Object(facts), None, Active)
    case DlqNonEmpty => Event("dlq.nonempty", "critical", "", Object(facts), None, Active)
  }

  lemma SingleEventKeepsItsKey(x: Single, facts: map<string, Json>)
    ensures KeyForEvent(SingleEvent(x, facts)) == SingleEvent(x, facts).kind == SingleKey(x) != ""
    ensures SingleEvent(x, facts).severity == if SingleKey(x) == "queue.lag" then "warning" else "critical"
  {
  }

  function Subjects(findings: seq<Finding>): set<string> {
    set i | 0 <= i < |findings| :: findings[i].subject
  }

  // ---------------------------------------------------------------------------
  // Which detector a key belongs to
  // ---------------------------------------------------------------------------

  datatype Group = Nobody | OfFamily(f: Family) | OfSingle(x: Single)

  function GroupOf(key: string): Group {
    if STALE <= key then OfFamily(StaleWorkers)
    else if STUCK <= key then OfFamily(StuckTasks)
    else if ABANDONED <= key then OfFamily(AbandonedTasks)
    else if key == DOWN then OfSingle(WorkerDown)
    else if key == LAG then OfSingle(QueueLag)
    else if key == DLQ then OfSingle(DlqNonEmpty)
    else Nobody
  }

  /** The key without its family's prefix. */
  function SubjectOf(f: Family, key: string): string
    requires Prefix(f) <= key
  {
    key[|Prefix(f)|..]
  }

  /** No key belongs to two detectors: it has a family's prefix exactly when it is in that family. */
  lemma FamiliesAreDisjoint(f: Family, key: string)
    ensures Prefix(f) <= key <==> GroupOf(key) == OfFamily(f)
  {
    if STALE <= key {
      assert key[0] == STALE[0] == 'w';
    }
    if STUCK <= key {
      assert key[0] == STUCK[0] == 't' && key[5] == STUCK[5] == 's';
    }
    if ABANDONED <= key {
      assert key[0] == ABANDONED[0] == 't' && key[5] == ABANDONED[5] == 'a';
    }
  }

  lemma FamilyKey(f: Family, subject: string)
    ensures
      var key := Prefix(f) + subject;
      GroupOf(key) == OfFamily(f) && Prefix(f) <= key && SubjectOf(f, key) == subject
  {
    FamiliesAreDisjoint(f, Prefix(f) + subject);
  }

  lemma SingleKeyGroup(x: Single, key: string)
    ensures GroupOf(key) == OfSingle(x) <==> key == SingleKey(x)
  {
    FamiliesAreDisjoint(StaleWorkers, SingleKey(x));
    assert DOWN[0] == 'w' && STALE[7] == 's' && DOWN[7] == 'd';
    assert LAG[0] == 'q' && DLQ[0] == 'd' && STALE[0] == 'w' && STUCK[0] == 't' && ABANDONED[0] == 't';
  }

  /** The key of every stored event that has one belongs to a detector. */
  lemma StoredKeysAreRecognised(ev: Event)
    requires KeyForEvent(ev) != ""
    ensures GroupOf(KeyForEvent(ev)) != Nobody
  {
  }

  // ---------------------------------------------------------------------------
  // Which events have a key
  // ---------------------------------------------------------------------------

  /** The details are an object with this text in this field. */
  predicate Says(details: Details, name: string, text: string) {
    details.Object? && name in details.fields && details.fields[name] == Text(text)
  }

  lemma OwnPrefix(f: Family, g: Family, a: string, b: string)
    ensures Prefix(f) + a == Prefix(g) + b <==> f == g && a == b
    ensures Prefix(f) + a != "" && Prefix(f) + a != DOWN && Prefix(f) + a != LAG && Prefix(f) + a != DLQ
  {
    FamilyKey(f, a);
    FamilyKey(g, b);
    SingleKeyGroup(WorkerDown, Prefix(f) + a);
    SingleKeyGroup(QueueLag, Prefix(f) + a);
    SingleKeyGroup(DlqNonEmpty, Prefix(f) + a);
    hide GroupOf;
  }

  /**
   The events with a given key, whoever wrote them: a stale worker is told by the worker column, and
   by the details only if that is empty; a task by the details alone.
   */
  lemma EventsOfKey(ev: Event, subject: string)
    ensures KeyForEvent(ev) == "worker.stale:" + subject <==>
      ev.kind == "worker.stale"
      && if ev.worker == "" then Says(ev.details, "worker_id", subject) else ev.worker == subject
    ensures KeyForEvent(ev) == "task.stuck:" + subject <==> ev.kind == "task.stuck" && Says(ev.details, "task_id", subject)
    ensures KeyForEvent(ev) == "task.abandoned:" + subject <==>
      ev.kind == "task.abandoned" && Says(ev.details, "task_id", subject)
  {
    forall f: Family, g: Family, a: string
      ensures Prefix(f) + a == Prefix(g) + subject <==> f == g && a == subject
      ensures Prefix(g) + subject !in {"", DOWN, LAG, DLQ}
    {
      OwnPrefix(f, g, a, subject);
      OwnPrefix(g, f, subject, a);
    }
    assert Prefix(StaleWorkers) == "worker.stale:" && Prefix(StuckTasks) == "task.stuck:";
    assert Prefix(AbandonedTasks) == "task.abandoned:";
    KeyInParts(ev);
    hide KeyForEvent, Prefix;
  }

  lemma KeyInParts(ev: Event)
    ensures
      var key := KeyForEvent(ev);
      || key in {"", DOWN, LAG, DLQ}
      || (ev.kind == "worker.stale" && ev.worker != "" && key == Prefix(StaleWorkers) + ev.worker)
      || (ev.kind == "worker.stale" && ev.worker == ""
          && exists id :: Says(ev.details, "worker_id", id) && key == Prefix(StaleWorkers) + id)
      || (ev.kind == "task.stuck" && exists id :: Says(ev.details, "task_id", id) && key == Prefix(StuckTasks) + id)
      || (ev.kind == "task.abandoned" && exists id :: Says(ev.details, "task_id", id) && key == Prefix(AbandonedTasks) + id)
  {
    if ev.kind == "worker.stale" && ev.worker == "" && TextField(ev.details, "worker_id").Some? {
      assert Says(ev.details, "worker_id", TextField(ev.details, "worker_id").value);
    }
    if TextField(ev.details, "task_id").Some? {
      assert Says(ev.details, "task_id", TextField(ev.details, "task_id").value);
    }
  }
}
