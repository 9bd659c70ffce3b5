/**
 The PostgreSQL `tasks` table. Every writer of the platform (API, worker, operator retry, chaos
 runner) changes a row by one UPDATE guarded by the row's current status.
 */
module TaskRows {
  import opened Common

  type TaskId = string
  type Instant = nat

  datatype Status = Pending | Processing | Completed | Failed

  datatype Tokens = Tokens(prompt: int, completion: int, perSecond: real, model: string)

  const NO_TOKENS := Tokens(0, 0, 0.0, "")

  datatype Row = Row(
    status: Status,
    createdAt: Instant,
    updatedAt: Instant,
    startedAt: Option<Instant>,
    endedAt: Option<Instant>,
    artifactKey: Option<string>,
    error: Option<string>,
    tokens: Tokens,
    payload: string,
    replayOf: Option<TaskId>)

  type Rows = map<TaskId, Row>

  /** The guarded single-row updates, named after the functions that issue them. */
  datatype Write =
    | SetProcessing
    | SetCompleted(key: string, tokens: Tokens)
    | RevertToPending
    | SetFailed(reason: string)
    | SetPublishFailed(reason: string)
    | RevertToPendingForRetry

  /** The status a row must have for the update to touch it. */
  function Guard(w: Write): Status {
    match w
    case SetProcessing => Pending
    case SetCompleted(_, _) => Processing
    case RevertToPending => Processing
    case SetFailed(_) => Processing
    case SetPublishFailed(_) => Pending
    case RevertToPendingForRetry => Failed
  }

  function Update(r: Row, w: Write, now: Instant): Row {
    var r := r.(updatedAt := now);
    match w
    case SetProcessing =>
      r.(status := Processing, startedAt := if r.startedAt.Some? then r.startedAt else Some(now))
    case SetCompleted(key, tokens) =>
      r.(status := Completed, endedAt := Some(now), artifactKey := Some(key), tokens := tokens)
    case RevertToPending =>
      r.(status := Pending, startedAt := None)
    case SetFailed(reason) =>
      r.(status := Failed, endedAt := Some(now), error := Some(reason))
    case SetPublishFailed(reason) =>
      r.(status := Failed, endedAt := Some(now), error := Some(reason))
    case RevertToPendingForRetry =>
      r.(status := Pending, error := None)
  }

  /** Whether the UPDATE affects a row. */
  predicate Affects(rows: Rows, id: TaskId, w: Write) {
    id in rows && rows[id].status == Guard(w)
  }

  function Exec(rows: Rows, id: TaskId, w: Write, now: Instant): Rows {
    if Affects(rows, id, w) then rows[id := Update(rows[id], w, now)] else rows
  }

  /** How a database call goes wrong, if it does: not at all, without effect, or after its effect. */
  datatype Fault = NoFault | NotApplied | Unacknowledged

  function WriteRows(rows: Rows, id: TaskId, w: Write, fault: Fault, now: Instant): Rows {
    if fault.NotApplied? then rows else Exec(rows, id, w, now)
  }

  function NewRow(payload: string, replayOf: Option<TaskId>, now: Instant): Row {
    Row(Pending, now, now, None, None, None, None, NO_TOKENS, payload, replayOf)
  }

  /** Chaos tasks are recognised by the prefix of their payload. */
  predicate IsChaos(r: Row) { "chaos-" <= r.payload }

  predicate StuckChaos(r: Row) { r.status == Processing && IsChaos(r) }

  predicate AbandonedChaos(r: Row) { r.status == Pending && r.startedAt.None? && IsChaos(r) }

  function FailRow(r: Row, reason: string, now: Instant): Row {
    r.(status := Failed, endedAt := Some(now), error := Some(reason), updatedAt := now)
  }

  function FailStuck(rows: Rows, reason: string, now: Instant): Rows {
    map id | id in rows :: if StuckChaos(rows[id]) then FailRow(rows[id], reason, now) else rows[id]
  }

  function FailAbandoned(rows: Rows, reason: string, now: Instant): Rows {
    map id | id in rows :: if AbandonedChaos(rows[id]) then FailRow(rows[id], reason, now) else rows[id]
  }

  /** Rows are never removed, and keep what they were created with. */
  ghost predicate Persist(rows: Rows, rows': Rows) {
    forall t :: t in rows ==> t in rows' && SameOrigin(rows[t], rows'[t])
  }

  predicate SameOrigin(r: Row, r': Row) {
    r'.payload == r.payload && r'.replayOf == r.replayOf && r'.createdAt == r.createdAt
  }

  lemma WritesPersist(rows: Rows, id: TaskId, w: Write, fault: Fault, now: Instant)
    ensures Persist(rows, WriteRows(rows, id, w, fault, now))
  {
  }

  // ---------------------------------------------------------------------------
  // What every row looks like
  // ---------------------------------------------------------------------------

  /**
   The columns agree with the status, and no recorded time lies in the future. A completed row
   started no later than it ended.
   */
  predicate Shaped(r: Row, now: Instant) {
    && (r.error.Some? <==> r.status == Failed)
    && (r.artifactKey.Some? <==> r.status == Completed)
    && (r.tokens != NO_TOKENS ==> r.status == Completed)
    && (r.status == Processing ==> r.startedAt.Some?)
    && (r.startedAt.Some? ==> r.startedAt.value <= now)
    && (r.endedAt.Some? ==> r.endedAt.value <= now)
    && (r.status == Completed ==>
          r.startedAt.Some? && r.endedAt.Some? && r.startedAt.value <= r.endedAt.value)
    && (r.status == Failed ==> r.endedAt.Some?)
  }

  ghost predicate AllShaped(rows: Rows, now: Instant) {
    forall id :: id in rows ==> Shaped(rows[id], now)
  }

  lemma ExecKeepsShape(rows: Rows, id: TaskId, w: Write, now: Instant)
    requires AllShaped(rows, now)
    ensures AllShaped(Exec(rows, id, w, now), now)
  {
  }

  /** No update touches a completed row, and no update adds or removes a row. */
  lemma ExecFrame(rows: Rows, id: TaskId, w: Write, now: Instant)
    ensures Exec(rows, id, w, now).Keys == rows.Keys
    ensures forall t :: t in rows && (t != id || rows[t].status == Completed)
              ==> Exec(rows, id, w, now)[t] == rows[t]
  {
  }

  // ---------------------------------------------------------------------------
  // What the watchdog sees of the table
  // ---------------------------------------------------------------------------

  predicate ListedStuck(r: Row, threshold: nat, now: Instant) {
    r.status == Processing && r.startedAt.Some? && r.startedAt.value + threshold < now
  }

  predicate ListedAbandoned(r: Row, threshold: nat, now: Instant) {
    r.status == Pending && r.startedAt.None? && r.createdAt + threshold < now
  }

  /**
   The retry update keeps the start time of the failed attempt, if there was one. So a retried task
   is listed as abandoned exactly when it never started and its creation is older than the
   threshold; and after its next claim it is listed as stuck exactly when its first start is.
   */
  lemma RetriedTaskKeepsItsFirstStart(r: Row, retriedAt: Instant, claimedAt: Instant, threshold: nat, now: Instant)
    requires r.status == Failed
    ensures
      var retried := Update(r, RevertToPendingForRetry, retriedAt);
      && (ListedAbandoned(retried, threshold, now) <==> r.startedAt.None? && r.createdAt + threshold < now)
      && (ListedStuck(Update(retried, SetProcessing, claimedAt), threshold, now)
          <==> (if r.startedAt.Some? then r.startedAt.value else claimedAt) + threshold < now)
  {
  }
}
