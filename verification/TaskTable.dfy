/**
 The `tasks` table as the services call it. Each method is one SQL statement: a guarded in-place
 update whose result tells an affected row from a state conflict and from a failed call. The
 argument `fault` says how the call fails; a call may fail after it took effect.
 */
module TaskTable {
  import opened Common
  import opened TaskRows

  datatype DbResult = Ok | Conflict | Error

  /** What a guarded single-row update reports. */
  function Report(fault: Fault, affected: bool): DbResult {
    if !fault.NoFault? then Error else if affected then Ok else Conflict
  }

  class Table {
    var rows: Rows

    constructor ()
      ensures rows == map[]
    {
      rows := map[];
    }

    // --- the worker ---------------------------------------------------------------

    method SetProcessing(id: TaskId, now: Instant, fault: Fault) returns (r: DbResult)
      modifies this
      ensures rows == WriteRows(old(rows), id, Write.SetProcessing, fault, now)
      ensures r == Report(fault, Affects(old(rows), id, Write.SetProcessing))
      ensures r.Ok? ==>
        && id in rows
        && var first := if old(rows)[id].startedAt.Some? then old(rows)[id].startedAt else Some(now);
           rows[id] == old(rows)[id].(status := Processing, startedAt := first, updatedAt := now)
    {
      var affected := id in rows && rows[id].status == Pending;
      if !fault.NotApplied? && affected {
        var row := rows[id];
        var startedAt := if row.startedAt.Some? then row.startedAt else Some(now);
        rows := rows[id := row.(status := Processing, startedAt := startedAt, updatedAt := now)];
      }
      return Report(fault, affected);
    }

    method SetCompleted(id: TaskId, key: string, tokens: Tokens, now: Instant, fault: Fault) returns (r: DbResult)
      modifies this
      ensures rows == WriteRows(old(rows), id, Write.SetCompleted(key, tokens), fault, now)
      ensures r == Report(fault, Affects(old(rows), id, Write.SetCompleted(key, tokens)))
      ensures r.Ok? ==>
        && id in rows
        && rows[id] == old(rows)[id].(status := Completed, endedAt := Some(now), artifactKey := Some(key), tokens := tokens,
                                      updatedAt := now)
    {
      var affected := id in rows && rows[id].status == Processing;
      if !fault.NotApplied? && affected {
        rows := rows[id := rows[id].(status := Completed, endedAt := Some(now), artifactKey := Some(key),
                                     updatedAt := now, tokens := tokens)];
      }
      return Report(fault, affected);
    }

    method RevertToPending(id: TaskId, now: Instant, fault: Fault) returns (r: DbResult)
      modifies this
      ensures rows == WriteRows(old(rows), id, Write.RevertToPending, fault, now)
      ensures r == Report(fault, Affects(old(rows), id, Write.RevertToPending))
      ensures r.Ok? ==> id in rows && rows[id] == old(rows)[id].(status := Pending, startedAt := None, updatedAt := now)
    {
      var affected := id in rows && rows[id].status == Processing;
      if !fault.NotApplied? && affected {
        rows := rows[id := rows[id].(status := Pending, startedAt := None, updatedAt := now)];
      }
      return Report(fault, affected);
    }

    method SetFailed(id: TaskId, reason: string, now: Instant, fault: Fault) returns (r: DbResult)
      modifies this
      ensures rows == WriteRows(old(rows), id, Write.SetFailed(reason), fault, now)
      ensures r == Report(fault, Affects(old(rows), id, Write.SetFailed(reason)))
      ensures r.Ok? ==>
        && id in rows
        && rows[id] == old(rows)[id].(status := Failed, endedAt := Some(now), error := Some(reason), updatedAt := now)
    {
      var affected := id in rows && rows[id].status == Processing;
      if !fault.NotApplied? && affected {
        rows := rows[id := rows[id].(status := Failed, endedAt := Some(now), error := Some(reason), updatedAt := now)];
      }
      return Report(fault, affected);
    }

    // --- the API --------------------------------------------------------------------

    /** `id` is a fresh UUID; the primary key refuses any other. */
    method InsertTask(id: TaskId, payload: string, replayOf: Option<TaskId>, now: Instant, fault: Fault) returns (ok: bool)
      modifies this
      ensures ok <==> fault.NoFault? && id !in old(rows)
      ensures rows == if id in old(rows) || fault.NotApplied? then old(rows)
                      else old(rows)[id := NewRow(payload, replayOf, now)]
      ensures ok ==> id in rows && rows[id] == Row(Pending, now, now, None, None, None, None, NO_TOKENS, payload, replayOf)
    {
      var taken := id in rows;
      if !taken && !fault.NotApplied? {
        rows := rows[id := Row(Pending, now, now, None, None, None, None, NO_TOKENS, payload, replayOf)];
      }
      return fault.NoFault? && !taken;
    }

    /** The API's own `SetFailed`, for a task that could not be published; it reports no conflict. */
    method SetPublishFailed(id: TaskId, reason: string, now: Instant, fault: Fault)
      modifies this
      ensures rows == WriteRows(old(rows), id, Write.SetPublishFailed(reason), fault, now)
      ensures fault.NoFault? && id in old(rows) && old(rows)[id].status == Pending ==>
        && id in rows
        && rows[id] == old(rows)[id].(status := Failed, endedAt := Some(now), error := Some(reason), updatedAt := now)
    {
      if !fault.NotApplied? && id in rows && rows[id].status == Pending {
        rows := rows[id := rows[id].(status := Failed, endedAt := Some(now), error := Some(reason), updatedAt := now)];
      }
    }

    method RevertToPendingForRetry(id: TaskId, now: Instant, fault: Fault)
      modifies this
      ensures rows == WriteRows(old(rows), id, Write.RevertToPendingForRetry, fault, now)
      ensures fault.NoFault? && id in old(rows) && old(rows)[id].status == Failed ==>
        id in rows && rows[id] == old(rows)[id].(status := Pending, error := None, updatedAt := now)
    {
      if !fault.NotApplied? && id in rows && rows[id].status == Failed {
        rows := rows[id := rows[id].(status := Pending, error := None, updatedAt := now)];
      }
    }

    // --- the chaos runner -----------------------------------------------------------

    method FailStuckTasks(reason: string, now: Instant) returns (affected: nat)
      modifies this
      ensures rows == FailStuck(old(rows), reason, now)
      ensures affected == |set id | id in old(rows) && StuckChaos(old(rows)[id])|
      ensures rows.Keys == old(rows).Keys
      ensures forall id :: id in rows ==>
        if old(rows)[id].status == Processing && "chaos-" <= old(rows)[id].payload
        then rows[id] == old(rows)[id].(status := Failed, endedAt := Some(now), error := Some(reason), updatedAt := now)
        else rows[id] == old(rows)[id]
    {
      var stuck := set id | id in rows && rows[id].status == Processing && "chaos-" <= rows[id].payload;
      assert stuck == set id | id in rows && StuckChaos(rows[id]);
      rows := map id | id in rows ::
        if id in stuck then rows[id].(status := Failed, endedAt := Some(now), error := Some(reason), updatedAt := now)
        else rows[id];
      return |stuck|;
    }

    method FailAbandonedTasks(reason: string, now: Instant) returns (affected: nat)
      modifies this
      ensures rows == FailAbandoned(old(rows), reason, now)
      ensures affected == |set id | id in old(rows) && AbandonedChaos(old(rows)[id])|
      ensures rows.Keys == old(rows).Keys
      ensures forall id :: id in rows ==>
        if old(rows)[id].status == Pending && old(rows)[id].startedAt.None? && "chaos-" <= old(rows)[id].payload
        then rows[id] == old(rows)[id].(status := Failed, endedAt := Some(now), error := Some(reason), updatedAt := now)
        else rows[id] == old(rows)[id]
    {
      var abandoned := set id | id in rows && rows[id].status == Pending && rows[id].startedAt.None? && "chaos-" <= rows[id].payload;
      assert abandoned == set id | id in rows && AbandonedChaos(rows[id]);
      rows := map id | id in rows ::
        if id in abandoned then rows[id].(status := Failed, endedAt := Some(now), error := Some(reason), updatedAt := now)
        else rows[id];
      return |abandoned|;
    }
  }
}
