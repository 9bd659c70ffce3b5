/** The API's handlers that create, replay, retry and discard tasks, over the shared cluster. */
module Handlers {
  import opened Common
  import opened TaskRows
  import opened TaskTable
  import opened Delivery
  import opened DeliverySafety
  import opened DeliveryMessages
  import opened Worker

  datatype Reply =
    | Created
    | BadRequest
    | NotFound
    | InProgress
    | Unprocessable
    | QueueFull
    | InternalError

  /** What became of a new task's message. */
  datatype Submission = Sent | Refused | Broken

  /** How the calls of a request turn out. */
  datatype Calls = Calls(insert: Fault, full: bool, sent: bool, acked: bool, mark: Fault)

  const MAX_INPUT := 10000
  const MAX_DEPTH := 100

  /** Nobody has used this (freshly drawn) task id. */
  predicate Fresh(c: Cluster, id: TaskId)
    reads c, c.db
  {
    id !in c.db.rows && id !in c.creators
  }

  /** The task was accepted, so it cannot be lost silently. */
  ghost predicate AcceptedTask(c: Cluster, id: TaskId)
    reads c, c.db
  {
    && id in c.creators && c.creators[id].Accepted?
    && (Queued(c.msgs, id) || HasArtifact(c.objects, id) || id in c.discarded)
  }

  class TaskHandler {

    /** The row of a new task, if the insert takes effect. */
    method InsertRow(c: Cluster, id: TaskId, payload: string, replayOf: Option<TaskId>, fault: Fault) returns (ok: bool)
      requires c.Valid() && Fresh(c, id) && (replayOf.Some? ==> replayOf.value in c.db.rows)
      modifies c, c.db
      ensures c.Valid() && (ok <==> fault.NoFault?)
      ensures fault.NotApplied? ==> c.View() == old(c.View())
      ensures !fault.NotApplied? ==>
        && id in c.creators && c.creators[id] == Publishing
        && c.db.rows == old(c.db.rows)[id := NewRow(payload, replayOf, old(c.clock))]
    {
      hide Run;
      ghost var before := c.View();
      ok := c.db.InsertTask(id, payload, replayOf, c.clock, fault);
      if !fault.NotApplied? {
        c.creators := c.creators[id := Publishing];
        c.Record(before, Api(id, Insert(payload, replayOf)));
      }
    }

    /**
     Insert the row, publish the message, and mark the row failed when publishing failed. Only the
     in-process publisher, which is `bounded`, refuses a message because its queue is full.
     */
    method Submit(c: Cluster, id: TaskId, payload: string, replayOf: Option<TaskId>, reason: string, bounded: bool, w: Calls)
      returns (outcome: Submission)
      requires c.Valid() && Fresh(c, id) && (replayOf.Some? ==> replayOf.value in c.db.rows)
      modifies c, c.db
      ensures c.Valid()
      ensures outcome == if !w.insert.NoFault? then Broken else if bounded && w.full then Refused
                         else if w.sent && w.acked then Sent else Broken
      ensures id in c.db.rows <==> !w.insert.NotApplied?
      ensures id in c.db.rows ==> c.db.rows[id].payload == payload && c.db.rows[id].replayOf == replayOf
      ensures outcome.Sent? ==> AcceptedTask(c, id)
      ensures !outcome.Sent? && w.insert.NoFault? ==> id in c.creators && c.creators[id] == Rejected
      ensures !outcome.Sent? ==> id !in c.creators || !c.creators[id].Accepted?
    {
      hide Run, Apply, Queued, HasArtifact;
      var inserted := InsertRow(c, id, payload, replayOf, w.insert);
      if !inserted {
        return Broken;
      }

      c.Yield(CreatorActor(id));
      if bounded && w.full {
        var _ := PublishMessage(c, id, false, false, "queue full");
        MarkFailed(c, id, w.mark);
        return Refused;
      }
      var sent := PublishMessage(c, id, w.sent, w.acked, reason);
      if sent {
        return Sent;
      }

      MarkFailed(c, id, w.mark);
      return Broken;
    }

    /** A confirmed publish makes the task an accepted one. */
    method PublishMessage(c: Cluster, id: TaskId, sent: bool, acked: bool, reason: string) returns (ok: bool)
      requires c.Valid() && id in c.creators && c.creators[id] == Publishing
      modifies c, c.db
      ensures c.Valid() && (ok <==> sent && acked) && c.db.rows == old(c.db.rows)
      ensures if ok then AcceptedTask(c, id) else id in c.creators && c.creators[id].Rejecting?
    {
      hide Run;
      c.Take(Api(id, Publish(sent, sent && acked, reason)));
      if sent && acked {
        NoSilentLoss(c.cfg, c.trace, id);
      }
      return sent && acked;
    }

    /** The last step of a request whose publish failed. */
    method MarkFailed(c: Cluster, id: TaskId, fault: Fault)
      requires c.Valid() && id in c.creators && c.creators[id].Rejecting?
      modifies c, c.db
      ensures c.Valid() && id in c.creators && c.creators[id] == Rejected && Persist(old(c.db.rows), c.db.rows)
      ensures !fault.NotApplied? ==> id in c.db.rows ==> c.db.rows[id].status != Pending
    {
      c.Yield(CreatorActor(id));
      ghost var before := c.View();
      WritesPersist(c.db.rows, id, Write.SetPublishFailed(c.creators[id].reason), fault, c.clock);
      c.db.SetPublishFailed(id, c.creators[id].reason, c.clock, fault);
      c.creators := c.creators[id := Rejected];
      c.Record(before, Api(id, Reject(fault)));
    }

    /** Creating a task: only an accepted task is reported as created. */
    method Create(c: Cluster, id: TaskId, input: string, bounded: bool, w: Calls) returns (r: Reply)
      requires c.Valid() && Fresh(c, id)
      modifies c, c.db
      ensures c.Valid()
      ensures r == if input == "" || |input| > 10000 then BadRequest
                   else if !w.insert.NoFault? then InternalError
                   else if bounded && w.full then QueueFull
                   else if w.sent && w.acked then Created
                   else InternalError
      ensures r.BadRequest? ==> c.View() == old(c.View())
      ensures r.Created? ==> AcceptedTask(c, id) && id in c.db.rows
      ensures id in c.db.rows ==> c.db.rows[id].payload == input && c.db.rows[id].replayOf.None?
      ensures !r.Created? ==> id !in c.creators || !c.creators[id].Accepted?
    {
      if input == "" || |input| > MAX_INPUT {
        return BadRequest;
      }
      var outcome := Submit(c, id, input, None, "sqs: queue unavailable", bounded, w);
      return match outcome case Sent => Created case Refused => QueueFull case Broken => InternalError;
    }

    /**
     Replaying makes a new task of one that was completed or failed when it was read; it may be
     requeued since. The new row carries the payload and names the task it replays.
     */
    method Replay(c: Cluster, of: TaskId, overridePayload: string, depth: nat, id: TaskId, readable: bool, w: Calls)
      returns (r: Reply)
      requires c.Valid() && Fresh(c, id) && of != id
      modifies c, c.db
      ensures c.Valid()
      ensures
        var rows := old(c.db.rows);
        var ended := readable && of in rows && (rows[of].status == Completed || rows[of].status == Failed);
        var payload := if overridePayload == "" && of in rows then rows[of].payload else overridePayload;
        && !r.BadRequest?
        && (r.NotFound? <==> readable && of !in rows)
        && (r.InProgress? <==> readable && of in rows && (rows[of].status == Pending || rows[of].status == Processing))
        && (r.Unprocessable? <==> ended && payload == "")
        && (r.QueueFull? <==> ended && payload != "" && depth >= 100)
        && (r.Created? <==>
              ended && payload != "" && depth < 100 && w.insert.NoFault? && w.sent && w.acked)
        && (if ended && payload != "" && depth < 100 then
              && (id in c.db.rows <==> !w.insert.NotApplied?)
              && (id in c.db.rows ==> c.db.rows[id].payload == payload && c.db.rows[id].replayOf == Some(of))
            else c.View() == old(c.View()))
      ensures r.Created? ==> AcceptedTask(c, id)
      ensures !r.Created? ==> id !in c.creators || !c.creators[id].Accepted?
    {
      if !readable {
        return InternalError;
      }
      if of !in c.db.rows {
        return NotFound;
      }
      var task := c.db.rows[of];
      if task.status != Completed && task.status != Failed {
        return InProgress;
      }
      var payload := if overridePayload != "" then overridePayload else task.payload;
      if payload == "" {
        return Unprocessable;
      }
      if depth >= MAX_DEPTH {
        return QueueFull;
      }
      c.Yield(CreatorActor(id));
      var outcome := Submit(c, id, payload, Some(of), "sqs: publish failed on replay", false, w);
      return if outcome.Sent? then Created else InternalError;
    }
  }

  class DlqHandler {

    /**
     An operator retry: send a copy to the main queue, delete the message from the DLQ, put the
     row back to pending. `body` is what the operator's request carries, which need not be the
     body of message `dead`; a handle that names no message is `None`.
     */
    method Retry(c: Cluster, dead: Option<nat>, body: Option<TaskId>, sent: bool, acked: bool, removed: bool, fault: Fault)
      returns (ok: bool, warning: bool)
      requires c.Valid() && (dead.Some? ==> dead.value < |c.msgs|)
      modifies c, c.db
      ensures c.Valid()
      ensures (ok <==> sent && acked) && (warning <==> ok && !removed)
      ensures ok ==> Resent(c.msgs, From(dead), body)
      ensures ok && body.Some? && body.value in c.db.rows && !fault.NotApplied? ==> c.db.rows[body.value].status != Failed
      ensures ok ==> |old(c.retries)| < |c.retries| && c.retries[|old(c.retries)|] == Delivery.Retry(dead, body, Finished)
    {
      hide Run, WriteRows;
      var r := |c.retries|;
      c.Take(Operator(RetrySend(dead, body, sent, sent && acked)));
      warning := false;
      if !(sent && acked) {
        return false, false;
      }
      ghost var copy := |c.msgs| - 1;
      assert From(dead) < copy && c.msgs[copy].body == body;

      c.Yield(RetryActor(r));
      warning := !removed;
      c.Take(Operator(RetryDelete(r, removed)));

      RevertRow(c, r, fault);
      assert c.msgs[copy].body == body;
      return true, warning;
    }

    /** The last step of a retry: the row named by the body goes back to pending if it is failed. */
    method RevertRow(c: Cluster, r: nat, fault: Fault)
      requires c.Valid() && r < |c.retries| && c.retries[r].pc.RevertingRow?
      modifies c, c.db
      ensures c.Valid() && r < |c.retries| && c.retries[r] == old(c.retries)[r].(pc := Finished)
      ensures Extends(old(c.msgs), c.msgs)
      ensures
        var body := c.retries[r].body;
        body.Some? && body.value in c.db.rows && !fault.NotApplied? ==> c.db.rows[body.value].status != Failed
    {
      hide Run;
      c.Yield(RetryActor(r));
      ghost var before := c.View();
      var body := c.retries[r].body;
      if body.Some? {
        c.db.RevertToPendingForRetry(body.value, c.clock, fault);
      }
      c.retries := c.retries[r := c.retries[r].(pc := Finished)];
      c.Record(before, Operator(RetryRevert(r, fault)));
    }

    /**
     Deleting by receipt handle, which fails exactly if the queue service returns an error, with or
     without having deleted. A message that was in the DLQ is then gone by the operator's decision;
     a stale handle, or one of a message that is gone already, changes nothing.
     */
    method Delete(c: Cluster, dead: Option<nat>, error: bool, applied: bool) returns (ok: bool)
      requires c.Valid() && (dead.Some? ==> dead.value < |c.msgs|)
      modifies c, c.db
      ensures c.Valid() && (ok <==> !error)
      ensures
        if (ok || applied) && dead.Some? && old(c.msgs)[dead.value].place.Dead? then
          && c.msgs == old(c.msgs)[dead.value := old(c.msgs)[dead.value].(place := Gone)]
          && c.discarded == old(c.discarded) + Named(old(c.msgs)[dead.value].body)
          && c.db.rows == old(c.db.rows)
        else c.View() == old(c.View())
    {
      if (applied || !error) && dead.Some? && c.msgs[dead.value].place.Dead? {
        c.Take(Operator(DlqDelete(dead.value)));
      }
      return !error;
    }

    /** Purging empties the DLQ. */
    method Purge(c: Cluster, busy: bool) returns (ok: bool)
      requires c.Valid()
      modifies c, c.db
      ensures c.Valid() && ok == !busy
      ensures ok ==> forall m :: 0 <= m < |c.msgs| ==>
        !c.msgs[m].place.Dead? && (m < |old(c.msgs)| && old(c.msgs)[m].place.Dead? ==> Named(c.msgs[m].body) <= c.discarded)
      ensures !ok ==> c.View() == old(c.View())
    {
      if busy {
        return false;
      }
      c.Take(Operator(PurgeDlq));
      return true;
    }
  }
}
