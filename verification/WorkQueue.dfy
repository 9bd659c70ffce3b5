/** The bounded in-process work queue: it refuses a task rather than block, and loses none it accepted. */
module WorkQueue {
  import opened Common

  datatype Task = Task(id: string, traceId: string, traceparent: string, payload: string)

  class Queue {
    const capacity: nat
    var waiting: seq<Task>
    var rejected: nat
    ghost var accepted: seq<Task>
    ghost var received: seq<Task>
    ghost var refused: seq<Task>

    /** Accepted tasks are received in order and else still wait, within the capacity; refusals are counted. */
    ghost predicate Valid()
      reads this
    {
      && accepted == received + waiting
      && |waiting| <= capacity
      && rejected == |refused|
    }

    constructor (capacity: nat)
      ensures Valid() && this.capacity == capacity && accepted == [] && refused == []
    {
      this.capacity := capacity;
      waiting, rejected, accepted, received, refused := [], 0, [], [], [];
    }

    /** Every task is either accepted or refused, and refused only when the queue is full. */
    method Enqueue(t: Task) returns (ok: bool)
      requires Valid()
      modifies this
      ensures Valid() && received == old(received)
      ensures !ok <==> |old(accepted)| - |old(received)| == capacity
      ensures accepted == if ok then old(accepted) + [t] else old(accepted)
      ensures refused == if ok then old(refused) else old(refused) + [t]
    {
      ok := |waiting| < capacity;
      if ok {
        waiting, accepted := waiting + [t], accepted + [t];
      } else {
        rejected, refused := rejected + 1, refused + [t];
      }
    }

    /** The oldest accepted task not received yet, if there is one. */
    method Receive() returns (t: Option<Task>)
      requires Valid()
      modifies this
      ensures Valid() && accepted == old(accepted) && refused == old(refused)
      ensures t.None? <==> |old(received)| == |accepted|
      ensures t.Some? ==> t.value == accepted[|old(received)|] && received == old(received) + [t.value]
      ensures t.None? ==> received == old(received)
    {
      if waiting == [] {
        return None;
      }
      t := Some(waiting[0]);
      received, waiting := received + [waiting[0]], waiting[1..];
    }

    method Depth() returns (n: nat)
      requires Valid()
      ensures n == |accepted| - |received| <= capacity
    {
      n := |waiting|;
    }
  }
}
