/** A worker of the pool (`struct Worker` in src/main.rs): idle, or holding exactly one
    request that it advances one tick at a time. */
module Workers {
  import opened Options
  import opened Requests
  import opened Deques

  /** What one `Worker::tick` leaves behind: the worker's slot, the queue, and the request
      handed back because it finished on this tick, if any. */
  datatype TickResult = TickResult(slot: Option<Request>, queue: seq<Request>, finished: Option<Request>)

  /** The requests a slot holds, as a multiset. */
  function Held(slot: Option<Request>): multiset<Request>
  {
    if slot.Some? then multiset{slot.value} else multiset{}
  }

  /** `Worker::tick` as a function of the worker's slot and the queue's contents. */
  function WorkerTick(slot: Option<Request>, queue: seq<Request>, lifo: bool): (t: TickResult)
    // A busy worker does one working tick, leaves the queue alone, and hands the request back
    // exactly when the work that was left fitted in this tick.
    ensures slot.Some? ==> t.queue == queue
    ensures slot.Some? ==> (t.finished.Some? <==> slot.value.remaining <= 1)
    ensures slot.Some? && t.finished.Some? ==> t.slot == None && t.finished.value == slot.value.WorkingTick()
    ensures slot.Some? && t.finished.None? ==> t.slot == Some(slot.value.WorkingTick())
    // An idle worker never hands anything back; it takes the back (LIFO) or the front (FIFO)
    // of the queue as it is, without working on it, and the rest of the queue keeps its order.
    ensures slot.None? ==> t.finished == None
    ensures slot.None? ==> (t.slot.Some? <==> queue != [])
    ensures slot.None? && queue != [] && lifo ==>
      t.slot == Some(queue[|queue| - 1]) && t.queue == queue[..|queue| - 1]
    ensures slot.None? && queue != [] && !lifo ==>
      t.slot == Some(queue[0]) && t.queue == queue[1..]
    ensures slot.None? && queue == [] ==> t.queue == []
    // Nothing is duplicated or lost: the request taken is the one removed from the queue.
    ensures slot.None? ==> multiset(queue) == multiset(t.queue) + Held(t.slot)
  {
    match slot
    case Some(current) =>
      var c := current.WorkingTick();
      if c.IsDone() then TickResult(None, queue, Some(c)) else TickResult(Some(c), queue, None)
    case None =>
      if queue == [] then
        TickResult(None, queue, None)
      else if lifo then
        assert queue == queue[..|queue| - 1] + [queue[|queue| - 1]];
        TickResult(Some(queue[|queue| - 1]), queue[..|queue| - 1], None)
      else
        assert queue == [queue[0]] + queue[1..];
        TickResult(Some(queue[0]), queue[1..], None)
  }

  class Worker {
    /** The request being worked on; `None` when the worker is idle. */
    var current: Option<Request>

    constructor ()
      ensures current == None
    {
      current := None;
    }

    predicate IsFree()
      reads this
    {
      current.None?
    }

    method Take(request: Request)
      modifies this
      ensures current == Some(request)
    {
      current := Some(request);
    }

    /** Spends one tick: works on the current request, or picks up the next one from the
        queue. Returns the current request if it finished on this tick. */
    method Tick(queue: Deque<Request>, lifo: bool) returns (finished: Option<Request>)
      modifies this, queue
      ensures TickResult(current, queue.items, finished) == WorkerTick(old(current), old(queue.items), lifo)
    {
      if current.Some? {
        current := Some(current.value.WorkingTick());
        if current.value.IsDone() {
          finished := current;
          current := None;
          return;
        }
      } else {
        var next;
        if lifo {
          next := queue.PopBack();
        } else {
          next := queue.PopFront();
        }
        current := next;
      }
      finished := None;
    }
  }
}
