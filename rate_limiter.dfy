/**
 * src/lib/lcsc/rate-limiter.ts: a FIFO queue of tasks and a counter of
 * occupied slots. The synchronous parts of the source's async methods are the
 * events of this model: `Add` (push, then one admission attempt), `Settle`
 * (the task's promise ends and the caller's promise is settled), `Release`
 * (the pacing delay has elapsed: the slot is freed, then one admission
 * attempt) and `Clear`. A task is named by a ticket, handed out in `add` order.
 */
module RateLimiting {
  import opened Utils
  import opened BomTypes

  /** How the task's own promise ended. */
  datatype TaskOutcome<T> = Returned(value: T) | Threw(thrown: Thrown)

  /** How the promise returned by `add` ends. */
  datatype Settlement<T> = Resolved(value: T) | Rejected(error: ErrorValue)

  /**
   * The caller sees the task's own outcome: a value unchanged, an `Error`
   * unchanged, and any other thrown value wrapped as `new Error(String(e))`.
   */
  function Forward<T>(o: TaskOutcome<T>): (s: Settlement<T>)
    ensures s.Resolved? <==> o.Returned?
    ensures o.Returned? ==> s.value == o.value
    ensures o.Threw? && o.thrown.Raised? ==> s.error == o.thrown.error
    ensures o.Threw? && o.thrown.RaisedValue? ==> s.error == PlainError(o.thrown.text)
  {
    match o
    case Returned(v) => Resolved(v)
    case Threw(Raised(e)) => Rejected(e)
    case Threw(RaisedValue(text)) => Rejected(PlainError(text))
  }

  class RateLimiter {
    /** Tickets of the tasks waiting for a slot, oldest first. */
    var queue: seq<nat>
    /** Slots taken: tasks running, or settled and waiting out the delay. */
    var running: nat
    const maxConcurrent: nat
    const delayMs: nat

    /** Number of tasks ever added; the next task's ticket (each `add` makes a new queue item). */
    var nextTicket: nat

    /** Admitted tasks whose promise has not ended yet. */
    ghost var inFlight: set<nat>
    /** Settled tasks still holding their slot during the delay. */
    ghost var cooling: set<nat>
    /** Tasks discarded by `clear`: they never run and their callers are never settled. */
    ghost var dropped: set<nat>

    /** Everything but "no slot is idle while a task waits". */
    ghost predicate Coherent()
      reads this
    {
      && running <= maxConcurrent
      && running == |inFlight| + |cooling|
      && inFlight !! cooling
      && (forall i, j | 0 <= i < j < |queue| :: queue[i] < queue[j])
      && (forall i | 0 <= i < |queue| ::
            queue[i] < nextTicket && queue[i] !in inFlight && queue[i] !in cooling && queue[i] !in dropped)
      && (forall t | t in inFlight :: t < nextTicket && t !in dropped)
      && (forall t | t in cooling :: t < nextTicket && t !in dropped)
      && (forall t | t in dropped :: t < nextTicket)
    }

    ghost predicate Valid()
      reads this
    {
      Coherent() && (queue != [] ==> running == maxConcurrent)
    }

    constructor(maxConcurrent: nat := 2, delayMs: nat := 500)
      ensures Valid()
      ensures this.maxConcurrent == maxConcurrent && this.delayMs == delayMs
      ensures queue == [] && running == 0
      ensures inFlight == {} && cooling == {} && dropped == {} && nextTicket == 0
    {
      this.maxConcurrent := maxConcurrent;
      this.delayMs := delayMs;
      queue := [];
      running := 0;
      nextTicket := 0;
      inFlight, cooling, dropped := {}, {}, {};
    }

    /**
     * `processQueue` up to its first `await`: admits the head of the queue
     * when a slot is free, and at most that one task.
     */
    method ProcessQueue() returns (started: Option<nat>)
      requires Coherent() && (|queue| > 1 ==> running + 1 >= maxConcurrent)
      modifies this
      ensures Valid()
      ensures started.Some? <==> old(running) < maxConcurrent && old(queue) != []
      ensures started.Some? ==>
        && started.value == old(queue)[0] && queue == old(queue)[1..]
        && running == old(running) + 1 && inFlight == old(inFlight) + {started.value}
      ensures started.None? ==> queue == old(queue) && running == old(running) && inFlight == old(inFlight)
      ensures cooling == old(cooling) && dropped == old(dropped) && nextTicket == old(nextTicket)
    {
      if running >= maxConcurrent || |queue| == 0 {
        return None;
      }
      running := running + 1;
      var item := queue[0];
      queue := queue[1..];
      inFlight := inFlight + {item};
      started := Some(item);
    }

    /** `add`: the task joins the tail of the queue, then one admission is attempted. */
    method Add() returns (ticket: nat, started: Option<nat>)
      requires Valid()
      modifies this
      ensures Valid()
      ensures ticket == old(nextTicket) && nextTicket == old(nextTicket) + 1
      ensures started.Some? <==> old(running) < maxConcurrent
      ensures started.Some? ==> started.value == ticket && queue == old(queue) == []
                                && running == old(running) + 1 && inFlight == old(inFlight) + {ticket}
      ensures started.None? ==> queue == old(queue) + [ticket] && running == old(running)
                                && inFlight == old(inFlight)
      ensures |queue| + running == old(|queue| + running) + 1
      ensures dropped == old(dropped) && cooling == old(cooling)
    {
      ticket := nextTicket;
      assert ticket !in inFlight && ticket !in cooling && ticket !in dropped;
      assert forall i | 0 <= i < |queue| :: queue[i] < ticket;
      nextTicket := nextTicket + 1;
      queue := queue + [ticket];
      assert Coherent();
      started := ProcessQueue();
    }

    /**
     * The task's promise ends: the caller's promise is settled with the
     * forwarded outcome, and the slot stays taken for the delay.
     */
    method Settle<T>(ticket: nat, outcome: TaskOutcome<T>) returns (s: Settlement<T>)
      requires Valid() && ticket in inFlight
      modifies this
      ensures Valid()
      ensures s == Forward(outcome)
      ensures inFlight == old(inFlight) - {ticket} && cooling == old(cooling) + {ticket}
      ensures queue == old(queue) && running == old(running) && dropped == old(dropped)
      ensures nextTicket == old(nextTicket)
    {
      inFlight := inFlight - {ticket};
      cooling := cooling + {ticket};
      s := Forward(outcome);
    }

    /** The delay after a settled task has elapsed: its slot is freed, then one admission is attempted. */
    method Release(ticket: nat) returns (started: Option<nat>)
      requires Valid() && ticket in cooling
      modifies this
      ensures Valid()
      ensures cooling == old(cooling) - {ticket}
      ensures started.Some? <==> old(queue) != []
      ensures started.Some? ==> started.value == old(queue)[0] && queue == old(queue)[1..]
                                && running == old(running) && inFlight == old(inFlight) + {started.value}
      ensures started.None? ==> queue == [] && running == old(running) - 1 && inFlight == old(inFlight)
      ensures dropped == old(dropped) && nextTicket == old(nextTicket)
    {
      cooling := cooling - {ticket};
      running := running - 1;
      started := ProcessQueue();
    }

    /** `clear`: the waiting tasks are discarded; running tasks keep their slots. */
    method Clear()
      requires Valid()
      modifies this
      ensures Valid()
      ensures queue == [] && running == old(running)
      ensures inFlight == old(inFlight) && cooling == old(cooling)
      ensures forall i | 0 <= i < |old(queue)| :: old(queue)[i] in dropped
      ensures nextTicket == old(nextTicket)
    {
      dropped := dropped + set i | 0 <= i < |queue| :: queue[i];
      queue := [];
    }

    /** `pendingCount`. */
    function PendingCount(): nat
      reads this
    {
      |queue|
    }

    /** `runningCount`. */
    function RunningCount(): nat
      reads this
    {
      running
    }
  }

  /**
   * Five tasks on a limiter with the default cap: two start at once, three
   * wait, and each freed slot admits the oldest waiting task.
   */
  method DefaultCapScenario() returns (startedFirst: seq<nat>, waiting: nat, next: Option<nat>)
    ensures startedFirst == [0, 1] && waiting == 3 && next == Some(2)
  {
    var limiter := new RateLimiter();
    var t0, s0 := limiter.Add();
    assert s0 == Some(0) && limiter.running == 1 && limiter.inFlight == {0};
    var t1, s1 := limiter.Add();
    assert s1 == Some(1) && limiter.running == 2 && limiter.queue == [];
    var t2, s2 := limiter.Add();
    assert limiter.queue == [2];
    var t3, s3 := limiter.Add();
    assert limiter.queue == [2, 3];
    var t4, s4 := limiter.Add();
    assert limiter.queue == [2, 3, 4] && t0 in limiter.inFlight;
    startedFirst := [s0.value, s1.value];
    waiting := limiter.PendingCount();
    var r := limiter.Settle(t0, Returned(true));
    next := limiter.Release(t0);
  }

  /**
   * `clear` while a task waits: with the default cap, the third task queues
   * behind two running ones and is discarded; when a slot is later freed
   * there is nothing to admit, and the discarded task is never in flight.
   */
  method ClearDropsWaitingTask() returns (discarded: nat, next: Option<nat>)
    ensures discarded == 2 && next == None
  {
    var limiter := new RateLimiter();
    var t0, s0 := limiter.Add();
    var t1, s1 := limiter.Add();
    var t2, s2 := limiter.Add();
    assert limiter.queue == [2] && limiter.inFlight == {0, 1};
    ghost var waiting := limiter.queue;
    limiter.Clear();
    assert waiting[0] in limiter.dropped;
    discarded := t2;
    var r := limiter.Settle(t0, Returned(true));
    next := limiter.Release(t0);
    assert discarded in limiter.dropped && discarded !in limiter.inFlight;
  }
}
