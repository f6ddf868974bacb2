/** The builder's job handlers over the module-level queue. */
module JobQueue {
  import R = JobQueueRules

  /** The insertion loop, from the back. */
  method FindPlace(queue: seq<R.Job>, priority: int) returns (idx: nat)
    ensures idx == R.Place(queue, priority)
  {
    idx := |queue|;
    assert queue[..idx] == queue;
    while idx > 0
      invariant 0 <= idx <= |queue|
      invariant R.Place(queue, priority) == R.Place(queue[..idx], priority)
    {
      if queue[idx - 1].priority >= priority { break; }
      assert queue[..idx][..idx - 1] == queue[..idx - 1];
      idx := idx - 1;
    }
  }

  /** indexOf, by the job's identity. */
  method FindJob(queue: seq<R.Job>, arrival: nat) returns (idx: nat)
    ensures idx == R.IndexOf(queue, arrival)
  {
    idx := 0;
    while idx < |queue| && queue[idx].arrival != arrival
      invariant 0 <= idx <= |queue|
      invariant R.IndexOf(queue, arrival) == idx + R.IndexOf(queue[idx..], arrival)
    {
      assert queue[idx..][1..] == queue[idx + 1..];
      idx := idx + 1;
    }
  }

  class Builder {
    const slots: nat
    var jobQueue: seq<R.Job>
    var arrived: nat
    ghost var lateCloses: nat

    ghost function State(): R.State
      reads this
    {
      R.State(jobQueue, arrived, lateCloses)
    }

    ghost predicate Valid()
      reads this
    {
      R.Inv(State(), slots)
    }

    constructor (slots: nat)
      ensures Valid() && State() == R.INITIAL && this.slots == slots
    {
      this.slots := slots;
      jobQueue, arrived, lateCloses := [], 0, 0;
    }

    /** The wait header for an uncached job, and for a cached one. */
    method Headers(cached: bool, priority: int) returns (wait: bool)
      ensures wait <==> cached || R.Place(jobQueue, priority) > slots
    {
      R.WaitIffPlacedBeyond(jobQueue, slots, priority);
      wait := false;
      if cached {
        wait := true;
      } else if |jobQueue| >= slots {
        var idx := |jobQueue| - 1;
        assert jobQueue[..idx + 1] == jobQueue;
        while idx >= slots
          invariant slots - 1 <= idx < |jobQueue|
          invariant R.WaitScan(jobQueue, slots, priority) == R.WaitScan(jobQueue[..idx + 1], slots, priority)
          decreases idx + 1 - slots
        {
          if jobQueue[idx].priority >= priority { break; }
          assert jobQueue[..idx + 1][..idx] == jobQueue[..idx];
          idx := idx - 1;
        }
        wait := idx >= slots;
      }
    }

    method StartPending()
      modifies this`jobQueue
      ensures jobQueue == R.StartPending(old(jobQueue))
    {
      for idx := 0 to |jobQueue|
        invariant jobQueue == old(jobQueue)
        invariant R.FirstWaiting(jobQueue) == idx + R.FirstWaiting(jobQueue[idx..])
      {
        if !jobQueue[idx].running {
          jobQueue := jobQueue[idx := jobQueue[idx].(running := true)];
          return;
        }
        assert jobQueue[idx..][1..] == jobQueue[idx + 1..];
      }
    }

    method Arrive(priority: int)
      requires Valid()
      modifies this
      ensures Valid() && State() == R.Step(old(State()), slots, R.ArriveEvent(priority))
    {
      R.ArriveKeepsInv(State(), slots, priority);
      var idx := FindPlace(jobQueue, priority);
      var j := R.Job(arrived, priority, |jobQueue| + 1 <= slots);
      jobQueue := jobQueue[..idx] + [j] + jobQueue[idx..];
      arrived := arrived + 1;
    }

    /** What finishing and closing share: find the job, take it out, let the next one start. */
    method Leave(arrival: nat)
      requires Valid()
      modifies this
      ensures Valid() && State() == R.Leave(old(State()), arrival)
    {
      R.LeaveKeepsInv(State(), slots, arrival);
      TakeOut(arrival);
    }

    method TakeOut(arrival: nat)
      modifies this
      ensures State() == R.Leave(old(State()), arrival)
    {
      var idx := FindJob(jobQueue, arrival);
      if idx < |jobQueue| {
        if !jobQueue[idx].running { lateCloses := lateCloses + 1; }
        jobQueue := jobQueue[..idx] + jobQueue[idx + 1..];
        StartPending();
      }
    }
  }
}
