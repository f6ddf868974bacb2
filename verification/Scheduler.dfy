/** The scheduler's global counters and its builder and compile handlers. */
module Scheduler {
  import opened Collections
  import R = SchedulerRules

  class Scheduler {
    var objects: seq<R.Builder>
    var builders: map<string, nat>
    var builderCount: int
    var capacity: int
    var compiles: seq<Option<nat>>
    var activeJobs: int

    ghost function State(): R.State
      reads this
    {
      R.State(objects, builders, builderCount, capacity, compiles, activeJobs)
    }

    ghost predicate Valid()
      reads this
    {
      R.Inv(State())
    }

    constructor ()
      ensures Valid() && State() == R.INITIAL
    {
      objects, builders, builderCount, capacity, compiles, activeJobs := [], map[], 0, 0, [], 0;
    }

    method InsertBuilder(key: string, slots: nat)
      requires Valid()
      modifies this
      ensures Valid() && State() == R.Step(old(State()), R.ConnectEvent(key, slots))
    {
      R.InsertKeepsInv(State(), key, slots);
      builders := builders[key := |objects|];
      objects := objects + [R.Builder(key, slots, 0, true)];
      builderCount := builderCount + 1;
      capacity := capacity + slots;
    }

    method RemoveBuilder(b: nat)
      requires Valid() && R.Connected(State(), b)
      modifies this
      ensures Valid() && State() == R.Step(old(State()), R.DisconnectEvent(b))
    {
      R.RemoveKeepsInv(State(), b);
      builderCount := builderCount - 1;
      capacity := capacity - objects[b].slots;
      builders := builders - {objects[b].key};
      objects := objects[b := objects[b].(connected := false)];
    }

    /** A compile is given builder b; the new compile is the last one. */
    method Assign(b: nat)
      requires Valid() && R.Connected(State(), b)
      modifies this
      ensures Valid() && State() == R.Step(old(State()), R.AssignEvent(b))
    {
      R.AssignKeepsInv(State(), b);
      activeJobs := activeJobs + 1;
      objects := objects[b := objects[b].(activeClients := objects[b].activeClients + 1)];
      compiles := compiles + [Some(b)];
    }

    /** The error handler and the close handler of a compile. */
    method LetGo(c: nat)
      requires Valid() && c < |compiles|
      modifies this
      ensures Valid() && State() == R.Step(old(State()), R.CloseEvent(c)) == R.Step(old(State()), R.ErrorEvent(c))
    {
      R.LetGoKeepsInv(State(), c);
      if compiles[c].Some? {
        var b := compiles[c].value;
        objects := objects[b := objects[b].(activeClients := objects[b].activeClients - 1)];
        activeJobs := activeJobs - 1;
        compiles := compiles[c := None];
      }
    }
  }
}
