/** The daemon's slot pool: a map of holders and an insertion-ordered map of waiters. */
module Slots {
  import opened Collections
  import R = SlotRules

  class Pool {
    const count: int
    var used: map<R.Id, R.Pid>
    var pending: JsMap<R.Id, R.Waiter>
    var totalAcquired: nat

    ghost function State(): R.State
      reads this
    {
      R.State(count, used, pending, totalAcquired)
    }

    ghost predicate Valid()
      reads this
    {
      R.Ok(State())
    }

    constructor (count: int)
      ensures Valid() && State() == R.Initial(count)
    {
      this.count := count;
      used, pending, totalAcquired := map[], JsMap([], map[]), 0;
    }

    method TryAcquire(id: R.Id, pid: R.Pid) returns (ok: bool)
      requires Valid() && !R.Waits(State(), id)
      modifies this`used, this`totalAcquired
      ensures Valid() && State() == R.TryAcquire(old(State()), id, pid)
      ensures ok == R.Free(old(State()))
    {
      R.TryAcquireKeepsOk(State(), id, pid);
      if |used| < count {
        used := used[id := pid];
        totalAcquired := totalAcquired + 1;
        return true;
      }
      return false;
    }

    /** Returns whether the callback ran at once. */
    method Acquire(id: R.Id, pid: R.Pid, owner: nat) returns (granted: bool)
      requires Valid() && !R.Holds(State(), id) && !R.Waits(State(), id)
      modifies this
      ensures Valid() && State() == R.Acquire(old(State()), id, R.Waiter(pid, owner))
      ensures granted == R.Free(old(State()))
    {
      R.AcquireKeepsOk(State(), id, R.Waiter(pid, owner));
      if |used| < count {
        used := used[id := pid];
        totalAcquired := totalAcquired + 1;
        granted := true;
      } else {
        pending := pending.Set(id, R.Waiter(pid, owner));
        granted := false;
      }
    }

    /** Returns whose callback ran, if anyone's. */
    method Release(id: R.Id) returns (granted: Option<R.Id>)
      requires Valid()
      modifies this
      ensures Valid() && State() == R.Release(old(State()), id)
      ensures granted == R.Next(old(State()), id)
    {
      ghost var was := State();
      assert R.Ok(R.Release(was, id)) by { R.ReleaseKeepsOk(was, id); }
      R.ReleaseCases(was, id);
      granted := None;
      pending := pending.Delete(id);
      if id in used {
        used := used - {id};
        assert |used| < count;
        assert |used| + 1 == count || pending.order == [];
        if pending.order != [] {
          granted := Some(pending.order[0]);
          PromoteFirst();
        }
      }
    }

    /** The waiter at the head of the line becomes a holder. */
    method PromoteFirst()
      requires pending.Wf() && pending.order != []
      modifies this
      ensures var first := old(pending).order[0];
              && first in old(pending).vals
              && State() == R.Grant(old(State()), first,
                 old(pending).vals[first].pid).(pending := old(pending).Delete(first))
    {
      var first := pending.order[0];
      assert first in pending.order;
      used := used[first := pending.vals[first].pid];
      pending := pending.Delete(first);
      totalAcquired := totalAcquired + 1;
    }
  }
}
