/** What the daemon's counting slots do: holders, and a first-come-first-served list of waiters. */
module SlotRules {
  import opened Collections

  /** Connection ids and client process ids. */
  type Id = nat
  type Pid = nat

  /** A waiter's client, and the connection its callback belongs to. */
  datatype Waiter = Waiter(pid: Pid, owner: nat)

  datatype State = State(count: int, used: map<Id, Pid>, pending: JsMap<Id, Waiter>, totalAcquired: nat)

  function Initial(count: int): State { State(count, map[], JsMap([], map[]), 0) }

  function Grant(s: State, id: Id, pid: Pid): State {
    s.(used := s.used[id := pid], totalAcquired := s.totalAcquired + 1)
  }

  predicate Free(s: State) { |s.used| < s.count }

  function TryAcquire(s: State, id: Id, pid: Pid): State {
    if Free(s) then Grant(s, id, pid) else s
  }

  function Acquire(s: State, id: Id, w: Waiter): State {
    if Free(s) then Grant(s, id, w.pid) else s.(pending := s.pending.Set(id, w))
  }

  /** Who is granted a slot when `id` lets go: the waiter that has waited longest. */
  function Next(s: State, id: Id): Option<Id> {
    var waiting := Remove(s.pending.order, id);
    if id in s.used && waiting != [] then Some(waiting[0]) else None
  }

  function Release(s: State, id: Id): State {
    var left := s.(pending := s.pending.Delete(id), used := s.used - {id});
    if Next(s, id).Some? && Next(s, id).value in left.pending.vals then
      var first := Next(s, id).value;
      Grant(left, first, left.pending.vals[first].pid).(pending := left.pending.Delete(first))
    else left
  }

  /** Never more holders than slots; nobody waits while a slot is free; nobody both holds and waits. */
  ghost predicate Ok(s: State) {
    && s.pending.Wf()
    && (|s.used| <= s.count || s.used == map[])
    && (s.pending.order != [] ==> !Free(s))
    && (forall id <- s.used :: id !in s.pending.vals)
  }

  ghost predicate Holds(s: State, id: Id) { id in s.used }
  ghost predicate Waits(s: State, id: Id) { id in s.pending.vals }

  lemma UsedAdd(used: map<Id, Pid>, id: Id, pid: Pid)
    ensures |used[id := pid]| == if id in used then |used| else |used| + 1
  {
    assert used[id := pid].Keys == used.Keys + {id};
    assert |used| == |used.Keys| && |used[id := pid]| == |used[id := pid].Keys|;
    if id in used { assert used.Keys + {id} == used.Keys; }
  }

  lemma UsedRemove(used: map<Id, Pid>, id: Id)
    ensures |used - {id}| == if id in used then |used| - 1 else |used|
  {
    assert (used - {id}).Keys == used.Keys - {id};
    assert |used| == |used.Keys| && |used - {id}| == |(used - {id}).Keys|;
    if id !in used { assert used.Keys - {id} == used.Keys; }
  }

  /** An acquire by someone not already holding or waiting: it holds at once iff a slot is free, else it waits last. */
  lemma AcquireKeepsOk(s: State, id: Id, w: Waiter)
    requires Ok(s) && !Holds(s, id) && !Waits(s, id)
    ensures Ok(Acquire(s, id, w))
    ensures Holds(Acquire(s, id, w), id) <==> Free(s)
    ensures Waits(Acquire(s, id, w), id) <==> !Free(s)
    ensures Acquire(s, id, w).pending.order == if Free(s) then s.pending.order else s.pending.order + [id]
    ensures forall x :: x != id ==>
              && (Holds(Acquire(s, id, w), x) <==> Holds(s, x))
              && (Waits(Acquire(s, id, w), x) <==> Waits(s, x))
    ensures forall x <- Acquire(s, id, w).pending.vals ::
              Acquire(s, id, w).pending.vals[x] == if x == id then w else s.pending.vals[x]
  {
    UsedAdd(s.used, id, w.pid);
    s.pending.SetWf(id, w);
  }

  lemma TryAcquireKeepsOk(s: State, id: Id, pid: Pid)
    requires Ok(s) && !Waits(s, id)
    ensures Ok(TryAcquire(s, id, pid))
    ensures Holds(TryAcquire(s, id, pid), id) <==> Holds(s, id) || Free(s)
    ensures forall x ::
              && (Waits(TryAcquire(s, id, pid), x) <==> Waits(s, x))
              && (x != id ==> (Holds(TryAcquire(s, id, pid), x) <==> Holds(s, x)))
  {
    UsedAdd(s.used, id, pid);
  }

  /** Nobody is next unless the id held a slot and someone else waits; then it is the first in line. */
  lemma ReleaseCases(s: State, id: Id)
    requires Ok(s)
    ensures var left := s.pending.Delete(id);
            && left.Wf()
            && (!Holds(s, id) ==> Next(s, id) == None && Release(s, id) == s.(pending := left))
            && (Holds(s, id) ==>
                  && |s.used - {id}| < s.count
                  && (left.order == [] ==>
                        Next(s, id) == None && Release(s, id) == s.(pending := left, used := s.used - {id}))
                  && (left.order != [] ==>
                        && |s.used - {id}| + 1 == s.count
                        && left.order[0] in left.vals && Next(s, id) == Some(left.order[0])
                        && Release(s, id) ==
                           Grant(s.(pending := left, used := s.used - {id}), left.order[0],
                                 left.vals[left.order[0]].pid).(pending := left.Delete(left.order[0]))))
  {
    var left := s.pending.Delete(id);
    s.pending.DeleteWf(id);
    UsedRemove(s.used, id);
    if Holds(s, id) {
      assert left == s.pending;
      if left.order != [] { assert left.order[0] in left.order; }
    } else {
      assert s.used - {id} == s.used;
    }
  }

  lemma ReleaseIsOk(s: State, id: Id)
    requires Ok(s)
    ensures Ok(Release(s, id)) && !Holds(Release(s, id), id) && !Waits(Release(s, id), id)
  {
    ReleaseCases(s, id);
    var left := s.pending.Delete(id);
    s.pending.DeleteWf(id);
    if Holds(s, id) && left.order != [] {
      var first := left.order[0];
      left.DeleteWf(first);
      UsedAdd(s.used - {id}, first, left.vals[first].pid);
    }
  }

  lemma ReleaseLine(s: State, id: Id)
    requires Ok(s)
    ensures Next(s, id).Some? ==> s.pending.order != [] && Next(s, id).value == s.pending.order[0] != id
    ensures Release(s, id).pending.order ==
            if Holds(s, id) && s.pending.order != [] then s.pending.order[1..] else Remove(s.pending.order, id)
    ensures Next(s, id).Some? ==> Waits(s, Next(s, id).value)
  {
    ReleaseCases(s, id);
    if Holds(s, id) { assert s.pending.Delete(id) == s.pending; }
  }

  lemma ReleaseOthers(s: State, id: Id)
    requires Ok(s)
    ensures forall x :: x != id ==>
              && (Holds(Release(s, id), x) <==> Holds(s, x) || Next(s, id) == Some(x))
              && (Waits(Release(s, id), x) <==> Waits(s, x) && Next(s, id) != Some(x))
    ensures forall x <- Release(s, id).pending.vals ::
              x in s.pending.vals && Release(s, id).pending.vals[x] == s.pending.vals[x]
  {
    ReleaseCases(s, id);
  }

  /** A release: the id neither holds nor waits; if it held, the first waiter holds instead; the rest keep their
      order. */
  lemma ReleaseKeepsOk(s: State, id: Id)
    requires Ok(s)
    ensures Ok(Release(s, id))
    ensures !Holds(Release(s, id), id) && !Waits(Release(s, id), id)
    ensures Next(s, id).Some? ==> s.pending.order != [] && Next(s, id).value == s.pending.order[0] != id
    ensures Release(s, id).pending.order ==
            if Holds(s, id) && s.pending.order != [] then s.pending.order[1..] else Remove(s.pending.order, id)
    ensures forall x :: x != id ==>
              && (Holds(Release(s, id), x) <==> Holds(s, x) || Next(s, id) == Some(x))
              && (Waits(Release(s, id), x) <==> Waits(s, x) && Next(s, id) != Some(x))
    ensures forall x <- Release(s, id).pending.vals ::
              x in s.pending.vals && Release(s, id).pending.vals[x] == s.pending.vals[x]
    ensures Next(s, id).Some? ==> Waits(s, Next(s, id).value)
  {
    ReleaseIsOk(s, id);
    ReleaseLine(s, id);
    ReleaseOthers(s, id);
  }

  // ---- first come, first served

  datatype Op = AcquireOp(id: Id, w: Waiter) | TryOp(id: Id, pid: Pid) | ReleaseOp(id: Id)

  function Apply(s: State, op: Op): State {
    match op
    case AcquireOp(id, w) => Acquire(s, id, w)
    case TryOp(id, pid) => TryAcquire(s, id, pid)
    case ReleaseOp(id) => Release(s, id)
  }

  /** Callers never ask again for what they hold or wait for. */
  ghost predicate Allowed(s: State, op: Op) {
    match op
    case AcquireOp(id, _) => !Holds(s, id) && !Waits(s, id)
    case TryOp(id, _) => !Waits(s, id)
    case ReleaseOp(_) => true
  }

  ghost predicate Before(order: seq<Id>, a: Id, b: Id) {
    exists i, j :: 0 <= i < j < |order| && order[i] == a && order[j] == b
  }

  lemma BeforeAppend(order: seq<Id>, a: Id, b: Id, x: Id)
    requires Before(order, a, b)
    ensures Before(order + [x], a, b)
  {
    var i, j :| 0 <= i < j < |order| && order[i] == a && order[j] == b;
    assert (order + [x])[i] == a && (order + [x])[j] == b;
  }

  lemma BeforeRemove(order: seq<Id>, a: Id, b: Id, x: Id)
    requires NoDup(order) && Before(order, a, b) && x != a && x != b
    ensures Before(Remove(order, x), a, b)
  {
    var i, j :| 0 <= i < j < |order| && order[i] == a && order[j] == b;
    if x in order {
      var k := FirstOccurrence(order, x);
      assert order == order[..k] + [x] + order[k + 1..];
      RemoveSplit(order[..k], x, order[k + 1..]);
      var less := order[..k] + order[k + 1..];
      assert less[if i < k then i else i - 1] == a && less[if j < k then j else j - 1] == b;
    }
  }

  lemma BeforeTail(order: seq<Id>, a: Id, b: Id)
    requires Before(order, a, b) && order[0] != a
    ensures Before(order[1..], a, b)
  {
    var i, j :| 0 <= i < j < |order| && order[i] == a && order[j] == b;
    assert order[1..][i - 1] == a && order[1..][j - 1] == b;
  }

  /** One step cannot let b overtake a: a is still ahead of it, or a has just been granted its slot. */
  lemma NoOvertakingStep(s: State, op: Op, a: Id, b: Id)
    requires Ok(s) && Allowed(s, op) && Before(s.pending.order, a, b)
    requires op != ReleaseOp(a) && op != ReleaseOp(b)
    ensures Ok(Apply(s, op))
    ensures Before(Apply(s, op).pending.order, a, b) || Holds(Apply(s, op), a)
  {
    match op
    case AcquireOp(id, w) =>
      AcquireKeepsOk(s, id, w);
      BeforeAppend(s.pending.order, a, b, id);
    case TryOp(id, pid) => TryAcquireKeepsOk(s, id, pid);
    case ReleaseOp(id) =>
      ReleaseKeepsOk(s, id);
      if Holds(s, id) {
        if s.pending.order[0] == a {
          assert Next(s, id) == Some(a) by { s.pending.DeleteWf(id); }
        } else {
          BeforeTail(s.pending.order, a, b);
        }
      } else {
        BeforeRemove(s.pending.order, a, b, id);
      }
  }

  ghost predicate Run(states: seq<State>, ops: seq<Op>) {
    && |states| == |ops| + 1
    && Ok(states[0])
    && forall i :: 0 <= i < |ops| ==> StepOk(states[i], ops[i], states[i + 1])
  }

  ghost predicate StepOk(s: State, op: Op, s': State) {
    Allowed(s, op) && s' == Apply(s, op)
  }

  lemma StepKeepsOk(s: State, op: Op)
    requires Ok(s) && Allowed(s, op)
    ensures Ok(Apply(s, op))
  {
    match op
    case AcquireOp(id, w) => AcquireKeepsOk(s, id, w);
    case TryOp(id, pid) => TryAcquireKeepsOk(s, id, pid);
    case ReleaseOp(id) => ReleaseKeepsOk(s, id);
  }

  lemma StepKeepsAhead(s: State, op: Op, s': State, a: Id, b: Id)
    requires Ok(s) && StepOk(s, op, s') && op != ReleaseOp(a) && op != ReleaseOp(b)
    requires Before(s.pending.order, a, b) || Holds(s, a)
    ensures Ok(s') && (Before(s'.pending.order, a, b) || Holds(s', a))
  {
    StepKeepsOk(s, op);
    if Before(s.pending.order, a, b) {
      NoOvertakingStep(s, op, a, b);
    } else {
      HolderKeeps(s, op, a);
    }
  }

  ghost predicate AheadOrServed(s: State, a: Id, b: Id) { Before(s.pending.order, a, b) || Holds(s, a) }

  lemma StepAt(states: seq<State>, ops: seq<Op>, k: nat, n: nat, a: Id, b: Id)
    requires Run(states, ops) && k < |ops| && n == k + 1 && Ok(states[k]) && AheadOrServed(states[k], a, b)
    requires ops[k] != ReleaseOp(a) && ops[k] != ReleaseOp(b)
    ensures Ok(states[n]) && AheadOrServed(states[n], a, b)
  {
    assert StepOk(states[k], ops[k], states[k + 1]);
    StepKeepsAhead(states[k], ops[k], states[n], a, b);
  }

  /** Over any run in which neither lets go: as long as a, who asked first, still waits, b waits behind it. */
  lemma {:induction false} NoOvertaking(states: seq<State>, ops: seq<Op>, a: Id, b: Id, n: nat)
    requires Run(states, ops) && n <= |ops| && Before(states[0].pending.order, a, b)
    requires forall i :: 0 <= i < n ==> ops[i] != ReleaseOp(a) && ops[i] != ReleaseOp(b)
    ensures Ok(states[n]) && AheadOrServed(states[n], a, b)
  {
    if n > 0 {
      NoOvertaking(states, ops, a, b, n - 1);
      StepAt(states, ops, n - 1, n, a, b);
    }
  }

  lemma HolderKeeps(s: State, op: Op, a: Id)
    requires Ok(s) && Allowed(s, op) && Holds(s, a) && op != ReleaseOp(a)
    ensures Holds(Apply(s, op), a)
  {
    match op
    case AcquireOp(id, w) => AcquireKeepsOk(s, id, w);
    case TryOp(id, pid) => TryAcquireKeepsOk(s, id, pid);
    case ReleaseOp(id) => ReleaseKeepsOk(s, id);
  }
}
