/** The daemon's connection handlers over three slot pools. */
module FiskDaemon {
  import opened Collections
  import R = DaemonRules
  import S = SlotRules
  import Slots

  class Daemon {
    const cpp: Slots.Pool
    const compile: Slots.Pool
    const local: Slots.Pool
    var conns: R.Conns

    ghost predicate Distinct()
    {
      cpp != compile && cpp != local && compile != local
    }

    ghost function State(): R.State
      reads this, cpp, compile, local
    {
      R.State(cpp.State(), compile.State(), local.State(), conns)
    }

    ghost predicate Valid()
      reads this, cpp, compile, local
    {
      Distinct() && R.Inv(State())
    }

    constructor (cppSlots: int, compileSlots: int, localSlots: int)
      ensures Valid() && State() == R.Initial(cppSlots, compileSlots, localSlots)
      ensures cpp.count == cppSlots && compile.count == compileSlots && local.count == localSlots
      ensures fresh(cpp) && fresh(compile) && fresh(local)
    {
      cpp := new Slots.Pool(cppSlots);
      compile := new Slots.Pool(compileSlots);
      local := new Slots.Pool(localSlots);
      conns := map[];
    }

    function PoolOf(p: R.PoolName): Slots.Pool
    {
      match p case Cpp => cpp case Compile => compile case Local => local
    }

    method Tell(h: R.Handle, p: R.PoolName)
      modifies this
      ensures conns == R.Tell(old(conns), h, p)
    {
      if h in conns { conns := conns[h := conns[h].(got := conns[h].got + {p})]; }
    }

    method Connect(h: R.Handle, id: S.Id, pid: S.Pid)
      requires Valid() && R.Enabled(State(), R.ConnectEvent(h, id, pid))
      modifies this
      ensures Valid() && State() == R.Step(old(State()), R.ConnectEvent(h, id, pid))
    {
      R.StepKeepsInv(State(), R.ConnectEvent(h, id, pid));
      conns := conns[h := R.Conn(id, pid, {}, {}, false, 0)];
    }

    /** acquireCppSlot and acquireCompileSlot; also the fallback of acquireSlot. */
    method Acquire(h: R.Handle, p: R.PoolName)
      requires Valid() && R.Live(conns, h) && p != R.Local && p !in conns[h].req
      modifies this, cpp, compile, local
      ensures Valid() && State() == R.AcquireIn(old(State()), h, p)
    {
      ghost var s := State();
      R.AcquireInKeeps(s, h, p);
      R.InvAt(s, p);
      var c := conns[h];
      conns := R.Ask(conns, h, p);
      var pool := PoolOf(p);
      var granted := pool.Acquire(c.id, c.pid, h);
      if granted { Tell(h, p); }
      assert State() == R.AcquireIn(s, h, p);
    }

    /** The body of the release handlers and of each clause of the close handlers. */
    method ReleaseIfHeld(h: R.Handle, p: R.PoolName)
      requires Valid() && R.Live(conns, h)
      modifies this, cpp, compile, local
      ensures Valid() && State() == R.ReleaseIfHeld(old(State()), h, p)
      ensures R.Live(conns, h)
    {
      ghost var after := R.ReleaseIfHeld(State(), h, p);
      assert R.Inv(after) && R.Live(after.conns, h) by { R.ReleaseIfHeldKeeps(State(), h, p); }
      if p in conns[h].req {
        assert PoolOf(p).Valid() by { R.InvAt(State(), p); }
        Release(h, p);
      }
      assert State() == after;
    }

    method Release(h: R.Handle, p: R.PoolName)
      requires Distinct() && PoolOf(p).Valid() && h in conns
      modifies this, cpp, compile, local
      ensures State() == R.ReleaseIn(old(State()), h, p)
    {
      ghost var s := State();
      var pool, id := PoolOf(p), conns[h].id;
      var waiting := pool.pending.vals;
      conns := R.Clear(conns, h, p);
      var granted := pool.Release(id);
      if granted.Some? && granted.value in waiting { Tell(waiting[granted.value].owner, p); }
      assert State() == R.ReleaseIn(s, h, p);
    }

    method AcquireSlot(h: R.Handle)
      requires Valid() && R.Live(conns, h)
      modifies this
      ensures Valid() && State() == R.Step(old(State()), R.AcquireSlotEvent(h))
    {
      ghost var after := R.WithLookups(State(), h, conns[h].lookups + 1);
      assert R.Inv(after) by { R.LookupsKeep(State(), h, conns[h].lookups + 1); }
      conns := conns[h := conns[h].(lookups := conns[h].lookups + 1)];
      assert State() == after;
    }

    /** The compiler lookup of an acquireSlot settles. */
    method LookupSettles(h: R.Handle, localAllowed: bool)
      requires Valid() && h in conns && conns[h].lookups > 0
      modifies this, cpp, compile, local
      ensures Valid() && State() == R.Step(old(State()), R.LookupEvent(h, localAllowed))
    {
      ghost var s := State();
      ghost var counted := R.WithLookups(s, h, s.conns[h].lookups - 1);
      assert R.Inv(counted) by { R.LookupsKeep(s, h, s.conns[h].lookups - 1); }
      conns := conns[h := conns[h].(lookups := conns[h].lookups - 1)];
      assert State() == counted;
      if !conns[h].closed { FoundCompiler(h, localAllowed); }
      assert State() == R.LookupDone(s, h, localAllowed);
    }

    method FoundCompiler(h: R.Handle, localAllowed: bool)
      requires Valid() && R.Live(conns, h)
      modifies this, cpp, compile, local
      ensures Valid() && State() == R.Found(old(State()), h, localAllowed)
    {
      var ok := false;
      if localAllowed { ok := TryLocal(h); }
      if !ok && R.Cpp !in conns[h].req { Acquire(h, R.Cpp); }
    }

    method TryLocal(h: R.Handle) returns (ok: bool)
      requires Valid() && R.Live(conns, h)
      modifies this, local
      ensures Valid() && ok == S.Free(old(local.State()))
      ensures State() == if ok then R.Found(old(State()), h, true) else old(State())
    {
      ghost var s := State();
      R.FoundKeeps(s, h, true);
      assert !S.Waits(s.local, conns[h].id) by { assert conns[h].id !in s.local.pending.order; }
      ok := local.TryAcquire(conns[h].id, conns[h].pid);
      if ok {
        conns := R.Ask(conns, h, R.Local);
        Tell(h, R.Local);
        assert State() == R.Found(s, h, true);
      }
    }

    /** The error and end handlers are the same code, and both may run for one connection. */
    method Close(h: R.Handle)
      requires Valid() && h in conns
      modifies this, cpp, compile, local
      ensures Valid() && State() == R.Close(old(State()), h)
    {
      ghost var s := State();
      R.CloseKeeps(s, h);
      if conns[h].closed {
        R.AlreadyClosed(s, h);
        return;
      }
      ReleaseIfHeld(h, R.Cpp);
      ReleaseIfHeld(h, R.Compile);
      ReleaseIfHeld(h, R.Local);
      conns := conns[h := conns[h].(closed := true)];
    }
  }
}
