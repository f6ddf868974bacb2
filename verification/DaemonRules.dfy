/** The daemon's slot protocol: connections ask for and give back slots of three pools, look up a
    compiler asynchronously before being given one, and may die at any moment. */
module DaemonRules {
  import opened Collections
  import S = SlotRules

  datatype PoolName = Cpp | Compile | Local

  /** A connection's closure: the requested* flags, which grants it has been told of, and lookups in flight. */
  datatype Conn = Conn(id: S.Id, pid: S.Pid, req: set<PoolName>, got: set<PoolName>, closed: bool, lookups: nat)

  type Handle = nat
  type Conns = map<Handle, Conn>
  datatype State = State(cpp: S.State, compile: S.State, local: S.State, conns: Conns)

  function Initial(cpp: int, compile: int, local: int): State {
    State(S.Initial(cpp), S.Initial(compile), S.Initial(local), map[])
  }

  function Get(s: State, p: PoolName): S.State {
    match p case Cpp => s.cpp case Compile => s.compile case Local => s.local
  }

  function Put(s: State, p: PoolName, pool: S.State): State {
    match p case Cpp => s.(cpp := pool) case Compile => s.(compile := pool) case Local => s.(local := pool)
  }

  /** A connection asks for a slot, or lets go of one. */
  function Ask(conns: Conns, h: Handle, p: PoolName): Conns
    requires h in conns
  {
    conns[h := conns[h].(req := conns[h].req + {p})]
  }

  function Clear(conns: Conns, h: Handle, p: PoolName): Conns
    requires h in conns
  {
    conns[h := conns[h].(req := conns[h].req - {p}, got := conns[h].got - {p})]
  }

  /** The callback of an acquire replies to the connection that asked. */
  function Tell(conns: Conns, h: Handle, p: PoolName): Conns {
    if h in conns then conns[h := conns[h].(got := conns[h].got + {p})] else conns
  }

  // ---- what the handlers do

  /** Set the flag and acquire; the callback, now or later, tells the connection. */
  function AcquireIn(s: State, h: Handle, p: PoolName): State
    requires h in s.conns
  {
    var c := s.conns[h];
    Put(s, p, S.Acquire(Get(s, p), c.id, S.Waiter(c.pid, h))).(conns := AcquireConns(s.conns, Get(s, p), h, p))
  }

  function AcquireConns(conns: Conns, pool: S.State, h: Handle, p: PoolName): Conns
    requires h in conns
  {
    if S.Free(pool) then Tell(Ask(conns, h, p), h, p) else Ask(conns, h, p)
  }

  /** Clear the flag and release; whoever is next is told. */
  function ReleaseIn(s: State, h: Handle, p: PoolName): State
    requires h in s.conns
  {
    Put(s, p, S.Release(Get(s, p), s.conns[h].id)).(conns := ReleaseConns(s.conns, Get(s, p), h, p))
  }

  function ReleaseConns(conns: Conns, pool: S.State, h: Handle, p: PoolName): Conns
    requires h in conns
  {
    var next := S.Next(pool, conns[h].id);
    if next.Some? && next.value in pool.pending.vals
    then Tell(Clear(conns, h, p), pool.pending.vals[next.value].owner, p)
    else Clear(conns, h, p)
  }

  function ReleaseIfHeld(s: State, h: Handle, p: PoolName): State
    requires h in s.conns
  {
    if p in s.conns[h].req then ReleaseIn(s, h, p) else s
  }

  /** A local slot when allowed and free, a cpp slot otherwise. A failed assertion here is only logged. */
  function Found(s: State, h: Handle, localAllowed: bool): State
    requires h in s.conns
  {
    var c := s.conns[h];
    if localAllowed && S.Free(s.local) then
      s.(local := S.TryAcquire(s.local, c.id, c.pid), conns := Tell(Ask(s.conns, h, Local), h, Local))
    else if Cpp in c.req then s
    else AcquireIn(s, h, Cpp)
  }

  predicate Live(conns: Conns, h: Handle) { h in conns && !conns[h].closed }

  function WithLookups(s: State, h: Handle, n: nat): (r: State)
    requires h in s.conns
    ensures h in r.conns && r.conns[h].closed == s.conns[h].closed
  {
    s.(conns := s.conns[h := s.conns[h].(lookups := n)])
  }

  function LookupDone(s: State, h: Handle, localAllowed: bool): State
    requires h in s.conns && s.conns[h].lookups > 0
  {
    var c := s.conns[h];
    var after := WithLookups(s, h, c.lookups - 1);
    if c.closed then after else Found(after, h, localAllowed)
  }

  function ReleaseAll(s: State, h: Handle): (r: State)
    requires h in s.conns
    ensures h in r.conns
  {
    var s1 := ReleaseIfHeld(s, h, Cpp);
    var s2 := ReleaseIfHeld(s1, h, Compile);
    ReleaseIfHeld(s2, h, Local)
  }

  function Close(s: State, h: Handle): State
    requires h in s.conns
  {
    var after := ReleaseAll(s, h);
    after.(conns := after.conns[h := after.conns[h].(closed := true)])
  }

  datatype Event =
    | ConnectEvent(h: Handle, id: S.Id, pid: S.Pid)
    | AcquireEvent(h: Handle, p: PoolName)        // acquireCppSlot, acquireCompileSlot
    | ReleaseEvent(h: Handle, p: PoolName)        // releaseCppSlot, releaseCompileSlot, releaseLocalSlot
    | AcquireSlotEvent(h: Handle)                 // acquireSlot: starts a compiler lookup
    | LookupEvent(h: Handle, localAllowed: bool)  // the lookup settles, perhaps after the connection died
    | CloseEvent(h: Handle)                       // error or end, possibly both

  /** Clients follow the protocol, and ids of live connections differ. */
  ghost predicate Enabled(s: State, e: Event) {
    match e
    case ConnectEvent(h, id, _) => h !in s.conns && forall g :: Live(s.conns, g) ==> s.conns[g].id != id
    case AcquireEvent(h, p) => Live(s.conns, h) && p != Local && p !in s.conns[h].req
    case ReleaseEvent(h, p) => Live(s.conns, h) && p in s.conns[h].req
    case AcquireSlotEvent(h) => Live(s.conns, h)
    case LookupEvent(h, _) => h in s.conns && s.conns[h].lookups > 0
    case CloseEvent(h) => h in s.conns
  }

  function Step(s: State, e: Event): State {
    match e
    case ConnectEvent(h, id, pid) => s.(conns := s.conns[h := Conn(id, pid, {}, {}, false, 0)])
    case AcquireEvent(h, p) => if h in s.conns then AcquireIn(s, h, p) else s
    case ReleaseEvent(h, p) => if h in s.conns then ReleaseIn(s, h, p) else s
    case AcquireSlotEvent(h) =>
      if h in s.conns then WithLookups(s, h, s.conns[h].lookups + 1) else s
    case LookupEvent(h, localAllowed) =>
      if h in s.conns && s.conns[h].lookups > 0 then LookupDone(s, h, localAllowed) else s
    case CloseEvent(h) => if h in s.conns then Close(s, h) else s
  }

  // ---- one pool and the connections' flags

  ghost predicate Owner(conns: Conns, p: PoolName, h: Handle, id: S.Id) {
    Live(conns, h) && conns[h].id == id && p in conns[h].req
  }

  ghost predicate Owned(conns: Conns, p: PoolName, id: S.Id) { exists h :: Owner(conns, p, h, id) }

  /** What the flags can see of a pool: who holds, who waits, and whose callback each waiter has. */
  datatype View = View(holds: set<S.Id>, waits: map<S.Id, Handle>)

  function ViewOf(pool: S.State): View {
    View(pool.used.Keys, map id <- pool.pending.vals :: pool.pending.vals[id].owner)
  }

  ghost predicate Engaged(v: View, id: S.Id) { id in v.holds || id in v.waits }

  /** Flags, holders, waiters, callbacks and replies of one pool all agree. */
  ghost predicate Agrees(conns: Conns, v: View, p: PoolName) {
    && (forall h <- conns :: FlagsOk(conns[h], v, p))
    && (forall id <- v.holds :: Owned(conns, p, id))
    && (forall id <- v.waits :: Owner(conns, p, v.waits[id], id))
  }

  ghost predicate FlagsOk(c: Conn, v: View, p: PoolName) {
    && (p in c.req ==> !c.closed && Engaged(v, c.id))
    && (p in c.got <==> p in c.req && c.id in v.holds)
  }

  ghost predicate IdsDistinct(conns: Conns) {
    forall g, h {:trigger Live(conns, g), Live(conns, h)} ::
      Live(conns, g) && Live(conns, h) && conns[g].id == conns[h].id ==> g == h
  }

  ghost predicate SameFor(c: Conn, d: Conn, p: PoolName) {
    c.id == d.id && c.closed == d.closed && (p in c.req <==> p in d.req) && (p in c.got <==> p in d.got)
  }

  /** Nothing that pool p's agreement looks at has changed. */
  lemma Frame(conns: Conns, conns': Conns, v: View, p: PoolName)
    requires Agrees(conns, v, p) && conns'.Keys == conns.Keys
    requires forall h <- conns :: SameFor(conns[h], conns'[h], p)
    ensures Agrees(conns', v, p)
  {
    forall h | h in conns' ensures FlagsOk(conns'[h], v, p) {
      assert SameFor(conns[h], conns'[h], p) && FlagsOk(conns[h], v, p);
    }
    forall id | id in v.holds ensures Owned(conns', p, id) {
      assert Owned(conns, p, id);
      var h :| Owner(conns, p, h, id);
      assert SameFor(conns[h], conns'[h], p) && Owner(conns', p, h, id);
    }
    forall id | id in v.waits ensures Owner(conns', p, v.waits[id], id) {
      assert Owner(conns, p, v.waits[id], id) && SameFor(conns[v.waits[id]], conns'[v.waits[id]], p);
    }
  }

  /** A connection that has not asked for a pool's slot neither holds nor awaits one. */
  lemma NotEngaged(conns: Conns, v: View, h: Handle, p: PoolName)
    requires Agrees(conns, v, p) && IdsDistinct(conns) && Live(conns, h) && p !in conns[h].req
    ensures !Engaged(v, conns[h].id)
  {
    assert forall g :: Owner(conns, p, g, conns[h].id) ==> g == h;
  }

  /** Seen from pool q, nothing has happened to anyone. */
  ghost predicate SameSeen(conns: Conns, conns': Conns, q: PoolName) {
    conns'.Keys == conns.Keys && forall g <- conns :: SameFor(conns[g], conns'[g], q)
  }

  /** Asking or letting go in another pool's name, and being told there: pool q sees no difference. */
  lemma OtherAcquires(conns: Conns, pool: S.State, h: Handle, p: PoolName, q: PoolName)
    requires h in conns && p != q
    ensures SameSeen(conns, AcquireConns(conns, pool, h, p), q)
  {
    ToldOthers(conns, Ask(conns, h, p), h, p, q);
  }

  lemma OtherReleases(conns: Conns, pool: S.State, h: Handle, p: PoolName, q: PoolName)
    requires h in conns && p != q
    ensures SameSeen(conns, ReleaseConns(conns, pool, h, p), q)
  {
    var next := S.Next(pool, conns[h].id);
    if next.Some? && next.value in pool.pending.vals {
      ToldOthers(conns, Clear(conns, h, p), pool.pending.vals[next.value].owner, p, q);
    }
  }

  lemma ToldOthers(conns: Conns, changed: Conns, h: Handle, p: PoolName, q: PoolName)
    requires p != q && SameSeen(conns, changed, q)
    ensures SameSeen(conns, Tell(changed, h, p), q)
  {}

  /** Everyone's flags and callbacks keep agreeing when h asks and is granted a slot ... */
  lemma GrantAgrees(conns: Conns, v: View, h: Handle, p: PoolName)
    requires Agrees(conns, v, p) && IdsDistinct(conns) && Live(conns, h) && conns[h].id !in v.waits
    ensures Agrees(Tell(Ask(conns, h, p), h, p), View(v.holds + {conns[h].id}, v.waits), p)
  {
    var c, conns', v' := conns[h], Tell(Ask(conns, h, p), h, p), View(v.holds + {conns[h].id}, v.waits);
    assert Owner(conns', p, h, c.id);
    forall g | g in conns' ensures FlagsOk(conns'[g], v', p) {
      assert FlagsOk(conns[g], v, p);
      if g != h && p in conns[g].req { assert Live(conns, g) && Live(conns, h); }
    }
    forall id | id in v'.holds ensures Owned(conns', p, id) {
      if id != c.id {
        assert Owned(conns, p, id);
        var g :| Owner(conns, p, g, id);
        assert Owner(conns', p, g, id);
      }
    }
    forall id | id in v'.waits ensures Owner(conns', p, v'.waits[id], id) { assert Owner(conns, p, v.waits[id], id); }
  }

  /** ... or is put in line ... */
  lemma WaitAgrees(conns: Conns, v: View, h: Handle, p: PoolName)
    requires Agrees(conns, v, p) && IdsDistinct(conns) && Live(conns, h) && p !in conns[h].req
    ensures Agrees(Ask(conns, h, p), View(v.holds, v.waits[conns[h].id := h]), p)
  {
    var c, conns', v' := conns[h], Ask(conns, h, p), View(v.holds, v.waits[conns[h].id := h]);
    NotEngaged(conns, v, h, p);
    forall g | g in conns' ensures FlagsOk(conns'[g], v', p) { assert FlagsOk(conns[g], v, p); }
    forall id | id in v'.holds ensures Owned(conns', p, id) {
      assert Owned(conns, p, id);
      var g :| Owner(conns, p, g, id);
      assert Owner(conns', p, g, id);
    }
    forall id | id in v'.waits ensures Owner(conns', p, v'.waits[id], id) {
      if id != c.id { assert Owner(conns, p, v.waits[id], id); }
    }
  }

  /** ... or lets go ... */
  lemma ClearAgrees(conns: Conns, v: View, h: Handle, p: PoolName)
    requires Agrees(conns, v, p) && IdsDistinct(conns) && Live(conns, h) && p in conns[h].req
    ensures Agrees(Clear(conns, h, p), View(v.holds - {conns[h].id}, v.waits - {conns[h].id}), p)
  {
    var c, conns', v' := conns[h], Clear(conns, h, p), View(v.holds - {conns[h].id}, v.waits - {conns[h].id});
    forall g | g in conns' ensures FlagsOk(conns'[g], v', p) {
      assert FlagsOk(conns[g], v, p);
      if g != h && p in conns[g].req { assert Live(conns, g) && Live(conns, h); }
    }
    forall id | id in v'.holds ensures Owned(conns', p, id) {
      assert Owned(conns, p, id);
      var g :| Owner(conns, p, g, id);
      assert Owner(conns', p, g, id);
    }
    forall id | id in v'.waits ensures Owner(conns', p, v'.waits[id], id) { assert Owner(conns, p, v.waits[id], id); }
  }

  /** ... and when the next in line is granted the slot and told. */
  lemma PromoteAgrees(conns: Conns, v: View, p: PoolName, next: S.Id)
    requires Agrees(conns, v, p) && IdsDistinct(conns) && next in v.waits && next !in v.holds
    ensures Agrees(Tell(conns, v.waits[next], p), View(v.holds + {next}, v.waits - {next}), p)
  {
    var o := v.waits[next];
    var conns', v' := Tell(conns, o, p), View(v.holds + {next}, v.waits - {next});
    assert Owner(conns, p, o, next);
    assert Owner(conns', p, o, next);
    forall g | g in conns' ensures FlagsOk(conns'[g], v', p) {
      assert FlagsOk(conns[g], v, p);
      if g != o && p in conns[g].req { assert Live(conns, g) && Live(conns, o); }
    }
    forall id | id in v'.holds ensures Owned(conns', p, id) {
      if id != next {
        assert Owned(conns, p, id);
        var g :| Owner(conns, p, g, id);
        assert Owner(conns', p, g, id);
      }
    }
    forall id | id in v'.waits ensures Owner(conns', p, v'.waits[id], id) { assert Owner(conns, p, v.waits[id], id); }
  }

  lemma AcquireView(pool: S.State, id: S.Id, w: S.Waiter)
    ensures ViewOf(S.Acquire(pool, id, w)) == if S.Free(pool) then View(ViewOf(pool).holds + {id}, ViewOf(pool).waits)
                                              else View(ViewOf(pool).holds, ViewOf(pool).waits[id := w.owner])
  {}

  lemma PromotedView(pool: S.State, pool': S.State, id: S.Id, next: Option<S.Id>)
    requires forall x :: S.Holds(pool', x) <==> x != id && (S.Holds(pool, x) || next == Some(x))
    requires forall x :: S.Waits(pool', x) <==> x != id && S.Waits(pool, x) && next != Some(x)
    requires forall x <- pool'.pending.vals :: x in pool.pending.vals && pool'.pending.vals[x] == pool.pending.vals[x]
    requires next != Some(id)
    ensures var v := View(ViewOf(pool).holds - {id}, ViewOf(pool).waits - {id});
            ViewOf(pool') == if next.None? then v else View(v.holds + {next.value}, v.waits - {next.value})
  {
    var v := View(ViewOf(pool).holds - {id}, ViewOf(pool).waits - {id});
    var w := if next.None? then v else View(v.holds + {next.value}, v.waits - {next.value});
    assert forall x :: x in ViewOf(pool').holds <==> S.Holds(pool', x);
    assert forall x :: x in ViewOf(pool').waits <==> S.Waits(pool', x);
    assert forall x :: x in ViewOf(pool).holds <==> S.Holds(pool, x);
    assert forall x :: x in ViewOf(pool).waits <==> S.Waits(pool, x);
    assert ViewOf(pool').holds == w.holds;
    assert ViewOf(pool').waits == w.waits;
  }

  lemma ReleaseView(pool: S.State, id: S.Id)
    requires S.Ok(pool)
    ensures var next, v := S.Next(pool, id), View(ViewOf(pool).holds - {id}, ViewOf(pool).waits - {id});
            && (next.Some? ==>
                  next.value in v.waits && next.value !in ViewOf(pool).holds && next.value in pool.pending.vals)
            && ViewOf(S.Release(pool, id)) ==
               if next.None? then v else View(v.holds + {next.value}, v.waits - {next.value})
  {
    S.ReleaseKeepsOk(pool, id);
    var next := S.Next(pool, id);
    if next.Some? { assert S.Waits(pool, next.value) && !S.Holds(pool, next.value); }
    PromotedView(pool, S.Release(pool, id), id, next);
  }

  lemma AcquireAgrees(conns: Conns, pool: S.State, h: Handle, p: PoolName)
    requires S.Ok(pool) && Agrees(conns, ViewOf(pool), p) && IdsDistinct(conns) && Live(conns, h) && p !in conns[h].req
    ensures Agrees(AcquireConns(conns, pool, h, p), ViewOf(S.Acquire(pool, conns[h].id, S.Waiter(conns[h].pid, h))), p)
    ensures S.Allowed(pool, S.AcquireOp(conns[h].id, S.Waiter(conns[h].pid, h)))
    ensures S.Ok(S.Acquire(pool, conns[h].id, S.Waiter(conns[h].pid, h)))
  {
    NotEngaged(conns, ViewOf(pool), h, p);
    S.AcquireKeepsOk(pool, conns[h].id, S.Waiter(conns[h].pid, h));
    AcquireView(pool, conns[h].id, S.Waiter(conns[h].pid, h));
    if S.Free(pool) { GrantAgrees(conns, ViewOf(pool), h, p); } else { WaitAgrees(conns, ViewOf(pool), h, p); }
  }

  lemma ReleaseConnsIs(conns: Conns, pool: S.State, h: Handle, p: PoolName)
    requires S.Ok(pool) && h in conns
    ensures var next := S.Next(pool, conns[h].id);
            ReleaseConns(conns, pool, h, p) ==
            if next.Some? && next.value in ViewOf(pool).waits
              then Tell(Clear(conns, h, p), ViewOf(pool).waits[next.value], p)
            else Clear(conns, h, p)
  {
    ReleaseView(pool, conns[h].id);
  }

  lemma LetGoAgrees(conns: Conns, v: View, h: Handle, p: PoolName, next: Option<S.Id>)
    requires Agrees(conns, v, p) && IdsDistinct(conns) && Live(conns, h) && p in conns[h].req
    requires next.Some? ==> next.value in v.waits && next.value !in v.holds && next.value != conns[h].id
    ensures var v1 := View(v.holds - {conns[h].id}, v.waits - {conns[h].id});
            if next.None? then Agrees(Clear(conns, h, p), v1, p)
            else Agrees(Tell(Clear(conns, h, p), v.waits[next.value], p),
              View(v1.holds + {next.value}, v1.waits - {next.value}), p)
  {
    ClearAgrees(conns, v, h, p);
    if next.Some? {
      SameIds(conns, Clear(conns, h, p));
      PromoteAgrees(Clear(conns, h, p), View(v.holds - {conns[h].id}, v.waits - {conns[h].id}), p, next.value);
    }
  }

  lemma ReleaseAgrees(conns: Conns, pool: S.State, h: Handle, p: PoolName)
    requires S.Ok(pool) && Agrees(conns, ViewOf(pool), p) && IdsDistinct(conns) && Live(conns, h) && p in conns[h].req
    ensures Agrees(ReleaseConns(conns, pool, h, p), ViewOf(S.Release(pool, conns[h].id)), p)
  {
    ReleaseView(pool, conns[h].id);
    ReleaseConnsIs(conns, pool, h, p);
    LetGoAgrees(conns, ViewOf(pool), h, p, S.Next(pool, conns[h].id));
  }

  /** A connection that wants nothing may appear, or close. */
  lemma IdleAgrees(conns: Conns, v: View, h: Handle, c: Conn, p: PoolName)
    requires Agrees(conns, v, p)
    requires h in conns ==> p !in conns[h].req
    requires p !in c.req && p !in c.got
    ensures Agrees(conns[h := c], v, p)
  {
    var conns' := conns[h := c];
    forall g | g in conns' ensures FlagsOk(conns'[g], v, p) { if g != h { assert FlagsOk(conns[g], v, p); } }
    forall id | id in v.holds ensures Owned(conns', p, id) {
      assert Owned(conns, p, id);
      var g :| Owner(conns, p, g, id);
      assert Owner(conns', p, g, id);
    }
    forall id | id in v.waits ensures Owner(conns', p, v.waits[id], id) { assert Owner(conns, p, v.waits[id], id); }
  }

  lemma SameIds(conns: Conns, conns': Conns)
    requires IdsDistinct(conns) && conns.Keys == conns'.Keys
    requires forall g <- conns :: conns[g].id == conns'[g].id && conns[g].closed == conns'[g].closed
    ensures IdsDistinct(conns') && forall g :: Live(conns', g) <==> Live(conns, g)
  {
    forall g, h | Live(conns', g) && Live(conns', h) && conns'[g].id == conns'[h].id ensures g == h {
      assert Live(conns, g) && Live(conns, h);
    }
  }

  /** A connection may close, or appear with an id no live one has. */
  lemma IdleIds(conns: Conns, h: Handle, c: Conn)
    requires IdsDistinct(conns)
    requires !c.closed ==> forall g :: Live(conns, g) ==> g == h || conns[g].id != c.id
    ensures IdsDistinct(conns[h := c])
  {
    var conns' := conns[h := c];
    forall f, g | Live(conns', f) && Live(conns', g) && conns'[f].id == conns'[g].id ensures f == g {
      assert f != h ==> Live(conns, f);
      assert g != h ==> Live(conns, g);
    }
  }

  lemma AcquireKeepsIds(conns: Conns, pool: S.State, h: Handle, p: PoolName)
    requires IdsDistinct(conns) && h in conns
    ensures IdsDistinct(AcquireConns(conns, pool, h, p))
  {
    SameIds(conns, AcquireConns(conns, pool, h, p));
  }

  lemma ReleaseKeepsIds(conns: Conns, pool: S.State, h: Handle, p: PoolName)
    requires IdsDistinct(conns) && h in conns
    ensures IdsDistinct(ReleaseConns(conns, pool, h, p)) && h in ReleaseConns(conns, pool, h, p)
    ensures var c := ReleaseConns(conns, pool, h, p)[h]; c.id == conns[h].id && c.closed == conns[h].closed
  {
    SameIds(conns, ReleaseConns(conns, pool, h, p));
  }

  // ---- the whole daemon

  ghost predicate PoolInv(conns: Conns, pool: S.State, p: PoolName) {
    S.Ok(pool) && Agrees(conns, ViewOf(pool), p)
  }

  ghost predicate Inv(s: State) {
    && PoolInv(s.conns, s.cpp, Cpp) && PoolInv(s.conns, s.compile, Compile) && PoolInv(s.conns, s.local, Local)
    && s.local.pending.order == [] && IdsDistinct(s.conns)
  }

  lemma InvAt(s: State, p: PoolName)
    requires Inv(s)
    ensures PoolInv(s.conns, Get(s, p), p)
  {}

  lemma OtherAgrees(conns: Conns, own: S.State, h: Handle, p: PoolName, pool: S.State, q: PoolName)
    requires h in conns && p != q && PoolInv(conns, pool, q)
    ensures PoolInv(AcquireConns(conns, own, h, p), pool, q) && PoolInv(ReleaseConns(conns, own, h, p), pool, q)
  {
    OtherAcquires(conns, own, h, p, q);
    OtherReleases(conns, own, h, p, q);
    Frame(conns, AcquireConns(conns, own, h, p), ViewOf(pool), q);
    Frame(conns, ReleaseConns(conns, own, h, p), ViewOf(pool), q);
  }

  lemma AcquireInKeeps(s: State, h: Handle, p: PoolName)
    requires Inv(s) && Live(s.conns, h) && p !in s.conns[h].req && p != Local
    ensures Inv(AcquireIn(s, h, p))
    ensures S.Allowed(Get(s, p), S.AcquireOp(s.conns[h].id, S.Waiter(s.conns[h].pid, h)))
  {
    var own := Get(s, p);
    AcquireKeepsIds(s.conns, own, h, p);
    AcquireAgrees(s.conns, own, h, p);
    if p != Cpp { OtherAgrees(s.conns, own, h, p, s.cpp, Cpp); }
    if p != Compile { OtherAgrees(s.conns, own, h, p, s.compile, Compile); }
    OtherAgrees(s.conns, own, h, p, s.local, Local);
  }

  lemma ReleaseInKeeps(s: State, h: Handle, p: PoolName)
    requires Inv(s) && Live(s.conns, h) && p in s.conns[h].req
    ensures Inv(ReleaseIn(s, h, p))
    ensures Live(ReleaseIn(s, h, p).conns, h)
    ensures ReleaseIn(s, h, p).conns[h].id == s.conns[h].id
  {
    var own := Get(s, p);
    ReleaseKeepsIds(s.conns, own, h, p);
    ReleaseAgrees(s.conns, own, h, p);
    S.ReleaseKeepsOk(own, s.conns[h].id);
    if p != Cpp { OtherAgrees(s.conns, own, h, p, s.cpp, Cpp); }
    if p != Compile { OtherAgrees(s.conns, own, h, p, s.compile, Compile); }
    if p != Local { OtherAgrees(s.conns, own, h, p, s.local, Local); }
  }

  /** After a release the flag is down, and the other flags of the connection are as they were. */
  lemma ReleaseInFlags(s: State, h: Handle, p: PoolName)
    requires h in s.conns
    ensures h in ReleaseIn(s, h, p).conns && ReleaseIn(s, h, p).conns[h].req == s.conns[h].req - {p}
  {}

  lemma TryAgrees(conns: Conns, pool: S.State, h: Handle, p: PoolName)
    requires PoolInv(conns, pool, p) && IdsDistinct(conns) && Live(conns, h) && S.Free(pool)
    ensures PoolInv(Tell(Ask(conns, h, p), h, p), S.TryAcquire(pool, conns[h].id, conns[h].pid), p)
    ensures S.Allowed(pool, S.TryOp(conns[h].id, conns[h].pid))
  {
    assert !S.Waits(pool, conns[h].id) by { assert conns[h].id !in pool.pending.order; }
    S.TryAcquireKeepsOk(pool, conns[h].id, conns[h].pid);
    GrantAgrees(conns, ViewOf(pool), h, p);
    assert ViewOf(S.TryAcquire(pool, conns[h].id, conns[h].pid)) ==
           View(ViewOf(pool).holds + {conns[h].id}, ViewOf(pool).waits);
  }

  lemma OtherTryAgrees(conns: Conns, h: Handle, p: PoolName, pool: S.State, q: PoolName)
    requires h in conns && p != q && PoolInv(conns, pool, q)
    ensures PoolInv(Tell(Ask(conns, h, p), h, p), pool, q)
  {
    Frame(conns, Tell(Ask(conns, h, p), h, p), ViewOf(pool), q);
  }

  lemma FoundKeeps(s: State, h: Handle, localAllowed: bool)
    requires Inv(s) && Live(s.conns, h)
    ensures Inv(Found(s, h, localAllowed))
  {
    if localAllowed && S.Free(s.local) {
      TryAgrees(s.conns, s.local, h, Local);
      OtherTryAgrees(s.conns, h, Local, s.cpp, Cpp);
      OtherTryAgrees(s.conns, h, Local, s.compile, Compile);
      SameIds(s.conns, Tell(Ask(s.conns, h, Local), h, Local));
    } else if Cpp !in s.conns[h].req {
      AcquireInKeeps(s, h, Cpp);
    }
  }

  lemma LookupsAgree(conns: Conns, pool: S.State, p: PoolName, h: Handle, n: nat)
    requires PoolInv(conns, pool, p) && h in conns
    ensures PoolInv(conns[h := conns[h].(lookups := n)], pool, p)
  {
    Frame(conns, conns[h := conns[h].(lookups := n)], ViewOf(pool), p);
  }

  lemma LookupsKeep(s: State, h: Handle, n: nat)
    requires Inv(s) && h in s.conns
    ensures Inv(WithLookups(s, h, n))
  {
    LookupsAgree(s.conns, s.cpp, Cpp, h, n);
    LookupsAgree(s.conns, s.compile, Compile, h, n);
    LookupsAgree(s.conns, s.local, Local, h, n);
    SameIds(s.conns, s.conns[h := s.conns[h].(lookups := n)]);
  }

  lemma ReleaseIfHeldKeeps(s: State, h: Handle, p: PoolName)
    requires Inv(s) && Live(s.conns, h)
    ensures var s' := ReleaseIfHeld(s, h, p);
            Inv(s') && Live(s'.conns, h) && s'.conns[h].req == s.conns[h].req - {p} && s'.conns[h].id == s.conns[h].id
  {
    if p in s.conns[h].req {
      ReleaseInKeeps(s, h, p);
      ReleaseInFlags(s, h, p);
    }
  }

  lemma CloseKeeps(s: State, h: Handle)
    requires Inv(s) && h in s.conns
    ensures Inv(Close(s, h))
  {
    if s.conns[h].closed {
      AlreadyClosed(s, h);
    } else {
      ReleaseIfHeldKeeps(s, h, Cpp);
      var s1 := ReleaseIfHeld(s, h, Cpp);
      ReleaseIfHeldKeeps(s1, h, Compile);
      var s2 := ReleaseIfHeld(s1, h, Compile);
      ReleaseIfHeldKeeps(s2, h, Local);
      MarkClosed(ReleaseAll(s, h), h);
    }
  }

  lemma ClosedFlags(conns: Conns, pool: S.State, h: Handle, p: PoolName)
    requires PoolInv(conns, pool, p) && h in conns && conns[h].closed
    ensures p !in conns[h].req && p !in conns[h].got
  {
    assert FlagsOk(conns[h], ViewOf(pool), p);
  }

  /** An error after an end, or the reverse, changes nothing. */
  lemma AlreadyClosed(s: State, h: Handle)
    requires Inv(s) && h in s.conns && s.conns[h].closed
    ensures Close(s, h) == s
  {
    ClosedFlags(s.conns, s.cpp, h, Cpp);
    ClosedFlags(s.conns, s.compile, h, Compile);
    ClosedFlags(s.conns, s.local, h, Local);
    assert ReleaseAll(s, h) == s;
    assert s.conns[h := s.conns[h].(closed := true)] == s.conns;
  }

  lemma MarkClosed(s: State, h: Handle)
    requires Inv(s) && h in s.conns && Cpp !in s.conns[h].req && Compile !in s.conns[h].req && Local !in s.conns[h].req
    ensures Inv(s.(conns := s.conns[h := s.conns[h].(closed := true)]))
  {
    var c := s.conns[h].(closed := true);
    assert FlagsOk(s.conns[h], ViewOf(s.cpp), Cpp) && FlagsOk(s.conns[h], ViewOf(s.compile), Compile)
           && FlagsOk(s.conns[h], ViewOf(s.local), Local);
    IdleIds(s.conns, h, c);
    IdleAgrees(s.conns, ViewOf(s.cpp), h, c, Cpp);
    IdleAgrees(s.conns, ViewOf(s.compile), h, c, Compile);
    IdleAgrees(s.conns, ViewOf(s.local), h, c, Local);
  }

  lemma ConnectKeeps(s: State, h: Handle, id: S.Id, pid: S.Pid)
    requires Inv(s) && Enabled(s, ConnectEvent(h, id, pid))
    ensures Inv(Step(s, ConnectEvent(h, id, pid)))
  {
    var c := Conn(id, pid, {}, {}, false, 0);
    IdleIds(s.conns, h, c);
    IdleAgrees(s.conns, ViewOf(s.cpp), h, c, Cpp);
    IdleAgrees(s.conns, ViewOf(s.compile), h, c, Compile);
    IdleAgrees(s.conns, ViewOf(s.local), h, c, Local);
  }

  lemma LookupKeeps(s: State, h: Handle, localAllowed: bool)
    requires Inv(s) && h in s.conns && s.conns[h].lookups > 0
    ensures Inv(LookupDone(s, h, localAllowed))
  {
    var after := LookupCounted(s, h, s.conns[h].lookups - 1);
    SettledKeeps(s, after, h, localAllowed);
  }

  lemma LookupCounted(s: State, h: Handle, n: nat) returns (after: State)
    requires Inv(s) && h in s.conns
    ensures Inv(after) && after == WithLookups(s, h, n)
  {
    LookupsKeep(s, h, n);
    after := WithLookups(s, h, n);
  }

  lemma SettledKeeps(s: State, after: State, h: Handle, localAllowed: bool)
    requires h in s.conns && s.conns[h].lookups > 0 && after == WithLookups(s, h, s.conns[h].lookups - 1) && Inv(after)
    ensures Inv(LookupDone(s, h, localAllowed))
  {
    if !after.conns[h].closed { FoundKeeps(after, h, localAllowed); }
  }

  /** Asking for a slot and letting go of one. */
  lemma SlotStepKeepsInv(s: State, e: Event)
    requires Inv(s) && Enabled(s, e) && (e.AcquireEvent? || e.ReleaseEvent?)
    ensures Inv(Step(s, e))
  {
    match e
    case AcquireEvent(h, p) => AcquireInKeeps(s, h, p);
    case ReleaseEvent(h, p) => ReleaseInKeeps(s, h, p);
  }

  lemma LookupStepKeepsInv(s: State, e: Event)
    requires Inv(s) && Enabled(s, e) && (e.AcquireSlotEvent? || e.LookupEvent?)
    ensures Inv(Step(s, e))
  {
    match e
    case AcquireSlotEvent(h) => LookupsKeep(s, h, s.conns[h].lookups + 1);
    case LookupEvent(h, localAllowed) => LookupKeeps(s, h, localAllowed);
  }

  /** Opening and closing a connection. */
  lemma ConnectionStepKeepsInv(s: State, e: Event)
    requires Inv(s) && Enabled(s, e) && (e.ConnectEvent? || e.CloseEvent?)
    ensures Inv(Step(s, e))
  {
    match e
    case ConnectEvent(h, id, pid) => ConnectKeeps(s, h, id, pid);
    case CloseEvent(h) => CloseKeeps(s, h);
  }

  lemma StepKeepsInv(s: State, e: Event)
    requires Inv(s) && Enabled(s, e)
    ensures Inv(Step(s, e))
  {
    if e.AcquireEvent? || e.ReleaseEvent? {
      SlotStepKeepsInv(s, e);
    } else if e.AcquireSlotEvent? || e.LookupEvent? {
      LookupStepKeepsInv(s, e);
    } else {
      ConnectionStepKeepsInv(s, e);
    }
  }

  // ---- what one step does to one pool

  ghost predicate OneOp(pool: S.State, pool': S.State, op: Option<S.Op>) {
    if op.None? then pool' == pool else S.Allowed(pool, op.value) && pool' == S.Apply(pool, op.value)
  }

  lemma ReleaseIfHeldIs(s: State, h: Handle, q: PoolName, p: PoolName)
    requires h in s.conns
    ensures Get(ReleaseIfHeld(s, h, q), p) ==
            if q in s.conns[h].req && p == q then S.Release(Get(s, p), s.conns[h].id) else Get(s, p)
    ensures var s' := ReleaseIfHeld(s, h, q);
            h in s'.conns && s'.conns[h].req == s.conns[h].req - {q} && s'.conns[h].id == s.conns[h].id
  {}

  lemma ReleaseAllIs(s: State, h: Handle, p: PoolName)
    requires h in s.conns
    ensures Get(ReleaseAll(s, h), p) == if p in s.conns[h].req then S.Release(Get(s, p), s.conns[h].id) else Get(s, p)
  {
    ReleaseIfHeldIs(s, h, Cpp, p);
    var s1 := ReleaseIfHeld(s, h, Cpp);
    ReleaseIfHeldIs(s1, h, Compile, p);
    var s2 := ReleaseIfHeld(s1, h, Compile);
    ReleaseIfHeldIs(s2, h, Local, p);
  }

  lemma CloseIsOneOp(s: State, h: Handle, p: PoolName) returns (op: Option<S.Op>)
    requires h in s.conns
    ensures OneOp(Get(s, p), Get(Close(s, h), p), op)
  {
    ReleaseAllIs(s, h, p);
    op := if p in s.conns[h].req then Some(S.ReleaseOp(s.conns[h].id)) else None;
  }

  /** Each event is at most one permitted operation of each pool: what Slots promises, every run of the daemon has. */
  lemma StepIsOneOp(s: State, e: Event, p: PoolName) returns (op: Option<S.Op>)
    requires Inv(s) && Enabled(s, e)
    ensures OneOp(Get(s, p), Get(Step(s, e), p), op)
  {
    op := None;
    match e
    case ConnectEvent(_, _, _) =>
    case AcquireEvent(h, q) =>
      if p == q {
        AcquireInKeeps(s, h, q);
        op := Some(S.AcquireOp(s.conns[h].id, S.Waiter(s.conns[h].pid, h)));
      }
    case ReleaseEvent(h, q) =>
      if p == q { op := Some(S.ReleaseOp(s.conns[h].id)); }
    case AcquireSlotEvent(_) =>
    case LookupEvent(h, localAllowed) =>
      var c := s.conns[h];
      if !c.closed && localAllowed && S.Free(s.local) {
        if p == Local {
          TryAgrees(s.conns, s.local, h, Local);
          op := Some(S.TryOp(c.id, c.pid));
        }
      } else if !c.closed && Cpp !in c.req && p == Cpp {
        AcquireInKeeps(s, h, Cpp);
        op := Some(S.AcquireOp(c.id, S.Waiter(c.pid, h)));
      }
    case CloseEvent(h) => op := CloseIsOneOp(s, h, p);
  }

  // ---- runs

  ghost predicate Next(s: State, e: Event, s': State) { Enabled(s, e) && s' == Step(s, e) }

  ghost predicate Run(states: seq<State>, events: seq<Event>) {
    && |states| == |events| + 1
    && (exists cpp, compile, local :: states[0] == Initial(cpp, compile, local))
    && forall i :: 0 <= i < |events| ==> Next(states[i], events[i], states[i + 1])
  }

  lemma NextKeepsInv(s: State, e: Event, s': State)
    requires Inv(s) && Next(s, e, s')
    ensures Inv(s')
  {
    StepKeepsInv(s, e);
  }

  lemma {:induction false} RunKeepsInv(states: seq<State>, events: seq<Event>, n: nat)
    requires Run(states, events) && n <= |events|
    ensures Inv(states[n])
  {
    if n > 0 {
      RunKeepsInv(states, events, n - 1);
      NextKeepsInv(states[n - 1], events[n - 1], states[n - 1 + 1]);
    } else {
      InitialInv(states[0]);
    }
  }

  lemma InitialInv(s: State)
    requires exists cpp, compile, local :: s == Initial(cpp, compile, local)
    ensures Inv(s)
  {}

  /** In every reachable state: no pool is overfull, nobody waits while a slot is free, nobody both holds and
      waits, and every holder or waiter is a live connection that asked and has not let go. */
  lemma ReachableSlots(states: seq<State>, events: seq<Event>, n: nat, p: PoolName, id: S.Id)
    requires Run(states, events) && n <= |events|
    ensures var pool := Get(states[n], p);
            && (|pool.used| <= pool.count || pool.used == map[])
            && (pool.pending.order != [] ==> |pool.used| >= pool.count)
            && !(S.Holds(pool, id) && S.Waits(pool, id))
            && (Engaged(ViewOf(pool), id) ==> Owned(states[n].conns, p, id))
  {
    RunKeepsInv(states, events, n);
    InvAt(states[n], p);
  }

  /** A closed connection holds and awaits nothing, and a lookup of its that settles later takes nothing. */
  lemma ClosedTakesNothing(states: seq<State>, events: seq<Event>, n: nat, h: Handle, p: PoolName, localAllowed: bool)
    requires Run(states, events) && n <= |events| && h in states[n].conns && states[n].conns[h].closed
    ensures p !in states[n].conns[h].req && p !in states[n].conns[h].got
    ensures forall id <- Get(states[n], p).pending.vals :: Get(states[n], p).pending.vals[id].owner != h
    ensures Get(Step(states[n], LookupEvent(h, localAllowed)), p) == Get(states[n], p)
  {
    RunKeepsInv(states, events, n);
    var conns, pool := states[n].conns, Get(states[n], p);
    InvAt(states[n], p);
    assert FlagsOk(conns[h], ViewOf(pool), p);
    forall id | id in pool.pending.vals ensures pool.pending.vals[id].owner != h {
      assert Owner(conns, p, ViewOf(pool).waits[id], id);
    }
  }

  /** A connection has been told of a slot exactly while it holds one. */
  lemma ToldIffHolds(states: seq<State>, events: seq<Event>, n: nat, h: Handle, p: PoolName)
    requires Run(states, events) && n <= |events| && Live(states[n].conns, h)
    ensures p in states[n].conns[h].got <==> S.Holds(Get(states[n], p), states[n].conns[h].id)
  {
    RunKeepsInv(states, events, n);
    var conns, pool, id := states[n].conns, Get(states[n], p), states[n].conns[h].id;
    InvAt(states[n], p);
    assert FlagsOk(conns[h], ViewOf(pool), p);
    if S.Holds(pool, id) {
      assert Engaged(ViewOf(pool), id) && Owned(conns, p, id);
      var g :| Owner(conns, p, g, id);
      assert g == h;
    }
  }

  ghost predicate BothEngaged(s: State, p: PoolName, a: S.Id, b: S.Id) {
    Engaged(ViewOf(Get(s, p)), a) && Engaged(ViewOf(Get(s, p)), b)
  }

  ghost predicate FirstAhead(s: State, p: PoolName, a: S.Id, b: S.Id) {
    S.Before(Get(s, p).pending.order, a, b) || S.Holds(Get(s, p), a)
  }

  lemma {:induction false} OrderKept(states: seq<State>, events: seq<Event>, m: nat, n: nat, p: PoolName, a: S.Id,
      b: S.Id)
    requires Run(states, events) && m <= n <= |events| && FirstAhead(states[m], p, a, b)
    requires forall i :: m <= i <= n ==> BothEngaged(states[i], p, a, b)
    ensures FirstAhead(states[n], p, a, b)
  {
    if m < n {
      OrderKept(states, events, m, n - 1, p, a, b);
      OrderKeptOnce(states, events, n - 1, n, p, a, b);
    }
  }

  lemma OrderKeptOnce(states: seq<State>, events: seq<Event>, k: nat, n: nat, p: PoolName, a: S.Id, b: S.Id)
    requires Run(states, events) && k < |events| && n == k + 1 && FirstAhead(states[k], p, a, b)
             && BothEngaged(states[n], p, a, b)
    ensures FirstAhead(states[n], p, a, b)
  {
    RunKeepsInv(states, events, k);
    assert Next(states[k], events[k], states[k + 1]);
    NextKeepsOrder(states[k], events[k], states[n], p, a, b);
  }

  /** First come, first served, over every run: while both stay, whoever asked second is not granted a slot first. */
  lemma GrantsInOrder(states: seq<State>, events: seq<Event>, m: nat, n: nat, p: PoolName, a: S.Id, b: S.Id)
    requires Run(states, events) && m <= n <= |events|
    requires S.Before(Get(states[m], p).pending.order, a, b)
    requires forall i :: m <= i <= n ==> BothEngaged(states[i], p, a, b)
    ensures S.Holds(Get(states[n], p), b) ==> S.Holds(Get(states[n], p), a)
  {
    OrderKept(states, events, m, n, p, a, b);
    RunKeepsInv(states, events, n);
    InvAt(states[n], p);
    WaitersDoNotHold(Get(states[n], p), a, b);
  }

  lemma NextKeepsOrder(s: State, e: Event, s': State, p: PoolName, a: S.Id, b: S.Id)
    requires Inv(s) && Next(s, e, s') && BothEngaged(s', p, a, b) && FirstAhead(s, p, a, b)
    ensures FirstAhead(s', p, a, b)
  {
    InvAt(s, p);
    var op := StepIsOneOp(s, e, p);
    OneOpKeepsOrder(Get(s, p), Get(s', p), op, a, b);
  }

  lemma OneOpKeepsOrder(pool: S.State, pool': S.State, op: Option<S.Op>, a: S.Id, b: S.Id)
    requires S.Ok(pool) && OneOp(pool, pool', op) && Engaged(ViewOf(pool'), a) && Engaged(ViewOf(pool'), b)
    requires S.Before(pool.pending.order, a, b) || S.Holds(pool, a)
    ensures S.Before(pool'.pending.order, a, b) || S.Holds(pool', a)
  {
    if op.Some? {
      if op.value.ReleaseOp? { S.ReleaseKeepsOk(pool, op.value.id); }
      if S.Before(pool.pending.order, a, b) { S.NoOvertakingStep(pool, op.value, a, b); }
      else { S.HolderKeeps(pool, op.value, a); }
    }
  }

  lemma WaitersDoNotHold(pool: S.State, a: S.Id, b: S.Id)
    requires S.Ok(pool)
    ensures S.Before(pool.pending.order, a, b) ==> !S.Holds(pool, b)
  {
    if S.Before(pool.pending.order, a, b) {
      assert b in pool.pending.order;
      assert S.Waits(pool, b);
    }
  }

  // ---- what each event gives and takes

  /** The one who asked holds a slot and has been told if one was free, and is last in line otherwise. */
  ghost predicate HoldsOrWaitsLast(pool: S.State, pool': S.State, h: Handle, c: Conn, c': Conn, p: PoolName) {
    && c'.id == c.id && c'.closed == c.closed && c'.req == c.req + {p}
    && if |pool.used| < pool.count then
         && pool' == pool.(used := pool.used[c.id := c.pid], totalAcquired := pool.totalAcquired + 1)
         && c'.got == c.got + {p}
       else
         && c.id !in pool.pending.order
         && pool' == pool.(pending := JsMap(pool.pending.order + [c.id],
                                            pool.pending.vals[c.id := S.Waiter(c.pid, h)]))
         && c'.got == c.got
  }

  ghost predicate OthersSame(conns: Conns, conns': Conns, h: Handle) {
    conns'.Keys == conns.Keys && forall g <- conns :: g != h ==> conns'[g] == conns[g]
  }

  lemma WaitsLast(s: State, h: Handle, p: PoolName)
    requires Inv(s) && Live(s.conns, h) && p !in s.conns[h].req
    ensures s.conns[h].id !in Get(s, p).pending.order
  {
    InvAt(s, p);
    NotEngaged(s.conns, ViewOf(Get(s, p)), h, p);
  }

  lemma NextAt(states: seq<State>, events: seq<Event>, n: nat, m: nat)
    requires Run(states, events) && n < |events| && m == n + 1
    ensures Inv(states[n]) && Enabled(states[n], events[n]) && states[m] == Step(states[n], events[n])
  {
    RunKeepsInv(states, events, n);
    assert Next(states[n], events[n], states[n + 1]);
  }

  /** Whoever asks for a cpp or compile slot has it and has been told, or is last in that line. */
  lemma AskedIsServed(states: seq<State>, events: seq<Event>, n: nat, h: Handle)
    requires Run(states, events) && n < |events| && h in states[n].conns && h in states[n + 1].conns
    ensures var s, s' := states[n], states[n + 1];
            && (events[n] == AcquireEvent(h, Cpp) ==>
                  && HoldsOrWaitsLast(s.cpp, s'.cpp, h, s.conns[h], s'.conns[h], Cpp)
                  && s'.compile == s.compile && s'.local == s.local && OthersSame(s.conns, s'.conns, h))
            && (events[n] == AcquireEvent(h, Compile) ==>
                  && HoldsOrWaitsLast(s.compile, s'.compile, h, s.conns[h], s'.conns[h], Compile)
                  && s'.cpp == s.cpp && s'.local == s.local && OthersSame(s.conns, s'.conns, h))
  {
    NextAt(states, events, n, n + 1);
    if events[n] == AcquireEvent(h, Cpp) { WaitsLast(states[n], h, Cpp); }
    if events[n] == AcquireEvent(h, Compile) { WaitsLast(states[n], h, Compile); }
  }

  /** When the lookup settles, a live connection has a local slot if it may and one is free; otherwise a cpp slot or
      the last place in the cpp line, unless it has asked for a cpp slot before. A closed one takes nothing. */
  ghost predicate LookupServed(s: State, s': State, h: Handle, localAllowed: bool)
    requires h in s.conns && h in s'.conns
  {
    var c, c' := s.conns[h], s'.conns[h];
    && c.lookups > 0 && c'.lookups == c.lookups - 1
    && s'.compile == s.compile && OthersSame(s.conns, s'.conns, h)
    && if c.closed || (!(localAllowed && |s.local.used| < s.local.count) && Cpp in c.req) then
         s'.cpp == s.cpp && s'.local == s.local && c' == c.(lookups := c.lookups - 1)
       else if localAllowed && |s.local.used| < s.local.count then
         && s'.cpp == s.cpp && HoldsOrWaitsLast(s.local, s'.local, h, c, c', Local)
       else
         && s'.local == s.local && HoldsOrWaitsLast(s.cpp, s'.cpp, h, c, c', Cpp)
  }

  lemma LookedUpIsServed(states: seq<State>, events: seq<Event>, n: nat, h: Handle, localAllowed: bool)
    requires Run(states, events) && n < |events| && events[n] == LookupEvent(h, localAllowed)
    ensures h in states[n].conns && h in states[n + 1].conns
    ensures LookupServed(states[n], states[n + 1], h, localAllowed)
  {
    NextAt(states, events, n, n + 1);
    LookupServes(states[n], h, localAllowed);
  }

  lemma LookupServes(s: State, h: Handle, localAllowed: bool)
    requires Inv(s) && h in s.conns && s.conns[h].lookups > 0
    ensures h in LookupDone(s, h, localAllowed).conns
    ensures LookupServed(s, LookupDone(s, h, localAllowed), h, localAllowed)
  {
    var c := s.conns[h];
    if !c.closed && localAllowed && |s.local.used| < s.local.count {
      LookupServesLocal(s, h);
    } else if !c.closed && Cpp !in c.req {
      LookupServesCpp(s, h, localAllowed);
    }
  }

  lemma LookupServesLocal(s: State, h: Handle)
    requires Inv(s) && Live(s.conns, h) && s.conns[h].lookups > 0 && |s.local.used| < s.local.count
    ensures h in LookupDone(s, h, true).conns && LookupServed(s, LookupDone(s, h, true), h, true)
  {}

  lemma LookupServesCpp(s: State, h: Handle, localAllowed: bool)
    requires Inv(s) && Live(s.conns, h) && s.conns[h].lookups > 0 && Cpp !in s.conns[h].req
    requires !(localAllowed && |s.local.used| < s.local.count)
    ensures h in LookupDone(s, h, localAllowed).conns
    ensures LookupServed(s, LookupDone(s, h, localAllowed), h, localAllowed)
  {
    WaitsLast(s, h, Cpp);
  }

  /** Whoever lets go neither holds nor waits; if it held, whoever waited longest holds ... */
  ghost predicate NextHolds(pool: S.State, pool': S.State, id: S.Id) {
    && pool'.count == pool.count
    && if id in pool.used && pool.pending.order != [] then
         var first := pool.pending.order[0];
         && first in pool.pending.vals
         && pool'.used == (pool.used - {id})[first := pool.pending.vals[first].pid]
         && pool'.pending == JsMap(pool.pending.order[1..], pool.pending.vals - {first})
         && pool'.totalAcquired == pool.totalAcquired + 1
       else
         && pool'.used == pool.used - {id} && pool'.totalAcquired == pool.totalAcquired
         && if id in pool.pending.order then OutOfLine(pool.pending, pool'.pending, id)
            else pool'.pending == pool.pending
  }

  /** ... and its connection is told. */
  ghost predicate LetGo(pool: S.State, pool': S.State, conns: Conns, conns': Conns, h: Handle, p: PoolName)
    requires h in conns && h in conns'
  {
    && NextHolds(pool, pool', conns[h].id)
    && p !in conns'[h].req && p !in conns'[h].got
    && if conns[h].id in pool.used && pool.pending.order != [] then
         && pool.pending.order[0] in pool.pending.vals
         && GotOnly(conns, conns', h, p, Some(pool.pending.vals[pool.pending.order[0]].owner))
       else GotOnly(conns, conns', h, p, None)
  }

  ghost predicate OutOfLine(line: JsMap<S.Id, S.Waiter>, line': JsMap<S.Id, S.Waiter>, id: S.Id) {
    && (exists i ::
          0 <= i < |line.order| && line.order[i] == id && line'.order == line.order[..i] + line.order[i + 1..])
    && line'.vals == line.vals - {id}
  }

  /** Apart from h's, the flags of one pool are as they were, and only one connection, if any, is told of a slot. */
  ghost predicate GotOnly(conns: Conns, conns': Conns, h: Handle, p: PoolName, told: Option<Handle>) {
    && conns'.Keys == conns.Keys
    && forall g <- conns :: g != h ==>
         && conns'[g].id == conns[g].id && conns'[g].closed == conns[g].closed
         && (p in conns'[g].req <==> p in conns[g].req)
         && (p in conns'[g].got <==> p in conns[g].got || told == Some(g))
  }

  lemma RemoveIsOutOfLine(line: JsMap<S.Id, S.Waiter>, id: S.Id)
    requires line.Wf()
    ensures if id in line.order then OutOfLine(line, line.Delete(id), id) else line.Delete(id) == line
  {
    if id in line.order {
      var i := FirstOccurrence(line.order, id);
      assert line.order == line.order[..i] + [id] + line.order[i + 1..];
      RemoveSplit(line.order[..i], id, line.order[i + 1..]);
    } else {
      line.DeleteWf(id);
    }
  }

  lemma FirstLeavesLine(line: JsMap<S.Id, S.Waiter>)
    requires line.order != []
    ensures line.Delete(line.order[0]) == JsMap(line.order[1..], line.vals - {line.order[0]})
  {}

  lemma NextOneHolds(pool: S.State, id: S.Id)
    requires S.Ok(pool)
    ensures NextHolds(pool, S.Release(pool, id), id)
  {
    S.ReleaseCases(pool, id);
    RemoveIsOutOfLine(pool.pending, id);
    if id in pool.used && pool.pending.order != [] { FirstLeavesLine(pool.pending); }
  }

  /** Who is told when h lets go. */
  lemma NextIsFirst(pool: S.State, id: S.Id)
    requires S.Ok(pool)
    ensures S.Next(pool, id) ==
            if id in pool.used && pool.pending.order != [] then Some(pool.pending.order[0]) else None
    ensures pool.pending.order != [] ==> pool.pending.order[0] in pool.pending.vals
  {
    S.ReleaseCases(pool, id);
    RemoveIsOutOfLine(pool.pending, id);
    if pool.pending.order != [] { assert pool.pending.order[0] in pool.pending.order; }
  }

  lemma TellsOnly(conns: Conns, h: Handle, p: PoolName, told: Option<Handle>, after: Conns)
    requires h in conns && (told.Some? ==> told.value in conns && told.value != h)
    requires after == if told.Some? then Tell(Clear(conns, h, p), told.value, p) else Clear(conns, h, p)
    ensures h in after && p !in after[h].req && p !in after[h].got && GotOnly(conns, after, h, p, told)
  {}

  lemma TellsTheFirst(conns: Conns, pool: S.State, h: Handle, p: PoolName)
    requires PoolInv(conns, pool, p) && Live(conns, h)
    ensures var id, conns' := conns[h].id, ReleaseConns(conns, pool, h, p);
            && h in conns' && p !in conns'[h].req && p !in conns'[h].got
            && if id in pool.used && pool.pending.order != [] then
                 && pool.pending.order[0] in pool.pending.vals
                 && GotOnly(conns, conns', h, p, Some(pool.pending.vals[pool.pending.order[0]].owner))
               else GotOnly(conns, conns', h, p, None)
  {
    var id := conns[h].id;
    NextIsFirst(pool, id);
    if id in pool.used && pool.pending.order != [] {
      FirstIsAnother(conns, pool, h, p);
      TellsOnly(conns, h, p, Some(pool.pending.vals[pool.pending.order[0]].owner), ReleaseConns(conns, pool, h, p));
    } else {
      TellsOnly(conns, h, p, None, ReleaseConns(conns, pool, h, p));
    }
  }

  lemma FirstIsAnother(conns: Conns, pool: S.State, h: Handle, p: PoolName)
    requires PoolInv(conns, pool, p) && Live(conns, h) && conns[h].id in pool.used && pool.pending.order != []
    ensures pool.pending.order[0] in pool.pending.vals
    ensures var g := pool.pending.vals[pool.pending.order[0]].owner; g in conns && g != h
  {
    var first := pool.pending.order[0];
    assert first in pool.pending.order;
    assert Owner(conns, p, ViewOf(pool).waits[first], first);
  }

  lemma ReleaseInIs(s: State, h: Handle, p: PoolName)
    requires h in s.conns
    ensures var s' := ReleaseIn(s, h, p);
            && Get(s', p) == S.Release(Get(s, p), s.conns[h].id) && s'.conns == ReleaseConns(s.conns, Get(s, p), h, p)
            && forall q :: q != p ==> Get(s', q) == Get(s, q)
  {}

  lemma LetsGo(s: State, h: Handle, p: PoolName)
    requires Inv(s) && Live(s.conns, h) && p in s.conns[h].req
    ensures h in ReleaseIn(s, h, p).conns
    ensures LetGo(Get(s, p), Get(ReleaseIn(s, h, p), p), s.conns, ReleaseIn(s, h, p).conns, h, p)
  {
    InvAt(s, p);
    ReleaseInIs(s, h, p);
    NextOneHolds(Get(s, p), s.conns[h].id);
    TellsTheFirst(s.conns, Get(s, p), h, p);
  }

  /** Seen from pool p nothing has happened, except that h may have closed. */
  ghost predicate Level(conns: Conns, conns': Conns, h: Handle, p: PoolName) {
    && GotOnly(conns, conns', h, p, None) && h in conns && h in conns' && conns'[h].id == conns[h].id
    && (p in conns'[h].req <==> p in conns[h].req) && (p in conns'[h].got <==> p in conns[h].got)
  }

  ghost predicate LetGoIfAsked(pool: S.State, pool': S.State, conns: Conns, conns': Conns, h: Handle, p: PoolName) {
    && h in conns && h in conns'
    && if p in conns[h].req then LetGo(pool, pool', conns, conns', h, p)
       else pool' == pool && Level(conns, conns', h, p)
  }

  lemma LevelThenLetGo(pool: S.State, pool': S.State, conns: Conns, c1: Conns, c2: Conns, h: Handle, p: PoolName)
    requires Level(conns, c1, h, p) && LetGoIfAsked(pool, pool', c1, c2, h, p)
    ensures LetGoIfAsked(pool, pool', conns, c2, h, p)
  {}

  lemma LetGoThenLevel(pool: S.State, pool': S.State, conns: Conns, c1: Conns, c2: Conns, h: Handle, p: PoolName)
    requires LetGoIfAsked(pool, pool', conns, c1, h, p) && Level(c1, c2, h, p)
    ensures LetGoIfAsked(pool, pool', conns, c2, h, p)
  {}

  lemma LevelTwice(conns: Conns, c1: Conns, c2: Conns, h: Handle, p: PoolName)
    requires Level(conns, c1, h, p) && Level(c1, c2, h, p)
    ensures Level(conns, c2, h, p)
  {}

  /** What one clause of the close handlers does, seen from the pool it is about and from the others. */
  lemma ClauseLetsGo(s: State, h: Handle, p: PoolName)
    requires Inv(s) && Live(s.conns, h)
    ensures var s' := ReleaseIfHeld(s, h, p);
            && Inv(s') && Live(s'.conns, h)
            && LetGoIfAsked(Get(s, p), Get(s', p), s.conns, s'.conns, h, p)
            && forall q :: q != p ==> Get(s', q) == Get(s, q) && Level(s.conns, s'.conns, h, q)
  {
    ReleaseIfHeldKeeps(s, h, p);
    if p in s.conns[h].req {
      LetsGo(s, h, p);
      ReleaseInIs(s, h, p);
      forall q | q != p ensures Level(s.conns, ReleaseIn(s, h, p).conns, h, q) {
        OtherReleases(s.conns, Get(s, p), h, p, q);
      }
    }
  }

  lemma ClosesLetGo(s: State, h: Handle)
    requires Inv(s) && Live(s.conns, h)
    ensures var s' := Close(s, h);
            && LetGoIfAsked(s.cpp, s'.cpp, s.conns, s'.conns, h, Cpp)
            && LetGoIfAsked(s.compile, s'.compile, s.conns, s'.conns, h, Compile)
            && LetGoIfAsked(s.local, s'.local, s.conns, s'.conns, h, Local)
  {
    ClauseLetsGo(s, h, Cpp);
    var s1 := ReleaseIfHeld(s, h, Cpp);
    ClauseLetsGo(s1, h, Compile);
    var s2 := ReleaseIfHeld(s1, h, Compile);
    ClauseLetsGo(s2, h, Local);
    var s3, s' := ReleaseIfHeld(s2, h, Local), Close(s, h);
    ClosesLevel(s3.conns, h);
    CppThenOthers(s, s1, s2, s3, s', h);
    CompileBetween(s, s1, s2, s3, s', h);
    LocalLast(s, s1, s2, s3, s', h);
  }

  lemma ClosesLevel(conns: Conns, h: Handle)
    requires h in conns
    ensures forall p: PoolName {:trigger Level(conns, conns[h := conns[h].(closed := true)], h, p)} ::
              Level(conns, conns[h := conns[h].(closed := true)], h, p)
  {}

  lemma CppThenOthers(s: State, s1: State, s2: State, s3: State, s': State, h: Handle)
    requires LetGoIfAsked(s.cpp, s1.cpp, s.conns, s1.conns, h, Cpp) && s'.cpp == s3.cpp == s2.cpp == s1.cpp
    requires Level(s1.conns, s2.conns, h, Cpp) && Level(s2.conns, s3.conns, h, Cpp) && Level(s3.conns, s'.conns, h, Cpp)
    ensures LetGoIfAsked(s.cpp, s'.cpp, s.conns, s'.conns, h, Cpp)
  {
    LetGoThenLevel(s.cpp, s1.cpp, s.conns, s1.conns, s2.conns, h, Cpp);
    LetGoThenLevel(s.cpp, s1.cpp, s.conns, s2.conns, s3.conns, h, Cpp);
    LetGoThenLevel(s.cpp, s1.cpp, s.conns, s3.conns, s'.conns, h, Cpp);
  }

  lemma CompileBetween(s: State, s1: State, s2: State, s3: State, s': State, h: Handle)
    requires LetGoIfAsked(s1.compile, s2.compile, s1.conns, s2.conns, h, Compile)
    requires s.compile == s1.compile && s'.compile == s3.compile == s2.compile
    requires Level(s.conns, s1.conns, h, Compile) && Level(s2.conns, s3.conns, h, Compile)
             && Level(s3.conns, s'.conns, h, Compile)
    ensures LetGoIfAsked(s.compile, s'.compile, s.conns, s'.conns, h, Compile)
  {
    LevelThenLetGo(s1.compile, s2.compile, s.conns, s1.conns, s2.conns, h, Compile);
    LetGoThenLevel(s.compile, s2.compile, s.conns, s2.conns, s3.conns, h, Compile);
    LetGoThenLevel(s.compile, s2.compile, s.conns, s3.conns, s'.conns, h, Compile);
  }

  lemma LocalLast(s: State, s1: State, s2: State, s3: State, s': State, h: Handle)
    requires LetGoIfAsked(s2.local, s3.local, s2.conns, s3.conns, h, Local)
    requires s.local == s1.local == s2.local && s'.local == s3.local
    requires Level(s.conns, s1.conns, h, Local) && Level(s1.conns, s2.conns, h, Local)
             && Level(s3.conns, s'.conns, h, Local)
    ensures LetGoIfAsked(s.local, s'.local, s.conns, s'.conns, h, Local)
  {
    LevelTwice(s.conns, s1.conns, s2.conns, h, Local);
    LevelThenLetGo(s2.local, s3.local, s.conns, s2.conns, s3.conns, h, Local);
    LetGoThenLevel(s.local, s3.local, s.conns, s3.conns, s'.conns, h, Local);
  }

  /** Whoever closes gives up what it asked for of every pool: it neither holds nor waits any more, the first in line
      holds in its place and is told, and everything else is as it was. */
  lemma CloseFrees(states: seq<State>, events: seq<Event>, n: nat, h: Handle)
    requires Run(states, events) && n < |events| && events[n] == CloseEvent(h)
    ensures h in states[n].conns && h in states[n + 1].conns && states[n + 1].conns[h].closed
    ensures var s, s' := states[n], states[n + 1];
            if s.conns[h].closed then s' == s
            else && LetGoIfAsked(s.cpp, s'.cpp, s.conns, s'.conns, h, Cpp)
                 && LetGoIfAsked(s.compile, s'.compile, s.conns, s'.conns, h, Compile)
                 && LetGoIfAsked(s.local, s'.local, s.conns, s'.conns, h, Local)
  {
    NextAt(states, events, n, n + 1);
    if states[n].conns[h].closed { AlreadyClosed(states[n], h); } else { ClosesLetGo(states[n], h); }
  }

  ghost predicate FreesOnly(s: State, s': State, h: Handle, p: PoolName) {
    && h in s.conns && h in s'.conns
    && (if p == Cpp then LetGo(s.cpp, s'.cpp, s.conns, s'.conns, h, p)
        else s'.cpp == s.cpp && Level(s.conns, s'.conns, h, Cpp))
    && (if p == Compile then LetGo(s.compile, s'.compile, s.conns, s'.conns, h, p)
        else s'.compile == s.compile && Level(s.conns, s'.conns, h, Compile))
    && (if p == Local then LetGo(s.local, s'.local, s.conns, s'.conns, h, p)
        else s'.local == s.local && Level(s.conns, s'.conns, h, Local))
  }

  lemma FreesOnlyThat(s: State, s': State, h: Handle, p: PoolName)
    requires h in s.conns && h in s'.conns && LetGo(Get(s, p), Get(s', p), s.conns, s'.conns, h, p)
    requires forall q :: q != p ==> Get(s', q) == Get(s, q) && Level(s.conns, s'.conns, h, q)
    ensures FreesOnly(s, s', h, p)
  {
    assert Get(s, Cpp) == s.cpp && Get(s, Compile) == s.compile && Get(s, Local) == s.local;
    assert Get(s', Cpp) == s'.cpp && Get(s', Compile) == s'.compile && Get(s', Local) == s'.local;
  }

  lemma FreesThat(s: State, h: Handle, p: PoolName)
    requires Inv(s) && Live(s.conns, h) && p in s.conns[h].req
    ensures Live(ReleaseIn(s, h, p).conns, h) && FreesOnly(s, ReleaseIn(s, h, p), h, p)
  {
    ClauseLetsGo(s, h, p);
    FreesOnlyThat(s, ReleaseIn(s, h, p), h, p);
  }

  /** A release gives up the slot of the pool it names, and nothing of the other two. */
  lemma ReleaseFrees(states: seq<State>, events: seq<Event>, n: nat, h: Handle, p: PoolName)
    requires Run(states, events) && n < |events| && events[n] == ReleaseEvent(h, p)
    ensures var s, s' := states[n], states[n + 1];
            Live(s.conns, h) && Live(s'.conns, h) && FreesOnly(s, s', h, p)
  {
    NextAt(states, events, n, n + 1);
    FreesThat(states[n], h, p);
  }

  /** A connection starts with nothing asked for, and acquireSlot only starts a lookup. */
  lemma StartsIdle(states: seq<State>, events: seq<Event>, n: nat)
    requires Run(states, events) && n < |events|
    ensures var s, s', e := states[n], states[n + 1], events[n];
            && (e.ConnectEvent? ==>
                  && e.h !in s.conns && s' == s.(conns := s'.conns)
                  && s'.conns == s.conns[e.h := Conn(e.id, e.pid, {}, {}, false, 0)])
            && (e.AcquireSlotEvent? ==>
                  && e.h in s.conns && s' == s.(conns := s'.conns)
                  && s'.conns == s.conns[e.h := s.conns[e.h].(lookups := s.conns[e.h].lookups + 1)])
  {
    NextAt(states, events, n, n + 1);
  }
}
