/** The whole state of the scheduler's object cache manager, what each of its operations does to
    that state, and the invariant every run of them keeps. */
module ManagerState {
  import opened Collections
  import opened ObjectIndex
  import opened PendingKeys
  import opened Distribution
  import opened DistributionProperties
  import T = Transfers

  /** A "fetch_cache_objects" message sent to a builder. */
  datatype Fetch = Fetch(to: Builder, objects: seq<FetchObject>)

  datatype State = State(ix: Index, transfers: T.State, hits: nat, sent: seq<Fetch>)

  /** The parsed query: redundancy at least 1, max absent unless positive. */
  datatype Query = Query(dry: bool, redundancy: nat, max: Option<nat>, sha1: Option<string>, node: Option<string>)

  const INITIAL := State(EMPTY_INDEX, T.EMPTY, 0, [])

  function ContextOf(s: State, q: Query): Context {
    Context(s.ix, s.transfers.pending, q.redundancy, q.node)
  }

  /** The messages a plan's commands turn into, builder by builder. */
  function Messages(commands: JsMap<Builder, Command>, order: seq<Builder>): seq<Fetch>
    requires forall i :: 0 <= i < |order| ==> order[i] in commands.vals
  {
    if order == [] then []
    else
      var n := order[|order| - 1];
      Messages(commands, order[..|order| - 1]) +
      if commands.vals[n].objects == [] then [] else [Fetch(n, commands.vals[n].objects)]
  }

  function KeysFor(n: Builder, objects: seq<FetchObject>): (r: seq<string>)
    ensures |r| == |objects| && forall i :: 0 <= i < |r| ==> r[i] == PendingKey(objects[i].sha1, n.addr)
  {
    seq(|objects|, i requires 0 <= i < |objects| => PendingKey(objects[i].sha1, n.addr))
  }

  function NewKeys(commands: JsMap<Builder, Command>, order: seq<Builder>): seq<string>
    requires forall i :: 0 <= i < |order| ==> order[i] in commands.vals
  {
    if order == [] then []
    else
      var n := order[|order| - 1];
      NewKeys(commands, order[..|order| - 1]) + KeysFor(n, commands.vals[n].objects)
  }

  ghost predicate CommandsOk(commands: JsMap<Builder, Command>) {
    forall i :: 0 <= i < |commands.order| ==> commands.order[i] in commands.vals
  }

  lemma PlanCommandsOk(c: Context, max: Option<nat>, sha1: Option<string>)
    requires ContextOk(c)
    ensures CommandsOk(PlanFor(c, max, sha1).commands)
  {
    PlanIsSound(c, max, sha1);
  }

  function Distribute(s: State, q: Query): State
    requires ContextOk(ContextOf(s, q))
  {
    PlanCommandsOk(ContextOf(s, q), q.max, q.sha1);
    var commands := PlanFor(ContextOf(s, q), q.max, q.sha1).commands;
    if q.dry then s
    else Committed(s, commands, commands.order)
  }

  function Committed(s: State, commands: JsMap<Builder, Command>, order: seq<Builder>): State
    requires forall i :: 0 <= i < |order| ==> order[i] in commands.vals
  {
    s.(transfers := T.AddKeys(s.transfers, NewKeys(commands, order)), sent := s.sent + Messages(commands, order))
  }

  datatype Config = Config(redundancy: nat, distributeOnInsertion: bool, distributeOnCacheHit: bool)

  /** The query built from a message's sha1: an empty string counts as no sha1. */
  function ShaQuery(cfg: Config, sha1: string): Query {
    Query(false, cfg.redundancy, None, if sha1 == "" then None else Some(sha1), None)
  }

  function Recorded(s: State, msg: ChangeMessage, node: Builder): State {
    s.(ix := InsertObject(s.ix, msg, node), transfers := T.Clear(s.transfers, PendingKey(msg.sha1, node.addr)))
  }

  function Insert(cfg: Config, s: State, msg: ChangeMessage, node: Builder): State
    requires Inverse(s.ix)
  {
    if node !in s.ix.byNode.vals then s
    else
      var after := Recorded(s, msg, node);
      InsertKeepsInverse(s.ix, msg, node);
      if cfg.distributeOnInsertion && |after.ix.bySHA1.vals[msg.sha1].nodes| - 1 < cfg.redundancy
      then Distribute(after, ShaQuery(cfg, msg.sha1)) else after
  }

  function Hit(cfg: Config, s: State, sha1: string): State
    requires Inverse(s.ix)
  {
    var after := s.(hits := s.hits + 1);
    if cfg.distributeOnCacheHit then Distribute(after, ShaQuery(cfg, sha1)) else after
  }

  function RemoveBuilder(s: State, node: Builder): State {
    if node !in s.ix.byNode.vals then s
    else s.(ix := RemoveNode(s.ix, node), transfers := T.ClearSuffix(s.transfers, ":" + node.addr))
  }

  function Cleared(s: State): State {
    s.(hits := 0,
       transfers := T.State({}, map[],
                            s.transfers.armed - (set k <- s.transfers.timers :: T.Timer(s.transfers.timers[k], k)),
                            s.transfers.next))
  }

  /** What every run keeps. */
  ghost predicate Ok(s: State) {
    && Inverse(s.ix)
    && T.Ok(s.transfers)
    && T.PendingOk(s.ix, s.transfers.pending)
    && T.AddressesDistinct(s.ix)
    && T.ShasPlain(s.ix)
  }

  // ---- runs

  datatype Event =
    | InsertEvent(msg: ChangeMessage, node: Builder)
    | RemoveEvent(msg: ChangeMessage, node: Builder)
    | AddNodeEvent(sync: SyncMessage, node: Builder)
    | RemoveNodeEvent(node: Builder)
    | DistributeEvent(query: Query)
    | HitEvent(sha1: string)
    | TimeoutEvent(timer: T.Timer)
    | ClearEvent

  /** What the outside world guarantees: real sha1s, distinct keys in a sync message, no two connected
      builders at one address, and timers that fire only while running. */
  ghost predicate Enabled(s: State, e: Event) {
    match e
    case InsertEvent(msg, _) => Plain(msg.sha1)
    case AddNodeEvent(sync, node) =>
      && NoDup(Keys(sync.sha1s)) && (forall k <- Keys(sync.sha1s) :: Plain(k))
      && forall n <- s.ix.byNode.vals :: n.addr == node.addr ==> n == node
    case TimeoutEvent(timer) => timer in s.transfers.armed
    case _ => true
  }

  ghost function Step(cfg: Config, s: State, e: Event): State
    requires Inverse(s.ix)
  {
    match e
    case InsertEvent(msg, node) => Insert(cfg, s, msg, node)
    case RemoveEvent(msg, node) => s.(ix := RemoveObject(s.ix, msg, node))
    case AddNodeEvent(sync, node) => s.(ix := AddNode(s.ix, sync, node))
    case RemoveNodeEvent(node) => RemoveBuilder(s, node)
    case DistributeEvent(q) => Distribute(s, q)
    case HitEvent(sha1) => Hit(cfg, s, sha1)
    case TimeoutEvent(timer) => s.(transfers := T.Expire(s.transfers, timer))
    case ClearEvent => Cleared(s)
  }

  ghost predicate Next(cfg: Config, s: State, e: Event, s': State) {
    Enabled(s, e) && (Inverse(s.ix) ==> s' == Step(cfg, s, e))
  }

  ghost predicate Run(cfg: Config, states: seq<State>, events: seq<Event>) {
    && |states| == |events| + 1
    && states[0] == INITIAL
    && forall i :: 0 <= i < |events| ==> Next(cfg, states[i], events[i], states[i + 1])
  }

  lemma CommittedStep(s: State, commands: JsMap<Builder, Command>, order: seq<Builder>)
    requires order != [] && forall i :: 0 <= i < |order| ==> order[i] in commands.vals
    ensures var n := order[|order| - 1];
            var before, objects := Committed(s, commands, order[..|order| - 1]), commands.vals[n].objects;
            Committed(s, commands, order) ==
            if objects == [] then before
            else before.(transfers := T.AddKeys(before.transfers, KeysFor(n, objects)),
                         sent := before.sent + [Fetch(n, objects)])
  {
    var rest, n := order[..|order| - 1], order[|order| - 1];
    var objects := commands.vals[n].objects;
    T.AddKeysConcat(s.transfers, NewKeys(commands, rest), KeysFor(n, objects));
    if objects == [] {
      assert NewKeys(commands, rest) + KeysFor(n, objects) == NewKeys(commands, rest);
      assert Messages(commands, rest) + [] == Messages(commands, rest);
    }
  }

  // ---- the keys a plan adds are new

  lemma KeysForFresh(c: Context, n: Builder, cmd: Command)
    requires CommandOk(c, n, cmd)
    requires forall s <- c.ix.bySHA1.vals :: Plain(s)
    ensures NoDup(KeysFor(n, cmd.objects))
    ensures forall k <- KeysFor(n, cmd.objects) :: k !in c.pending
    ensures forall k <- KeysFor(n, cmd.objects) :: exists s ::
              s in c.ix.bySHA1.vals && k == PendingKey(s, n.addr) && !ShaHas(c.ix.bySHA1, s, n) && Gets(cmd, s)
  {
    var keys := KeysFor(n, cmd.objects);
    forall i, j | 0 <= i < j < |keys| ensures keys[i] != keys[j] {
      assert TransferOk(c, n, cmd.objects[i]) && TransferOk(c, n, cmd.objects[j]);
      KeyInjective(cmd.objects[i].sha1, n.addr, cmd.objects[j].sha1, n.addr);
    }
    NoDupFromIndices(keys);
    forall k | k in keys
      ensures k !in c.pending
      ensures exists s ::
                s in c.ix.bySHA1.vals && k == PendingKey(s, n.addr) && !ShaHas(c.ix.bySHA1, s, n) && Gets(cmd, s)
    {
      var i :| 0 <= i < |keys| && keys[i] == k;
      assert TransferOk(c, n, cmd.objects[i]);
      assert Gets(cmd, cmd.objects[i].sha1);
    }
  }

  /** Where a new key comes from. */
  ghost predicate NewKey(c: Context, commands: JsMap<Builder, Command>, order: seq<Builder>, k: string) {
    exists n, s :: n in order && n in c.ix.byNode.vals && s in c.ix.bySHA1.vals && k == PendingKey(s, n.addr)
                   && !ShaHas(c.ix.bySHA1, s, n) && Gets(CommandOf(c, commands, n), s)
  }

  lemma {:induction false} NewKeysFresh(c: Context, commands: JsMap<Builder, Command>, order: seq<Builder>)
    requires NoDup(order) && forall n <- order :: n in commands.vals && n in c.ix.byNode.vals
    requires forall i :: 0 <= i < |order| ==> order[i] in commands.vals
    requires forall n <- c.ix.byNode.vals :: CommandOk(c, n, CommandOf(c, commands, n))
    requires forall s <- c.ix.bySHA1.vals :: Plain(s)
    requires T.AddressesDistinct(c.ix)
    ensures NoDup(NewKeys(commands, order))
    ensures forall k <- NewKeys(commands, order) :: k !in c.pending && NewKey(c, commands, order, k)
  {
    if order != [] {
      var rest, n := order[..|order| - 1], order[|order| - 1];
      assert order == rest + [n];
      NewKeysFresh(c, commands, rest);
      assert n in order && CommandOf(c, commands, n) == commands.vals[n];
      KeysForFresh(c, n, commands.vals[n]);
      var before, own := NewKeys(commands, rest), KeysFor(n, commands.vals[n].objects);
      forall k | k in before + own ensures k !in c.pending && NewKey(c, commands, order, k) {
        if k in before {
          var m, s :| m in rest && m in c.ix.byNode.vals && s in c.ix.bySHA1.vals && k == PendingKey(s, m.addr)
                      && !ShaHas(c.ix.bySHA1, s, m) && Gets(CommandOf(c, commands, m), s);
          assert m in order;
        }
      }
      forall k | k in before ensures k !in own {
        var m, s :| m in rest && m in c.ix.byNode.vals && s in c.ix.bySHA1.vals && k == PendingKey(s, m.addr)
                    && !ShaHas(c.ix.bySHA1, s, m) && Gets(CommandOf(c, commands, m), s);
        forall i | 0 <= i < |own| ensures own[i] != k {
          assert TransferOk(c, n, commands.vals[n].objects[i]);
          KeyInjective(s, m.addr, commands.vals[n].objects[i].sha1, n.addr);
        }
      }
      NoDupConcat(before, own);
    }
  }

  /** A plan's keys are new, each names a builder lacking the object, and timers stay exact. */
  lemma DistributeKeepsOk(s: State, q: Query)
    requires Ok(s)
    ensures Ok(Distribute(s, q))
  {
    var c := ContextOf(s, q);
    PlanIsSound(c, q.max, q.sha1);
    PlanCommandsOk(c, q.max, q.sha1);
    var commands := PlanFor(c, q.max, q.sha1).commands;
    NewKeysFresh(c, commands, commands.order);
    var keys := NewKeys(commands, commands.order);
    T.AddKeysOk(s.transfers, keys);
    forall k | k in keys ensures T.Awaits(s.ix, k) {
      assert NewKey(c, commands, commands.order, k);
      var n, sha :| n in commands.order && n in c.ix.byNode.vals && sha in c.ix.bySHA1.vals
        && k == PendingKey(sha, n.addr)
                    && !ShaHas(c.ix.bySHA1, sha, n) && Gets(CommandOf(c, commands, n), sha);
      assert !NodeHas(s.ix, n, sha);
    }
  }

  lemma NewKeysArePlanned(c: Context, commands: JsMap<Builder, Command>, sha1: string, n: Builder)
    requires CommandsOk(commands) && Plain(sha1) && T.ShasPlain(c.ix) && T.AddressesDistinct(c.ix)
    requires n in c.ix.byNode.vals
    requires NewKey(c, commands, commands.order, PendingKey(sha1, n.addr))
    ensures n in Planned(c, commands, sha1)
  {
    var k := PendingKey(sha1, n.addr);
    var m, t :| m in commands.order && m in c.ix.byNode.vals && t in c.ix.bySHA1.vals && k == PendingKey(t, m.addr)
                && !ShaHas(c.ix.bySHA1, t, m) && Gets(CommandOf(c, commands, m), t);
    KeyInjective(sha1, n.addr, t, m.addr);
  }

  /** The builders awaiting an object afterwards: those that already did, and those it was planned for. */
  lemma AwaitingAfter(s: State, q: Query, sha1: string)
    requires Ok(s) && !q.dry && sha1 in s.ix.bySHA1.vals
    ensures var commands := PlanFor(ContextOf(s, q), q.max, q.sha1).commands;
            T.Awaiting(s.ix, Distribute(s, q).transfers.pending, sha1)
            <= T.Awaiting(s.ix, s.transfers.pending, sha1) + Planned(ContextOf(s, q), commands, sha1)
  {
    var c := ContextOf(s, q);
    PlanIsSound(c, q.max, q.sha1);
    PlanCommandsOk(c, q.max, q.sha1);
    var commands := PlanFor(c, q.max, q.sha1).commands;
    NewKeysFresh(c, commands, commands.order);
    var keys := NewKeys(commands, commands.order);
    T.AddKeysOk(s.transfers, keys);
    assert Distribute(s, q).transfers.pending == s.transfers.pending + Members(keys);
    forall n | n in s.ix.byNode.vals && PendingKey(sha1, n.addr) in keys
      ensures n in Planned(c, commands, sha1)
    {
      NewKeysArePlanned(c, commands, sha1, n);
    }
  }

  /** After a plan is sent, an object it moved has at most redundancy + 1 copies, held or on their way. */
  lemma DistributeCopies(s: State, q: Query, sha1: string)
    requires Ok(s) && !q.dry && sha1 in s.ix.bySHA1.vals
    requires Planned(ContextOf(s, q), PlanFor(ContextOf(s, q), q.max, q.sha1).commands, sha1) != {}
    ensures |s.ix.bySHA1.vals[sha1].nodes| + |T.Awaiting(s.ix, Distribute(s, q).transfers.pending, sha1)| <=
            q.redundancy + 1
  {
    var c := ContextOf(s, q);
    var commands := PlanFor(c, q.max, q.sha1).commands;
    var planned := Planned(c, commands, sha1);
    AwaitingAfter(s, q, sha1);
    T.PrefixCountIsAwaiting(s.ix, s.transfers.pending, sha1);
    CardUnion(T.Awaiting(s.ix, Distribute(s, q).transfers.pending, sha1), T.Awaiting(s.ix, s.transfers.pending, sha1),
      planned);
    assert CopiesOk(c, commands, sha1) by {
      PlanIsSound(c, q.max, q.sha1);
      var someone :| someone in planned;
      assert Gets(CommandOf(c, commands, someone), sha1);
    }
  }

  lemma {:induction false} CardSub(a: set<Builder>, b: set<Builder>)
    requires a <= b
    ensures |a| <= |b|
  {
    if a != {} {
      var x :| x in a;
      CardSub(a - {x}, b - {x});
    }
  }

  lemma CardUnion(a: set<Builder>, b: set<Builder>, d: set<Builder>)
    requires a <= b + d
    ensures |a| <= |b| + |d|
  {
    CardSub(a, b + d);
    assert b + d == b + (d - b);
    CardSub(d - b, d);
  }

  // ---- every step keeps the invariant

  lemma RecordedKeepsOk(s: State, msg: ChangeMessage, node: Builder)
    requires Ok(s) && node in s.ix.byNode.vals && Plain(msg.sha1)
    ensures Ok(Recorded(s, msg, node))
  {
    var after := Recorded(s, msg, node);
    var key := PendingKey(msg.sha1, node.addr);
    InsertKeepsInverse(s.ix, msg, node);
    T.ClearOk(s.transfers, key);
    forall k | k in after.transfers.pending ensures T.Awaits(after.ix, k) {
      assert T.Awaits(s.ix, k);
      var n, sha :| n in s.ix.byNode.vals && Plain(sha) && k == PendingKey(sha, n.addr) && !NodeHas(s.ix, n, sha);
      assert NodeHas(after.ix, n, sha) ==> n == node && sha == msg.sha1;
    }
  }

  lemma RemoveKeepsOk(s: State, msg: ChangeMessage, node: Builder)
    requires Ok(s)
    ensures Ok(s.(ix := RemoveObject(s.ix, msg, node)))
  {
    var after := RemoveObject(s.ix, msg, node);
    RemoveKeepsInverse(s.ix, msg, node);
    if node in s.ix.byNode.vals { RemoveMember(s.ix.byNode.vals[node].sha1s, msg.sha1); }
    forall k | k in s.transfers.pending ensures T.Awaits(after, k) {
      assert T.Awaits(s.ix, k);
      var n, sha :| n in s.ix.byNode.vals && Plain(sha) && k == PendingKey(sha, n.addr) && !NodeHas(s.ix, n, sha);
      assert n in after.byNode.vals && !NodeHas(after, n, sha);
    }
  }

  lemma {:induction false} AddAllShas(m: JsMap<string, SHA1Data>, items: seq<SyncItem>, node: Builder)
    requires forall s <- m.vals :: Plain(s)
    requires forall k <- Keys(items) :: Plain(k)
    ensures forall s <- AddAll(m, items, node).vals :: Plain(s)
  {
    if items != [] {
      var last := |items| - 1;
      assert Keys(items) == Keys(items[..last]) + [items[last].sha1];
      AddAllShas(m, items[..last], node);
    }
  }

  lemma AddNodeKeepsOk(s: State, sync: SyncMessage, node: Builder)
    requires Ok(s) && Enabled(s, AddNodeEvent(sync, node))
    ensures Ok(s.(ix := AddNode(s.ix, sync, node)))
  {
    var after := AddNode(s.ix, sync, node);
    if node !in s.ix.byNode.vals {
      AddNodeKeepsInverse(s.ix, sync, node);
      AddAllShas(s.ix.bySHA1, sync.sha1s, node);
      forall k | k in s.transfers.pending ensures T.Awaits(after, k) {
        assert T.Awaits(s.ix, k);
        var n, sha :| n in s.ix.byNode.vals && Plain(sha) && k == PendingKey(sha, n.addr) && !NodeHas(s.ix, n, sha);
        assert n in after.byNode.vals && !NodeHas(after, n, sha);
      }
    }
  }

  lemma {:induction false} RemoveAllShas(m: JsMap<string, SHA1Data>, sha1s: seq<string>, node: Builder)
    ensures forall s <- RemoveAll(m, sha1s, node).vals :: s in m.vals
  {
    if sha1s != [] { RemoveAllShas(m, sha1s[..|sha1s| - 1], node); }
  }

  lemma RemoveBuilderKeepsOk(s: State, node: Builder)
    requires Ok(s)
    ensures Ok(RemoveBuilder(s, node))
  {
    var after := RemoveBuilder(s, node);
    if node in s.ix.byNode.vals {
      RemoveNodeForgets(s.ix, node);
      T.ClearSuffixOk(s.transfers, ":" + node.addr);
      RemoveAllShas(s.ix.bySHA1, s.ix.byNode.vals[node].sha1s, node);
      forall k | k in after.transfers.pending ensures T.Awaits(after.ix, k) {
        assert T.Awaits(s.ix, k);
        var n, sha :| n in s.ix.byNode.vals && Plain(sha) && k == PendingKey(sha, n.addr) && !NodeHas(s.ix, n, sha);
        SuffixFindsAddress(sha, n.addr, node.addr);
        assert n in after.ix.byNode.vals && !NodeHas(after.ix, n, sha);
      }
    }
  }

  lemma StepKeepsOk(cfg: Config, s: State, e: Event)
    requires Ok(s) && Enabled(s, e)
    ensures Ok(Step(cfg, s, e))
  {
    match e
    case InsertEvent(msg, node) =>
      if node in s.ix.byNode.vals {
        RecordedKeepsOk(s, msg, node);
        DistributeKeepsOk(Recorded(s, msg, node), ShaQuery(cfg, msg.sha1));
      }
    case RemoveEvent(msg, node) => RemoveKeepsOk(s, msg, node);
    case AddNodeEvent(sync, node) => AddNodeKeepsOk(s, sync, node);
    case RemoveNodeEvent(node) => RemoveBuilderKeepsOk(s, node);
    case DistributeEvent(q) => DistributeKeepsOk(s, q);
    case HitEvent(sha1) => DistributeKeepsOk(s.(hits := s.hits + 1), ShaQuery(cfg, sha1));
    case TimeoutEvent(timer) => T.ExpireOk(s.transfers, timer);
    case ClearEvent =>
  }

  /** In every reachable state the index is two-way exact, every pending transfer names a connected
      builder lacking the object, and every pending transfer has exactly one running timer. */
  lemma {:induction false} RunIsOk(cfg: Config, states: seq<State>, events: seq<Event>, i: nat)
    requires Run(cfg, states, events) && i <= |events|
    ensures Ok(states[i])
  {
    if i > 0 {
      RunIsOk(cfg, states, events, i - 1);
      assert Next(cfg, states[i - 1], events[i - 1], states[i - 1 + 1]);
      StepKeepsOk(cfg, states[i - 1], events[i - 1]);
    }
  }
}
