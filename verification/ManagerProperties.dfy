/** What the object cache manager sends when it distributes, and what an insertion or a hit brings about: the messages,
    the transfers that become pending, and how far an object is replicated afterwards. */
module ManagerProperties {
  import opened Collections
  import opened ObjectIndex
  import opened PendingKeys
  import opened Distribution
  import opened DistributionProperties
  import opened ManagerState
  import T = Transfers

  // ---- messages and pending keys of a plan

  lemma {:induction false} MessagesAre(commands: JsMap<Builder, Command>, order: seq<Builder>)
    requires NoDup(order) && forall i :: 0 <= i < |order| ==> order[i] in commands.vals
    ensures var added := Messages(commands, order);
            && (forall m <- added :: m.to in order && m.objects != [] && m.objects == commands.vals[m.to].objects)
            && (forall n <- order :: commands.vals[n].objects != [] ==> Fetch(n, commands.vals[n].objects) in added)
            && (forall i, j :: 0 <= i < j < |added| ==> added[i].to != added[j].to)
  {
    if order != [] {
      var rest, n := order[..|order| - 1], order[|order| - 1];
      assert order == rest + [n];
      MessagesAre(commands, rest);
    }
  }

  function Total(added: seq<Fetch>): nat {
    if added == [] then 0 else Total(added[..|added| - 1]) + |added[|added| - 1].objects|
  }

  lemma {:induction false} TotalIsCount(commands: JsMap<Builder, Command>, order: seq<Builder>)
    requires forall i :: 0 <= i < |order| ==> order[i] in commands.vals
    ensures Total(Messages(commands, order)) == CountIn(commands, order)
  {
    if order != [] {
      var rest, n := order[..|order| - 1], order[|order| - 1];
      TotalIsCount(commands, rest);
      var before, m := Messages(commands, rest), Fetch(n, commands.vals[n].objects);
      assert (before + [m])[..|before|] == before && before + [] == before;
    }
  }

  ghost predicate KeyFor(objects: seq<FetchObject>, n: Builder, k: string) {
    exists o <- objects :: k == PendingKey(o.sha1, n.addr)
  }

  lemma {:induction false} KeysAre(commands: JsMap<Builder, Command>, order: seq<Builder>, k: string)
    requires forall i :: 0 <= i < |order| ==> order[i] in commands.vals
    ensures k in NewKeys(commands, order) <==> exists n <- order :: KeyFor(commands.vals[n].objects, n, k)
  {
    if order != [] {
      var rest, n := order[..|order| - 1], order[|order| - 1];
      assert order == rest + [n];
      KeysAre(commands, rest, k);
      var objects := commands.vals[n].objects;
      assert k in KeysFor(n, objects) <==> KeyFor(objects, n, k) by {
        if KeyFor(objects, n, k) {
          var i :| 0 <= i < |objects| && k == PendingKey(objects[i].sha1, n.addr);
          assert KeysFor(n, objects)[i] == k;
        }
      }
    }
  }

  // ---- what distributing sends

  /** Builder n is sent object sha1. */
  ghost predicate Sent(added: seq<Fetch>, n: Builder, sha1: string) {
    exists m <- added :: m.to == n && exists o <- m.objects :: o.sha1 == sha1
  }

  function SentBytes(ix: Index, objects: seq<FetchObject>): nat {
    if objects == [] then 0
    else
      var last := objects[|objects| - 1];
      SentBytes(ix, objects[..|objects| - 1]) +
      if last.sha1 in ix.bySHA1.vals then ix.bySHA1.vals[last.sha1].fileSize else 0
  }

  /** Every transfer has its reason: the object asked for, or any held one, from a holder, to the builder asked
      for, if any, which neither holds nor awaits it; and what one builder is sent are different objects that fit
      into its free space. */
  ghost predicate SendsOk(s: State, q: Query, m: Fetch) {
    && m.to in s.ix.byNode.vals && m.objects != []
    && (q.node.Some? ==> m.to.addr == q.node.value)
    && s.ix.byNode.vals[m.to].size + SentBytes(s.ix, m.objects) <= s.ix.byNode.vals[m.to].maxSize
    && (forall i, j :: 0 <= i < j < |m.objects| ==> m.objects[i].sha1 != m.objects[j].sha1)
    && forall o <- m.objects :: ReasonFor(s, q, m.to, o)
  }

  ghost predicate ReasonFor(s: State, q: Query, to: Builder, o: FetchObject) {
    && o.sha1 in s.ix.bySHA1.vals && to !in s.ix.bySHA1.vals[o.sha1].nodes
    && PendingKey(o.sha1, to.addr) !in s.transfers.pending
    && (q.sha1.Some? ==> o.sha1 == q.sha1.value)
    && exists h <- s.ix.bySHA1.vals[o.sha1].nodes :: h.addr == o.source
  }

  /** The transfers sent become pending, and nothing else changes. */
  ghost predicate Becomes(s: State, s': State, added: seq<Fetch>) {
    && s'.ix == s.ix && s'.hits == s.hits && s'.sent == s.sent + added
    && forall k :: k in s'.transfers.pending <==>
         k in s.transfers.pending || exists m <- added :: KeyFor(m.objects, m.to, k)
  }

  lemma SumIsBytes(c: Context, objects: seq<FetchObject>)
    requires forall i :: 0 <= i < |objects| ==> objects[i].sha1 in c.ix.bySHA1.vals
    ensures SumSizes(c, objects) == SentBytes(c.ix, objects)
  {
    if objects != [] { SumIsBytes(c, objects[..|objects| - 1]); }
  }

  /** The commands of a query's plan. */
  ghost function CommandsFor(s: State, q: Query): (r: JsMap<Builder, Command>)
    requires Ok(s)
    ensures r.Wf() && CommandsOk(r)
  {
    PlanIsSound(ContextOf(s, q), q.max, q.sha1);
    PlanFor(ContextOf(s, q), q.max, q.sha1).commands
  }

  /** One of the objects a builder is sent. */
  lemma SendReason(s: State, q: Query, n: Builder, i: nat)
    requires Ok(s) && !q.dry && n in s.ix.byNode.vals && i < |CommandOf(ContextOf(s, q), CommandsFor(s, q), n).objects|
    ensures ReasonFor(s, q, n, CommandOf(ContextOf(s, q), CommandsFor(s, q), n).objects[i])
    ensures q.node.Some? ==> n.addr == q.node.value
  {
    PlanIsSound(ContextOf(s, q), q.max, q.sha1);
    var cmd := CommandOf(ContextOf(s, q), CommandsFor(s, q), n);
    assert CommandOk(ContextOf(s, q), n, cmd);
    OnlyAskedFor(s, q, n, cmd.objects[i].sha1);
    TransferReason(s, q, n, cmd.objects[i]);
  }

  lemma TransferReason(s: State, q: Query, n: Builder, o: FetchObject)
    requires TransferOk(ContextOf(s, q), n, o) && (q.sha1.Some? ==> o.sha1 == q.sha1.value)
    ensures ReasonFor(s, q, n, o) && (q.node.Some? ==> n.addr == q.node.value)
  {
    var h :| ShaHas(s.ix.bySHA1, o.sha1, h) && h.addr == o.source;
    assert h in s.ix.bySHA1.vals[o.sha1].nodes;
  }

  lemma OnlyAskedFor(s: State, q: Query, n: Builder, sha1: string)
    requires Ok(s) && n in s.ix.byNode.vals
    ensures Gets(CommandOf(ContextOf(s, q), CommandsFor(s, q), n), sha1) && q.sha1.Some? ==> sha1 == q.sha1.value
  {
    var c := ContextOf(s, q);
    PlanIsSound(c, q.max, q.sha1);
    if |c.ix.byNode.order| >= 2 {
      OnlyServed(c, PlanFor(c, q.max, q.sha1), Wanted(c, q.sha1), q.max, n, sha1);
    } else {
      OnlyServed(c, PlanFor(c, q.max, q.sha1), [], q.max, n, sha1);
    }
  }

  lemma OnlyServed(c: Context, p: Plan, done: seq<string>, max: Option<nat>, n: Builder, sha1: string)
    requires PlanOk(c, p, done, max) && n in c.ix.byNode.vals
    ensures Gets(CommandOf(c, p.commands, n), sha1) ==> sha1 in done
  {}

  lemma Different(s: State, q: Query, n: Builder)
    requires Ok(s) && !q.dry && n in s.ix.byNode.vals
    ensures var objects := CommandOf(ContextOf(s, q), CommandsFor(s, q), n).objects;
            forall i, j :: 0 <= i < j < |objects| ==> objects[i].sha1 != objects[j].sha1
  {
    PlanIsSound(ContextOf(s, q), q.max, q.sha1);
    assert CommandOk(ContextOf(s, q), n, CommandOf(ContextOf(s, q), CommandsFor(s, q), n));
  }

  lemma FromCommand(s: State, q: Query, m: Fetch)
    requires Ok(s) && !q.dry && m in Messages(CommandsFor(s, q), CommandsFor(s, q).order)
    ensures m.to in s.ix.byNode.vals && m.objects != []
    ensures m.objects == CommandOf(ContextOf(s, q), CommandsFor(s, q), m.to).objects
  {
    PlanIsSound(ContextOf(s, q), q.max, q.sha1);
    MessagesAre(CommandsFor(s, q), CommandsFor(s, q).order);
  }

  lemma SendOk(s: State, q: Query, m: Fetch)
    requires Ok(s) && !q.dry && m in Messages(CommandsFor(s, q), CommandsFor(s, q).order)
    ensures SendsOk(s, q, m)
  {
    FromCommand(s, q, m);
    PlanFits(ContextOf(s, q), q.max, q.sha1, m.to);
    SumIsBytes(ContextOf(s, q), m.objects);
    Different(s, q, m.to);
    SendReason(s, q, m.to, 0);
    forall o <- m.objects ensures ReasonFor(s, q, m.to, o) {
      var i :| 0 <= i < |m.objects| && m.objects[i] == o;
      SendReason(s, q, m.to, i);
    }
  }

  lemma PendingBecomes(s: State, q: Query, k: string)
    requires Ok(s) && !q.dry
    ensures var commands := CommandsFor(s, q);
            k in Distribute(s, q).transfers.pending <==>
            || k in s.transfers.pending
            || exists m <- Messages(commands, commands.order) :: KeyFor(m.objects, m.to, k)
  {
    var c, commands := ContextOf(s, q), CommandsFor(s, q);
    PlanIsSound(c, q.max, q.sha1);
    NewKeysFresh(c, commands, commands.order);
    T.AddKeysOk(s.transfers, NewKeys(commands, commands.order));
    MessagesAre(commands, commands.order);
    KeysAre(commands, commands.order, k);
    if n :| n in commands.order && KeyFor(commands.vals[n].objects, n, k) {
      assert Fetch(n, commands.vals[n].objects) in Messages(commands, commands.order);
    }
  }

  /** A query that is not dry sends each builder at most one message, in which every transfer has its reason, and makes
      exactly these transfers pending; a dry one changes nothing. */
  lemma DistributeSends(s: State, q: Query) returns (added: seq<Fetch>)
    requires Ok(s)
    ensures Becomes(s, Distribute(s, q), added)
    ensures q.dry ==> added == [] && Distribute(s, q) == s
    ensures forall m <- added :: SendsOk(s, q, m)
    ensures forall i, j :: 0 <= i < j < |added| ==> added[i].to != added[j].to
    ensures q.max.Some? ==> Total(added) <= q.max.value
    ensures !q.dry ==> added == Messages(CommandsFor(s, q), CommandsFor(s, q).order)
  {
    if q.dry {
      added := [];
      assert s.sent + [] == s.sent;
    } else {
      var commands := CommandsFor(s, q);
      added := Messages(commands, commands.order);
      PlanIsSound(ContextOf(s, q), q.max, q.sha1);
      MessagesAre(commands, commands.order);
      TotalIsCount(commands, commands.order);
      forall m <- added ensures SendsOk(s, q, m) { SendOk(s, q, m); }
      forall k
        ensures k in Distribute(s, q).transfers.pending <==>
                k in s.transfers.pending || exists m <- added :: KeyFor(m.objects, m.to, k)
      {
        PendingBecomes(s, q, k);
      }
    }
  }

  // ---- how far an object is replicated

  /** The objects sent to builder n leave less of its space than object sha1 takes. */
  ghost predicate NoRoomFor(ix: Index, added: seq<Fetch>, sha1: string, n: Builder)
    requires sha1 in ix.bySHA1.vals && n in ix.byNode.vals
  {
    var free := ix.byNode.vals[n].maxSize - ix.byNode.vals[n].size;
    || (exists m <- added :: m.to == n && free - SentBytes(ix, m.objects) < ix.bySHA1.vals[sha1].fileSize)
    || free < ix.bySHA1.vals[sha1].fileSize
  }

  /** The copies held or on their way come to redundancy + 1, or each builder holds the object, awaits it, is not
      the one asked for, or has no room for it. */
  ghost predicate Replicated(ix: Index, q: Query, pending: set<string>, added: seq<Fetch>, sha1: string)
    requires sha1 in ix.bySHA1.vals
  {
    || |ix.bySHA1.vals[sha1].nodes| + |PendingKeysOf(pending, sha1)| >= q.redundancy + 1
    || forall n <- ix.byNode.vals ::
         || n in ix.bySHA1.vals[sha1].nodes
         || PendingKey(sha1, n.addr) in pending
         || (q.node.Some? && q.node.value != n.addr)
         || NoRoomFor(ix, added, sha1, n)
  }

  lemma GetsIsPending(s: State, q: Query, sha1: string, n: Builder)
    requires Ok(s) && !q.dry && n in s.ix.byNode.vals
    ensures Gets(CommandOf(ContextOf(s, q), CommandsFor(s, q), n), sha1) ==>
              PendingKey(sha1, n.addr) in Distribute(s, q).transfers.pending
  {
    var c, commands := ContextOf(s, q), CommandsFor(s, q);
    var objects := CommandOf(c, commands, n).objects;
    PendingBecomes(s, q, PendingKey(sha1, n.addr));
    MessagesAre(commands, commands.order);
    if Gets(CommandOf(c, commands, n), sha1) {
      var i :| 0 <= i < |objects| && objects[i].sha1 == sha1;
      var m := Fetch(n, objects);
      assert m in Messages(commands, commands.order);
      assert objects[i] in m.objects && KeyFor(m.objects, m.to, PendingKey(sha1, n.addr));
    }
  }

  lemma PlannedArePending(s: State, q: Query, sha1: string)
    requires Ok(s) && !q.dry && sha1 in s.ix.bySHA1.vals
    ensures |PendingKeysOf(Distribute(s, q).transfers.pending, sha1)| >=
            |PendingKeysOf(s.transfers.pending, sha1)| + |Planned(ContextOf(s, q), CommandsFor(s, q), sha1)|
  {
    var c, commands := ContextOf(s, q), CommandsFor(s, q);
    var planned := Planned(c, commands, sha1);
    var pending, pending' := s.transfers.pending, Distribute(s, q).transfers.pending;
    var keys := set n <- planned :: PendingKey(sha1, n.addr);
    T.KeysOfNodes(sha1, planned);
    forall n | n in planned
      ensures PendingKey(sha1, n.addr) in pending' && PendingKey(sha1, n.addr) !in pending
      ensures sha1 + ":" <= PendingKey(sha1, n.addr)
    {
      GetsIsPending(s, q, sha1, n);
      PlannedIsNew(s, q, sha1, n);
      PrefixFindsSha(sha1, n.addr, sha1);
    }
    forall k | k in pending ensures k in pending' { PendingBecomes(s, q, k); }
    SplitKeys(PendingKeysOf(pending', sha1), PendingKeysOf(pending, sha1), keys);
  }

  lemma PlannedIsNew(s: State, q: Query, sha1: string, n: Builder)
    requires Ok(s) && !q.dry && n in Planned(ContextOf(s, q), CommandsFor(s, q), sha1)
    ensures PendingKey(sha1, n.addr) !in s.transfers.pending
  {
    var c, commands := ContextOf(s, q), CommandsFor(s, q);
    PlanIsSound(c, q.max, q.sha1);
    var cmd := CommandOf(c, commands, n);
    assert CommandOk(c, n, cmd);
    var i :| 0 <= i < |cmd.objects| && cmd.objects[i].sha1 == sha1;
    assert TransferOk(c, n, cmd.objects[i]);
  }

  lemma SplitKeys(all: set<string>, a: set<string>, b: set<string>)
    requires a <= all && b <= all && a !! b
    ensures |all| >= |a| + |b|
  {
    assert |a + b| == |a| + |b|;
    assert all == (a + b) + (all - a - b);
  }

  lemma OnlyHolder(ix: Index, sha1: string)
    requires Inverse(ix) && sha1 in ix.bySHA1.vals && |ix.byNode.order| < 2
    ensures forall n <- ix.byNode.vals :: n in ix.bySHA1.vals[sha1].nodes
  {
    var holder := ix.bySHA1.vals[sha1].nodes[0];
    assert ShaHas(ix.bySHA1, sha1, holder) && NodeHas(ix, holder, sha1);
    assert holder in ix.byNode.order;
  }

  lemma NoRoomSent(s: State, q: Query, sha1: string, n: Builder)
    requires Ok(s) && !q.dry && n in s.ix.byNode.vals && sha1 in s.ix.bySHA1.vals
    requires NoRoom(ContextOf(s, q), CommandsFor(s, q), sha1, n)
    ensures NoRoomFor(s.ix, Messages(CommandsFor(s, q), CommandsFor(s, q).order), sha1, n)
  {
    var c, commands := ContextOf(s, q), CommandsFor(s, q);
    var objects := CommandOf(c, commands, n).objects;
    MessagesAre(commands, commands.order);
    SumIsBytes(c, objects);
    if objects != [] { assert Fetch(n, objects) in Messages(commands, commands.order); }
  }

  /** A distribution that is not cut short by its maximum leaves every object it is asked for replicated. */
  lemma DistributeReplicates(s: State, q: Query, sha1: string) returns (added: seq<Fetch>)
    requires Ok(s) && !q.dry
    requires sha1 in s.ix.bySHA1.vals && (q.sha1.None? || q.sha1 == Some(sha1))
    ensures Becomes(s, Distribute(s, q), added) && forall m <- added :: SendsOk(s, q, m)
    ensures added == Messages(CommandsFor(s, q), CommandsFor(s, q).order)
    ensures || (q.max.Some? && Total(added) == q.max.value)
            || Replicated(s.ix, q, Distribute(s, q).transfers.pending, added, sha1)
  {
    added := DistributeSends(s, q);
    if |s.ix.byNode.order| < 2 {
      OnlyHolder(s.ix, sha1);
      return;
    }
    var c, commands := ContextOf(s, q), CommandsFor(s, q);
    PlanIsComplete(c, q.max, q.sha1, sha1);
    TotalIsCount(commands, commands.order);
    PlannedArePending(s, q, sha1);
    forall n <- s.ix.byNode.vals
      ensures Gets(CommandOf(c, commands, n), sha1) ==>
                PendingKey(sha1, n.addr) in Distribute(s, q).transfers.pending
      ensures PendingKey(sha1, n.addr) in s.transfers.pending ==>
                PendingKey(sha1, n.addr) in Distribute(s, q).transfers.pending
      ensures NoRoom(c, commands, sha1, n) ==> NoRoomFor(s.ix, added, sha1, n)
    {
      GetsIsPending(s, q, sha1, n);
      PendingBecomes(s, q, PendingKey(sha1, n.addr));
      if NoRoom(c, commands, sha1, n) { NoRoomSent(s, q, sha1, n); }
    }
  }

  // ---- insertions and hits

  /** What remains of a state when these messages have been sent from it. */
  ghost predicate SendsFor(cfg: Config, s: State, s': State, sha1: string, added: seq<Fetch>) {
    var q := Query(false, cfg.redundancy, None, if sha1 == "" then None else Some(sha1), None);
    && Becomes(s, s', added) && (forall m <- added :: SendsOk(s, q, m))
    && (forall i, j :: 0 <= i < j < |added| ==> added[i].to != added[j].to)
    && (sha1 in s.ix.bySHA1.vals ==> Replicated(s.ix, q, s'.transfers.pending, added, sha1))
  }

  lemma ShaQuerySends(cfg: Config, s: State, sha1: string) returns (added: seq<Fetch>)
    requires Ok(s)
    ensures SendsFor(cfg, s, Distribute(s, ShaQuery(cfg, sha1)), sha1, added)
  {
    var q := ShaQuery(cfg, sha1);
    added := DistributeSends(s, q);
    if sha1 in s.ix.bySHA1.vals { var same := DistributeReplicates(s, q, sha1); }
  }

  /** After a hit, with the flag on, the object is replicated; with it off nothing but the counter changes. */
  lemma HitReplicates(cfg: Config, s: State, sha1: string) returns (added: seq<Fetch>)
    requires Ok(s)
    ensures var counted := s.(hits := s.hits + 1);
            if cfg.distributeOnCacheHit then SendsFor(cfg, counted, Step(cfg, s, HitEvent(sha1)), sha1, added)
            else Step(cfg, s, HitEvent(sha1)) == counted
  {
    added := [];
    if cfg.distributeOnCacheHit { added := ShaQuerySends(cfg, s.(hits := s.hits + 1), sha1); }
  }

  /** The object is recorded, and no longer on its way to this builder. */
  ghost predicate Arrived(s: State, s': State, msg: ChangeMessage, node: Builder) {
    && s'.ix == InsertObject(s.ix, msg, node) && s'.hits == s.hits && s'.sent == s.sent
    && s'.transfers.pending == s.transfers.pending - {PendingKey(msg.sha1, node.addr)}
  }

  lemma InsertArrives(s: State, msg: ChangeMessage, node: Builder)
    requires Ok(s) && node in s.ix.byNode.vals && Plain(msg.sha1)
    ensures Ok(Recorded(s, msg, node)) && Arrived(s, Recorded(s, msg, node), msg, node)
    ensures msg.sha1 in Recorded(s, msg, node).ix.bySHA1.vals
  {
    RecordedKeepsOk(s, msg, node);
    T.ClearOk(s.transfers, PendingKey(msg.sha1, node.addr));
    InsertRecords(s.ix, msg, node);
  }

  /** After an insertion, with the flag on, the object is replicated, and nothing is sent when it already was; with the
      flag off nothing is sent. A builder that is not connected inserts nothing. */
  lemma InsertReplicates(cfg: Config, s: State, msg: ChangeMessage, node: Builder)
    returns (arrived: State, added: seq<Fetch>)
    requires Ok(s) && Plain(msg.sha1)
    ensures var s' := Step(cfg, s, InsertEvent(msg, node));
            if node !in s.ix.byNode.vals then s' == s
            else && Arrived(s, arrived, msg, node) && msg.sha1 in arrived.ix.bySHA1.vals
                 && (!cfg.distributeOnInsertion ==> s' == arrived)
                 && (cfg.distributeOnInsertion ==>
                       && SendsFor(cfg, arrived, s', msg.sha1, added)
                       && (|arrived.ix.bySHA1.vals[msg.sha1].nodes| >= cfg.redundancy + 1 ==> s' == arrived))
  {
    arrived, added := s, [];
    if node in s.ix.byNode.vals {
      arrived := Recorded(s, msg, node);
      InsertArrives(s, msg, node);
      if cfg.distributeOnInsertion {
        if |arrived.ix.bySHA1.vals[msg.sha1].nodes| >= cfg.redundancy + 1 {
          NothingSent(cfg, arrived, msg.sha1);
        } else {
          added := ShaQuerySends(cfg, arrived, msg.sha1);
        }
      }
    }
  }

  lemma NothingSent(cfg: Config, s: State, sha1: string)
    requires sha1 in s.ix.bySHA1.vals ==> |s.ix.bySHA1.vals[sha1].nodes| >= cfg.redundancy + 1
    ensures SendsFor(cfg, s, s, sha1, [])
  {
    assert s.sent + [] == s.sent;
  }

  /** The other events send nothing; what each does to the transfers on their way. */
  lemma OthersSendNothing(cfg: Config, s: State, e: Event)
    requires Ok(s) && Enabled(s, e) && !e.InsertEvent? && !e.DistributeEvent? && !e.HitEvent?
    ensures var s' := Step(cfg, s, e);
            && s'.sent == s.sent
            && (e.RemoveEvent? ==> s' == s.(ix := RemoveObject(s.ix, e.msg, e.node)))
            && (e.AddNodeEvent? ==> s' == s.(ix := AddNode(s.ix, e.sync, e.node)))
            && (e.RemoveNodeEvent? ==>
                  if e.node in s.ix.byNode.vals then
                    && s'.ix == RemoveNode(s.ix, e.node) && s'.hits == s.hits
                    && forall k :: k in s'.transfers.pending <==>
                         k in s.transfers.pending && !EndsWith(k, ":" + e.node.addr)
                  else s' == s)
            && (e.TimeoutEvent? ==>
                  s'.ix == s.ix && s'.hits == s.hits && s'.transfers.pending == s.transfers.pending - {e.timer.key})
            && (e.ClearEvent? ==>
                  s'.ix == s.ix && s'.hits == 0 && s'.transfers.pending == {} && s'.transfers.armed == {})
  {
    if e.ClearEvent? { AllArmedArePending(s.transfers); }
  }

  lemma AllArmedArePending(t: T.State)
    requires T.Ok(t)
    ensures t.armed - (set k <- t.timers :: T.Timer(t.timers[k], k)) == {}
  {
    forall x | x in t.armed ensures x in set k <- t.timers :: T.Timer(t.timers[k], k) {
      assert x.key in t.timers && x == T.Timer(t.timers[x.key], x.key);
    }
  }
}
