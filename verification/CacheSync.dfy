/** One builder's connection to the scheduler: the builder changes its cache, messages travel in
    order, and the scheduler updates its index while other builders do the same. */
module CacheSync {
  import opened Collections
  import opened ObjectIndex
  import S = CacheStore

  datatype Msg = SyncMsg(sync: SyncMessage) | ChangeMsg(change: S.Change)

  /** `older` are the caches of earlier connections: each connection makes a new cache, and an old one lives on while
      files it began are being written, with its listeners. */
  datatype System = System(builder: S.State, older: seq<S.State>, connected: bool, channel: seq<Msg>, ix: Index)

  datatype Event =
    | CacheEvent(e: S.Event)                                   // anything the builder's cache does
    | OlderEvent(i: nat, e: S.Event)                           // a write begun for an earlier connection ends
    | ConnectEvent                                             // the socket opens
    | DeliverEvent                                             // the scheduler handles the oldest message
    | OtherInsert(msg: ChangeMessage, other: Builder)          // another builder's messages
    | OtherRemove(msg: ChangeMessage, other: Builder)
    | OtherConnect(sync: SyncMessage, other: Builder)
    | OtherClose(other: Builder)

  function Wrap(changes: seq<S.Change>): (r: seq<Msg>)
    ensures |r| == |changes| && forall i :: 0 <= i < |r| ==> r[i] == ChangeMsg(changes[i])
  {
    seq(|changes|, i requires 0 <= i < |changes| => ChangeMsg(changes[i]))
  }

  function SyncOf(cfg: S.Config, s: S.State): SyncMessage {
    SyncMessage(S.SyncItems(s.cache), cfg.maxSize, s.size)
  }

  /** A listener reports the size of the cache that is current, whichever cache it listens to. */
  function Retold(changes: seq<S.Change>, size: int): (r: seq<S.Change>)
    ensures |r| == |changes|
  {
    if changes == [] then []
    else
      var c := changes[|changes| - 1];
      Retold(changes[..|changes| - 1], size) + [c.(msg := c.msg.(cacheSize := size))]
  }

  function Handle(ix: Index, node: Builder, m: Msg): Index {
    match m
    case SyncMsg(sync) => AddNode(ix, sync, node)
    case ChangeMsg(Added(msg)) => InsertObject(ix, msg, node)
    case ChangeMsg(Removed(msg)) => RemoveObject(ix, msg, node)
  }

  ghost predicate Enabled(node: Builder, sys: System, e: Event) {
    match e
    case CacheEvent(_) => true
    case OlderEvent(i, c) => i < |sys.older| && (c.WrittenEvent? || c.WriteErrorEvent?)
    case ConnectEvent => !sys.connected
    case DeliverEvent => sys.channel != []
    case OtherInsert(_, other) => other != node
    case OtherRemove(_, other) => other != node
    case OtherConnect(sync, other) => other != node && NoDup(Keys(sync.sha1s))
    case OtherClose(other) => other != node
  }

  function Send(sys: System, changes: seq<S.Change>): seq<Msg> {
    if sys.connected then sys.channel + Wrap(changes) else sys.channel
  }

  function Step(cfg: S.Config, node: Builder, sys: System, e: Event): System {
    match e
    case CacheEvent(c) =>
      sys.(builder := S.Step(cfg, sys.builder, c), channel := Send(sys, S.Changes(cfg, sys.builder, c)))
    case OlderEvent(i, c) =>
      if i >= |sys.older| then sys
      else sys.(older := sys.older[i := S.Step(cfg, sys.older[i], c)],
                channel := Send(sys, Retold(S.Changes(cfg, sys.older[i], c), sys.builder.size)))
    case ConnectEvent => sys.(connected := true, channel := sys.channel + [SyncMsg(SyncOf(cfg, sys.builder))])
    case DeliverEvent =>
      if sys.channel == [] then sys else sys.(channel := sys.channel[1..], ix := Handle(sys.ix, node, sys.channel[0]))
    case OtherInsert(msg, other) => sys.(ix := InsertObject(sys.ix, msg, other))
    case OtherRemove(msg, other) => sys.(ix := RemoveObject(sys.ix, msg, other))
    case OtherConnect(sync, other) => sys.(ix := AddNode(sys.ix, sync, other))
    case OtherClose(other) => sys.(ix := RemoveNode(sys.ix, other))
  }

  ghost predicate AllWf(older: seq<S.State>) {
    forall i :: 0 <= i < |older| ==> older[i].cache.Wf()
  }

  /** A connection starts with the builder unknown to the scheduler and nothing in flight; the caches may be in any
      state. */
  ghost predicate Start(node: Builder, sys: System) {
    && sys.builder.cache.Wf() && AllWf(sys.older) && !sys.connected && sys.channel == []
    && Inverse(sys.ix) && node !in sys.ix.byNode.vals
  }

  ghost predicate Run(cfg: S.Config, node: Builder, states: seq<System>, events: seq<Event>) {
    && |states| == |events| + 1
    && Start(node, states[0])
    && forall i :: 0 <= i < |events| ==> Next(cfg, node, states[i], events[i], states[i + 1])
  }

  ghost predicate Next(cfg: S.Config, node: Builder, sys: System, e: Event, sys': System) {
    Enabled(node, sys, e) && sys' == Step(cfg, node, sys, e)
  }

  // ---- replaying what is in flight

  function Entry(ix: Index, node: Builder): Option<NodeData> {
    if node in ix.byNode.vals then Some(ix.byNode.vals[node]) else None
  }

  function ReplayOne(d: Option<NodeData>, m: Msg): Option<NodeData> {
    match m
    case SyncMsg(sync) => if d.Some? then d else Some(NodeFromSync(sync))
    case ChangeMsg(Added(msg)) => if d.Some? then Some(NodeInsert(d.value, msg)) else None
    case ChangeMsg(Removed(msg)) => if d.Some? then Some(NodeRemove(d.value, msg)) else None
  }

  function Replay(d: Option<NodeData>, msgs: seq<Msg>): Option<NodeData> {
    if msgs == [] then d else ReplayOne(Replay(d, msgs[..|msgs| - 1]), msgs[|msgs| - 1])
  }

  /** The scheduler's record of a builder says exactly what the builder has. */
  ghost predicate Agrees(d: Option<NodeData>, b: S.State) {
    d.Some? && NoDup(d.value.sha1s) && Members(d.value.sha1s) == b.cache.vals.Keys && d.value.size == b.size
  }

  ghost predicate InSync(node: Builder, sys: System) {
    Agrees(Replay(Entry(sys.ix, node), sys.channel), sys.builder)
  }

  ghost predicate Listed(d: Option<NodeData>) { d.Some? && NoDup(d.value.sha1s) }

  ghost predicate Inv(node: Builder, sys: System) {
    && sys.builder.cache.Wf() && AllWf(sys.older) && Inverse(sys.ix)
    && (sys.connected ==> Listed(Replay(Entry(sys.ix, node), sys.channel)))
    && (!sys.connected ==> sys.channel == [] && node !in sys.ix.byNode.vals)
    && (forall m <- sys.channel :: m.SyncMsg? ==> NoDup(Keys(m.sync.sha1s)))
  }

  lemma WrapAppend(a: seq<S.Change>, b: seq<S.Change>)
    ensures Wrap(a + b) == Wrap(a) + Wrap(b)
  {}

  lemma {:induction false} ReplayAppend(d: Option<NodeData>, a: seq<Msg>, b: seq<Msg>)
    ensures Replay(d, a + b) == Replay(Replay(d, a), b)
  {
    if b == [] {
      assert a + b == a;
    } else {
      assert (a + b)[..|a + b| - 1] == a + b[..|b| - 1];
      ReplayAppend(d, a, b[..|b| - 1]);
    }
  }

  // ---- each change message carries the change it announces

  lemma AgreesRemove(d: Option<NodeData>, b: S.State, sha1: string)
    requires b.cache.Wf() && Agrees(d, b)
    ensures Agrees(Replay(d, Wrap(S.RemoveChanges(b, sha1))), S.RemoveKey(b, sha1))
  {
    var changes := Wrap(S.RemoveChanges(b, sha1));
    if sha1 in b.cache.vals {
      var m := changes[0];
      assert changes == [m] && [m][..0] == [];
      assert Replay(d, changes) == ReplayOne(Replay(d, []), m);
      RemoveMember(d.value.sha1s, sha1);
      var left := Collections.Remove(d.value.sha1s, sha1);
      forall k ensures k in left <==> k in b.cache.vals.Keys - {sha1} {
        assert k in d.value.sha1s <==> k in Members(d.value.sha1s);
      }
      assert Members(left) == S.RemoveKey(b, sha1).cache.vals.Keys;
    } else {
      assert changes == [];
    }
  }

  lemma {:induction false} AgreesDropped(d: Option<NodeData>, b: S.State, n: nat)
    requires b.cache.Wf() && Agrees(d, b) && n <= |b.cache.order|
    ensures Agrees(Replay(d, Wrap(S.DroppedChanges(b, n))), S.Dropped(b, n))
  {
    S.DroppedWf(b, n);
    if n == 0 {
      assert Wrap(S.DroppedChanges(b, 0)) == [];
      assert b.cache.order[0..] == b.cache.order;
      assert b.cache.vals - Members(b.cache.order[..0]) == b.cache.vals;
      assert S.Dropped(b, 0) == b;
    } else {
      var before, last := S.DroppedChanges(b, n - 1), S.RemoveChanges(S.Dropped(b, n - 1), b.cache.order[n - 1]);
      AgreesDropped(d, b, n - 1);
      S.DroppedWf(b, n - 1);
      S.DropOne(b, n - 1);
      AgreesRemove(Replay(d, Wrap(before)), S.Dropped(b, n - 1), b.cache.order[n - 1]);
      WrapAppend(before, last);
      ReplayAppend(d, Wrap(before), Wrap(last));
    }
  }

  lemma AgreesPut(d: Option<NodeData>, b: S.State, sha1: string, item: S.Item, fileSize: nat)
    requires b.cache.Wf() && Agrees(d, b)
    ensures var m := ChangeMsg(S.Added(ChangeMessage(sha1, fileSize, S.Put(b, sha1, item).size)));
            Agrees(Replay(d, [m]), S.Put(b, sha1, item))
  {
    var m := ChangeMsg(S.Added(ChangeMessage(sha1, fileSize, S.Put(b, sha1, item).size)));
    ReplaySingle(d, m);
    OneMoreKey(d.value.sha1s, b.cache.vals.Keys, sha1);
    assert S.Put(b, sha1, item).cache.vals.Keys == b.cache.vals.Keys + {sha1};
  }

  lemma ReplaySingle(d: Option<NodeData>, m: Msg)
    ensures Replay(d, [m]) == ReplayOne(d, m)
  {
    assert [m][..0] == [];
  }

  lemma OneMoreKey(sha1s: seq<string>, keys: set<string>, sha1: string)
    requires NoDup(sha1s) && Members(sha1s) == keys
    ensures NoDup(if sha1 in sha1s then sha1s else sha1s + [sha1])
    ensures Members(if sha1 in sha1s then sha1s else sha1s + [sha1]) == keys + {sha1}
  {
    NoDupAppend(sha1s, sha1);
    assert sha1 in sha1s <==> sha1 in Members(sha1s);
  }

  lemma AgreesInsert(cfg: S.Config, d: Option<NodeData>, b: S.State, sha1: string, item: S.Item, fileSize: nat)
    requires b.cache.Wf() && Agrees(d, b)
    ensures Agrees(Replay(d, Wrap(S.InsertChanges(cfg, b, sha1, item, fileSize))), S.Insert(cfg, b, sha1, item))
  {
    var full := S.Put(b, sha1, item);
    var added := [S.Added(ChangeMessage(sha1, fileSize, full.size))];
    assert full.cache.Wf() by { S.TotalSet(b.cache, sha1, item); }
    AgreesPut(d, b, sha1, item, fileSize);
    assert Wrap(added) == [ChangeMsg(added[0])];
    if full.size > cfg.maxSize {
      var purged := S.PurgeChanges(full, cfg.purgeSize);
      AgreesDropped(Replay(d, Wrap(added)), full, S.Excess(full, cfg.purgeSize, 0));
      ReplayAppend(d, Wrap(added), Wrap(purged));
      WrapAppend(added, purged);
      assert S.Insert(cfg, b, sha1, item) == S.Purge(full, cfg.purgeSize);
      assert S.InsertChanges(cfg, b, sha1, item, fileSize) == added + purged;
    } else {
      assert S.Insert(cfg, b, sha1, item) == full;
      assert S.InsertChanges(cfg, b, sha1, item, fileSize) == added by { AppendAssoc(added, [], []); }
    }
  }

  /** Whatever the cache does, replaying the messages it sends does the same to the scheduler's record. */
  lemma ChangesAgree(cfg: S.Config, d: Option<NodeData>, b: S.State, e: S.Event)
    requires b.cache.Wf() && Agrees(d, b)
    ensures Agrees(Replay(d, Wrap(S.Changes(cfg, b, e))), S.Step(cfg, b, e))
  {
    match e
    case LoadEvent(name, f, fileSize) => AgreesInsert(cfg, d, b, name, S.Item(f.headerSize, f.bytes), f.statSize);
    case WrittenEvent(sha1, writer, item, stat) => AgreesInsert(cfg, d, b, sha1, item, S.FileSize(item));
    case RemoveEvent(sha1) => AgreesRemove(d, b, sha1);
    case PurgeEvent(target) => AgreesDropped(d, b, S.Excess(b, target, 0));
    case GetEvent(sha1, dontTouch) =>
      assert S.Touch(b, sha1).cache.vals.Keys == b.cache.vals.Keys;
    case _ =>
  }

  // ---- what an older cache announces

  /** The record lists exactly these keys, and this size. */
  ghost predicate Lists(d: Option<NodeData>, keys: set<string>, size: int) {
    Listed(d) && Members(d.value.sha1s) == keys && d.value.size == size
  }

  lemma ListsAdd(d: Option<NodeData>, keys: set<string>, size: int, m: Msg)
    requires Lists(d, keys, size) && m.ChangeMsg? && m.change.Added? && m.change.msg.cacheSize == size
    ensures Lists(ReplayOne(d, m), keys + {m.change.msg.sha1}, size)
  {
    OneMoreKey(d.value.sha1s, keys, m.change.msg.sha1);
  }

  lemma ListsRemove(d: Option<NodeData>, keys: set<string>, size: int, m: Msg)
    requires Lists(d, keys, size) && m.ChangeMsg? && m.change.Removed? && m.change.msg.cacheSize == size
    ensures Lists(ReplayOne(d, m), keys - {m.change.msg.sha1}, size)
  {
    var sha1 := m.change.msg.sha1;
    RemoveMember(d.value.sha1s, sha1);
    var left := Collections.Remove(d.value.sha1s, sha1);
    forall k ensures k in Members(left) <==> k in keys - {sha1} {
      assert k in d.value.sha1s <==> k in Members(d.value.sha1s);
    }
  }

  lemma {:induction false} RetoldAppend(a: seq<S.Change>, b: seq<S.Change>, size: int)
    ensures Retold(a + b, size) == Retold(a, size) + Retold(b, size)
  {
    if b == [] {
      assert a + b == a;
    } else {
      assert (a + b)[..|a + b| - 1] == a + b[..|b| - 1];
      RetoldAppend(a, b[..|b| - 1], size);
    }
  }

  lemma RetoldOne(c: S.Change, size: int)
    ensures Wrap(Retold([c], size)) == [ChangeMsg(c.(msg := c.msg.(cacheSize := size)))]
  {
    assert [c][..0] == [];
  }

  /** Purged by the older cache, gone from the record. */
  lemma {:induction false} ListsDropped(d: Option<NodeData>, keys: set<string>, size: int, prior: S.State, n: nat)
    requires Lists(d, keys, size) && prior.cache.Wf() && n <= |prior.cache.order|
    ensures Lists(Replay(d, Wrap(Retold(S.DroppedChanges(prior, n), size))),
                  keys - Members(prior.cache.order[..n]), size)
  {
    var order := prior.cache.order;
    if n == 0 {
      assert keys - Members(order[..0]) == keys;
    } else {
      var before, last := S.DroppedChanges(prior, n - 1), S.RemoveChanges(S.Dropped(prior, n - 1), order[n - 1]);
      ListsDropped(d, keys, size, prior, n - 1);
      S.DroppedWf(prior, n - 1);
      S.DropOne(prior, n - 1);
      StillThere(prior, n - 1);
      assert last == [last[0]];
      ListsOneLess(d, keys - Members(order[..n - 1]), size, before, last[0]);
      OneLess(keys, order, n);
    }
  }

  lemma OneLess(keys: set<string>, order: seq<string>, n: nat)
    requires 0 < n <= |order|
    ensures keys - Members(order[..n - 1]) - {order[n - 1]} == keys - Members(order[..n])
  {
    assert order[..n] == order[..n - 1] + [order[n - 1]];
  }

  lemma ListsOneLess(d: Option<NodeData>, keys: set<string>, size: int, before: seq<S.Change>, last: S.Change)
    requires Lists(Replay(d, Wrap(Retold(before, size))), keys, size) && last.Removed?
    ensures Lists(Replay(d, Wrap(Retold(before + [last], size))), keys - {last.msg.sha1}, size)
  {
    var m := ChangeMsg(last.(msg := last.msg.(cacheSize := size)));
    RetoldOne(last, size);
    ListsRemove(Replay(d, Wrap(Retold(before, size))), keys, size, m);
    RetoldAppend(before, [last], size);
    WrapAppend(Retold(before, size), Retold([last], size));
    ReplayAppend(d, Wrap(Retold(before, size)), [m]);
    ReplaySingle(Replay(d, Wrap(Retold(before, size))), m);
  }

  /** What goes next is still in the cache, so its removal is announced. */
  lemma StillThere(prior: S.State, n: nat)
    requires prior.cache.Wf() && n < |prior.cache.order|
    ensures var changes := S.RemoveChanges(S.Dropped(prior, n), prior.cache.order[n]);
            |changes| == 1 && changes[0].Removed? && changes[0].msg.sha1 == prior.cache.order[n]
  {
    S.DroppedWf(prior, n);
    var left := S.Dropped(prior, n).cache;
    assert left.order[0] == prior.cache.order[n] && left.order[0] in left.order;
  }

  /** Whether the older cache now has the file, and tells so. */
  predicate Finishes(prior: S.State, c: S.Event) {
    && c.WrittenEvent? && c.sha1 in prior.pending && prior.pending[c.sha1] == c.writer
    && c.stat == Some(S.FileSize(c.item))
  }

  /** What the older cache then purges. */
  function Purged(cfg: S.Config, prior: S.State, c: S.Event): set<string>
    requires c.WrittenEvent?
  {
    var full := S.Put(prior, c.sha1, c.item);
    if full.size > cfg.maxSize then full.cache.vals.Keys - S.Purge(full, cfg.purgeSize).cache.vals.Keys else {}
  }

  /** The write does not matter to the current cache: it has the file too, unless the older cache purges it at once,
      and nothing of what the older cache purges. */
  predicate Harmless(cfg: S.Config, b: S.State, prior: S.State, c: S.Event) {
    Finishes(prior, c) ==>
      && (c.sha1 in b.cache.vals || c.sha1 in Purged(cfg, prior, c))
      && Purged(cfg, prior, c) !! b.cache.vals.Keys
  }

  lemma PurgedAre(cfg: S.Config, prior: S.State, c: S.Event)
    requires prior.cache.Wf() && c.WrittenEvent?
    ensures var full := S.Put(prior, c.sha1, c.item);
            && full.cache.Wf()
            && (full.size > cfg.maxSize ==>
                  Purged(cfg, prior, c) == Members(full.cache.order[..S.Excess(full, cfg.purgeSize, 0)]))
  {
    var full := S.Put(prior, c.sha1, c.item);
    S.TotalSet(prior.cache, c.sha1, c.item);
    var n := S.Excess(full, cfg.purgeSize, 0);
    assert Members(full.cache.order[..n]) <= full.cache.vals.Keys by {
      forall k | k in full.cache.order[..n] ensures k in full.cache.vals { assert k in Members(full.cache.order); }
    }
  }

  /** What it announces. */
  lemma ChangesFinished(cfg: S.Config, prior: S.State, c: S.Event, full: S.State, added: S.Change)
    requires Finishes(prior, c) && full == S.Put(prior, c.sha1, c.item)
    requires added == S.Added(ChangeMessage(c.sha1, S.FileSize(c.item), full.size))
    ensures S.Changes(cfg, prior, c) ==
            if full.size > cfg.maxSize then [added] + S.DroppedChanges(full, S.Excess(full, cfg.purgeSize, 0))
            else [added]
    ensures full.size <= cfg.maxSize ==> Purged(cfg, prior, c) == {}
  {
    assert [added] + [] == [added];
  }

  lemma ListsFinished(cfg: S.Config, d: Option<NodeData>, keys: set<string>, size: int, prior: S.State, c: S.Event)
    requires Lists(d, keys, size) && prior.cache.Wf() && Finishes(prior, c)
    ensures Lists(Replay(d, Wrap(Retold(S.Changes(cfg, prior, c), size))),
                  keys + {c.sha1} - Purged(cfg, prior, c), size)
  {
    var full := S.Put(prior, c.sha1, c.item);
    var added := S.Added(ChangeMessage(c.sha1, S.FileSize(c.item), full.size));
    PurgedAre(cfg, prior, c);
    ChangesFinished(cfg, prior, c, full, added);
    if full.size > cfg.maxSize {
      ListsAddThenDrop(d, keys, size, added, full, S.Excess(full, cfg.purgeSize, 0));
    } else {
      ListsAddOne(d, keys, size, added);
      NothingLess(keys + {c.sha1}, Purged(cfg, prior, c));
    }
  }

  lemma NothingLess(keys: set<string>, less: set<string>)
    requires less == {}
    ensures keys - less == keys
  {}

  lemma ListsAddOne(d: Option<NodeData>, keys: set<string>, size: int, added: S.Change)
    requires Lists(d, keys, size) && added.Added?
    ensures Lists(Replay(d, Wrap(Retold([added], size))), keys + {added.msg.sha1}, size)
  {
    var m := ChangeMsg(added.(msg := added.msg.(cacheSize := size)));
    ListsAdd(d, keys, size, m);
    ReplaySingle(d, m);
    RetoldOne(added, size);
  }

  lemma ListsAddThenDrop(d: Option<NodeData>, keys: set<string>, size: int, added: S.Change, full: S.State, n: nat)
    requires Lists(d, keys, size) && added.Added? && full.cache.Wf() && n <= |full.cache.order|
    ensures Lists(Replay(d, Wrap(Retold([added] + S.DroppedChanges(full, n), size))),
                  keys + {added.msg.sha1} - Members(full.cache.order[..n]), size)
  {
    var first, rest := Retold([added], size), Retold(S.DroppedChanges(full, n), size);
    ListsAddOne(d, keys, size, added);
    ListsDropped(Replay(d, Wrap(first)), keys + {added.msg.sha1}, size, full, n);
    RetoldAppend([added], S.DroppedChanges(full, n), size);
    WrapAppend(first, rest);
    ReplayAppend(d, Wrap(first), Wrap(rest));
  }

  /** Exactly when an older cache's message leaves a record that agrees agreeing. */
  lemma OlderAgrees(cfg: S.Config, d: Option<NodeData>, b: S.State, prior: S.State, c: S.Event)
    requires prior.cache.Wf() && Agrees(d, b) && (c.WrittenEvent? || c.WriteErrorEvent?)
    ensures Agrees(Replay(d, Wrap(Retold(S.Changes(cfg, prior, c), b.size))), b) <==> Harmless(cfg, b, prior, c)
  {
    if Finishes(prior, c) {
      var keys, gone := b.cache.vals.Keys, Purged(cfg, prior, c);
      ListsFinished(cfg, d, keys, b.size, prior, c);
      assert keys + {c.sha1} - gone == keys <==> (c.sha1 in keys || c.sha1 in gone) && gone !! keys;
    } else {
      assert S.Changes(cfg, prior, c) == [];
      assert Wrap([]) == [];
    }
  }

  // ---- the scheduler handles a message as replay says, and other builders do not interfere

  lemma HandleIsReplay(ix: Index, node: Builder, m: Msg)
    requires Inverse(ix) && (m.SyncMsg? ==> NoDup(Keys(m.sync.sha1s)))
    ensures Inverse(Handle(ix, node, m))
    ensures Entry(Handle(ix, node, m), node) == ReplayOne(Entry(ix, node), m)
  {
    match m
    case SyncMsg(sync) => if node !in ix.byNode.vals { AddNodeKeepsInverse(ix, sync, node); }
    case ChangeMsg(Added(msg)) => InsertKeepsInverse(ix, msg, node);
    case ChangeMsg(Removed(msg)) => RemoveKeepsInverse(ix, msg, node);
  }

  lemma OthersKeepEntry(cfg: S.Config, node: Builder, sys: System, e: Event)
    requires Inverse(sys.ix) && Enabled(node, sys, e)
    requires e.OtherInsert? || e.OtherRemove? || e.OtherConnect? || e.OtherClose?
    ensures var after := Step(cfg, node, sys, e);
            && Inverse(after.ix) && Entry(after.ix, node) == Entry(sys.ix, node)
            && after.builder == sys.builder && after.channel == sys.channel && after.connected == sys.connected
  {
    match e
    case OtherInsert(msg, other) => InsertKeepsInverse(sys.ix, msg, other);
    case OtherRemove(msg, other) => RemoveKeepsInverse(sys.ix, msg, other);
    case OtherConnect(sync, other) => if other !in sys.ix.byNode.vals { AddNodeKeepsInverse(sys.ix, sync, other); }
    case OtherClose(other) => RemoveNodeForgets(sys.ix, other);
  }

  lemma SyncKeys(c: JsMap<string, S.Item>, keys: seq<string>)
    ensures Keys(S.SyncItemsOf(c, keys)) == keys
  {
    if keys != [] {
      var rest, k := keys[..|keys| - 1], keys[|keys| - 1];
      SyncKeys(c, rest);
      assert Keys(S.SyncItemsOf(c, rest) + [SyncItem(k, S.SizeOf(c, k))]) == Keys(S.SyncItemsOf(c, rest)) + [k];
      assert keys == rest + [k];
    }
  }

  lemma ConnectAgrees(cfg: S.Config, b: S.State)
    requires b.cache.Wf()
    ensures NoDup(Keys(SyncOf(cfg, b).sha1s))
    ensures Agrees(Replay(None, [SyncMsg(SyncOf(cfg, b))]), b)
  {
    var m := SyncMsg(SyncOf(cfg, b));
    SyncKeys(b.cache, b.cache.order);
    assert [m][..0] == [];
    assert Replay(None, [m]) == ReplayOne(Replay(None, []), m);
    assert Members(b.cache.order) == b.cache.vals.Keys;
  }

  lemma {:induction false} ReplayKeepsListed(d: Option<NodeData>, msgs: seq<Msg>)
    requires Listed(d)
    ensures Listed(Replay(d, msgs))
  {
    if msgs != [] {
      var n := |msgs| - 1;
      ReplayKeepsListed(d, msgs[..n]);
      var before := Replay(d, msgs[..n]).value.sha1s;
      match msgs[n]
      case SyncMsg(_) =>
      case ChangeMsg(Added(msg)) => NoDupAppend(before, msg.sha1);
      case ChangeMsg(Removed(msg)) => RemoveMember(before, msg.sha1);
    }
  }

  lemma SendReplay(node: Builder, sys: System, changes: seq<S.Change>)
    requires Inv(node, sys)
    ensures sys.connected ==>
              && Replay(Entry(sys.ix, node), Send(sys, changes)) ==
                 Replay(Replay(Entry(sys.ix, node), sys.channel), Wrap(changes))
              && Listed(Replay(Entry(sys.ix, node), Send(sys, changes)))
    ensures forall m <- Send(sys, changes) :: m.SyncMsg? ==> NoDup(Keys(m.sync.sha1s))
  {
    if sys.connected {
      ReplayAppend(Entry(sys.ix, node), sys.channel, Wrap(changes));
      ReplayKeepsListed(Replay(Entry(sys.ix, node), sys.channel), Wrap(changes));
    }
  }

  lemma DeliverReplay(cfg: S.Config, node: Builder, sys: System)
    requires Inv(node, sys) && sys.channel != []
    ensures var after := Step(cfg, node, sys, DeliverEvent);
            && Inverse(after.ix)
            && Replay(Entry(after.ix, node), after.channel) == Replay(Entry(sys.ix, node), sys.channel)
  {
    var m, entry := sys.channel[0], Entry(sys.ix, node);
    HandleIsReplay(sys.ix, node, m);
    assert sys.channel == [m] + sys.channel[1..];
    ReplayAppend(entry, [m], sys.channel[1..]);
    ReplaySingle(entry, m);
  }

  lemma ConnectReplay(cfg: S.Config, node: Builder, sys: System)
    requires Inv(node, sys) && !sys.connected
    ensures var after := Step(cfg, node, sys, ConnectEvent);
            && InSync(node, after)
            && forall m <- after.channel :: m.SyncMsg? ==> NoDup(Keys(m.sync.sha1s))
  {
    ConnectAgrees(cfg, sys.builder);
    assert sys.channel + [SyncMsg(SyncOf(cfg, sys.builder))] == [SyncMsg(SyncOf(cfg, sys.builder))];
  }

  lemma StepKeepsInv(cfg: S.Config, node: Builder, sys: System, e: Event)
    requires Inv(node, sys) && Enabled(node, sys, e)
    ensures Inv(node, Step(cfg, node, sys, e))
  {
    match e
    case CacheEvent(c) =>
      S.StepDrift(cfg, sys.builder, c);
      SendReplay(node, sys, S.Changes(cfg, sys.builder, c));
    case OlderEvent(i, c) =>
      S.StepDrift(cfg, sys.older[i], c);
      SendReplay(node, sys, Retold(S.Changes(cfg, sys.older[i], c), sys.builder.size));
    case ConnectEvent => ConnectReplay(cfg, node, sys);
    case DeliverEvent => DeliverReplay(cfg, node, sys);
    case _ => OthersKeepEntry(cfg, node, sys, e);
  }

  ghost predicate StepHarmless(cfg: S.Config, sys: System, e: Event) {
    e.OlderEvent? && e.i < |sys.older| && sys.connected ==> Harmless(cfg, sys.builder, sys.older[e.i], e.e)
  }

  /** Whatever happens, a record that agrees goes on agreeing, unless an older cache's write matters. */
  lemma StepKeepsAgreement(cfg: S.Config, node: Builder, sys: System, e: Event)
    requires Inv(node, sys) && Enabled(node, sys, e) && (sys.connected ==> InSync(node, sys))
    ensures var after := Step(cfg, node, sys, e); (after.connected ==> InSync(node, after)) <==>
            StepHarmless(cfg, sys, e)
  {
    match e
    case CacheEvent(c) =>
      SendReplay(node, sys, S.Changes(cfg, sys.builder, c));
      if sys.connected { ChangesAgree(cfg, Replay(Entry(sys.ix, node), sys.channel), sys.builder, c); }
    case OlderEvent(i, c) =>
      SendReplay(node, sys, Retold(S.Changes(cfg, sys.older[i], c), sys.builder.size));
      if sys.connected { OlderAgrees(cfg, Replay(Entry(sys.ix, node), sys.channel), sys.builder, sys.older[i], c); }
    case ConnectEvent => ConnectReplay(cfg, node, sys);
    case DeliverEvent => DeliverReplay(cfg, node, sys);
    case _ => OthersKeepEntry(cfg, node, sys, e);
  }

  // ---- every run

  lemma {:induction false} RunKeepsInv(cfg: S.Config, node: Builder, states: seq<System>, events: seq<Event>, n: nat)
    requires Run(cfg, node, states, events) && n <= |events|
    ensures Inv(node, states[n])
  {
    if n > 0 {
      RunKeepsInv(cfg, node, states, events, n - 1);
      assert Next(cfg, node, states[n - 1], events[n - 1], states[n - 1 + 1]);
      StepKeepsInv(cfg, node, states[n - 1], events[n - 1]);
    }
  }

  /** The record after the messages in flight, at this point of the run. */
  ghost predicate AgreesAt(node: Builder, states: seq<System>, n: nat)
    requires n < |states|
  {
    states[n].connected ==> InSync(node, states[n])
  }

  ghost predicate HarmlessAt(cfg: S.Config, states: seq<System>, events: seq<Event>, n: nat)
    requires n < |states| && n < |events|
  {
    StepHarmless(cfg, states[n], events[n])
  }

  /** Facts that go on holding exactly as long as nothing goes wrong hold throughout if nothing does. */
  lemma {:induction false} Throughout(holds: seq<bool>, fine: seq<bool>)
    requires |holds| == |fine| + 1 && holds[0]
    requires forall i :: 0 <= i < |fine| && holds[i] ==> (holds[i + 1] <==> fine[i])
    ensures (forall i :: 0 <= i < |holds| ==> holds[i]) <==> (forall i :: 0 <= i < |fine| ==> fine[i])
  {
    var n := |fine|;
    if n > 0 {
      Throughout(holds[..n], fine[..n - 1]);
      assert forall i :: 0 <= i < n ==> holds[i] == holds[..n][i];
      assert forall i :: 0 <= i < n - 1 ==> fine[i] == fine[..n - 1][i];
      assert holds[n - 1] ==> (holds[n] <==> fine[n - 1]) by {
        assert holds[n - 1] ==> (holds[n - 1 + 1] <==> fine[n - 1]);
      }
    }
  }

  lemma AgreesNext(cfg: S.Config, node: Builder, states: seq<System>, events: seq<Event>, n: nat)
    requires Run(cfg, node, states, events) && n < |events| && AgreesAt(node, states, n)
    ensures AgreesAt(node, states, n + 1) <==> HarmlessAt(cfg, states, events, n)
  {
    RunKeepsInv(cfg, node, states, events, n);
    assert Next(cfg, node, states[n], events[n], states[n + 1]);
    StepKeepsAgreement(cfg, node, states[n], events[n]);
  }

  /** Distributed agreement: the scheduler's record after the messages still in flight is the builder's key set and
      size at every point of a run, if and only if no write begun for an earlier connection ends in a way that
      matters to the current cache. */
  lemma Agreement(cfg: S.Config, node: Builder, states: seq<System>, events: seq<Event>)
    requires Run(cfg, node, states, events)
    ensures (forall n :: 0 <= n <= |events| ==> AgreesAt(node, states, n)) <==>
            (forall n :: 0 <= n < |events| ==> HarmlessAt(cfg, states, events, n))
  {
    var holds := seq(|states|, i requires 0 <= i < |states| => AgreesAt(node, states, i));
    var fine := seq(|events|, i requires 0 <= i < |events| => HarmlessAt(cfg, states, events, i));
    forall i | 0 <= i < |fine| && holds[i] ensures holds[i + 1] <==> fine[i] {
      AgreesNext(cfg, node, states, events, i);
    }
    Throughout(holds, fine);
    assert forall n :: 0 <= n <= |events| ==> AgreesAt(node, states, n) == holds[n];
    assert forall n :: 0 <= n < |events| ==> HarmlessAt(cfg, states, events, n) == fine[n];
  }

  /** Nothing is being written for an earlier connection. */
  ghost predicate Quiet(sys: System) {
    forall i :: 0 <= i < |sys.older| ==> sys.older[i].pending == map[]
  }

  lemma {:induction false} QuietStays(cfg: S.Config, node: Builder, states: seq<System>, events: seq<Event>, k: nat,
      n: nat)
    requires Run(cfg, node, states, events) && k <= n <= |events| && Quiet(states[k])
    ensures Quiet(states[n])
  {
    if k < n {
      QuietStays(cfg, node, states, events, k, n - 1);
      assert Next(cfg, node, states[n - 1], events[n - 1], states[n - 1 + 1]);
    }
  }

  /** If nothing is being written for an earlier connection when this one opens, the record after the messages in
      flight is right from then on; once nothing is in flight, the record and the by-object index say so already. */
  lemma AgreementWhenQuiet(cfg: S.Config, node: Builder, states: seq<System>, events: seq<Event>, k: nat, n: nat)
    requires Run(cfg, node, states, events) && k < n <= |events| && events[k].ConnectEvent? && Quiet(states[k])
    ensures states[n].connected && InSync(node, states[n])
    ensures states[n].channel == [] ==>
              && Agrees(Entry(states[n].ix, node), states[n].builder)
              && forall s :: ShaHas(states[n].ix.bySHA1, s, node) <==> s in states[n].builder.cache.vals
  {
    InSyncAfter(cfg, node, states, events, k, n);
    RunKeepsInv(cfg, node, states, events, n);
    if states[n].channel == [] { IndexAgrees(node, states[n]); }
  }

  lemma {:induction false} InSyncAfter(cfg: S.Config, node: Builder, states: seq<System>, events: seq<Event>, k: nat,
      n: nat)
    requires Run(cfg, node, states, events) && k < n <= |events| && events[k].ConnectEvent? && Quiet(states[k])
    ensures states[n].connected && InSync(node, states[n])
    decreases n
  {
    var m := n - 1;
    RunKeepsInv(cfg, node, states, events, m);
    assert Next(cfg, node, states[m], events[m], states[m + 1]);
    QuietStays(cfg, node, states, events, k, m);
    if m > k {
      InSyncAfter(cfg, node, states, events, k, m);
    }
    StepKeepsAgreement(cfg, node, states[m], events[m]);
  }

  lemma IndexAgrees(node: Builder, sys: System)
    requires Inv(node, sys) && InSync(node, sys) && sys.channel == []
    ensures Agrees(Entry(sys.ix, node), sys.builder)
    ensures forall s :: ShaHas(sys.ix.bySHA1, s, node) <==> s in sys.builder.cache.vals
  {
    forall s ensures ShaHas(sys.ix.bySHA1, s, node) <==> s in sys.builder.cache.vals {
      assert ShaHas(sys.ix.bySHA1, s, node) <==> NodeHas(sys.ix, node, s);
      assert s in sys.ix.byNode.vals[node].sha1s <==> s in Members(sys.ix.byNode.vals[node].sha1s);
    }
  }

  /** The connection opens, the write of an older cache ends and it purges to make room: the record loses what the
      builder still has, and lists what it does not. */
  lemma OlderPurges(cfg: S.Config, node: Builder, sys: System, c: S.Event)
    returns (states: seq<System>, events: seq<Event>)
    requires Start(node, sys) && |sys.older| == 1 && Finishes(sys.older[0], c)
    ensures Run(cfg, node, states, events) && states[0] == sys && |events| == 2
    ensures states[2].connected && states[2].builder == sys.builder
    ensures Lists(Replay(Entry(states[2].ix, node), states[2].channel),
                  sys.builder.cache.vals.Keys + {c.sha1} - Purged(cfg, sys.older[0], c), sys.builder.size)
  {
    var next := Step(cfg, node, sys, ConnectEvent);
    ConnectReplay(cfg, node, sys);
    StepKeepsInv(cfg, node, sys, ConnectEvent);
    OlderLists(cfg, node, next, c);
    TwoSteps(cfg, node, sys, ConnectEvent, OlderEvent(0, c));
    states, events := [sys, next, Step(cfg, node, next, OlderEvent(0, c))], [ConnectEvent, OlderEvent(0, c)];
  }

  /** A full older cache holds what the current one has loaded, and is still writing another file. */
  lemma OlderPurgesExample(k: string, w: string, node: Builder)
    returns (cfg: S.Config, states: seq<System>, events: seq<Event>)
    requires k != w
    ensures Run(cfg, node, states, events) && |events| == 2
    ensures states[2].connected && states[2].builder.cache.vals.Keys == {k}
    ensures Lists(Replay(Entry(states[2].ix, node), states[2].channel), {w}, states[2].builder.size)
  {
    var item := S.Item(6, []);
    cfg := S.Config(10, 10);
    var b := S.State(JsMap([k], map[k := item]), map[], 10);
    var prior := b.(pending := map[w := 0]);
    var c := S.WrittenEvent(w, 0, item, Some(10));
    assert S.FileSize(item) == 10;
    PurgesK(cfg, prior, k, w, item);
    states, events := OlderPurges(cfg, node, System(b, [prior], false, [], Index(JsMap([], map[]), JsMap([], map[]))),
      c);
    assert {k} + {w} - {k} == {w};
  }

  lemma TwoSteps(cfg: S.Config, node: Builder, sys: System, e: Event, f: Event)
    requires Start(node, sys) && Enabled(node, sys, e) && Enabled(node, Step(cfg, node, sys, e), f)
    ensures var next := Step(cfg, node, sys, e); Run(cfg, node, [sys, next, Step(cfg, node, next, f)], [e, f])
  {}

  lemma OlderLists(cfg: S.Config, node: Builder, sys: System, c: S.Event)
    requires Inv(node, sys) && sys.connected && InSync(node, sys) && |sys.older| == 1 && Finishes(sys.older[0], c)
    ensures var after := Step(cfg, node, sys, OlderEvent(0, c));
            after.connected && after.builder == sys.builder
            && Lists(Replay(Entry(after.ix, node), after.channel),
                     sys.builder.cache.vals.Keys + {c.sha1} - Purged(cfg, sys.older[0], c), sys.builder.size)
  {
    var prior := sys.older[0];
    SendReplay(node, sys, Retold(S.Changes(cfg, prior, c), sys.builder.size));
    ListsFinished(cfg, Replay(Entry(sys.ix, node), sys.channel), sys.builder.cache.vals.Keys, sys.builder.size, prior,
      c);
  }

  lemma PurgesK(cfg: S.Config, prior: S.State, k: string, w: string, item: S.Item)
    requires k != w && cfg == S.Config(10, 10) && S.FileSize(item) == 10
    requires prior == S.State(JsMap([k], map[k := item]), map[w := 0], 10)
    ensures Purged(cfg, prior, S.WrittenEvent(w, 0, item, Some(10))) == {k}
  {
    var full := S.Put(prior, w, item);
    assert full.cache.order == [k, w] && full.size == 20;
    assert S.Dropped(full, 0).size == 20 by { assert full.cache.order[..0] == []; }
    assert S.Dropped(full, 1).size == 10 by {
      assert full.cache.order[..1] == [k] && [k][..0] == [];
      assert S.SumOf(full.cache, [k]) == S.SumOf(full.cache, []) + S.SizeOf(full.cache, k);
    }
    assert S.Excess(full, 10, 0) == 1;
    PurgedAre(cfg, prior, S.WrittenEvent(w, 0, item, Some(10)));
  }

  // ---- the builder's maximum

  lemma {:induction false} ReplayKeepsMax(d: Option<NodeData>, msgs: seq<Msg>)
    requires d.Some?
    ensures Replay(d, msgs).Some? && Replay(d, msgs).value.maxSize == d.value.maxSize
  {
    if msgs != [] { ReplayKeepsMax(d, msgs[..|msgs| - 1]); }
  }

  ghost predicate MaxKnown(cfg: S.Config, node: Builder, sys: System) {
    sys.connected ==>
      var d := Replay(Entry(sys.ix, node), sys.channel);
      d.Some? && d.value.maxSize == cfg.maxSize
  }

  lemma StepKeepsMax(cfg: S.Config, node: Builder, sys: System, e: Event)
    requires Inv(node, sys) && Enabled(node, sys, e) && MaxKnown(cfg, node, sys)
    ensures MaxKnown(cfg, node, Step(cfg, node, sys, e))
  {
    var d := Replay(Entry(sys.ix, node), sys.channel);
    match e
    case CacheEvent(c) =>
      SendReplay(node, sys, S.Changes(cfg, sys.builder, c));
      if sys.connected { ReplayKeepsMax(d, Wrap(S.Changes(cfg, sys.builder, c))); }
    case OlderEvent(i, c) =>
      SendReplay(node, sys, Retold(S.Changes(cfg, sys.older[i], c), sys.builder.size));
      if sys.connected { ReplayKeepsMax(d, Wrap(Retold(S.Changes(cfg, sys.older[i], c), sys.builder.size))); }
    case ConnectEvent =>
      ReplaySingle(None, SyncMsg(SyncOf(cfg, sys.builder)));
      assert sys.channel + [SyncMsg(SyncOf(cfg, sys.builder))] == [SyncMsg(SyncOf(cfg, sys.builder))];
    case DeliverEvent => DeliverReplay(cfg, node, sys);
    case _ => OthersKeepEntry(cfg, node, sys, e);
  }

  lemma {:induction false} RunKeepsMax(cfg: S.Config, node: Builder, states: seq<System>, events: seq<Event>, n: nat)
    requires Run(cfg, node, states, events) && n <= |events|
    ensures MaxKnown(cfg, node, states[n])
  {
    if n > 0 {
      RunKeepsMax(cfg, node, states, events, n - 1);
      RunKeepsInv(cfg, node, states, events, n - 1);
      assert Next(cfg, node, states[n - 1], events[n - 1], states[n - 1 + 1]);
      StepKeepsMax(cfg, node, states[n - 1], events[n - 1]);
    }
  }

  /** At every point of every run a builder that the scheduler knows is recorded with its own maximum. */
  lemma MaxIsTheBuilders(cfg: S.Config, node: Builder, states: seq<System>, events: seq<Event>, n: nat)
    requires Run(cfg, node, states, events) && n <= |events| && node in states[n].ix.byNode.vals
    ensures states[n].ix.byNode.vals[node].maxSize == cfg.maxSize
  {
    RunKeepsMax(cfg, node, states, events, n);
    RunKeepsInv(cfg, node, states, events, n);
    ReplayKeepsMax(Entry(states[n].ix, node), states[n].channel);
  }
}
