/** A builder's on-disk object cache: byte accounting, least-recently-used order, and the
    "added"/"removed" events every change emits. */
module CacheStore {
  import opened Collections
  import opened ObjectIndex

  /** A cached response: the length of its JSON header and the stored length of each of its files. */
  datatype Item = Item(headerSize: nat, bytes: seq<nat>)

  function ContentsSize(bytes: seq<nat>): nat {
    if bytes == [] then 0 else ContentsSize(bytes[..|bytes| - 1]) + bytes[|bytes| - 1]
  }

  function FileSize(item: Item): nat {
    4 + item.headerSize + ContentsSize(item.bytes)
  }

  /** `pending` maps a sha1 being written to the identity of its writer. */
  datatype State = State(cache: JsMap<string, Item>, pending: map<string, nat>, size: int)
  datatype Config = Config(maxSize: nat, purgeSize: nat)

  const INITIAL := State(JsMap([], map[]), map[], 0)

  /** An event as the scheduler is told about it, with the size the cache has at that moment. */
  datatype Change = Added(msg: ChangeMessage) | Removed(msg: ChangeMessage)

  function SizeOf(c: JsMap<string, Item>, k: string): nat {
    if k in c.vals then FileSize(c.vals[k]) else 0
  }

  function SumOf(c: JsMap<string, Item>, keys: seq<string>): nat {
    if keys == [] then 0 else SumOf(c, keys[..|keys| - 1]) + SizeOf(c, keys[|keys| - 1])
  }

  function Total(c: JsMap<string, Item>): nat { SumOf(c, c.order) }

  // ---- operations

  function RemoveKey(s: State, sha1: string): State {
    if sha1 !in s.cache.vals then s
    else s.(cache := s.cache.Delete(sha1), size := s.size - FileSize(s.cache.vals[sha1]))
  }

  function RemoveChanges(s: State, sha1: string): seq<Change> {
    if sha1 !in s.cache.vals then []
    else [Removed(ChangeMessage(sha1, FileSize(s.cache.vals[sha1]), RemoveKey(s, sha1).size))]
  }

  /** The state without its n least recent entries. */
  function Dropped(s: State, n: nat): State
    requires n <= |s.cache.order|
  {
    s.(cache := JsMap(s.cache.order[n..], s.cache.vals - Members(s.cache.order[..n])),
       size := s.size - SumOf(s.cache, s.cache.order[..n]))
  }

  function DroppedChanges(s: State, n: nat): seq<Change>
    requires n <= |s.cache.order|
  {
    if n == 0 then []
    else DroppedChanges(s, n - 1) + RemoveChanges(Dropped(s, n - 1), s.cache.order[n - 1])
  }

  /** How many of the least recent entries, from n on, must go to get down to the target. */
  function Excess(s: State, target: int, n: nat): (m: nat)
    requires n <= |s.cache.order|
    ensures n <= m <= |s.cache.order|
    decreases |s.cache.order| - n
  {
    if n == |s.cache.order| || Dropped(s, n).size <= target then n else Excess(s, target, n + 1)
  }

  function Purge(s: State, target: int): State {
    Dropped(s, Excess(s, target, 0))
  }

  function PurgeChanges(s: State, target: int): seq<Change> {
    DroppedChanges(s, Excess(s, target, 0))
  }

  function Put(s: State, sha1: string, item: Item): State {
    s.(cache := s.cache.Set(sha1, item), size := s.size + FileSize(item))
  }

  function Insert(cfg: Config, s: State, sha1: string, item: Item): State {
    var after := Put(s, sha1, item);
    if after.size > cfg.maxSize then Purge(after, cfg.purgeSize) else after
  }

  function InsertChanges(cfg: Config, s: State, sha1: string, item: Item, fileSize: nat): seq<Change> {
    var after := Put(s, sha1, item);
    [Added(ChangeMessage(sha1, fileSize, after.size))] +
    if after.size > cfg.maxSize then PurgeChanges(after, cfg.purgeSize) else []
  }

  /** What loadFile reads from disk: header length, recorded sha1, stored lengths, actual length. */
  datatype DiskFile = DiskFile(headerSize: nat, sha1: string, bytes: seq<nat>, statSize: nat)

  predicate Loadable(name: string, f: DiskFile, fileSize: nat) {
    && |name| == 40
    && 10 <= f.headerSize <= 1024 * 16
    && f.sha1 == name
    && FileSize(Item(f.headerSize, f.bytes)) == fileSize
  }

  function Touch(s: State, sha1: string): State {
    if sha1 !in s.cache.vals then s
    else s.(cache := s.cache.Delete(sha1).Set(sha1, s.cache.vals[sha1]))
  }

  datatype Event =
    | LoadEvent(name: string, file: DiskFile, fileSize: nat)
    | AddEvent(sha1: string, writer: nat)
    | WrittenEvent(sha1: string, writer: nat, item: Item, stat: Option<nat>)
    | WriteErrorEvent(sha1: string)
    | GetEvent(sha1: string, dontTouch: bool)
    | RemoveEvent(sha1: string)
    | PurgeEvent(target: int)

  function Step(cfg: Config, s: State, e: Event): State {
    match e
    case LoadEvent(name, f, fileSize) =>
      if name !in s.cache.vals && Loadable(name, f, fileSize)
        then Insert(cfg, s, name, Item(f.headerSize, f.bytes)) else s
    case AddEvent(sha1, writer) =>
      if sha1 == "" || sha1 in s.pending || sha1 in s.cache.vals then s else s.(pending := s.pending[sha1 := writer])
    case WrittenEvent(sha1, writer, item, stat) =>
      if sha1 !in s.pending || s.pending[sha1] != writer then s
      else
        var after := if stat == Some(FileSize(item)) then Insert(cfg, s, sha1, item) else s;
        after.(pending := after.pending - {sha1})
    case WriteErrorEvent(sha1) => s.(pending := s.pending - {sha1})
    case GetEvent(sha1, dontTouch) => if dontTouch then s else Touch(s, sha1)
    case RemoveEvent(sha1) => RemoveKey(s, sha1)
    case PurgeEvent(target) => Purge(s, target)
  }

  function Changes(cfg: Config, s: State, e: Event): seq<Change> {
    match e
    case LoadEvent(name, f, fileSize) =>
      if name !in s.cache.vals && Loadable(name, f, fileSize)
      then InsertChanges(cfg, s, name, Item(f.headerSize, f.bytes), f.statSize) else []
    case WrittenEvent(sha1, writer, item, stat) =>
      if sha1 in s.pending && s.pending[sha1] == writer && stat == Some(FileSize(item))
      then InsertChanges(cfg, s, sha1, item, FileSize(item)) else []
    case RemoveEvent(sha1) => RemoveChanges(s, sha1)
    case PurgeEvent(target) => PurgeChanges(s, target)
    case _ => []
  }

  /** What syncData reports: every key with its size, in order. */
  function SyncItemsOf(c: JsMap<string, Item>, keys: seq<string>): seq<SyncItem> {
    if keys == [] then []
    else SyncItemsOf(c, keys[..|keys| - 1]) + [SyncItem(keys[|keys| - 1], SizeOf(c, keys[|keys| - 1]))]
  }

  function SyncItems(c: JsMap<string, Item>): seq<SyncItem> { SyncItemsOf(c, c.order) }

  // ---- byte accounting

  lemma {:induction false} SumAppend(c: JsMap<string, Item>, a: seq<string>, b: seq<string>)
    ensures SumOf(c, a + b) == SumOf(c, a) + SumOf(c, b)
  {
    if b == [] {
      assert a + b == a;
    } else {
      assert (a + b)[..|a + b| - 1] == a + b[..|b| - 1];
      SumAppend(c, a, b[..|b| - 1]);
    }
  }

  lemma {:induction false} SumSame(c: JsMap<string, Item>, d: JsMap<string, Item>, keys: seq<string>)
    requires forall k <- keys :: SizeOf(c, k) == SizeOf(d, k)
    ensures SumOf(c, keys) == SumOf(d, keys)
  {
    if keys != [] {
      assert forall k <- keys[..|keys| - 1] :: k in keys;
      SumSame(c, d, keys[..|keys| - 1]);
    }
  }

  lemma OrderSplit(c: JsMap<string, Item>, k: string) returns (a: seq<string>, b: seq<string>)
    requires c.Wf() && k in c.vals
    ensures c.order == a + [k] + b && k !in a && k !in b
    ensures Collections.Remove(c.order, k) == a + b
  {
    var i := FirstOccurrence(c.order, k);
    a, b := c.order[..i], c.order[i + 1..];
    assert c.order == a + [k] + b;
    NoDupConcat(a + [k], b);
    assert k in a + [k];
    RemoveSplit(a, k, b);
  }

  lemma TotalDelete(c: JsMap<string, Item>, k: string)
    requires c.Wf()
    ensures c.Delete(k).Wf() && Total(c.Delete(k)) == Total(c) - SizeOf(c, k)
  {
    c.DeleteWf(k);
    if k in c.vals {
      var a, b := OrderSplit(c, k);
      SumAppend(c, a + [k], b);
      SumAppend(c, a, [k]);
      SumAppend(c, a, b);
      assert [k][..0] == [];
      SumSame(c, c.Delete(k), a + b);
    }
  }

  lemma TotalReset(c: JsMap<string, Item>, k: string, item: Item)
    requires c.Wf() && k in c.vals
    ensures Total(c.Set(k, item)) == Total(c) - SizeOf(c, k) + FileSize(item)
  {
    var d := c.Set(k, item);
    var a, b := OrderSplit(c, k);
    SumAround(c, a, k, b);
    SumAround(d, a, k, b);
    SumSame(c, d, a);
    SumSame(c, d, b);
  }

  lemma SumAround(c: JsMap<string, Item>, a: seq<string>, k: string, b: seq<string>)
    ensures SumOf(c, a + [k] + b) == SumOf(c, a) + SizeOf(c, k) + SumOf(c, b)
  {
    SumAppend(c, a + [k], b);
    SumAppend(c, a, [k]);
    assert [k][..0] == [];
  }

  lemma TotalSet(c: JsMap<string, Item>, k: string, item: Item)
    requires c.Wf()
    ensures c.Set(k, item).Wf() && Total(c.Set(k, item)) == Total(c) - SizeOf(c, k) + FileSize(item)
  {
    c.SetWf(k, item);
    if k in c.vals {
      TotalReset(c, k, item);
    } else {
      var d := c.Set(k, item);
      assert d.order[..|d.order| - 1] == c.order;
      SumSame(c, d, c.order);
    }
  }

  /** Dropping n + 1 entries is dropping n and then removing the least recent one left. */
  lemma DropOne(s: State, n: nat)
    requires s.cache.Wf() && n < |s.cache.order|
    requires Dropped(s, n).cache.Wf()
    ensures RemoveKey(Dropped(s, n), s.cache.order[n]) == Dropped(s, n + 1)
    ensures Dropped(s, n + 1).cache.Wf()
  {
    var k, d := s.cache.order[n], Dropped(s, n);
    assert d.cache.order[0] == k && d.cache.order[1..] == s.cache.order[n + 1..];
    assert k in d.cache.order;
    assert s.cache.order[..n + 1] == s.cache.order[..n] + [k];
    assert Members(s.cache.order[..n + 1]) == Members(s.cache.order[..n]) + {k};
    assert s.cache.vals - Members(s.cache.order[..n]) - {k} == s.cache.vals - Members(s.cache.order[..n + 1]);
    d.cache.DeleteWf(k);
    assert Collections.Remove(d.cache.order, k) == d.cache.order[1..];
  }

  lemma {:induction false} DroppedWf(s: State, n: nat)
    requires s.cache.Wf() && n <= |s.cache.order|
    ensures Dropped(s, n).cache.Wf()
    ensures Dropped(s, n).size - Total(Dropped(s, n).cache) == s.size - Total(s.cache)
    ensures forall k <- Dropped(s, n).cache.vals :: Dropped(s, n).cache.vals[k] == s.cache.vals[k]
  {
    if n == 0 {
      assert s.cache.order[0..] == s.cache.order;
      assert s.cache.vals - Members(s.cache.order[..0]) == s.cache.vals;
    } else {
      DroppedWf(s, n - 1);
      DropOne(s, n - 1);
      TotalDelete(Dropped(s, n - 1).cache, s.cache.order[n - 1]);
    }
  }

  /** The bytes counted but not stored. */
  function Drift(s: State): int { s.size - Total(s.cache) }

  /** Bytes are counted twice exactly when a finished write replaces an entry that is already there. */
  function Overwritten(s: State, e: Event): nat {
    match e
    case WrittenEvent(sha1, writer, item, stat) =>
      if sha1 in s.pending && s.pending[sha1] == writer && stat == Some(FileSize(item))
        then SizeOf(s.cache, sha1) else 0
    case _ => 0
  }

  lemma InsertDrift(cfg: Config, s: State, sha1: string, item: Item)
    requires s.cache.Wf()
    ensures Insert(cfg, s, sha1, item).cache.Wf()
    ensures Drift(Insert(cfg, s, sha1, item)) == Drift(s) + SizeOf(s.cache, sha1)
  {
    TotalSet(s.cache, sha1, item);
    var after := Put(s, sha1, item);
    DroppedWf(after, Excess(after, cfg.purgeSize, 0));
  }

  /** Every step keeps the books except such a replacement, which adds the replaced entry's size for good. */
  lemma StepDrift(cfg: Config, s: State, e: Event)
    requires s.cache.Wf()
    ensures Step(cfg, s, e).cache.Wf()
    ensures Drift(Step(cfg, s, e)) == Drift(s) + Overwritten(s, e)
  {
    match e
    case LoadEvent(name, f, fileSize) => InsertDrift(cfg, s, name, Item(f.headerSize, f.bytes));
    case WrittenEvent(sha1, writer, item, stat) => InsertDrift(cfg, s, sha1, item);
    case GetEvent(sha1, dontTouch) => TouchDrift(s, sha1);
    case RemoveEvent(sha1) => TotalDelete(s.cache, sha1);
    case PurgeEvent(target) => DroppedWf(s, Excess(s, target, 0));
    case _ =>
  }

  lemma TouchDrift(s: State, sha1: string)
    requires s.cache.Wf()
    ensures Touch(s, sha1).cache.Wf() && Drift(Touch(s, sha1)) == Drift(s)
  {
    if sha1 in s.cache.vals {
      TotalDelete(s.cache, sha1);
      TotalSet(s.cache.Delete(sha1), sha1, s.cache.vals[sha1]);
    }
  }

  lemma {:induction false} ExcessIsLeast(s: State, target: int, n: nat)
    requires n <= |s.cache.order|
    ensures var m := Excess(s, target, n);
            && (forall j: nat :: n <= j < m ==> Dropped(s, j).size > target)
            && (m < |s.cache.order| ==> Dropped(s, m).size <= target)
    decreases |s.cache.order| - n
  {
    if n < |s.cache.order| { ExcessIsLeast(s, target, n + 1); }
  }

  /** A purge removes exactly the shortest least-recent run of entries that gets within the target:
      the rest keep their place and contents, and one entry fewer would not have been enough. */
  lemma PurgeIsShortest(s: State, target: int) returns (n: nat)
    requires s.cache.Wf()
    ensures n <= |s.cache.order|
    ensures var after := Purge(s, target);
            && after.cache.Wf() && after.cache.order == s.cache.order[n..]
            && (forall k <- after.cache.vals :: after.cache.vals[k] == s.cache.vals[k])
            && after.size == s.size - SumOf(s.cache, s.cache.order[..n])
            && (after.size <= target || after.cache.order == [])
    ensures forall m: nat :: m < n ==> s.size - SumOf(s.cache, s.cache.order[..m]) > target
  {
    n := Excess(s, target, 0);
    DroppedWf(s, n);
    ExcessIsLeast(s, target, 0);
    forall m: nat | m < n ensures s.size - SumOf(s.cache, s.cache.order[..m]) > target {
      assert Dropped(s, m).size > target;
    }
  }

  /** Clearing empties the cache whatever the books say, and leaves exactly the miscounted bytes. */
  lemma ClearEmpties(s: State)
    requires s.cache.Wf() && Drift(s) >= 0
    ensures Purge(s, 0).cache.order == [] && Purge(s, 0).size == Drift(s)
  {
    var n := Excess(s, 0, 0);
    DroppedWf(s, n);
    ExcessIsLeast(s, 0, 0);
    if n < |s.cache.order| { NonEmptyTotal(Dropped(s, n).cache); }
  }

  lemma NonEmptyTotal(c: JsMap<string, Item>)
    requires c.Wf() && c.order != []
    ensures Total(c) >= 4
  {
    assert c.order[|c.order| - 1] in c.order;
  }

  // ---- runs

  ghost predicate Next(cfg: Config, s: State, e: Event, s': State) {
    s' == Step(cfg, s, e)
  }

  ghost predicate Run(cfg: Config, states: seq<State>, events: seq<Event>) {
    && |states| == |events| + 1
    && states[0] == INITIAL
    && forall i :: 0 <= i < |events| ==> Next(cfg, states[i], events[i], states[i + 1])
  }

  function DoubleCounted(states: seq<State>, events: seq<Event>, n: nat): nat
    requires n <= |events| <= |states|
  {
    if n == 0 then 0 else DoubleCounted(states, events, n - 1) + Overwritten(states[n - 1], events[n - 1])
  }

  lemma NextDrift(cfg: Config, s: State, e: Event, s': State)
    requires Next(cfg, s, e, s') && s.cache.Wf()
    ensures s'.cache.Wf() && s'.size - Total(s'.cache) == s.size - Total(s.cache) + Overwritten(s, e)
  {
    StepDrift(cfg, s, e);
  }

  /** In every run, `size` is the stored bytes plus everything ever counted twice. */
  lemma {:induction false} RunDrift(cfg: Config, states: seq<State>, events: seq<Event>, n: nat)
    requires Run(cfg, states, events) && n <= |events|
    ensures states[n].cache.Wf()
    ensures states[n].size == Total(states[n].cache) + DoubleCounted(states, events, n)
  {
    if n > 0 {
      RunDrift(cfg, states, events, n - 1);
      DriftOnce(cfg, states, events, n - 1, n);
    }
  }

  lemma DriftOnce(cfg: Config, states: seq<State>, events: seq<Event>, m: nat, n: nat)
    requires Run(cfg, states, events) && m < |events| && n == m + 1
    requires states[m].cache.Wf() && states[m].size == Total(states[m].cache) + DoubleCounted(states, events, m)
    ensures states[n].cache.Wf() && states[n].size == Total(states[n].cache) + DoubleCounted(states, events, n)
  {
    assert Next(cfg, states[m], events[m], states[m + 1]);
    NextDrift(cfg, states[m], events[m], states[n]);
  }

  /** No file is loaded under a key that is being written. */
  ghost predicate NoLoadWhilePending(states: seq<State>, events: seq<Event>) {
    forall i :: 0 <= i < |events| && i < |states| && events[i].LoadEvent? ==> events[i].name !in states[i].pending
  }

  /** Then the books are exact, and the cache never rests above both its limits. */
  lemma {:induction false} RunExact(cfg: Config, states: seq<State>, events: seq<Event>, n: nat)
    requires Run(cfg, states, events) && n <= |events|
    requires NoLoadWhilePending(states, events)
    ensures states[n].cache.Wf() && states[n].size == Total(states[n].cache)
    ensures forall k <- states[n].pending :: k !in states[n].cache.vals
    ensures states[n].size <= cfg.maxSize || states[n].size <= cfg.purgeSize
  {
    if n > 0 {
      RunExact(cfg, states, events, n - 1);
      var s, e := states[n - 1], events[n - 1];
      assert Next(cfg, s, e, states[n - 1 + 1]);
      StepDrift(cfg, s, e);
      StepExact(cfg, s, e);
    }
  }

  lemma PurgeWithin(s: State, target: nat)
    requires s.cache.Wf() && Drift(s) == 0
    ensures Purge(s, target).size <= target
    ensures forall k <- Purge(s, target).cache.vals :: k in s.cache.vals
  {
    var n := PurgeIsShortest(s, target);
    DroppedWf(s, Excess(s, target, 0));
  }

  lemma InsertBounded(cfg: Config, s: State, sha1: string, item: Item)
    requires s.cache.Wf() && Drift(s) == 0 && sha1 !in s.cache.vals
    ensures var after := Insert(cfg, s, sha1, item);
            && (after.size <= cfg.maxSize || after.size <= cfg.purgeSize)
            && after.pending == s.pending
            && forall k <- after.cache.vals :: k in s.cache.vals || k == sha1
  {
    var full := Put(s, sha1, item);
    assert full.cache.Wf() && Drift(full) == 0 by { TotalSet(s.cache, sha1, item); }
    PurgeWithin(full, cfg.purgeSize);
    assert forall k <- full.cache.vals :: k in s.cache.vals || k == sha1;
    if full.size > cfg.maxSize {
      assert Insert(cfg, s, sha1, item) == Purge(full, cfg.purgeSize);
    } else {
      assert Insert(cfg, s, sha1, item) == full;
    }
  }

  lemma StepExact(cfg: Config, s: State, e: Event)
    requires s.cache.Wf() && Drift(s) == 0
    requires forall k <- s.pending :: k !in s.cache.vals
    requires s.size <= cfg.maxSize || s.size <= cfg.purgeSize
    requires e.LoadEvent? ==> e.name !in s.pending
    ensures forall k <- Step(cfg, s, e).pending :: k !in Step(cfg, s, e).cache.vals
    ensures Step(cfg, s, e).size <= cfg.maxSize || Step(cfg, s, e).size <= cfg.purgeSize
  {
    StepDrift(cfg, s, e);
    match e
    case LoadEvent(name, f, fileSize) =>
      if name !in s.cache.vals { InsertBounded(cfg, s, name, Item(f.headerSize, f.bytes)); }
    case WrittenEvent(sha1, writer, item, stat) =>
      if sha1 in s.pending { InsertBounded(cfg, s, sha1, item); }
    case PurgeEvent(target) =>
      var n := Excess(s, target, 0);
      assert s.size - Dropped(s, n).size >= 0;
    case _ =>
  }

  /** A fetch that finishes while the same object is being written breaks them: the run in question. */
  lemma LoadWhilePendingDoubleCounts(cfg: Config, sha1: string, item: Item)
    requires |sha1| == 40 && 10 <= item.headerSize <= 16384 && 2 * FileSize(item) <= cfg.maxSize
    ensures var s1 := Step(cfg, INITIAL, AddEvent(sha1, 0));
            var s2 := Step(cfg, s1, LoadEvent(sha1, DiskFile(item.headerSize, sha1, item.bytes, FileSize(item)),
              FileSize(item)));
            var s3 := Step(cfg, s2, WrittenEvent(sha1, 0, item, Some(FileSize(item))));
            s3.cache.order == [sha1] && s3.size == 2 * FileSize(item) == 2 * Total(s3.cache)
  {
    var f := DiskFile(item.headerSize, sha1, item.bytes, FileSize(item));
    var s1 := State(JsMap([], map[]), map[sha1 := 0], 0);
    var s2 := State(JsMap([sha1], map[sha1 := item]), map[sha1 := 0], FileSize(item));
    assert Step(cfg, INITIAL, AddEvent(sha1, 0)) == s1;
    assert Step(cfg, s1, LoadEvent(sha1, f, FileSize(item))) == s2 by { InsertNoPurge(cfg, s1, sha1, item); }
    WrittenOver(cfg, s2, sha1, item);
  }

  lemma InsertNoPurge(cfg: Config, s: State, sha1: string, item: Item)
    requires s.size + FileSize(item) <= cfg.maxSize
    ensures Insert(cfg, s, sha1, item) == Put(s, sha1, item)
  {}

  lemma WrittenOver(cfg: Config, s: State, sha1: string, item: Item)
    requires s == State(JsMap([sha1], map[sha1 := item]), map[sha1 := 0], FileSize(item))
             && 2 * FileSize(item) <= cfg.maxSize
    ensures var s3 := Step(cfg, s, WrittenEvent(sha1, 0, item, Some(FileSize(item))));
            s3.cache.order == [sha1] && s3.size == 2 * FileSize(item) && Total(s3.cache) == FileSize(item)
  {
    InsertNoPurge(cfg, s, sha1, item);
    assert map[sha1 := item][sha1 := item] == map[sha1 := item];
    OneTotal(sha1, item);
  }

  lemma OneTotal(sha1: string, item: Item)
    ensures Total(JsMap([sha1], map[sha1 := item])) == FileSize(item)
  {
    var c := JsMap([sha1], map[sha1 := item]);
    assert [sha1][..0] == [];
    assert SumOf(c, [sha1]) == SumOf(c, []) + SizeOf(c, sha1);
  }

  // ---- recency

  /** Keys in the order they were stored afresh or read. */
  function Uses(s: State, e: Event): seq<string> {
    match e
    case LoadEvent(name, f, fileSize) => if name !in s.cache.vals && Loadable(name, f, fileSize) then [name] else []
    case WrittenEvent(sha1, writer, item, stat) =>
      if sha1 in s.pending && s.pending[sha1] == writer && stat == Some(FileSize(item))
        && sha1 !in s.cache.vals then [sha1] else []
    case GetEvent(sha1, dontTouch) => if !dontTouch && sha1 in s.cache.vals then [sha1] else []
    case _ => []
  }

  function LastUse(uses: seq<string>, k: string): int {
    if uses == [] then -1 else if uses[|uses| - 1] == k then |uses| - 1 else LastUse(uses[..|uses| - 1], k)
  }

  /** The cache is ordered by last use, oldest first. */
  ghost predicate Recency(order: seq<string>, uses: seq<string>) {
    forall i, j :: 0 <= i < j < |order| ==> LastUse(uses, order[i]) < LastUse(uses, order[j])
  }

  lemma {:induction false} LastUseBound(uses: seq<string>, k: string)
    ensures LastUse(uses, k) < |uses|
  {
    if uses != [] { LastUseBound(uses[..|uses| - 1], k); }
  }

  lemma UseLast(a: seq<string>, b: seq<string>, k: string, uses: seq<string>)
    requires Recency(a + b, uses) && k !in a + b
    ensures Recency(a + b + [k], uses + [k])
  {
    var order, now := a + b + [k], uses + [k];
    assert now[..|uses|] == uses;
    forall i, j | 0 <= i < j < |order| ensures LastUse(now, order[i]) < LastUse(now, order[j]) {
      assert order[i] == (a + b)[i] && order[i] in a + b;
      LastUseBound(uses, order[i]);
      if j < |a + b| { assert order[j] == (a + b)[j] && order[j] in a + b; }
    }
  }

  lemma RecencyWithout(a: seq<string>, k: string, b: seq<string>, uses: seq<string>)
    requires Recency(a + [k] + b, uses)
    ensures Recency(a + b, uses)
  {
    var full, less := a + [k] + b, a + b;
    forall i, j | 0 <= i < j < |less| ensures LastUse(uses, less[i]) < LastUse(uses, less[j]) {
      assert less[i] == full[if i < |a| then i else i + 1];
      assert less[j] == full[if j < |a| then j else j + 1];
    }
  }

  lemma RecencyRemove(c: JsMap<string, Item>, k: string, uses: seq<string>)
    requires c.Wf() && Recency(c.order, uses)
    ensures Recency(c.Delete(k).order, uses)
  {
    if k in c.vals {
      var a, b := OrderSplit(c, k);
      RecencyWithout(a, k, b, uses);
    }
  }

  lemma RecencyDrop(order: seq<string>, n: nat, uses: seq<string>)
    requires n <= |order| && Recency(order, uses)
    ensures Recency(order[n..], uses)
  {}

  lemma RecencyPut(c: JsMap<string, Item>, k: string, item: Item, uses: seq<string>)
    requires c.Wf() && Recency(c.order, uses)
    ensures k in c.vals ==> Recency(c.Set(k, item).order, uses)
    ensures k !in c.vals ==> Recency(c.Set(k, item).order, uses + [k])
  {
    if k !in c.vals {
      assert c.order + [] == c.order;
      UseLast(c.order, [], k, uses);
    }
  }

  lemma StepKeepsRecency(cfg: Config, s: State, e: Event, uses: seq<string>)
    requires s.cache.Wf() && Recency(s.cache.order, uses)
    ensures Recency(Step(cfg, s, e).cache.order, uses + Uses(s, e))
  {
    assert uses + [] == uses;
    match e
    case LoadEvent(name, f, fileSize) =>
      if name !in s.cache.vals && Loadable(name, f, fileSize) {
        var item := Item(f.headerSize, f.bytes);
        RecencyPut(s.cache, name, item, uses);
        var full := Put(s, name, item);
        RecencyDrop(full.cache.order, Excess(full, cfg.purgeSize, 0), uses + [name]);
      }
    case WrittenEvent(sha1, writer, item, stat) =>
      RecencyPut(s.cache, sha1, item, uses);
      var full := Put(s, sha1, item);
      if sha1 in s.pending && s.pending[sha1] == writer && stat == Some(FileSize(item)) {
        RecencyDrop(full.cache.order, Excess(full, cfg.purgeSize, 0), uses + Uses(s, e));
      }
    case GetEvent(sha1, dontTouch) =>
      if !dontTouch && sha1 in s.cache.vals {
        RecencyRemove(s.cache, sha1, uses);
        s.cache.DeleteWf(sha1);
        RecencyPut(s.cache.Delete(sha1), sha1, s.cache.vals[sha1], uses);
      }
    case RemoveEvent(sha1) => RecencyRemove(s.cache, sha1, uses);
    case PurgeEvent(target) => RecencyDrop(s.cache.order, Excess(s, target, 0), uses);
    case _ =>
  }

  lemma NextKeepsRecency(cfg: Config, s: State, e: Event, s': State, uses: seq<string>)
    requires Next(cfg, s, e, s') && s.cache.Wf() && Recency(s.cache.order, uses)
    ensures Recency(s'.cache.order, uses + Uses(s, e))
  {
    StepKeepsRecency(cfg, s, e, uses);
  }

  function UsesUpTo(states: seq<State>, events: seq<Event>, n: nat): seq<string>
    requires n <= |events| <= |states|
  {
    if n == 0 then [] else UsesUpTo(states, events, n - 1) + Uses(states[n - 1], events[n - 1])
  }

  /** In every run the cache lists its keys by last use, so purging takes the least recently used first. */
  lemma {:induction false} RunRecency(cfg: Config, states: seq<State>, events: seq<Event>, n: nat)
    requires Run(cfg, states, events) && n <= |events|
    ensures Recency(states[n].cache.order, UsesUpTo(states, events, n))
  {
    if n > 0 {
      RunRecency(cfg, states, events, n - 1);
      assert states[n - 1].cache.Wf() by { RunDrift(cfg, states, events, n - 1); }
      assert Next(cfg, states[n - 1], events[n - 1], states[n - 1 + 1]);
      assert UsesUpTo(states, events, n) == UsesUpTo(states, events, n - 1) + Uses(states[n - 1], events[n - 1]);
      NextKeepsRecency(cfg, states[n - 1], events[n - 1], states[n], UsesUpTo(states, events, n - 1));
    }
  }

  // ---- what each step does to the contents

  /** The n least recent entries have gone, and their bytes are counted out. */
  ghost predicate LostFirst(s: State, s': State, n: nat) {
    && n <= |s.cache.order|
    && s'.cache.order == s.cache.order[n..]
    && s'.cache.vals == s.cache.vals - Members(s.cache.order[..n])
    && s'.size == s.size - SumOf(s.cache, s.cache.order[..n])
    && s'.pending == s.pending
  }

  /** No more of them than it takes to get within the target. */
  ghost predicate Shrinks(s: State, s': State, target: int) {
    exists n: nat ::
      && LostFirst(s, s', n)
      && (s'.size <= target || s'.cache.order == [])
      && forall m: nat :: m < n ==> s.size - SumOf(s.cache, s.cache.order[..m]) > target
  }

  /** The entry is stored, last unless the key is there already, and counted; then the cache shrinks if it is too
      big. */
  ghost predicate StoresIn(cfg: Config, s: State, s': State, sha1: string, item: Item) {
    var order := if sha1 in s.cache.vals then s.cache.order else s.cache.order + [sha1];
    var full := State(JsMap(order, s.cache.vals[sha1 := item]), s.pending, s.size + FileSize(item));
    if full.size <= cfg.maxSize then s' == full else Shrinks(full, s', cfg.purgeSize)
  }

  ghost predicate TakenOut(order: seq<string>, order': seq<string>, sha1: string, back: seq<string>) {
    exists i :: 0 <= i < |order| && order[i] == sha1 && order' == order[..i] + order[i + 1..] + back
  }

  lemma PurgeShrinks(s: State, target: int)
    requires s.cache.Wf()
    ensures Shrinks(s, Purge(s, target), target)
  {
    var n := PurgeIsShortest(s, target);
    ExcessIsLeast(s, target, 0);
    assert forall m: nat :: m < Excess(s, target, 0) ==> Dropped(s, m).size > target;
    assert LostFirst(s, Purge(s, target), Excess(s, target, 0));
  }

  lemma InsertStores(cfg: Config, s: State, sha1: string, item: Item)
    requires s.cache.Wf()
    ensures StoresIn(cfg, s, Insert(cfg, s, sha1, item), sha1, item)
  {
    TotalSet(s.cache, sha1, item);
    PurgeShrinks(Put(s, sha1, item), cfg.purgeSize);
  }

  /** A file found on disk is taken in exactly when its key is new, its name is a sha1 and the one recorded in it, its
      header is of a possible length, and header and contents account for every byte. */
  lemma LoadContents(cfg: Config, s: State, name: string, f: DiskFile, fileSize: nat)
    requires s.cache.Wf()
    ensures var s' := Step(cfg, s, LoadEvent(name, f, fileSize));
            if && name !in s.cache.vals && |name| == 40 && f.sha1 == name && 10 <= f.headerSize <= 16384
               && 4 + f.headerSize + ContentsSize(f.bytes) == fileSize
            then StoresIn(cfg, s, s', name, Item(f.headerSize, f.bytes)) else s' == s
  {
    InsertStores(cfg, s, name, Item(f.headerSize, f.bytes));
  }

  /** A key is being written from when a response is added ... */
  lemma AddContents(cfg: Config, s: State, sha1: string, writer: nat)
    ensures Step(cfg, s, AddEvent(sha1, writer)) ==
            if sha1 == "" || sha1 in s.pending || sha1 in s.cache.vals then s
            else State(s.cache, s.pending[sha1 := writer], s.size)
  {}

  /** ... until that write ends, well or badly; the entry is stored if the file has its full length. */
  lemma WriteContents(cfg: Config, s: State, sha1: string, writer: nat, item: Item, stat: Option<nat>)
    requires s.cache.Wf()
    ensures var s' := Step(cfg, s, WrittenEvent(sha1, writer, item, stat));
            if sha1 in s.pending && s.pending[sha1] == writer then
              && s'.pending == s.pending - {sha1}
              && (if stat == Some(4 + item.headerSize + ContentsSize(item.bytes))
                  then StoresIn(cfg, s, State(s'.cache, s.pending, s'.size), sha1, item)
                  else s'.cache == s.cache && s'.size == s.size)
            else s' == s
    ensures Step(cfg, s, WriteErrorEvent(sha1)) == State(s.cache, s.pending - {sha1}, s.size)
  {
    var after := Insert(cfg, s, sha1, item);
    InsertStores(cfg, s, sha1, item);
    InsertPending(cfg, s, sha1, item);
    assert State(after.cache, s.pending, after.size) == after;
  }

  lemma InsertPending(cfg: Config, s: State, sha1: string, item: Item)
    ensures Insert(cfg, s, sha1, item).pending == s.pending
  {}

  /** A read moves the entry to the end, unless it is not to be touched ... */
  lemma ReadContents(cfg: Config, s: State, sha1: string)
    requires s.cache.Wf()
    ensures Step(cfg, s, GetEvent(sha1, true)) == s
    ensures var s' := Step(cfg, s, GetEvent(sha1, false));
            if sha1 in s.cache.vals then
              && s' == State(JsMap(s'.cache.order, s.cache.vals), s.pending, s.size)
              && TakenOut(s.cache.order, s'.cache.order, sha1, [sha1])
            else s' == s
  {
    if sha1 in s.cache.vals {
      var a, b := OrderSplit(s.cache, sha1);
      TakenFrom(s.cache.order, a, sha1, b, [sha1]);
      assert (s.cache.vals - {sha1})[sha1 := s.cache.vals[sha1]] == s.cache.vals;
    }
  }

  /** ... a removal takes it out and counts it out ... */
  lemma RemoveContents(cfg: Config, s: State, sha1: string)
    requires s.cache.Wf()
    ensures var s' := Step(cfg, s, RemoveEvent(sha1));
            if sha1 in s.cache.vals then
              && s' == State(JsMap(s'.cache.order, s.cache.vals - {sha1}), s.pending,
                             s.size - FileSize(s.cache.vals[sha1]))
              && TakenOut(s.cache.order, s'.cache.order, sha1, [])
            else s' == s
  {
    if sha1 in s.cache.vals {
      KeyTakenOut(s.cache, sha1);
      assert s.cache.Delete(sha1).vals == s.cache.vals - {sha1};
    }
  }

  lemma KeyTakenOut(c: JsMap<string, Item>, sha1: string)
    requires c.Wf() && sha1 in c.vals
    ensures TakenOut(c.order, c.Delete(sha1).order, sha1, [])
  {
    var a, b := OrderSplit(c, sha1);
    AppendAssoc(a + b, [], []);
    TakenFrom(c.order, a, sha1, b, []);
  }

  /** ... and a purge shrinks the cache. */
  lemma PurgeContents(cfg: Config, s: State, target: int)
    requires s.cache.Wf()
    ensures Shrinks(s, Step(cfg, s, PurgeEvent(target)), target)
  {
    PurgeShrinks(s, target);
  }

  lemma TakenFrom(order: seq<string>, a: seq<string>, sha1: string, b: seq<string>, back: seq<string>)
    requires order == a + [sha1] + b
    ensures TakenOut(order, a + b + back, sha1, back)
  {
    assert order[|a|] == sha1 && order[..|a|] == a && order[|a| + 1..] == b;
  }

  /** What the scheduler is told: each object stored, with its file's length and the size of the cache at that
      moment, and each object that goes, with its own length; nothing else. */
  lemma Announces(cfg: Config, s: State, e: Event, c: Change)
    requires s.cache.Wf() && c in Changes(cfg, s, e)
    ensures c.Added? ==>
              && (e.LoadEvent? || e.WrittenEvent?)
              && c.msg.sha1 == (if e.LoadEvent? then e.name else e.sha1)
              && c.msg.fileSize == (if e.LoadEvent? then e.file.statSize
                                    else 4 + e.item.headerSize + ContentsSize(e.item.bytes))
    ensures c.Removed? ==>
              || (c.msg.sha1 in s.cache.vals && c.msg.fileSize == FileSize(s.cache.vals[c.msg.sha1]))
              || (e.LoadEvent? && c.msg.sha1 == e.name
                  && c.msg.fileSize == 4 + e.file.headerSize + ContentsSize(e.file.bytes))
              || (e.WrittenEvent? && c.msg.sha1 == e.sha1
                  && c.msg.fileSize == 4 + e.item.headerSize + ContentsSize(e.item.bytes))
  {
    match e
    case LoadEvent(name, f, fileSize) => InsertAnnounces(cfg, s, name, Item(f.headerSize, f.bytes), f.statSize, c);
    case WrittenEvent(sha1, writer, item, stat) => InsertAnnounces(cfg, s, sha1, item, FileSize(item), c);
    case RemoveEvent(sha1) =>
    case PurgeEvent(target) => DroppedAnnounce(s, Excess(s, target, 0), c);
    case _ =>
  }

  lemma {:induction false} DroppedAnnounce(s: State, n: nat, c: Change)
    requires s.cache.Wf() && n <= |s.cache.order| && c in DroppedChanges(s, n)
    ensures c.Removed? && c.msg.sha1 in s.cache.vals && c.msg.fileSize == FileSize(s.cache.vals[c.msg.sha1])
  {
    if c in DroppedChanges(s, n - 1) {
      DroppedAnnounce(s, n - 1, c);
    } else {
      DroppedWf(s, n - 1);
    }
  }

  lemma InsertAnnounces(cfg: Config, s: State, sha1: string, item: Item, fileSize: nat, c: Change)
    requires s.cache.Wf() && c in InsertChanges(cfg, s, sha1, item, fileSize)
    ensures c.Added? ==> c.msg.sha1 == sha1 && c.msg.fileSize == fileSize
    ensures c.Removed? ==>
              || (c.msg.sha1 == sha1 && c.msg.fileSize == FileSize(item))
              || (c.msg.sha1 in s.cache.vals && c.msg.fileSize == FileSize(s.cache.vals[c.msg.sha1]))
  {
    var full := Put(s, sha1, item);
    assert full.cache.Wf() by { TotalSet(s.cache, sha1, item); }
    if c in PurgeChanges(full, cfg.purgeSize) { DroppedAnnounce(full, Excess(full, cfg.purgeSize, 0), c); }
  }

  /** The sync message lists every object in the order of the cache, with the length of its file. */
  lemma {:induction false} SyncItemsAre(c: JsMap<string, Item>, keys: seq<string>, i: nat)
    requires i < |keys| && forall k <- keys :: k in c.vals
    ensures |SyncItemsOf(c, keys)| == |keys|
    ensures SyncItemsOf(c, keys)[i] ==
            SyncItem(keys[i], 4 + c.vals[keys[i]].headerSize + ContentsSize(c.vals[keys[i]].bytes))
  {
    var rest := keys[..|keys| - 1];
    if |keys| > 1 {
      assert forall k <- rest :: k in keys;
      SyncItemsAre(c, rest, if i < |rest| then i else 0);
    } else {
      assert rest == [] && SyncItemsOf(c, rest) == [];
    }
  }
}
