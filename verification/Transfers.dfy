/** Transfers the scheduler has asked for and not yet seen finished, each with its expiry timer. */
module Transfers {
  import opened Collections
  import opened ObjectIndex
  import opened PendingKeys
  import opened Distribution

  /** A timer the event loop will fire: its handle and the key its callback deletes. */
  datatype Timer = Timer(id: nat, key: string)

  /** `pending` and `timers` are the two fields of the manager; `armed` is the event loop's side. */
  datatype State = State(pending: set<string>, timers: map<string, nat>, armed: set<Timer>, next: nat)

  const EMPTY := State({}, map[], {}, 0)

  /** Every pending key has exactly one live timer, and no other timer is live. */
  ghost predicate Ok(t: State) {
    && t.timers.Keys == t.pending
    && (forall x <- t.armed :: x.key in t.timers && t.timers[x.key] == x.id)
    && (forall k <- t.timers :: Timer(t.timers[k], k) in t.armed && t.timers[k] < t.next)
  }

  function Add(t: State, key: string): State {
    State(t.pending + {key}, t.timers[key := t.next], t.armed + {Timer(t.next, key)}, t.next + 1)
  }

  function Clear(t: State, key: string): State {
    if key in t.timers then
      State(t.pending - {key}, t.timers - {key}, t.armed - {Timer(t.timers[key], key)}, t.next)
    else t.(pending := t.pending - {key})
  }

  function ClearSuffix(t: State, suffix: string): State {
    var gone := set k <- t.pending | EndsWith(k, suffix);
    State(t.pending - gone, t.timers - gone,
          t.armed - (set k <- gone | k in t.timers :: Timer(t.timers[k], k)), t.next)
  }

  function Expire(t: State, x: Timer): State {
    State(t.pending - {x.key}, t.timers - {x.key}, t.armed - {x}, t.next)
  }

  function AddKeys(t: State, keys: seq<string>): State {
    if keys == [] then t else Add(AddKeys(t, keys[..|keys| - 1]), keys[|keys| - 1])
  }

  lemma {:induction false} AddKeysConcat(t: State, a: seq<string>, b: seq<string>)
    ensures AddKeys(t, a + b) == AddKeys(AddKeys(t, a), b)
  {
    if b == [] {
      assert a + b == a;
    } else {
      assert (a + b)[..|a + b| - 1] == a + b[..|b| - 1];
      AddKeysConcat(t, a, b[..|b| - 1]);
    }
  }

  /** A repeated request would leave the first timer running unseen; a new key never does. */
  lemma AddOk(t: State, key: string)
    requires Ok(t)
    ensures Ok(Add(t, key)) <==> key !in t.pending
  {
    if key in t.pending {
      var stale := Timer(t.timers[key], key);
      assert stale in Add(t, key).armed && Add(t, key).timers[key] == t.next != stale.id;
    }
  }

  lemma ClearOk(t: State, key: string)
    requires Ok(t)
    ensures Ok(Clear(t, key)) && Clear(t, key).pending == t.pending - {key}
  {
    if key in t.timers {
      forall x | x in Clear(t, key).armed ensures x.key != key {
        assert x in t.armed;
      }
    }
  }

  lemma ClearSuffixOk(t: State, suffix: string)
    requires Ok(t)
    ensures Ok(ClearSuffix(t, suffix))
  {
    var gone := set k <- t.pending | EndsWith(k, suffix);
    forall x | x in ClearSuffix(t, suffix).armed ensures x.key !in gone {
      assert x in t.armed && x == Timer(t.timers[x.key], x.key);
    }
  }

  lemma ExpireOk(t: State, x: Timer)
    requires Ok(t) && x in t.armed
    ensures Ok(Expire(t, x)) && Expire(t, x) == Clear(t, x.key)
  {
    ClearOk(t, x.key);
  }

  lemma {:induction false} AddKeysOk(t: State, keys: seq<string>)
    requires Ok(t) && NoDup(keys) && forall k <- keys :: k !in t.pending
    ensures Ok(AddKeys(t, keys))
    ensures AddKeys(t, keys).pending == t.pending + Members(keys)
  {
    if keys != [] {
      assert keys == keys[..|keys| - 1] + [keys[|keys| - 1]];
      AddKeysOk(t, keys[..|keys| - 1]);
      AddOk(AddKeys(t, keys[..|keys| - 1]), keys[|keys| - 1]);
      assert Members(keys) == Members(keys[..|keys| - 1]) + {keys[|keys| - 1]};
    }
  }

  /** A pending key names a known builder and an object that builder does not hold. */
  ghost predicate Awaits(ix: Index, key: string) {
    exists n, s :: n in ix.byNode.vals && Plain(s) && key == PendingKey(s, n.addr) && !NodeHas(ix, n, s)
  }

  ghost predicate PendingOk(ix: Index, pending: set<string>) {
    forall k <- pending :: Awaits(ix, k)
  }

  ghost predicate AddressesDistinct(ix: Index) {
    forall n <- ix.byNode.vals, m <- ix.byNode.vals :: n.addr == m.addr ==> n == m
  }

  ghost predicate ShasPlain(ix: Index) {
    forall s <- ix.bySHA1.vals :: Plain(s)
  }

  /** The builders an object is on its way to. */
  function Awaiting(ix: Index, pending: set<string>, sha1: string): set<Builder> {
    set n <- ix.byNode.vals | PendingKey(sha1, n.addr) in pending
  }

  lemma {:induction false} KeysOfNodes(sha1: string, nodes: set<Builder>)
    requires Plain(sha1) && forall n <- nodes, m <- nodes :: n.addr == m.addr ==> n == m
    ensures |set n <- nodes :: PendingKey(sha1, n.addr)| == |nodes|
  {
    if nodes != {} {
      var n :| n in nodes;
      var rest := nodes - {n};
      KeysOfNodes(sha1, rest);
      assert PendingKey(sha1, n.addr) !in (set m <- rest :: PendingKey(sha1, m.addr)) by {
        forall m | m in rest ensures PendingKey(sha1, m.addr) != PendingKey(sha1, n.addr) {
          KeyInjective(sha1, m.addr, sha1, n.addr);
        }
      }
      assert (set m <- nodes :: PendingKey(sha1, m.addr)) ==
             (set m <- rest :: PendingKey(sha1, m.addr)) + {PendingKey(sha1, n.addr)};
    }
  }

  /** Counting keys by prefix counts exactly the builders awaiting the object. */
  lemma PrefixCountIsAwaiting(ix: Index, pending: set<string>, sha1: string)
    requires PendingOk(ix, pending) && AddressesDistinct(ix) && Plain(sha1)
    ensures |PendingKeysOf(pending, sha1)| == |Awaiting(ix, pending, sha1)|
  {
    var nodes := Awaiting(ix, pending, sha1);
    var keys := set n <- nodes :: PendingKey(sha1, n.addr);
    forall k ensures k in keys <==> k in PendingKeysOf(pending, sha1) {
      if k in pending && sha1 + ":" <= k {
        var n, s :| n in ix.byNode.vals && Plain(s) && k == PendingKey(s, n.addr) && !NodeHas(ix, n, s);
        PrefixFindsSha(s, n.addr, sha1);
        assert n in nodes;
      }
      if k in keys {
        var n :| n in nodes && k == PendingKey(sha1, n.addr);
        PrefixFindsSha(sha1, n.addr, sha1);
      }
    }
    assert keys == PendingKeysOf(pending, sha1);
    KeysOfNodes(sha1, nodes);
  }

  /** A departing builder's transfers are forgotten; another's too exactly when its address ends in ":" + that
      address. */
  lemma ForgottenWithNode(ix: Index, t: State, node: Builder, other: Builder, sha1: string)
    requires Plain(sha1) && PendingKey(sha1, other.addr) in t.pending
    ensures PendingKey(sha1, other.addr) in ClearSuffix(t, ":" + node.addr).pending
            <==> other.addr != node.addr && !EndsWith(other.addr, ":" + node.addr)
  {
    SuffixFindsAddress(sha1, other.addr, node.addr);
  }

  /** Two connected builders, one address ending in the other: an object only the first waits for. */
  lemma ForgottenState(node: Builder, other: Builder, sha1: string) returns (ix: Index, t: State)
    requires Plain(sha1) && node.addr != other.addr && EndsWith(other.addr, ":" + node.addr)
    ensures Ok(t) && PendingOk(ix, t.pending) && AddressesDistinct(ix)
    ensures node in ix.byNode.vals && other in ix.byNode.vals
    ensures t.pending == {PendingKey(sha1, other.addr)} && ClearSuffix(t, ":" + node.addr).pending == {}
  {
    var key, nothing := PendingKey(sha1, other.addr), NodeData(0, 0, []);
    ix := Index(JsMap([], map[]), JsMap([node, other], map[node := nothing, other := nothing]));
    t := State({key}, map[key := 0], {Timer(0, key)}, 1);
    SuffixFindsAddress(sha1, other.addr, node.addr);
    assert Awaits(ix, key);
  }

  /** Two IPv6 peers for which that is so: when the one leaves, the other's transfer is forgotten. */
  lemma ForgottenWithNodeExample() returns (ix: Index, t: State, node: Builder, other: Builder)
    ensures Ok(t) && PendingOk(ix, t.pending) && AddressesDistinct(ix)
    ensures node in ix.byNode.vals && other in ix.byNode.vals
    ensures node.addr == "2001:db8::1:8097" && other.addr == "abcd" + (":" + node.addr)
    ensures PendingKey("a", other.addr) in t.pending
    ensures PendingKey("a", other.addr) !in ClearSuffix(t, ":" + node.addr).pending
  {
    var leaver := "2001:db8::1:8097";
    node, other := Builder(0, leaver), Builder(1, "abcd" + (":" + leaver));
    ix, t := ForgottenFor(node, other, "abcd");
  }

  lemma ForgottenFor(node: Builder, other: Builder, prefix: string) returns (ix: Index, t: State)
    requires other.addr == prefix + (":" + node.addr)
    ensures Ok(t) && PendingOk(ix, t.pending) && AddressesDistinct(ix)
    ensures node in ix.byNode.vals && other in ix.byNode.vals
    ensures PendingKey("a", other.addr) in t.pending
    ensures PendingKey("a", other.addr) !in ClearSuffix(t, ":" + node.addr).pending
  {
    assert other.addr[|prefix|..] == ":" + node.addr;
    ix, t := ForgottenState(node, other, "a");
  }
}
