/** The scheduler's object cache manager: mutable maps, and the loops that update and plan over them. */
module ObjectCacheManager {
  import opened Collections
  import opened ObjectIndex
  import opened PendingKeys
  import opened Distribution
  import opened DistributionProperties
  import opened Planner
  import T = Transfers
  import M = ManagerState

  method AddEach(shas: JsMap<string, SHA1Data>, items: seq<SyncItem>, node: Builder)
    returns (m: JsMap<string, SHA1Data>)
    ensures m == AddAll(shas, items, node)
  {
    m := shas;
    for i := 0 to |items|
      invariant m == AddAll(shas, items[..i], node)
    {
      assert items[..i + 1][..i] == items[..i];
      m := AddToSha1Map(m, items[i].sha1, items[i].fileSize, node);
    }
    assert items[..|items|] == items;
  }

  class Manager {
    var bySHA1: JsMap<string, SHA1Data>
    var byNode: JsMap<Builder, NodeData>
    var pendingTransfers: set<string>
    var pendingTransferTimers: map<string, nat>
    var hits: nat
    const config: M.Config

    // the world outside: running timers and messages sent
    var armed: set<T.Timer>
    var nextTimer: nat
    var sent: seq<M.Fetch>

    ghost function State(): M.State
      reads this
    {
      M.State(Index(bySHA1, byNode), T.State(pendingTransfers, pendingTransferTimers, armed, nextTimer), hits, sent)
    }

    ghost predicate Valid()
      reads this
    {
      M.Ok(State())
    }

    constructor (redundancy: int, onInsertion: bool, onCacheHit: bool)
      ensures Valid() && State() == M.INITIAL
      ensures config == M.Config(if redundancy <= 0 then 1 else redundancy, onInsertion, onCacheHit)
    {
      hits := 0;
      bySHA1, byNode := JsMap([], map[]), JsMap([], map[]);
      pendingTransfers, pendingTransferTimers := {}, map[];
      armed, nextTimer, sent := {}, 0, [];
      config := M.Config(if redundancy <= 0 then 1 else redundancy, onInsertion, onCacheHit);
    }

    method Clear()
      requires Valid()
      modifies this
      ensures Valid() && State() == M.Cleared(old(State()))
    {
      hits := 0;
      armed := armed - set k <- pendingTransferTimers :: T.Timer(pendingTransferTimers[k], k);
      pendingTransfers, pendingTransferTimers := {}, map[];
      M.StepKeepsOk(config, old(State()), M.ClearEvent);
    }

    method Hit(sha1: string)
      requires Valid()
      modifies this
      ensures Valid() && State() == M.Hit(config, old(State()), sha1)
    {
      hits := hits + 1;
      if config.distributeOnCacheHit {
        var _ := Distribute(M.ShaQuery(config, sha1));
      }
      M.StepKeepsOk(config, old(State()), M.HitEvent(sha1));
    }

    method Insert(msg: ChangeMessage, node: Builder)
      requires Valid() && Plain(msg.sha1)
      modifies this
      ensures Valid() && State() == M.Insert(config, old(State()), msg, node)
    {
      M.StepKeepsOk(config, State(), M.InsertEvent(msg, node));
      if node in byNode.vals {
        var count := Record(msg, node);
        if config.distributeOnInsertion && count - 1 < config.redundancy {
          var _ := Distribute(M.ShaQuery(config, msg.sha1));
        }
      }
    }

    method Record(msg: ChangeMessage, node: Builder) returns (count: nat)
      requires Valid() && Plain(msg.sha1) && node in byNode.vals
      modifies this
      ensures Valid() && State() == M.Recorded(old(State()), msg, node)
      ensures msg.sha1 in bySHA1.vals && count == |bySHA1.vals[msg.sha1].nodes|
    {
      ghost var after := M.Recorded(State(), msg, node);
      assert M.Ok(after) by { M.RecordedKeepsOk(State(), msg, node); }
      count := ClearAndIndex(msg, node);
      assert State() == after;
    }

    method ClearAndIndex(msg: ChangeMessage, node: Builder) returns (count: nat)
      requires node in byNode.vals
      modifies this
      ensures State() == M.Recorded(old(State()), msg, node)
      ensures msg.sha1 in bySHA1.vals && count == |bySHA1.vals[msg.sha1].nodes|
    {
      ClearPendingTransfer(msg.sha1, node);
      count := IndexObject(msg, node);
    }

    method IndexObject(msg: ChangeMessage, node: Builder) returns (count: nat)
      requires node in byNode.vals
      modifies this`byNode, this`bySHA1
      ensures Index(bySHA1, byNode) == InsertObject(Index(old(bySHA1), old(byNode)), msg, node)
      ensures msg.sha1 in bySHA1.vals && count == |bySHA1.vals[msg.sha1].nodes|
    {
      byNode := byNode.Set(node, NodeInsert(byNode.vals[node], msg));
      bySHA1 := AddToSha1Map(bySHA1, msg.sha1, msg.fileSize, node);
      count := |bySHA1.vals[msg.sha1].nodes|;
    }

    method RemoveObject(msg: ChangeMessage, node: Builder)
      requires Valid()
      modifies this
      ensures Valid()
      ensures State() == old(State()).(ix := ObjectIndex.RemoveObject(old(State()).ix, msg, node))
    {
      if node in byNode.vals {
        byNode := byNode.Set(node, NodeRemove(byNode.vals[node], msg));
        bySHA1 := RemoveFromSha1Map(bySHA1, msg.sha1, node);
      }
      M.RemoveKeepsOk(old(State()), msg, node);
    }

    method AddNode(node: Builder, sync: SyncMessage)
      requires Valid() && M.Enabled(State(), M.AddNodeEvent(sync, node))
      modifies this
      ensures Valid()
      ensures State() == old(State()).(ix := ObjectIndex.AddNode(old(State()).ix, sync, node))
    {
      ghost var after := State().(ix := ObjectIndex.AddNode(State().ix, sync, node));
      assert M.Ok(after) by { M.AddNodeKeepsOk(State(), sync, node); }
      IndexNode(node, sync);
      assert State() == after;
    }

    method IndexNode(node: Builder, sync: SyncMessage)
      modifies this`byNode, this`bySHA1
      ensures State() == old(State()).(ix := ObjectIndex.AddNode(old(State()).ix, sync, node))
    {
      if node in byNode.vals {
        return;
      }
      byNode := byNode.Set(node, NodeFromSync(sync));
      bySHA1 := AddEach(bySHA1, sync.sha1s, node);
    }

    method RemoveNode(node: Builder)
      requires Valid()
      modifies this
      ensures Valid() && State() == M.RemoveBuilder(old(State()), node)
    {
      M.RemoveBuilderKeepsOk(State(), node);
      if node !in byNode.vals {
        return;
      }
      var sha1s := byNode.vals[node].sha1s;
      byNode := byNode.Delete(node);
      ClearAllPendingForNode(node);
      for i := 0 to |sha1s|
        invariant bySHA1 == RemoveAll(old(bySHA1), sha1s[..i], node)
        invariant byNode == old(byNode).Delete(node)
        invariant State().transfers == T.ClearSuffix(old(State()).transfers, ":" + node.addr)
        invariant State().hits == old(hits) && State().sent == old(sent)
      {
        bySHA1 := RemoveFromSha1Map(bySHA1, sha1s[i], node);
        assert sha1s[..i + 1][..i] == sha1s[..i];
      }
      assert sha1s[..|sha1s|] == sha1s;
    }

    method AddPendingTransfer(sha1: string, node: Builder)
      modifies this`pendingTransfers, this`pendingTransferTimers, this`armed, this`nextTimer
      ensures State() == old(State()).(transfers := T.Add(old(State()).transfers, PendingKey(sha1, node.addr)))
    {
      var key := PendingKey(sha1, node.addr);
      pendingTransfers := pendingTransfers + {key};
      armed := armed + {T.Timer(nextTimer, key)};
      pendingTransferTimers := pendingTransferTimers[key := nextTimer];
      nextTimer := nextTimer + 1;
    }

    /** The callback of a transfer's timer. */
    method Timeout(timer: T.Timer)
      requires Valid() && timer in armed
      modifies this
      ensures Valid() && State() == old(State()).(transfers := T.Expire(old(State()).transfers, timer))
    {
      M.StepKeepsOk(config, State(), M.TimeoutEvent(timer));
      armed := armed - {timer};
      pendingTransfers := pendingTransfers - {timer.key};
      pendingTransferTimers := pendingTransferTimers - {timer.key};
    }

    method ClearPendingTransfer(sha1: string, node: Builder)
      modifies this`pendingTransfers, this`pendingTransferTimers, this`armed
      ensures State() == old(State()).(transfers := T.Clear(old(State()).transfers, PendingKey(sha1, node.addr)))
    {
      var key := PendingKey(sha1, node.addr);
      pendingTransfers := pendingTransfers - {key};
      if key in pendingTransferTimers {
        armed := armed - {T.Timer(pendingTransferTimers[key], key)};
        pendingTransferTimers := pendingTransferTimers - {key};
      }
    }

    method ClearAllPendingForNode(node: Builder)
      requires T.Ok(State().transfers)
      modifies this`pendingTransfers, this`pendingTransferTimers, this`armed
      ensures State() == old(State()).(transfers := T.ClearSuffix(old(State()).transfers, ":" + node.addr))
    {
      var suffix := ":" + node.addr;
      ghost var gone := {};
      var todo := pendingTransfers;
      while todo != {}
        invariant todo <= old(pendingTransfers)
        invariant gone == set k <- old(pendingTransfers) - todo | EndsWith(k, suffix)
        invariant pendingTransfers == old(pendingTransfers) - gone
        invariant pendingTransferTimers == old(pendingTransferTimers) - gone
        invariant armed == old(armed) - set k <- gone | k in old(pendingTransferTimers) ::
                  T.Timer(old(pendingTransferTimers)[k], k)
      {
        var key :| key in todo;
        todo := todo - {key};
        if EndsWith(key, suffix) {
          gone := gone + {key};
          pendingTransfers := pendingTransfers - {key};
          if key in pendingTransferTimers {
            armed := armed - {T.Timer(pendingTransferTimers[key], key)};
            pendingTransferTimers := pendingTransferTimers - {key};
          }
        }
      }
    }

    /** Plans and, unless dry, requests the transfers a query calls for; returns how many. */
    method Distribute(q: M.Query) returns (count: nat)
      requires Valid()
      modifies this`pendingTransfers, this`pendingTransferTimers, this`armed, this`nextTimer, this`sent
      ensures Valid() && State() == M.Distribute(old(State()), q)
      ensures var commands := PlanFor(M.ContextOf(old(State()), q), q.max, q.sha1).commands;
              M.CommandsOk(commands) && count == CountIn(commands, commands.order)
    {
      M.DistributeKeepsOk(State(), q);
      M.PlanCommandsOk(M.ContextOf(State(), q), q.max, q.sha1);
      var p := MakePlan(Context(Index(bySHA1, byNode), pendingTransfers, q.redundancy, q.node), q.max, q.sha1);
      count := Commit(q.dry, p.commands);
    }

    method Commit(dry: bool, commands: JsMap<Builder, Command>) returns (count: nat)
      requires M.CommandsOk(commands)
      modifies this`pendingTransfers, this`pendingTransferTimers, this`armed, this`nextTimer, this`sent
      ensures count == CountIn(commands, commands.order)
      ensures State() == if dry then old(State()) else M.Committed(old(State()), commands, commands.order)
    {
      count := 0;
      ghost var was := State();
      for i := 0 to |commands.order|
        invariant count == CountIn(commands, commands.order[..i])
        invariant State() == if dry then was else M.Committed(was, commands, commands.order[..i])
      {
        var n := commands.order[i];
        var objects := commands.vals[n].objects;
        ghost var before := State();
        assert commands.order[..i + 1][..i] == commands.order[..i];
        M.CommittedStep(was, commands, commands.order[..i + 1]);
        if objects != [] {
          count := count + |objects|;
          if !dry { Send(n, objects); }
        }
      }
      assert commands.order[..|commands.order|] == commands.order;
    }

    method Send(n: Builder, objects: seq<FetchObject>)
      modifies this`pendingTransfers, this`pendingTransferTimers, this`armed, this`nextTimer, this`sent
      ensures State() == old(State()).(
                transfers := T.AddKeys(old(State()).transfers, M.KeysFor(n, objects)),
                sent := old(sent) + [M.Fetch(n, objects)])
    {
      Request(n, objects);
      sent := sent + [M.Fetch(n, objects)];
    }

    method Request(n: Builder, objects: seq<FetchObject>)
      modifies this`pendingTransfers, this`pendingTransferTimers, this`armed, this`nextTimer
      ensures State() == old(State()).(transfers := T.AddKeys(old(State()).transfers, M.KeysFor(n, objects)))
    {
      ghost var was, keys := State(), M.KeysFor(n, objects);
      for j := 0 to |objects|
        invariant State() == was.(transfers := T.AddKeys(was.transfers, keys[..j]))
      {
        AddPendingTransfer(objects[j].sha1, n);
        assert keys[..j + 1][..j] == keys[..j];
      }
      assert keys[..|objects|] == keys;
    }
  }
}
