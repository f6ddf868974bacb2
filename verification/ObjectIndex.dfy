/** The scheduler's two-way index of the replicated object cache: which builders hold an object
    (bySHA1) and which objects a builder holds (byNode). */
module ObjectIndex {
  import opened Collections

  /** A connected builder object; `addr` is its "ip:port". */
  datatype Builder = Builder(id: nat, addr: string)

  datatype SHA1Data = SHA1Data(fileSize: nat, nodes: seq<Builder>)
  datatype NodeData = NodeData(size: int, maxSize: int, sha1s: seq<string>)
  datatype Index = Index(bySHA1: JsMap<string, SHA1Data>, byNode: JsMap<Builder, NodeData>)

  datatype SyncItem = SyncItem(sha1: string, fileSize: nat)
  /** "objectCache": a builder's whole cache, sent once when it connects. */
  datatype SyncMessage = SyncMessage(sha1s: seq<SyncItem>, maxSize: int, cacheSize: int)
  /** "objectCacheAdded" and "objectCacheRemoved". */
  datatype ChangeMessage = ChangeMessage(sha1: string, fileSize: nat, cacheSize: int)

  const EMPTY_INDEX := Index(JsMap([], map[]), JsMap([], map[]))

  predicate NodeHas(ix: Index, node: Builder, sha1: string) {
    node in ix.byNode.vals && sha1 in ix.byNode.vals[node].sha1s
  }

  predicate ShaHas(bySHA1: JsMap<string, SHA1Data>, sha1: string, node: Builder) {
    sha1 in bySHA1.vals && node in bySHA1.vals[sha1].nodes
  }

  ghost predicate ShaMapOk(m: JsMap<string, SHA1Data>) {
    && m.Wf()
    && forall s <- m.vals :: NoDup(m.vals[s].nodes) && m.vals[s].nodes != []
  }

  ghost predicate NodeMapOk(m: JsMap<Builder, NodeData>) {
    && m.Wf()
    && forall n <- m.vals :: NoDup(m.vals[n].sha1s)
  }

  /** The two maps are exact inverses of each other, with duplicate-free lists and no empty holder list. */
  ghost predicate Inverse(ix: Index) {
    && ShaMapOk(ix.bySHA1) && NodeMapOk(ix.byNode)
    && forall n, s :: NodeHas(ix, n, s) <==> ShaHas(ix.bySHA1, s, n)
  }

  // ---- the index operations

  function AddToSha1Map(m: JsMap<string, SHA1Data>, sha1: string, fileSize: nat, node: Builder):
      (r: JsMap<string, SHA1Data>)
    ensures sha1 in r.vals && node in r.vals[sha1].nodes
  {
    if sha1 in m.vals then
      var d := m.vals[sha1];
      if node in d.nodes then m else m.Set(sha1, d.(nodes := d.nodes + [node]))
    else m.Set(sha1, SHA1Data(fileSize, [node]))
  }

  function RemoveFromSha1Map(m: JsMap<string, SHA1Data>, sha1: string, node: Builder): JsMap<string, SHA1Data> {
    if sha1 in m.vals && node in m.vals[sha1].nodes then
      var left := Remove(m.vals[sha1].nodes, node);
      if left == [] then m.Delete(sha1) else m.Set(sha1, m.vals[sha1].(nodes := left))
    else m
  }

  function NodeInsert(data: NodeData, msg: ChangeMessage): NodeData {
    data.(sha1s := if msg.sha1 in data.sha1s then data.sha1s else data.sha1s + [msg.sha1], size := msg.cacheSize)
  }

  function NodeRemove(data: NodeData, msg: ChangeMessage): NodeData {
    data.(sha1s := Remove(data.sha1s, msg.sha1), size := msg.cacheSize)
  }

  function NodeFromSync(msg: SyncMessage): NodeData {
    NodeData(msg.cacheSize, msg.maxSize, Keys(msg.sha1s))
  }

  function Keys(items: seq<SyncItem>): (r: seq<string>)
    ensures |r| == |items| && forall i :: 0 <= i < |items| ==> r[i] == items[i].sha1
  {
    seq(|items|, i requires 0 <= i < |items| => items[i].sha1)
  }

  function InsertObject(ix: Index, msg: ChangeMessage, node: Builder): Index {
    if node !in ix.byNode.vals then ix
    else Index(AddToSha1Map(ix.bySHA1, msg.sha1, msg.fileSize, node),
               ix.byNode.Set(node, NodeInsert(ix.byNode.vals[node], msg)))
  }

  function RemoveObject(ix: Index, msg: ChangeMessage, node: Builder): Index {
    if node !in ix.byNode.vals then ix
    else Index(RemoveFromSha1Map(ix.bySHA1, msg.sha1, node),
               ix.byNode.Set(node, NodeRemove(ix.byNode.vals[node], msg)))
  }

  function AddAll(m: JsMap<string, SHA1Data>, items: seq<SyncItem>, node: Builder): JsMap<string, SHA1Data> {
    if items == [] then m
    else
      var last := |items| - 1;
      AddToSha1Map(AddAll(m, items[..last], node), items[last].sha1, items[last].fileSize, node)
  }

  function AddNode(ix: Index, msg: SyncMessage, node: Builder): Index {
    if node in ix.byNode.vals then ix
    else Index(AddAll(ix.bySHA1, msg.sha1s, node), ix.byNode.Set(node, NodeFromSync(msg)))
  }

  function RemoveAll(m: JsMap<string, SHA1Data>, sha1s: seq<string>, node: Builder): JsMap<string, SHA1Data> {
    if sha1s == [] then m
    else RemoveFromSha1Map(RemoveAll(m, sha1s[..|sha1s| - 1], node), sha1s[|sha1s| - 1], node)
  }

  function RemoveNode(ix: Index, node: Builder): Index {
    if node !in ix.byNode.vals then ix
    else Index(RemoveAll(ix.bySHA1, ix.byNode.vals[node].sha1s, node), ix.byNode.Delete(node))
  }

  // ---- every operation keeps the two maps inverse

  lemma AddToSha1MapEffect(m: JsMap<string, SHA1Data>, sha1: string, fileSize: nat, node: Builder)
    requires ShaMapOk(m)
    ensures ShaMapOk(AddToSha1Map(m, sha1, fileSize, node))
    ensures forall s, n :: ShaHas(AddToSha1Map(m, sha1, fileSize, node), s, n) <==>
            ShaHas(m, s, n) || (s == sha1 && n == node)
  {
    var after := AddToSha1Map(m, sha1, fileSize, node);
    if sha1 in m.vals {
      NoDupAppend(m.vals[sha1].nodes, node);
    } else {
      assert [node][..0] == [];
      m.SetWf(sha1, SHA1Data(fileSize, [node]));
    }
    assert forall s <- after.vals :: s != sha1 ==> s in m.vals && after.vals[s] == m.vals[s];
  }

  lemma RemoveFromSha1MapEffect(m: JsMap<string, SHA1Data>, sha1: string, node: Builder)
    requires ShaMapOk(m)
    ensures ShaMapOk(RemoveFromSha1Map(m, sha1, node))
    ensures forall s, n :: ShaHas(RemoveFromSha1Map(m, sha1, node), s, n) <==>
            ShaHas(m, s, n) && !(s == sha1 && n == node)
  {
    if sha1 in m.vals {
      RemoveMember(m.vals[sha1].nodes, node);
      m.DeleteWf(sha1);
      var left := Remove(m.vals[sha1].nodes, node);
      assert left == [] ==> forall n <- m.vals[sha1].nodes :: n == node;
    }
  }

  lemma InsertKeepsInverse(ix: Index, msg: ChangeMessage, node: Builder)
    requires Inverse(ix)
    ensures Inverse(InsertObject(ix, msg, node))
  {
    AddToSha1MapEffect(ix.bySHA1, msg.sha1, msg.fileSize, node);
    if node in ix.byNode.vals {
      NoDupAppend(ix.byNode.vals[node].sha1s, msg.sha1);
      ix.byNode.SetWf(node, NodeInsert(ix.byNode.vals[node], msg));
    }
  }

  lemma RemoveKeepsInverse(ix: Index, msg: ChangeMessage, node: Builder)
    requires Inverse(ix)
    ensures Inverse(RemoveObject(ix, msg, node))
  {
    RemoveFromSha1MapEffect(ix.bySHA1, msg.sha1, node);
    if node in ix.byNode.vals { RemoveMember(ix.byNode.vals[node].sha1s, msg.sha1); }
  }

  lemma {:induction false} AddAllEffect(m: JsMap<string, SHA1Data>, items: seq<SyncItem>, node: Builder)
    requires ShaMapOk(m)
    ensures ShaMapOk(AddAll(m, items, node))
    ensures forall s, n :: ShaHas(AddAll(m, items, node), s, n) <==> ShaHas(m, s, n) || (s in Keys(items) && n == node)
  {
    if items != [] {
      var last := |items| - 1;
      AddAllEffect(m, items[..last], node);
      AddToSha1MapEffect(AddAll(m, items[..last], node), items[last].sha1, items[last].fileSize, node);
      assert Keys(items) == Keys(items[..last]) + [items[last].sha1];
    }
  }

  /** A sync message keeps the index consistent exactly when its keys are distinct. */
  lemma AddNodeKeepsInverse(ix: Index, msg: SyncMessage, node: Builder)
    requires Inverse(ix) && node !in ix.byNode.vals
    ensures Inverse(AddNode(ix, msg, node)) <==> NoDup(Keys(msg.sha1s))
  {
    AddAllEffect(ix.bySHA1, msg.sha1s, node);
    var after := AddNode(ix, msg, node);
    assert after.byNode.vals[node] == NodeFromSync(msg);
    forall n, s ensures NodeHas(after, n, s) <==> ShaHas(after.bySHA1, s, n) {
      if n != node { assert NodeHas(after, n, s) <==> NodeHas(ix, n, s); }
      assert ShaHas(ix.bySHA1, s, n) <==> NodeHas(ix, n, s);
    }
  }

  lemma {:induction false} RemoveAllEffect(m: JsMap<string, SHA1Data>, sha1s: seq<string>, node: Builder)
    requires ShaMapOk(m)
    ensures ShaMapOk(RemoveAll(m, sha1s, node))
    ensures forall s, n :: ShaHas(RemoveAll(m, sha1s, node), s, n) <==> ShaHas(m, s, n) && !(s in sha1s && n == node)
  {
    if sha1s != [] {
      var last := |sha1s| - 1;
      assert sha1s == sha1s[..last] + [sha1s[last]];
      RemoveAllEffect(m, sha1s[..last], node);
      RemoveFromSha1MapEffect(RemoveAll(m, sha1s[..last], node), sha1s[last], node);
    }
  }

  /** A departed builder is gone from both maps, and nobody else's objects are touched. */
  lemma RemoveNodeForgets(ix: Index, node: Builder)
    requires Inverse(ix)
    ensures Inverse(RemoveNode(ix, node))
    ensures forall s :: !ShaHas(RemoveNode(ix, node).bySHA1, s, node)
    ensures forall s, n :: n != node ==> (ShaHas(RemoveNode(ix, node).bySHA1, s, n) <==> ShaHas(ix.bySHA1, s, n))
  {
    var after := RemoveNode(ix, node);
    if node in ix.byNode.vals {
      RemoveAllEffect(ix.bySHA1, ix.byNode.vals[node].sha1s, node);
      ix.byNode.DeleteWf(node);
    }
    forall s ensures !ShaHas(after.bySHA1, s, node) {
      assert ShaHas(ix.bySHA1, s, node) <==> NodeHas(ix, node, s);
    }
    forall n, s ensures NodeHas(after, n, s) <==> ShaHas(after.bySHA1, s, n) {
      assert ShaHas(ix.bySHA1, s, n) <==> NodeHas(ix, n, s);
    }
  }

  // ---- what the index records

  /** Everybody else's entry is as it was. */
  ghost predicate OthersKept(a: JsMap<Builder, NodeData>, b: JsMap<Builder, NodeData>, node: Builder) {
    forall n :: n != node ==> (n in b.vals <==> n in a.vals) && (n in a.vals ==> b.vals[n] == a.vals[n])
  }

  /** Objects keep the size they were first recorded with, and every other object its entry. */
  ghost predicate SizesKept(a: JsMap<string, SHA1Data>, b: JsMap<string, SHA1Data>) {
    forall s :: s in a.vals && s in b.vals ==> b.vals[s].fileSize == a.vals[s].fileSize
  }

  /** Inserting records the object's size unless it is known, puts the builder last among the holders and the
      object last in its list, and takes over the cache size. */
  lemma InsertRecords(ix: Index, msg: ChangeMessage, node: Builder)
    requires Inverse(ix) && node in ix.byNode.vals
    ensures var ix' := InsertObject(ix, msg, node);
            var d, d' := ix.byNode.vals[node], ix'.byNode.vals[node];
            && OthersKept(ix.byNode, ix'.byNode, node) && ix'.byNode.order == ix.byNode.order
            && node in ix'.byNode.vals && d'.size == msg.cacheSize && d'.maxSize == d.maxSize
            && d'.sha1s == (if msg.sha1 in d.sha1s then d.sha1s else d.sha1s + [msg.sha1])
            && (forall s :: s != msg.sha1 ==>
                  && (s in ix'.bySHA1.vals <==> s in ix.bySHA1.vals)
                  && (s in ix.bySHA1.vals ==> ix'.bySHA1.vals[s] == ix.bySHA1.vals[s]))
            && msg.sha1 in ix'.bySHA1.vals
            && var known, holders := msg.sha1 in ix.bySHA1.vals, ix'.bySHA1.vals[msg.sha1];
            && holders.fileSize == (if known then ix.bySHA1.vals[msg.sha1].fileSize else msg.fileSize)
            && holders.nodes == (if known && node in ix.bySHA1.vals[msg.sha1].nodes then ix.bySHA1.vals[msg.sha1].nodes
                                 else if known then ix.bySHA1.vals[msg.sha1].nodes + [node] else [node])
            && ix'.bySHA1.order == if known then ix.bySHA1.order else ix.bySHA1.order + [msg.sha1]
  {}

  /** Removing keeps the object's size while anybody else holds it, and takes over the cache size. */
  lemma RemoveRecords(ix: Index, msg: ChangeMessage, node: Builder)
    requires Inverse(ix) && node in ix.byNode.vals
    ensures var ix' := RemoveObject(ix, msg, node);
            var d, d' := ix.byNode.vals[node], ix'.byNode.vals[node];
            && OthersKept(ix.byNode, ix'.byNode, node) && SizesKept(ix.bySHA1, ix'.bySHA1)
            && node in ix'.byNode.vals && d'.size == msg.cacheSize && d'.maxSize == d.maxSize
            && (forall s :: s in d'.sha1s <==> s in d.sha1s && s != msg.sha1)
            && (forall s, n :: ShaHas(ix'.bySHA1, s, n) <==> ShaHas(ix.bySHA1, s, n) && !(s == msg.sha1 && n == node))
  {
    RemoveFromSha1MapEffect(ix.bySHA1, msg.sha1, node);
    RemoveMember(ix.byNode.vals[node].sha1s, msg.sha1);
  }

  lemma {:induction false} AddAllRecords(m: JsMap<string, SHA1Data>, items: seq<SyncItem>, node: Builder, s: string)
    requires NoDup(Keys(items))
    ensures var m' := AddAll(m, items, node);
            && (s in m'.vals <==> s in m.vals || s in Keys(items))
            && (s in m.vals ==> m'.vals[s].fileSize == m.vals[s].fileSize)
            && forall i :: 0 <= i < |items| && items[i].sha1 == s && s !in m.vals ==>
                 m'.vals[s].fileSize == items[i].fileSize
  {
    if items != [] {
      var last := |items| - 1;
      assert Keys(items) == Keys(items[..last]) + [items[last].sha1];
      NoDupAppend(Keys(items[..last]), items[last].sha1);
      AddAllRecords(m, items[..last], node, s);
      forall i | 0 <= i < last && items[i].sha1 == s ensures s != items[last].sha1 {
        assert Keys(items[..last])[i] == s;
      }
    }
  }

  /** A sync message brings in the builder's sizes and list as they are, and each new object with the size it gives. */
  lemma AddNodeRecords(ix: Index, msg: SyncMessage, node: Builder)
    requires Inverse(ix) && node !in ix.byNode.vals && NoDup(Keys(msg.sha1s))
    ensures var ix' := AddNode(ix, msg, node);
            && OthersKept(ix.byNode, ix'.byNode, node) && SizesKept(ix.bySHA1, ix'.bySHA1)
            && ix'.byNode.order == ix.byNode.order + [node]
            && node in ix'.byNode.vals && ix'.byNode.vals[node].size == msg.cacheSize
            && ix'.byNode.vals[node].maxSize == msg.maxSize && |ix'.byNode.vals[node].sha1s| == |msg.sha1s|
            && forall i :: 0 <= i < |msg.sha1s| ==>
                 var item := msg.sha1s[i];
                 && ix'.byNode.vals[node].sha1s[i] == item.sha1 && item.sha1 in ix'.bySHA1.vals
                 && (item.sha1 !in ix.bySHA1.vals ==> ix'.bySHA1.vals[item.sha1].fileSize == item.fileSize)
  {
    forall s
      ensures s in ix.bySHA1.vals ==>
                var m' := AddNode(ix, msg, node).bySHA1;
                s in m'.vals && m'.vals[s].fileSize == ix.bySHA1.vals[s].fileSize
    {
      AddAllRecords(ix.bySHA1, msg.sha1s, node, s);
    }
    forall i | 0 <= i < |msg.sha1s|
      ensures var item, m' := msg.sha1s[i], AddNode(ix, msg, node).bySHA1;
              && item.sha1 in m'.vals
              && (item.sha1 !in ix.bySHA1.vals ==> m'.vals[item.sha1].fileSize == item.fileSize)
    {
      AddAllRecords(ix.bySHA1, msg.sha1s, node, msg.sha1s[i].sha1);
      assert Keys(msg.sha1s)[i] == msg.sha1s[i].sha1;
    }
  }

  lemma {:induction false} RemoveAllRecords(m: JsMap<string, SHA1Data>, sha1s: seq<string>, node: Builder)
    ensures SizesKept(m, RemoveAll(m, sha1s, node)) && forall s <- RemoveAll(m, sha1s, node).vals :: s in m.vals
  {
    if sha1s != [] { RemoveAllRecords(m, sha1s[..|sha1s| - 1], node); }
  }

  /** A departure takes the builder's entry away, and changes no size of an object that is left. */
  lemma RemoveNodeRecords(ix: Index, node: Builder)
    requires Inverse(ix) && node in ix.byNode.vals
    ensures var ix' := RemoveNode(ix, node);
            node !in ix'.byNode.vals && OthersKept(ix.byNode, ix'.byNode, node) && SizesKept(ix.bySHA1, ix'.bySHA1)
  {
    RemoveAllRecords(ix.bySHA1, ix.byNode.vals[node].sha1s, node);
  }
}
