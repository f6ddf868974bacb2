/** The planning loops of the object cache manager: a cursor that walks round the builders, the
    free space left to each, and the commands collected so far. */
module Planner {
  import opened Collections
  import opened ObjectIndex
  import opened PendingKeys
  import opened Distribution

  method PendingCount(pending: set<string>, sha1: string) returns (count: nat)
    ensures count == |PendingKeysOf(pending, sha1)|
  {
    count := 0;
    var todo := pending;
    while todo != {}
      invariant todo <= pending
      invariant count == |PendingKeysOf(pending - todo, sha1)|
    {
      var key :| key in todo;
      ghost var seen := PendingKeysOf(pending - todo, sha1);
      todo := todo - {key};
      assert PendingKeysOf(pending - todo, sha1) == if sha1 + ":" <= key then seen + {key} else seen;
      if sha1 + ":" <= key {
        count := count + 1;
      }
    }
    assert pending - todo == pending;
  }

  /** One builder considered for one object. */
  method TryNode(c: Context, sha1: string, node: Builder, commands: JsMap<Builder, Command>, roundRobin: nat)
    returns (taken: bool, after: JsMap<Builder, Command>)
    requires sha1 in c.ix.bySHA1.vals && c.ix.bySHA1.vals[sha1].nodes != [] && node in c.ix.byNode.vals
    ensures taken == Suits(c, commands, sha1, node)
    ensures after == if taken then AssignOne(c, commands, node, c.ix.bySHA1.vals[sha1].fileSize,
                                             FetchObject(Source(c.ix.bySHA1.vals[sha1], roundRobin), sha1))
                     else commands
  {
    var value := c.ix.bySHA1.vals[sha1];
    taken, after := false, commands;
    if node in value.nodes {
      return;
    }
    if PendingKey(sha1, node.addr) in c.pending {
      return;
    }
    if c.node.Some? && node.addr != c.node.value {
      return;
    }
    var data := if node in commands.vals then commands.vals[node]
                else Command(c.ix.byNode.vals[node].maxSize - c.ix.byNode.vals[node].size, []);
    if data.available < value.fileSize {
      return;
    }
    taken := true;
    data := data.(available := data.available - value.fileSize);
    SourceByModulo(value, roundRobin);
    var src := value.nodes[roundRobin % |value.nodes|];
    data := data.(objects := data.objects + [FetchObject(src.addr, sha1)]);
    after := commands.Set(node, data);
  }

  /** Plans the copies of one object: walks the builders from the shared cursor, at most once round. */
  method ProcessOne(c: Context, p: Plan, sha1: string) returns (r: Plan)
    requires ContextOk(c) && sha1 in c.ix.bySHA1.vals && p.cursor < |c.ix.byNode.order|
    ensures r == ProcessObject(c, p, sha1)
  {
    if p.max == Some(0) {
      NothingPicked(c, p, sha1);
      return p;
    }
    var pendingCount := PendingCount(c.pending, sha1);
    var totalCopies := |c.ix.bySHA1.vals[sha1].nodes| + pendingCount;
    var needed := Min(c.redundancy + 1 - totalCopies, |c.ix.byNode.order| - 1);
    if needed <= 0 {
      NothingPicked(c, p, sha1);
      return p;
    }
    r := Scan(c, p, sha1, needed);
  }

  /** The builder the cursor has come to: what taking it or not leaves. */
  method Consider(c: Context, sha1: string, r: Plan, nodeIdx: nat) returns (taken: bool, after: Plan)
    requires sha1 in c.ix.bySHA1.vals && c.ix.bySHA1.vals[sha1].nodes != []
    requires nodeIdx < |c.ix.byNode.order| && c.ix.byNode.order[nodeIdx] in c.ix.byNode.vals
    requires r.max.Some? ==> r.max.value > 0
    ensures taken == Suits(c, r.commands, sha1, c.ix.byNode.order[nodeIdx])
    ensures after == if taken then Taken(c, sha1, r, nodeIdx) else r.(cursor := nodeIdx)
  {
    var commands;
    taken, commands := TryNode(c, sha1, c.ix.byNode.order[nodeIdx], r.commands, r.roundRobin);
    after := r.(cursor := nodeIdx, commands := commands);
    if taken {
      after := after.(roundRobin := r.roundRobin + 1, max := if r.max.Some? then Some(r.max.value - 1) else None);
    }
  }

  /** One turn of the loop: on to the next builder, which ends it if that is the first one again. */
  method Turn(c: Context, p: Plan, sha1: string, first: Option<nat>, r: Plan, ghost i: nat, ghost picks: seq<Builder>)
    returns (round: bool, taken: bool, firstIdx: Option<nat>, after: Plan)
    requires ContextOk(c) && sha1 in c.ix.bySHA1.vals && p.cursor < |c.ix.byNode.order|
    requires Walk(c, p, sha1, i, first, picks, r) && |picks| < Quota(c, p.max, sha1) && r.max != Some(0)
    ensures round ==> after == ProcessObject(c, p, sha1)
    ensures !round ==>
              && i < |c.ix.byNode.order| && after.cursor < |c.ix.byNode.order|
              && Walk(c, p, sha1, i + 1, firstIdx,
                      if taken then picks + [c.ix.byNode.order[after.cursor]] else picks, after)
  {
    WalkLook(c, p, sha1, i, first, picks, r);
    var nodeIdx: nat := r.cursor + 1;
    if nodeIdx == |c.ix.byNode.order| {
      nodeIdx := 0;
    }
    firstIdx := first;
    if first.None? {
      firstIdx := Some(nodeIdx);
    } else if first.value == nodeIdx {
      round, taken, after := true, false, r.(cursor := nodeIdx);
      WalkEnd(c, p, sha1, i, first, picks, after);
      return;
    }
    WalkStep(c, p, sha1, i, first, picks, r);
    round := false;
    taken, after := Consider(c, sha1, r, nodeIdx);
  }

  method Scan(c: Context, p: Plan, sha1: string, needed: nat) returns (r: Plan)
    requires ContextOk(c) && sha1 in c.ix.bySHA1.vals && p.cursor < |c.ix.byNode.order|
    requires p.max != Some(0) && 0 < needed == Needed(c, sha1)
    ensures r == ProcessObject(c, p, sha1)
  {
    var firstIdx: Option<nat>, found: nat := None, 0;
    r := p;
    ghost var i: nat, picks := 0, [];
    WalkStart(c, p, sha1);
    while found < needed
      invariant |picks| == found && r.max != Some(0) && Walk(c, p, sha1, i, firstIdx, picks, r)
      decreases |c.ix.byNode.order| - i
    {
      QuotaReached(c, p, sha1, i, firstIdx, picks, r);
      var round, taken;
      round, taken, firstIdx, r := Turn(c, p, sha1, firstIdx, r, i, picks);
      if round {
        return;
      }
      i := i + 1;
      if taken {
        found := found + 1;
        picks := picks + [c.ix.byNode.order[r.cursor]];
      }
      if r.max == Some(0) {
        break;
      }
    }
    WalkDone(c, p, sha1, i, firstIdx, picks, r);
  }

  lemma WalkDone(c: Context, p: Plan, sha1: string, i: nat, first: Option<nat>, picks: seq<Builder>, r: Plan)
    requires ContextOk(c) && sha1 in c.ix.bySHA1.vals && p.cursor < |c.ix.byNode.order|
    requires Walk(c, p, sha1, i, first, picks, r) && 0 < Needed(c, sha1) && p.max != Some(0)
    requires |picks| >= Needed(c, sha1) || r.max == Some(0)
    ensures r == ProcessObject(c, p, sha1)
  {
    QuotaReached(c, p, sha1, i, first, picks, r);
    WalkEnd(c, p, sha1, i, first, picks, r);
  }

  /** A walk has all its picks when as many are made as are needed, or as may be at all. */
  lemma QuotaReached(c: Context, p: Plan, sha1: string, i: nat, first: Option<nat>, picks: seq<Builder>, r: Plan)
    requires ContextOk(c) && sha1 in c.ix.bySHA1.vals && p.cursor < |c.ix.byNode.order|
    requires Walk(c, p, sha1, i, first, picks, r) && 0 < Needed(c, sha1) && p.max != Some(0)
    ensures |picks| <= Quota(c, p.max, sha1) && 0 < Quota(c, p.max, sha1)
    ensures |picks| == Quota(c, p.max, sha1) <==> |picks| == Needed(c, sha1) || r.max == Some(0)
  {}

  method MakePlan(c: Context, max: Option<nat>, sha1: Option<string>) returns (p: Plan)
    requires ContextOk(c)
    ensures p == PlanFor(c, max, sha1)
  {
    var nodes, byNode := c.ix.byNode.order, c.ix.byNode.vals;
    p := Plan(0, max, 0, JsMap([], map[]));
    if sha1.None? {
      p := p.(commands := JsMap(nodes, map n <- byNode :: Command(byNode[n].maxSize - byNode[n].size, [])));
    }
    assert p.commands == InitialCommands(c, sha1.None?);
    if |nodes| >= 2 {
      if sha1.Some? {
        if sha1.value in c.ix.bySHA1.vals {
          assert ProcessAll(c, p, [sha1.value]) == ProcessObject(c, p, sha1.value) by {
            assert [sha1.value][..0] == [];
          }
          p := ProcessOne(c, p, sha1.value);
        }
      } else {
        p := ProcessEvery(c, p);
      }
    }
  }

  ghost predicate Known(c: Context, shas: seq<string>) { forall i :: 0 <= i < |shas| ==> shas[i] in c.ix.bySHA1.vals }

  lemma OrderKnown(c: Context)
    requires ContextOk(c)
    ensures Known(c, c.ix.bySHA1.order)
  {
    assert forall i :: 0 <= i < |c.ix.bySHA1.order| ==> c.ix.bySHA1.order[i] in c.ix.bySHA1.order;
  }

  lemma ProcessNext(c: Context, p: Plan, shas: seq<string>, i: nat)
    requires ContextOk(c) && p.cursor < |c.ix.byNode.order| && Known(c, shas) && i < |shas|
    ensures Known(c, shas[..i]) && Known(c, shas[..i + 1]) && shas[i] in c.ix.bySHA1.vals
    ensures ProcessAll(c, p, shas[..i + 1]) == ProcessObject(c, ProcessAll(c, p, shas[..i]), shas[i])
  {
    assert shas[..i + 1][..i] == shas[..i];
  }

  method ProcessEvery(c: Context, start: Plan) returns (p: Plan)
    requires ContextOk(c) && start.cursor < |c.ix.byNode.order|
    ensures p == ProcessAll(c, start, c.ix.bySHA1.order)
  {
    var shas := c.ix.bySHA1.order;
    OrderKnown(c);
    p := start;
    for i := 0 to |shas|
      invariant Known(c, shas[..i]) && p == ProcessAll(c, start, shas[..i])
    {
      ProcessNext(c, start, shas, i);
      p := ProcessOne(c, p, shas[i]);
    }
    assert shas[..|shas|] == shas;
  }
}
