/** What every plan guarantees: capacity, redundancy, destination and source of each transfer,
    the cap on transfers, and that it stops short only when nobody can take another copy. */
module DistributionProperties {
  import opened Collections
  import opened ObjectIndex
  import opened PendingKeys
  import opened Distribution

  function SumSizes(c: Context, objects: seq<FetchObject>): nat
    requires forall i :: 0 <= i < |objects| ==> objects[i].sha1 in c.ix.bySHA1.vals
  {
    if objects == [] then 0
    else SumSizes(c, objects[..|objects| - 1]) + c.ix.bySHA1.vals[objects[|objects| - 1].sha1].fileSize
  }

  /** One planned transfer: a held object, to a builder that neither holds nor awaits it, from a holder. */
  ghost predicate TransferOk(c: Context, n: Builder, o: FetchObject) {
    && o.sha1 in c.ix.bySHA1.vals
    && !ShaHas(c.ix.bySHA1, o.sha1, n)
    && PendingKey(o.sha1, n.addr) !in c.pending
    && (c.node.Some? ==> n.addr == c.node.value)
    && exists h :: ShaHas(c.ix.bySHA1, o.sha1, h) && h.addr == o.source
  }

  /** The transfers planned for one builder fit its free space and name distinct objects. */
  ghost predicate CommandOk(c: Context, n: Builder, cmd: Command) {
    && (forall i :: 0 <= i < |cmd.objects| ==> TransferOk(c, n, cmd.objects[i]))
    && (forall i, j :: 0 <= i < j < |cmd.objects| ==> cmd.objects[i].sha1 != cmd.objects[j].sha1)
    && SumSizes(c, cmd.objects) + cmd.available == Free(c, n)
    && (cmd.objects != [] ==> cmd.available >= 0)
  }

  ghost predicate Gets(cmd: Command, sha1: string) {
    exists i :: 0 <= i < |cmd.objects| && cmd.objects[i].sha1 == sha1
  }

  /** The builders a plan sends one object to. */
  ghost function Planned(c: Context, commands: JsMap<Builder, Command>, sha1: string): set<Builder> {
    set n <- c.ix.byNode.vals | Gets(CommandOf(c, commands, n), sha1)
  }

  ghost predicate CopiesOk(c: Context, commands: JsMap<Builder, Command>, sha1: string)
    requires sha1 in c.ix.bySHA1.vals
  {
    Planned(c, commands, sha1) != {} ==>
      |c.ix.bySHA1.vals[sha1].nodes| + |PendingKeysOf(c.pending, sha1)| + |Planned(c, commands, sha1)| <=
        c.redundancy + 1
  }

  /** Builder n cannot be sent one more copy: it holds the object, awaits it, is not the one asked for, or has less
      room left than the object takes. */
  ghost predicate CannotTake(c: Context, commands: JsMap<Builder, Command>, sha1: string, n: Builder)
    requires sha1 in c.ix.bySHA1.vals && n in c.ix.byNode.vals
  {
    || n in c.ix.bySHA1.vals[sha1].nodes
    || PendingKey(sha1, n.addr) in c.pending
    || (c.node.Some? && c.node.value != n.addr)
    || CommandOf(c, commands, n).available < c.ix.bySHA1.vals[sha1].fileSize
  }

  /** Nobody can take one more copy. */
  ghost predicate Saturated(c: Context, commands: JsMap<Builder, Command>, sha1: string)
    requires sha1 in c.ix.bySHA1.vals
  {
    forall n <- c.ix.byNode.vals :: n in Planned(c, commands, sha1) || CannotTake(c, commands, sha1, n)
  }

  /** The object will have redundancy + 1 copies, all builders but one are sent it, or nobody can take another. */
  ghost predicate Served(c: Context, commands: JsMap<Builder, Command>, sha1: string)
    requires sha1 in c.ix.bySHA1.vals
  {
    || |c.ix.bySHA1.vals[sha1].nodes| + |PendingKeysOf(c.pending, sha1)| + |Planned(c, commands, sha1)| >=
       c.redundancy + 1
    || |Planned(c, commands, sha1)| + 1 >= |c.ix.byNode.order|
    || Saturated(c, commands, sha1)
  }

  /** It is, unless the cap is used up. */
  ghost predicate Complete(c: Context, p: Plan, sha1: string)
    requires sha1 in c.ix.bySHA1.vals
  {
    p.max == Some(0) || Served(c, p.commands, sha1)
  }

  function CountIn(commands: JsMap<Builder, Command>, order: seq<Builder>): nat
    requires forall i :: 0 <= i < |order| ==> order[i] in commands.vals
  {
    if order == [] then 0
    else CountIn(commands, order[..|order| - 1]) + |commands.vals[order[|order| - 1]].objects|
  }

  /** The number of transfers in a plan. */
  ghost function Count(commands: JsMap<Builder, Command>): nat
    requires commands.Wf()
  {
    CountIn(commands, commands.order)
  }

  ghost predicate PlanOk(c: Context, p: Plan, done: seq<string>, max: Option<nat>) {
    && p.commands.Wf()
    && (forall n <- p.commands.vals :: n in c.ix.byNode.vals)
    && (forall n <- c.ix.byNode.vals :: CommandOk(c, n, CommandOf(c, p.commands, n)))
    && (forall n <- c.ix.byNode.vals, s :: Gets(CommandOf(c, p.commands, n), s) ==> s in done)
    && (forall s <- done :: s in c.ix.bySHA1.vals && CopiesOk(c, p.commands, s) && Complete(c, p, s))
    && p.max.Some? == max.Some?
    && (max.Some? ==> Count(p.commands) + p.max.value == max.value)
    && p.roundRobin == Count(p.commands)
  }

  // ---- one object

  lemma GiveOk(c: Context, n: Builder, cmd: Command, sha1: string, k: nat)
    requires sha1 in c.ix.bySHA1.vals && c.ix.bySHA1.vals[sha1].nodes != []
    requires CommandOk(c, n, cmd) && !Gets(cmd, sha1)
    requires !ShaHas(c.ix.bySHA1, sha1, n) && PendingKey(sha1, n.addr) !in c.pending
    requires c.node.Some? ==> n.addr == c.node.value
    requires cmd.available >= c.ix.bySHA1.vals[sha1].fileSize
    ensures var data := c.ix.bySHA1.vals[sha1];
            var after := Give(cmd, data.fileSize, FetchObject(Source(data, k), sha1));
            && CommandOk(c, n, after)
            && forall s :: Gets(after, s) <==> Gets(cmd, s) || s == sha1
  {
    var data := c.ix.bySHA1.vals[sha1];
    var o := FetchObject(Source(data, k), sha1);
    var after := Give(cmd, data.fileSize, o);
    assert after.objects[..|cmd.objects|] == cmd.objects;
    assert ShaHas(c.ix.bySHA1, sha1, data.nodes[Turn(k, |data.nodes|)]);
    assert TransferOk(c, n, o);
    forall s ensures Gets(after, s) <==> Gets(cmd, s) || s == sha1 {
      if Gets(cmd, s) {
        var i :| 0 <= i < |cmd.objects| && cmd.objects[i].sha1 == s;
        assert after.objects[i].sha1 == s;
      }
      assert after.objects[|cmd.objects|].sha1 == sha1;
    }
  }

  /** What changes for one builder when one object's picks are assigned. */
  ghost predicate Picked(c: Context, before: JsMap<Builder, Command>, after: JsMap<Builder, Command>,
      picks: seq<Builder>, sha1: string, n: Builder) {
    && CommandOk(c, n, CommandOf(c, after, n))
    && (forall s :: Gets(CommandOf(c, after, n), s) <==> Gets(CommandOf(c, before, n), s) || (s == sha1 && n in picks))
    && CommandOf(c, after, n).available <= CommandOf(c, before, n).available
  }

  lemma PickedOne(c: Context, before: JsMap<Builder, Command>, after: JsMap<Builder, Command>, picks: seq<Builder>,
      sha1: string, k: nat, n: Builder)
    requires sha1 in c.ix.bySHA1.vals && c.ix.bySHA1.vals[sha1].nodes != []
    requires CommandOk(c, n, CommandOf(c, before, n)) && !Gets(CommandOf(c, before, n), sha1)
    requires n in picks ==> Suits(c, before, sha1, n) && Given(c, before, after, n, sha1, k)
    requires n !in picks ==> CommandOf(c, after, n) == CommandOf(c, before, n)
    ensures Picked(c, before, after, picks, sha1, n)
  {
    if n in picks { GiveOk(c, n, CommandOf(c, before, n), sha1, k); }
  }

  lemma PickedAll(c: Context, before: JsMap<Builder, Command>, after: JsMap<Builder, Command>, picks: seq<Builder>,
      sha1: string, k: nat)
    requires sha1 in c.ix.bySHA1.vals && c.ix.bySHA1.vals[sha1].nodes != []
    requires forall n <- c.ix.byNode.vals ::
               CommandOk(c, n, CommandOf(c, before, n)) && !Gets(CommandOf(c, before, n), sha1)
    requires forall n <- picks :: Suits(c, before, sha1, n)
    requires Assigned(c, before, after, picks, sha1, k)
    ensures forall n <- c.ix.byNode.vals :: Picked(c, before, after, picks, sha1, n)
  {
    forall n | n in c.ix.byNode.vals ensures Picked(c, before, after, picks, sha1, n) {
      var at := 0;
      if n in picks {
        var i :| 0 <= i < |picks| && picks[i] == n;
        assert Given(c, before, after, picks[i], sha1, k + i);
        at := i;
      }
      PickedOne(c, before, after, picks, sha1, k + at, n);
    }
  }

  lemma {:induction false} CountFrame(before: JsMap<Builder, Command>, after: JsMap<Builder, Command>,
      order: seq<Builder>)
    requires forall n <- order ::
               n in before.vals && n in after.vals && |before.vals[n].objects| == |after.vals[n].objects|
    requires forall i :: 0 <= i < |order| ==> order[i] in before.vals && order[i] in after.vals
    ensures CountIn(before, order) == CountIn(after, order)
  {
    if order != [] {
      assert forall n <- order[..|order| - 1] :: n in order;
      CountFrame(before, after, order[..|order| - 1]);
    }
  }

  lemma {:induction false} CountBump(before: JsMap<Builder, Command>, after: JsMap<Builder, Command>,
      order: seq<Builder>, n: Builder)
    requires NoDup(order) && n in order
    requires forall i :: 0 <= i < |order| ==> order[i] in before.vals && order[i] in after.vals
    requires forall m <- order :: m != n ==> after.vals[m] == before.vals[m]
    requires |after.vals[n].objects| == |before.vals[n].objects| + 1
    ensures CountIn(after, order) == CountIn(before, order) + 1
  {
    var last := |order| - 1;
    assert order == order[..last] + [order[last]];
    if order[last] == n {
      CountFrame(before, after, order[..last]);
    } else {
      assert order[last] in order;
      CountBump(before, after, order[..last], n);
    }
  }

  lemma CountAssignOne(c: Context, commands: JsMap<Builder, Command>, n: Builder, fileSize: nat, o: FetchObject)
    requires commands.Wf()
    ensures AssignOne(c, commands, n, fileSize, o).Wf()
    ensures Count(AssignOne(c, commands, n, fileSize, o)) == Count(commands) + 1
  {
    AssignOneEffect(c, commands, n, fileSize, o);
    var after := AssignOne(c, commands, n, fileSize, o);
    if n in commands.vals {
      CountBump(commands, after, commands.order, n);
    } else {
      assert after.order == commands.order + [n];
      assert after.order[..|after.order| - 1] == commands.order;
      CountFrame(commands, after, commands.order);
    }
  }

  lemma {:induction false} CountAssignAll(c: Context, commands: JsMap<Builder, Command>, picks: seq<Builder>,
      sha1: string, k: nat)
    requires sha1 in c.ix.bySHA1.vals && c.ix.bySHA1.vals[sha1].nodes != []
    requires commands.Wf()
    ensures AssignAll(c, commands, picks, sha1, k).Wf()
    ensures Count(AssignAll(c, commands, picks, sha1, k)) == Count(commands) + |picks|
  {
    if picks != [] {
      var data, last := c.ix.bySHA1.vals[sha1], |picks| - 1;
      CountAssignAll(c, commands, picks[..last], sha1, k);
      CountAssignOne(c, AssignAll(c, commands, picks[..last], sha1, k), picks[last], data.fileSize,
                     FetchObject(Source(data, k + last), sha1));
    }
  }

  /** Planning one object keeps everything already promised about the others. */
  lemma OthersUnaffected(c: Context, before: Plan, after: Plan, sha1: string, s: string)
    requires s in c.ix.bySHA1.vals && s != sha1
    requires CopiesOk(c, before.commands, s) && Complete(c, before, s)
    requires before.max == Some(0) ==> after.max == Some(0)
    requires forall n <- c.ix.byNode.vals :: Gets(CommandOf(c, after.commands, n), s) <==>
             Gets(CommandOf(c, before.commands, n), s)
    requires forall n <- c.ix.byNode.vals ::
               CommandOf(c, after.commands, n).available <= CommandOf(c, before.commands, n).available
    ensures CopiesOk(c, after.commands, s) && Complete(c, after, s)
  {
    ServedStays(c, before.commands, after.commands, s);
  }

  /** The object just planned: at most redundancy + 1 copies, and short of that only if saturated or capped. */
  lemma ObjectServed(c: Context, before: Plan, after: Plan, sha1: string)
    requires ContextOk(c) && sha1 in c.ix.bySHA1.vals && before.cursor < |c.ix.byNode.order|
    requires Planned(c, after.commands, sha1) == Members(Picks(c, before, sha1))
    requires forall n <- c.ix.byNode.vals ::
               CommandOf(c, after.commands, n).available <= CommandOf(c, before.commands, n).available
    requires after.max.Some? == before.max.Some?
    requires before.max.Some? ==> after.max.value == before.max.value - |Picks(c, before, sha1)|
    ensures CopiesOk(c, after.commands, sha1) && Complete(c, after, sha1)
  {
    var picks := Picks(c, before, sha1);
    PicksFacts(c, before, sha1);
    MembersCard(picks);
    if |picks| < Quota(c, before.max, sha1) {
      forall n | n in c.ix.byNode.vals
        ensures n in Planned(c, after.commands, sha1) || CannotTake(c, after.commands, sha1, n)
      {
        assert !CannotTake(c, after.commands, sha1, n) ==> Suits(c, before.commands, sha1, n);
      }
    }
  }

  /** PlanOk after one more object, from what happened to each builder and to the transfer count. */
  lemma PlanOkStep(c: Context, p: Plan, after: Plan, done: seq<string>, max: Option<nat>, sha1: string)
    requires ContextOk(c) && PlanOk(c, p, done, max)
    requires sha1 in c.ix.bySHA1.vals && sha1 !in done && p.cursor < |c.ix.byNode.order|
    requires after.commands.Wf() && forall n <- after.commands.vals :: n in c.ix.byNode.vals
    requires forall n <- c.ix.byNode.vals :: Picked(c, p.commands, after.commands, Picks(c, p, sha1), sha1, n)
    requires Count(after.commands) == Count(p.commands) + |Picks(c, p, sha1)|
    requires after.max.Some? == p.max.Some?
    requires p.max.Some? ==> after.max.value == p.max.value - |Picks(c, p, sha1)|
    requires after.roundRobin == p.roundRobin + |Picks(c, p, sha1)|
    ensures PlanOk(c, after, done + [sha1], max)
  {
    var picks := Picks(c, p, sha1);
    PicksFacts(c, p, sha1);
    assert Planned(c, after.commands, sha1) == Members(picks) by {
      forall n | n in c.ix.byNode.vals ensures Gets(CommandOf(c, after.commands, n), sha1) <==> n in picks {
        assert Picked(c, p.commands, after.commands, picks, sha1, n);
      }
    }
    ObjectServed(c, p, after, sha1);
    forall s | s in done + [sha1]
      ensures s in c.ix.bySHA1.vals && CopiesOk(c, after.commands, s) && Complete(c, after, s)
    {
      if s != sha1 { assert s in done; OthersUnaffected(c, p, after, sha1, s); }
    }
  }

  lemma AssignedAfter(c: Context, p: Plan, sha1: string)
    requires ContextOk(c) && sha1 in c.ix.bySHA1.vals && p.cursor < |c.ix.byNode.order|
    requires p.commands.Wf()
    requires forall n <- c.ix.byNode.vals ::
               CommandOk(c, n, CommandOf(c, p.commands, n)) && !Gets(CommandOf(c, p.commands, n), sha1)
    ensures var picks, after := Picks(c, p, sha1), ProcessObject(c, p, sha1).commands;
            && after.Wf()
            && Count(after) == Count(p.commands) + |picks|
            && (forall n <- after.vals :: n in p.commands.vals || n in c.ix.byNode.vals)
            && forall n <- c.ix.byNode.vals :: Picked(c, p.commands, after, picks, sha1, n)
  {
    var picks := Picks(c, p, sha1);
    PicksFacts(c, p, sha1);
    AssignAllEffect(c, p.commands, picks, sha1, p.roundRobin);
    CountAssignAll(c, p.commands, picks, sha1, p.roundRobin);
    PickedAll(c, p.commands, AssignAll(c, p.commands, picks, sha1, p.roundRobin), picks, sha1, p.roundRobin);
  }

  lemma ProcessKeepsPlanOk(c: Context, p: Plan, done: seq<string>, max: Option<nat>, sha1: string)
    requires ContextOk(c) && PlanOk(c, p, done, max)
    requires sha1 in c.ix.bySHA1.vals && sha1 !in done && p.cursor < |c.ix.byNode.order|
    ensures PlanOk(c, ProcessObject(c, p, sha1), done + [sha1], max)
  {
    AssignedAfter(c, p, sha1);
    PlanOkStep(c, p, ProcessObject(c, p, sha1), done, max, sha1);
  }

  lemma ProcessLast(c: Context, p: Plan, max: Option<nat>, rest: seq<string>, last: string)
    requires ContextOk(c) && p.cursor < |c.ix.byNode.order|
    requires forall i :: 0 <= i < |rest| ==> rest[i] in c.ix.bySHA1.vals
    requires PlanOk(c, ProcessAll(c, p, rest), rest, max)
    requires last in c.ix.bySHA1.vals && last !in rest
    ensures PlanOk(c, ProcessAll(c, p, rest + [last]), rest + [last], max)
  {
    assert (rest + [last])[..|rest|] == rest;
    ProcessKeepsPlanOk(c, ProcessAll(c, p, rest), rest, max, last);
  }

  lemma {:induction false} ProcessAllKeepsPlanOk(c: Context, p: Plan, max: Option<nat>, shas: seq<string>)
    requires ContextOk(c) && PlanOk(c, p, [], max) && p.cursor < |c.ix.byNode.order|
    requires NoDup(shas) && forall i :: 0 <= i < |shas| ==> shas[i] in c.ix.bySHA1.vals
    ensures PlanOk(c, ProcessAll(c, p, shas), shas, max)
  {
    if shas != [] {
      var rest, last := shas[..|shas| - 1], shas[|shas| - 1];
      ProcessAllKeepsPlanOk(c, p, max, rest);
      ProcessLast(c, p, max, rest, last);
      assert shas == rest + [last];
    }
  }

  lemma {:induction false} InitialCount(commands: JsMap<Builder, Command>, order: seq<Builder>)
    requires forall i :: 0 <= i < |order| ==> order[i] in commands.vals && commands.vals[order[i]].objects == []
    ensures CountIn(commands, order) == 0
  {
    if order != [] { InitialCount(commands, order[..|order| - 1]); }
  }

  /** The planner's guarantee, for every index, pending set and query. */
  lemma PlanIsSound(c: Context, max: Option<nat>, sha1: Option<string>)
    requires ContextOk(c)
    ensures |c.ix.byNode.order| >= 2 ==> PlanOk(c, PlanFor(c, max, sha1), Wanted(c, sha1), max)
    ensures |c.ix.byNode.order| < 2 ==>
              PlanOk(c, PlanFor(c, max, sha1), [], max) && Count(PlanFor(c, max, sha1).commands) == 0
  {
    var start := Plan(0, max, 0, InitialCommands(c, sha1.None?));
    StartIsOk(c, start, max, sha1.None?);
    if |c.ix.byNode.order| >= 2 { ProcessAllKeepsPlanOk(c, start, max, Wanted(c, sha1)); }
  }

  lemma StartIsOk(c: Context, start: Plan, max: Option<nat>, everything: bool)
    requires ContextOk(c) && start == Plan(0, max, 0, InitialCommands(c, everything))
    ensures PlanOk(c, start, [], max) && Count(start.commands) == 0
  {
    InitialCount(start.commands, start.commands.order);
    assert forall n <- c.ix.byNode.vals :: CommandOf(c, start.commands, n).objects == [];
  }

  // ---- the guarantee in terms of the index alone

  /** What the plan leaves of builder n's space is less than the object takes. */
  ghost predicate NoRoom(c: Context, commands: JsMap<Builder, Command>, sha1: string, n: Builder)
    requires sha1 in c.ix.bySHA1.vals && n in c.ix.byNode.vals
  {
    var objects := CommandOf(c, commands, n).objects;
    && (forall i :: 0 <= i < |objects| ==> objects[i].sha1 in c.ix.bySHA1.vals)
    && c.ix.byNode.vals[n].maxSize - c.ix.byNode.vals[n].size - SumSizes(c, objects) < c.ix.bySHA1.vals[sha1].fileSize
  }

  lemma RoomLeft(c: Context, commands: JsMap<Builder, Command>, sha1: string, n: Builder)
    requires sha1 in c.ix.bySHA1.vals && n in c.ix.byNode.vals && CommandOk(c, n, CommandOf(c, commands, n))
    ensures CommandOf(c, commands, n).available < c.ix.bySHA1.vals[sha1].fileSize <==> NoRoom(c, commands, sha1, n)
  {
    var objects := CommandOf(c, commands, n).objects;
    forall i | 0 <= i < |objects| ensures objects[i].sha1 in c.ix.bySHA1.vals { assert TransferOk(c, n, objects[i]); }
  }

  /** All but a holder: whoever is not sent the object is that holder. */
  lemma AllButOne(c: Context, commands: JsMap<Builder, Command>, sha1: string)
    requires ContextOk(c) && Inverse(c.ix) && sha1 in c.ix.bySHA1.vals
    requires forall n <- c.ix.byNode.vals :: CommandOk(c, n, CommandOf(c, commands, n))
    requires |Planned(c, commands, sha1)| + 1 >= |c.ix.byNode.order|
    ensures Saturated(c, commands, sha1)
  {
    var holder := c.ix.bySHA1.vals[sha1].nodes[0];
    assert ShaHas(c.ix.bySHA1, sha1, holder);
    var all, planned := c.ix.byNode.vals.Keys, Planned(c, commands, sha1);
    MembersCard(c.ix.byNode.order);
    assert Members(c.ix.byNode.order) == all;
    assert holder in all by { assert NodeHas(c.ix, holder, sha1); }
    HolderNotSent(c, commands, sha1, holder);
    AllOthers(all, planned, holder);
  }

  lemma HolderNotSent(c: Context, commands: JsMap<Builder, Command>, sha1: string, holder: Builder)
    requires CommandOk(c, holder, CommandOf(c, commands, holder)) && ShaHas(c.ix.bySHA1, sha1, holder)
    ensures holder !in Planned(c, commands, sha1)
  {
    var objects := CommandOf(c, commands, holder).objects;
    forall i | 0 <= i < |objects| ensures objects[i].sha1 != sha1 { assert TransferOk(c, holder, objects[i]); }
  }

  lemma AllOthers(all: set<Builder>, some: set<Builder>, one: Builder)
    requires some <= all && one in all && one !in some && |some| + 1 >= |all|
    ensures all == some + {one}
  {
    var rest := all - some - {one};
    assert all == some + {one} + rest && |some + {one}| == |some| + 1;
    assert |all| == |some + {one}| + |rest|;
    assert rest == {};
  }

  /** Every object that is asked for gets what it needs: unless the whole cap is used up, either the copies that are
      held, on their way and planned come to redundancy + 1, or each builder is sent it, holds it, awaits it, is not
      the one asked for, or has no room left for it. */
  lemma PlanIsComplete(c: Context, max: Option<nat>, wanted: Option<string>, sha1: string)
    requires ContextOk(c) && Inverse(c.ix) && |c.ix.byNode.order| >= 2
    requires sha1 in c.ix.bySHA1.vals && (wanted.None? || wanted == Some(sha1))
    ensures var commands, holders := PlanFor(c, max, wanted).commands, c.ix.bySHA1.vals[sha1].nodes;
            && commands.Wf()
            && (|| (max.Some? && Count(commands) == max.value)
                || |holders| + |PendingKeysOf(c.pending, sha1)| + |Planned(c, commands, sha1)| >= c.redundancy + 1
                || forall n <- c.ix.byNode.vals ::
                     || Gets(CommandOf(c, commands, n), sha1)
                     || n in holders
                     || PendingKey(sha1, n.addr) in c.pending
                     || (c.node.Some? && c.node.value != n.addr)
                     || NoRoom(c, commands, sha1, n))
  {
    PlanIsSound(c, max, wanted);
    var p := PlanFor(c, max, wanted);
    assert sha1 in Wanted(c, wanted);
    if |Planned(c, p.commands, sha1)| + 1 >= |c.ix.byNode.order| { AllButOne(c, p.commands, sha1); }
    if Saturated(c, p.commands, sha1) {
      forall n | n in c.ix.byNode.vals
        ensures Gets(CommandOf(c, p.commands, n), sha1) || CannotTake(c, p.commands, sha1, n)
        ensures CommandOf(c, p.commands, n).available < c.ix.bySHA1.vals[sha1].fileSize ==>
                  NoRoom(c, p.commands, sha1, n)
      {
        assert n in Planned(c, p.commands, sha1) || CannotTake(c, p.commands, sha1, n);
        RoomLeft(c, p.commands, sha1, n);
      }
    }
  }

  /** What is planned for a builder fits between what it holds and its maximum. */
  lemma PlanFits(c: Context, max: Option<nat>, wanted: Option<string>, n: Builder)
    requires ContextOk(c) && n in c.ix.byNode.vals
    ensures var objects := CommandOf(c, PlanFor(c, max, wanted).commands, n).objects;
            && (forall i :: 0 <= i < |objects| ==> objects[i].sha1 in c.ix.bySHA1.vals)
            && (objects != [] ==> c.ix.byNode.vals[n].size + SumSizes(c, objects) <= c.ix.byNode.vals[n].maxSize)
  {
    PlanIsSound(c, max, wanted);
    var cmd := CommandOf(c, PlanFor(c, max, wanted).commands, n);
    assert CommandOk(c, n, cmd);
    forall i | 0 <= i < |cmd.objects| ensures cmd.objects[i].sha1 in c.ix.bySHA1.vals {
      assert TransferOk(c, n, cmd.objects[i]);
    }
  }

  // ---- taking turns

  lemma RotationAt(nodes: seq<Builder>, cursor: nat, i: nat)
    requires cursor < |nodes| && i < |nodes|
    ensures Rotation(nodes, cursor)[i] == nodes[(cursor + 1 + i) % |nodes|]
  {
    RotationStep(nodes, cursor, i);
    var n, k := |nodes|, cursor + 1 + i;
    if k < n { ModuloUnique(k, n, 0, k); } else if k < 2 * n { ModuloUnique(k, n, 1, k - n); }
  }

  /** Builders are served in the order of the index, from the one behind the cursor on: none that can take a copy is
      passed over for a later one. */
  lemma NextInLine(c: Context, p: Plan, sha1: string, i: nat, j: nat)
    requires ContextOk(c) && sha1 in c.ix.bySHA1.vals && p.cursor < |c.ix.byNode.order|
    requires i < j < |c.ix.byNode.order|
    requires var nodes := c.ix.byNode.order; nodes[(p.cursor + 1 + j) % |nodes|] in Picks(c, p, sha1)
    ensures var nodes := c.ix.byNode.order;
            var n := nodes[(p.cursor + 1 + i) % |nodes|];
            && n in c.ix.byNode.vals
            && (n in Picks(c, p, sha1) || CannotTake(c, p.commands, sha1, n))
  {
    var nodes := c.ix.byNode.order;
    RotationAt(nodes, p.cursor, i);
    RotationAt(nodes, p.cursor, j);
    InRotation(c, p, sha1, Rotation(nodes, p.cursor), i, j);
  }

  lemma InRotation(c: Context, p: Plan, sha1: string, rot: seq<Builder>, i: nat, j: nat)
    requires ContextOk(c) && sha1 in c.ix.bySHA1.vals && p.cursor < |c.ix.byNode.order|
    requires rot == Rotation(c.ix.byNode.order, p.cursor) && i < j < |rot| && rot[j] in Picks(c, p, sha1)
    ensures rot[i] in c.ix.byNode.vals && (rot[i] in Picks(c, p, sha1) || CannotTake(c, p.commands, sha1, rot[i]))
  {
    RotationKnown(c, p.cursor);
    assert rot[i] in rot;
    if Suits(c, p.commands, sha1, rot[i]) {
      EarlierFirst(c, p.commands, sha1, rot, i, j, |Picks(c, p, sha1)|);
    }
  }

  lemma {:induction false} EarlierFirst(c: Context, commands: JsMap<Builder, Command>, sha1: string, ns: seq<Builder>,
      i: nat, j: nat, k: nat)
    requires sha1 in c.ix.bySHA1.vals && NoDup(ns) && i < j < |ns| && Suits(c, commands, sha1, ns[i])
    requires k <= |Suitable(c, commands, sha1, ns)| && ns[j] in Suitable(c, commands, sha1, ns)[..k]
    ensures ns[i] in Suitable(c, commands, sha1, ns)[..k]
  {
    var all, front := Suitable(c, commands, sha1, ns), Suitable(c, commands, sha1, ns[..j]);
    SuitablePrefix(c, commands, sha1, ns, j);
    SuitableMembers(c, commands, sha1, ns[..j]);
    NoDupSlice(ns, j);
    assert ns[..j][i] == ns[i];
    PrefixMembers(all, front, k, ns[j]);
    var x :| 0 <= x < |front| && front[x] == ns[i];
    assert all[..k][x] == ns[i];
  }

  lemma PrefixMembers(all: seq<Builder>, front: seq<Builder>, k: nat, n: Builder)
    requires front <= all && k <= |all|
    ensures k <= |front| && n in all[..k] ==> n in front
  {
    assert k <= |front| ==> all[..k] == front[..k];
  }

  lemma NoDupSlice(ns: seq<Builder>, j: nat)
    requires NoDup(ns) && j < |ns|
    ensures ns[j] !in ns[..j]
  {
    NoDupPrefix(ns, j + 1);
    assert ns[..j + 1] == ns[..j] + [ns[j]];
    NoDupAppend(ns[..j], ns[j]);
  }

  lemma NextIsModulo(n: nat, cursor: nat)
    requires cursor < n
    ensures Next(n, cursor) == (cursor + 1) % n
  {
    if cursor + 1 < n { ModuloUnique(cursor + 1, n, 0, cursor + 1); } else { ModuloUnique(n, n, 1, 0); }
  }

  /** The cursor is left on the last builder served, or, when the round fell short, one builder on. */
  lemma CursorMoves(c: Context, p: Plan, sha1: string)
    requires ContextOk(c) && sha1 in c.ix.bySHA1.vals && p.cursor < |c.ix.byNode.order|
    ensures var nodes, picks, r := c.ix.byNode.order, Picks(c, p, sha1), ProcessObject(c, p, sha1);
            || r == p
            || (picks != [] && nodes[r.cursor] == picks[|picks| - 1])
            || (r.cursor == (p.cursor + 1) % |nodes|
                && forall n <- c.ix.byNode.vals :: n in picks || CannotTake(c, p.commands, sha1, n))
  {
    NextIsModulo(|c.ix.byNode.order|, p.cursor);
    PicksFacts(c, p, sha1);
    if Quota(c, p.max, sha1) == 0 {
      NothingPicked(c, p, sha1);
    } else if |Picks(c, p, sha1)| < Quota(c, p.max, sha1) {
      forall m | m in c.ix.byNode.vals ensures m in Picks(c, p, sha1) || CannotTake(c, p.commands, sha1, m) {
        assert !CannotTake(c, p.commands, sha1, m) ==> Suits(c, p.commands, sha1, m);
      }
    }
  }

  /** The holders take turns over the whole plan, in which `roundRobin` counts the transfers: transfer k comes from
      holder k modulo their number. */
  lemma SourcesTakeTurns(c: Context, p: Plan, sha1: string, i: nat, k: nat)
    requires ContextOk(c) && p.commands.Wf() && p.roundRobin == Count(p.commands)
    requires sha1 in c.ix.bySHA1.vals && p.cursor < |c.ix.byNode.order|
    requires i < |Picks(c, p, sha1)| && k == Count(p.commands) + i
    ensures var data, n := c.ix.bySHA1.vals[sha1], Picks(c, p, sha1)[i];
            CommandOf(c, ProcessObject(c, p, sha1).commands, n).objects ==
            CommandOf(c, p.commands, n).objects + [FetchObject(data.nodes[k % |data.nodes|].addr, sha1)]
  {
    PicksFacts(c, p, sha1);
    FromHolder(c, p.commands, ProcessObject(c, p, sha1).commands, Picks(c, p, sha1), sha1, i, k);
  }

  lemma FromHolder(c: Context, before: JsMap<Builder, Command>, after: JsMap<Builder, Command>, picks: seq<Builder>,
      sha1: string, i: nat, k: nat)
    requires sha1 in c.ix.bySHA1.vals && c.ix.bySHA1.vals[sha1].nodes != [] && before.Wf() && NoDup(picks)
    requires i < |picks| && i <= k && after == AssignAll(c, before, picks, sha1, k - i)
    ensures var data := c.ix.bySHA1.vals[sha1];
            CommandOf(c, after, picks[i]).objects ==
            CommandOf(c, before, picks[i]).objects + [FetchObject(data.nodes[k % |data.nodes|].addr, sha1)]
  {
    AssignAllEffect(c, before, picks, sha1, k - i);
    GivenSource(c, before, after, picks, sha1, i, k);
  }

  lemma GivenSource(c: Context, before: JsMap<Builder, Command>, after: JsMap<Builder, Command>, picks: seq<Builder>,
      sha1: string, i: nat, k: nat)
    requires sha1 in c.ix.bySHA1.vals && c.ix.bySHA1.vals[sha1].nodes != []
    requires i < |picks| && i <= k && Assigned(c, before, after, picks, sha1, k - i)
    ensures var data := c.ix.bySHA1.vals[sha1];
            CommandOf(c, after, picks[i]).objects ==
            CommandOf(c, before, picks[i]).objects + [FetchObject(data.nodes[k % |data.nodes|].addr, sha1)]
  {
    assert Given(c, before, after, picks[i], sha1, k - i + i);
    SourceByModulo(c.ix.bySHA1.vals[sha1], k);
  }

  // ---- under a cap the first objects go first

  /** Whatever an object is sent, the objects in front of it have been served. */
  ghost predicate InTurn(c: Context, commands: JsMap<Builder, Command>, done: seq<string>) {
    && (forall s <- done :: s in c.ix.bySHA1.vals)
    && forall i, j :: 0 <= i < j < |done| && Planned(c, commands, done[j]) != {} ==> Served(c, commands, done[i])
  }

  lemma ServedStays(c: Context, before: JsMap<Builder, Command>, after: JsMap<Builder, Command>, s: string)
    requires s in c.ix.bySHA1.vals
    requires forall n <- c.ix.byNode.vals :: Gets(CommandOf(c, after, n), s) <==> Gets(CommandOf(c, before, n), s)
    requires forall n <- c.ix.byNode.vals :: CommandOf(c, after, n).available <= CommandOf(c, before, n).available
    ensures Planned(c, after, s) == Planned(c, before, s)
    ensures Served(c, before, s) ==> Served(c, after, s)
  {
    assert Planned(c, after, s) == Planned(c, before, s);
    if Saturated(c, before, s) {
      forall n | n in c.ix.byNode.vals ensures n in Planned(c, after, s) || CannotTake(c, after, s, n) {
        assert n in Planned(c, before, s) || CannotTake(c, before, s, n);
      }
    }
  }

  lemma PickedStays(c: Context, before: JsMap<Builder, Command>, after: JsMap<Builder, Command>, picks: seq<Builder>,
      sha1: string, s: string)
    requires s in c.ix.bySHA1.vals && s != sha1
    requires forall n <- c.ix.byNode.vals :: Picked(c, before, after, picks, sha1, n)
    ensures Planned(c, after, s) == Planned(c, before, s)
    ensures Served(c, before, s) ==> Served(c, after, s)
  {
    forall n <- c.ix.byNode.vals
      ensures Gets(CommandOf(c, after, n), s) <==> Gets(CommandOf(c, before, n), s)
      ensures CommandOf(c, after, n).available <= CommandOf(c, before, n).available
    {
      assert Picked(c, before, after, picks, sha1, n);
    }
    ServedStays(c, before, after, s);
  }

  lemma PlannedArePicks(c: Context, p: Plan, done: seq<string>, max: Option<nat>, sha1: string)
    requires ContextOk(c) && PlanOk(c, p, done, max) && sha1 in c.ix.bySHA1.vals && sha1 !in done
    requires p.cursor < |c.ix.byNode.order| && Planned(c, ProcessObject(c, p, sha1).commands, sha1) != {}
    ensures p.max != Some(0)
  {
    AssignedAfter(c, p, sha1);
    var n :| n in Planned(c, ProcessObject(c, p, sha1).commands, sha1);
    assert Picked(c, p.commands, ProcessObject(c, p, sha1).commands, Picks(c, p, sha1), sha1, n);
  }

  lemma TurnKept(c: Context, p: Plan, done: seq<string>, max: Option<nat>, sha1: string)
    requires ContextOk(c) && PlanOk(c, p, done, max) && InTurn(c, p.commands, done)
    requires sha1 in c.ix.bySHA1.vals && sha1 !in done && p.cursor < |c.ix.byNode.order|
    ensures InTurn(c, ProcessObject(c, p, sha1).commands, done + [sha1])
  {
    AssignedAfter(c, p, sha1);
    var after, all := ProcessObject(c, p, sha1).commands, done + [sha1];
    forall s <- done
      ensures Planned(c, after, s) == Planned(c, p.commands, s)
      ensures Served(c, p.commands, s) ==> Served(c, after, s)
    {
      PickedStays(c, p.commands, after, Picks(c, p, sha1), sha1, s);
    }
    forall i, j | 0 <= i < j < |all| && Planned(c, after, all[j]) != {} ensures Served(c, after, all[i]) {
      assert all[i] == done[i] && done[i] in done;
      if j < |done| {
        assert all[j] == done[j] && done[j] in done;
      } else {
        PlannedArePicks(c, p, done, max, sha1);
        assert Complete(c, p, done[i]);
      }
    }
  }

  lemma {:induction false} ProcessAllInTurn(c: Context, p: Plan, max: Option<nat>, shas: seq<string>)
    requires ContextOk(c) && PlanOk(c, p, [], max) && p.cursor < |c.ix.byNode.order|
    requires NoDup(shas) && forall i :: 0 <= i < |shas| ==> shas[i] in c.ix.bySHA1.vals
    ensures InTurn(c, ProcessAll(c, p, shas).commands, shas)
  {
    if shas != [] {
      var rest, last := shas[..|shas| - 1], shas[|shas| - 1];
      ProcessAllInTurn(c, p, max, rest);
      ProcessAllKeepsPlanOk(c, p, max, rest);
      TurnKept(c, ProcessAll(c, p, rest), rest, max, last);
      assert shas == rest + [last];
    }
  }

  /** Objects are served in the order of the index: if one is sent to anybody, each object in front of it has its
      redundancy + 1 copies, or is sent to all builders but one, or nobody can take another copy of it. */
  lemma ServedInOrder(c: Context, max: Option<nat>, i: nat, j: nat)
    requires ContextOk(c) && i < j < |c.ix.bySHA1.order|
    requires Planned(c, PlanFor(c, max, None).commands, c.ix.bySHA1.order[j]) != {}
    ensures c.ix.bySHA1.order[i] in c.ix.bySHA1.vals
    ensures Served(c, PlanFor(c, max, None).commands, c.ix.bySHA1.order[i])
  {
    var start := Plan(0, max, 0, InitialCommands(c, true));
    assert c.ix.bySHA1.order[i] in c.ix.bySHA1.order;
    if |c.ix.byNode.order| >= 2 {
      StartIsOk(c, start, max, true);
      ProcessAllInTurn(c, start, max, c.ix.bySHA1.order);
    } else {
      NobodyPlanned(c, max, c.ix.bySHA1.order[j]);
    }
  }

  lemma NobodyPlanned(c: Context, max: Option<nat>, sha1: string)
    requires ContextOk(c) && |c.ix.byNode.order| < 2
    ensures Planned(c, PlanFor(c, max, None).commands, sha1) == {}
  {
    PlanIsSound(c, max, None);
  }
}
