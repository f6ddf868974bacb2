/** What the transfer planner decides, stated without its cursor arithmetic: for each object it
    takes, in rotation order from the shared cursor, the first builders that can take a copy. */
module Distribution {
  import opened Collections
  import opened ObjectIndex
  import opened PendingKeys

  datatype FetchObject = FetchObject(source: string, sha1: string)
  datatype Command = Command(available: int, objects: seq<FetchObject>)
  /** Index, pending transfers and query parameters: fixed while one plan is made. */
  datatype Context = Context(ix: Index, pending: set<string>, redundancy: nat, node: Option<string>)
  /** The variables the planning loop updates. */
  datatype Plan = Plan(cursor: nat, max: Option<nat>, roundRobin: nat, commands: JsMap<Builder, Command>)

  /** All that planning needs of the index. */
  ghost predicate ContextOk(c: Context) {
    && c.ix.byNode.Wf() && c.ix.bySHA1.Wf()
    && forall s <- c.ix.bySHA1.vals :: c.ix.bySHA1.vals[s].nodes != []
  }

  function Min(a: int, b: int): int { if a <= b then a else b }

  function PendingKeysOf(pending: set<string>, sha1: string): set<string> {
    set k <- pending | sha1 + ":" <= k
  }

  /** How many more copies an object should get: up to redundancy + 1 counting copies on their way. */
  function Needed(c: Context, sha1: string): int
    requires sha1 in c.ix.bySHA1.vals
  {
    Min(c.redundancy + 1 - (|c.ix.bySHA1.vals[sha1].nodes| + |PendingKeysOf(c.pending, sha1)|),
        |c.ix.byNode.order| - 1)
  }

  /** Free space; an unknown builder has none. */
  function Free(c: Context, n: Builder): int {
    if n in c.ix.byNode.vals then c.ix.byNode.vals[n].maxSize - c.ix.byNode.vals[n].size else 0
  }

  function CommandOf(c: Context, commands: JsMap<Builder, Command>, n: Builder): Command {
    if n in commands.vals then commands.vals[n] else Command(Free(c, n), [])
  }

  predicate Suits(c: Context, commands: JsMap<Builder, Command>, sha1: string, n: Builder)
    requires sha1 in c.ix.bySHA1.vals
  {
    && n !in c.ix.bySHA1.vals[sha1].nodes
    && PendingKey(sha1, n.addr) !in c.pending
    && (c.node.Some? ==> n.addr == c.node.value)
    && CommandOf(c, commands, n).available >= c.ix.bySHA1.vals[sha1].fileSize
  }

  function Next(n: nat, cursor: nat): nat {
    if cursor + 1 == n then 0 else cursor + 1
  }

  /** All builders, starting just after the cursor. */
  function Rotation(nodes: seq<Builder>, cursor: nat): seq<Builder>
    requires cursor < |nodes|
  {
    nodes[Next(|nodes|, cursor)..] + nodes[..Next(|nodes|, cursor)]
  }

  function Suitable(c: Context, commands: JsMap<Builder, Command>, sha1: string, ns: seq<Builder>): seq<Builder>
    requires sha1 in c.ix.bySHA1.vals
  {
    if ns == [] then []
    else
      var last := ns[|ns| - 1];
      Suitable(c, commands, sha1, ns[..|ns| - 1]) + if Suits(c, commands, sha1, last) then [last] else []
  }

  function Quota(c: Context, max: Option<nat>, sha1: string): (q: nat)
    requires sha1 in c.ix.bySHA1.vals
    ensures max.Some? ==> q <= max.value
    ensures q > 0 ==> q <= Needed(c, sha1)
  {
    var needed := Needed(c, sha1);
    var q := if max.Some? then Min(needed, max.value) else needed;
    if q < 0 then 0 else q
  }

  function Picks(c: Context, p: Plan, sha1: string): (r: seq<Builder>)
    requires sha1 in c.ix.bySHA1.vals && c.ix.byNode.order != []
    requires p.cursor < |c.ix.byNode.order|
    ensures |r| <= Quota(c, p.max, sha1)
  {
    var all := Suitable(c, p.commands, sha1, Rotation(c.ix.byNode.order, p.cursor));
    all[..Min(Quota(c, p.max, sha1), |all|)]
  }

  /** k modulo n, by repeated subtraction. */
  function Turn(k: nat, n: nat): (r: nat)
    requires n > 0
    ensures r < n
  {
    if k < n then k else Turn(k - n, n)
  }

  lemma ModuloUnique(k: nat, n: nat, q: int, r: nat)
    requires r < n && k == q * n + r
    ensures k % n == r
  {
    var d := q - k / n;
    assert d * n == q * n - k / n * n;
    assert d >= 1 ==> d * n >= n;
    assert -d >= 1 ==> -d * n >= n;
  }

  lemma {:induction false} TurnIsModulo(k: nat, n: nat)
    requires n > 0
    ensures Turn(k, n) == k % n
  {
    if k < n {
      ModuloUnique(k, n, 0, k);
    } else {
      TurnIsModulo(k - n, n);
      var q := (k - n) / n;
      assert (q + 1) * n == q * n + n;
      ModuloUnique(k, n, q + 1, Turn(k - n, n));
    }
  }

  /** The k-th transfer of a plan comes from holder k modulo the number of holders. */
  function Source(data: SHA1Data, k: nat): string
    requires data.nodes != []
  {
    data.nodes[Turn(k, |data.nodes|)].addr
  }

  lemma SourceByModulo(data: SHA1Data, k: nat)
    requires data.nodes != []
    ensures data.nodes[k % |data.nodes|].addr == Source(data, k)
  {
    TurnIsModulo(k, |data.nodes|);
  }

  function Give(cmd: Command, fileSize: nat, o: FetchObject): Command {
    Command(cmd.available - fileSize, cmd.objects + [o])
  }

  function AssignOne(c: Context, commands: JsMap<Builder, Command>, n: Builder, fileSize: nat,
      o: FetchObject): JsMap<Builder, Command>
  {
    commands.Set(n, Give(CommandOf(c, commands, n), fileSize, o))
  }

  function AssignAll(c: Context, commands: JsMap<Builder, Command>, picks: seq<Builder>, sha1: string,
      k: nat): JsMap<Builder, Command>
    requires sha1 in c.ix.bySHA1.vals && c.ix.bySHA1.vals[sha1].nodes != []
  {
    if picks == [] then commands
    else
      var data, last := c.ix.bySHA1.vals[sha1], |picks| - 1;
      AssignOne(c, AssignAll(c, commands, picks[..last], sha1, k), picks[last], data.fileSize,
                FetchObject(Source(data, k + last), sha1))
  }

  function IndexOf(ns: seq<Builder>, n: Builder): (i: nat)
    requires n in ns
    ensures i < |ns| && ns[i] == n && n !in ns[..i]
  {
    if ns[0] == n then 0 else 1 + IndexOf(ns[1..], n)
  }

  /** One object: the builders picked for it, and the cursor left on the last pick, or one step
      on when the whole round fell short. */
  function ProcessObject(c: Context, p: Plan, sha1: string): (r: Plan)
    requires ContextOk(c) && sha1 in c.ix.bySHA1.vals && p.cursor < |c.ix.byNode.order|
    ensures r.cursor < |c.ix.byNode.order|
  {
    var nodes, picks, quota := c.ix.byNode.order, Picks(c, p, sha1), Quota(c, p.max, sha1);
    RotationMembers(nodes, p.cursor);
    SuitableMembers(c, p.commands, sha1, Rotation(nodes, p.cursor));
    Plan(if quota == 0 then p.cursor
         else if |picks| == quota then IndexOf(nodes, picks[quota - 1])
         else Next(|nodes|, p.cursor),
         if p.max.Some? then Some(p.max.value - |picks|) else None,
         p.roundRobin + |picks|,
         AssignAll(c, p.commands, picks, sha1, p.roundRobin))
  }

  function ProcessAll(c: Context, p: Plan, shas: seq<string>): (r: Plan)
    requires ContextOk(c) && p.cursor < |c.ix.byNode.order|
    requires forall i :: 0 <= i < |shas| ==> shas[i] in c.ix.bySHA1.vals
    ensures r.cursor < |c.ix.byNode.order|
  {
    if shas == [] then p
    else ProcessObject(c, ProcessAll(c, p, shas[..|shas| - 1]), shas[|shas| - 1])
  }

  /** Without a sha1 every builder gets an entry up front, in index order. */
  function InitialCommands(c: Context, everything: bool): JsMap<Builder, Command> {
    if everything then
      JsMap(c.ix.byNode.order,
            map n <- c.ix.byNode.vals :: Command(c.ix.byNode.vals[n].maxSize - c.ix.byNode.vals[n].size, []))
    else JsMap([], map[])
  }

  function Wanted(c: Context, sha1: Option<string>): (r: seq<string>)
    requires ContextOk(c)
    ensures forall i :: 0 <= i < |r| ==> r[i] in c.ix.bySHA1.vals
  {
    match sha1
    case None => c.ix.bySHA1.order
    case Some(s) => if s in c.ix.bySHA1.vals then [s] else []
  }

  function PlanFor(c: Context, max: Option<nat>, sha1: Option<string>): Plan
    requires ContextOk(c)
  {
    var start := Plan(0, max, 0, InitialCommands(c, sha1.None?));
    if |c.ix.byNode.order| < 2 then start else ProcessAll(c, start, Wanted(c, sha1))
  }

  // ---- helpers about rotations and picks

  lemma RotationMembers(nodes: seq<Builder>, cursor: nat)
    requires cursor < |nodes|
    ensures forall n :: n in Rotation(nodes, cursor) <==> n in nodes
  {
    var f := Next(|nodes|, cursor);
    assert nodes == nodes[..f] + nodes[f..];
  }

  lemma RotationNoDup(nodes: seq<Builder>, cursor: nat)
    requires cursor < |nodes| && NoDup(nodes)
    ensures NoDup(Rotation(nodes, cursor))
  {
    var f := Next(|nodes|, cursor);
    assert nodes == nodes[..f] + nodes[f..];
    NoDupConcat(nodes[..f], nodes[f..]);
    NoDupConcat(nodes[f..], nodes[..f]);
  }

  lemma RotationKnown(c: Context, cursor: nat)
    requires ContextOk(c) && cursor < |c.ix.byNode.order|
    ensures NoDup(Rotation(c.ix.byNode.order, cursor))
    ensures forall n :: n in Rotation(c.ix.byNode.order, cursor) <==> n in c.ix.byNode.vals
  {
    RotationMembers(c.ix.byNode.order, cursor);
    RotationNoDup(c.ix.byNode.order, cursor);
  }

  lemma {:induction false} SuitableMembers(c: Context, commands: JsMap<Builder, Command>, sha1: string,
      ns: seq<Builder>)
    requires sha1 in c.ix.bySHA1.vals
    ensures forall n :: n in Suitable(c, commands, sha1, ns) <==> n in ns && Suits(c, commands, sha1, n)
  {
    if ns != [] {
      assert ns == ns[..|ns| - 1] + [ns[|ns| - 1]];
      SuitableMembers(c, commands, sha1, ns[..|ns| - 1]);
    }
  }

  lemma {:induction false} SuitableNoDup(c: Context, commands: JsMap<Builder, Command>, sha1: string, ns: seq<Builder>)
    requires sha1 in c.ix.bySHA1.vals && NoDup(ns)
    ensures NoDup(Suitable(c, commands, sha1, ns))
  {
    if ns != [] {
      var rest := Suitable(c, commands, sha1, ns[..|ns| - 1]);
      SuitableNoDup(c, commands, sha1, ns[..|ns| - 1]);
      SuitableMembers(c, commands, sha1, ns[..|ns| - 1]);
      NoDupAppend(rest, ns[|ns| - 1]);
      assert rest + [] == rest;
    }
  }

  lemma PicksFacts(c: Context, p: Plan, sha1: string)
    requires ContextOk(c) && sha1 in c.ix.bySHA1.vals && p.cursor < |c.ix.byNode.order|
    ensures NoDup(Picks(c, p, sha1))
    ensures forall n <- Picks(c, p, sha1) :: n in c.ix.byNode.vals && Suits(c, p.commands, sha1, n)
    ensures |Picks(c, p, sha1)| <= Quota(c, p.max, sha1)
    ensures |Picks(c, p, sha1)| < Quota(c, p.max, sha1) ==>
              forall n <- c.ix.byNode.vals :: Suits(c, p.commands, sha1, n) ==> n in Picks(c, p, sha1)
  {
    RotationKnown(c, p.cursor);
    var all := Suitable(c, p.commands, sha1, Rotation(c.ix.byNode.order, p.cursor));
    SuitableNoDup(c, p.commands, sha1, Rotation(c.ix.byNode.order, p.cursor));
    SuitableMembers(c, p.commands, sha1, Rotation(c.ix.byNode.order, p.cursor));
    PrefixFacts(all, Min(Quota(c, p.max, sha1), |all|));
  }

  lemma PrefixFacts(s: seq<Builder>, n: nat)
    requires NoDup(s) && n <= |s|
    ensures NoDup(s[..n]) && forall x <- s[..n] :: x in s
    ensures n == |s| ==> s[..n] == s
  {
    NoDupPrefix(s, n);
  }

  lemma AssignOneEffect(c: Context, commands: JsMap<Builder, Command>, n: Builder, fileSize: nat, o: FetchObject)
    requires commands.Wf()
    ensures var after := AssignOne(c, commands, n, fileSize, o);
            && after.Wf()
            && after.vals.Keys == commands.vals.Keys + {n}
            && CommandOf(c, after, n) == Give(CommandOf(c, commands, n), fileSize, o)
            && forall m :: m != n ==> CommandOf(c, after, m) == CommandOf(c, commands, m)
  {
    commands.SetWf(n, Give(CommandOf(c, commands, n), fileSize, o));
  }

  ghost predicate Given(c: Context, before: JsMap<Builder, Command>, after: JsMap<Builder, Command>, n: Builder,
      sha1: string, k: nat)
    requires sha1 in c.ix.bySHA1.vals && c.ix.bySHA1.vals[sha1].nodes != []
  {
    CommandOf(c, after, n) == Give(CommandOf(c, before, n), c.ix.bySHA1.vals[sha1].fileSize,
                                   FetchObject(Source(c.ix.bySHA1.vals[sha1], k), sha1))
  }

  ghost predicate Assigned(c: Context, before: JsMap<Builder, Command>, after: JsMap<Builder, Command>,
      picks: seq<Builder>, sha1: string, k: nat)
    requires sha1 in c.ix.bySHA1.vals && c.ix.bySHA1.vals[sha1].nodes != []
  {
    && after.Wf()
    && (forall n :: n in after.vals <==> n in before.vals || n in picks)
    && (forall n :: n !in picks ==> CommandOf(c, after, n) == CommandOf(c, before, n))
    && forall i :: 0 <= i < |picks| ==> Given(c, before, after, picks[i], sha1, k + i)
  }

  lemma AssignedStep(c: Context, commands: JsMap<Builder, Command>, before: JsMap<Builder, Command>,
      rest: seq<Builder>, n: Builder, sha1: string, k: nat)
    requires sha1 in c.ix.bySHA1.vals && c.ix.bySHA1.vals[sha1].nodes != []
    requires n !in rest
    requires Assigned(c, commands, before, rest, sha1, k)
    ensures var data := c.ix.bySHA1.vals[sha1];
            Assigned(c, commands, AssignOne(c, before, n, data.fileSize, FetchObject(Source(data, k + |rest|), sha1)),
                     rest + [n], sha1, k)
  {
    var data := c.ix.bySHA1.vals[sha1];
    var o := FetchObject(Source(data, k + |rest|), sha1);
    AssignOneEffect(c, before, n, data.fileSize, o);
    var after, picks := AssignOne(c, before, n, data.fileSize, o), rest + [n];
    assert forall m :: m in picks <==> m in rest || m == n;
    forall i | 0 <= i < |picks| ensures Given(c, commands, after, picks[i], sha1, k + i) {
      if i < |rest| {
        assert picks[i] == rest[i] && rest[i] in rest;
        assert Given(c, commands, before, rest[i], sha1, k + i);
      }
    }
  }

  /** Every pick gets exactly one command, from the holders in turn; nobody else is affected. */
  lemma {:induction false} AssignAllEffect(c: Context, commands: JsMap<Builder, Command>, picks: seq<Builder>,
      sha1: string, k: nat)
    requires sha1 in c.ix.bySHA1.vals && c.ix.bySHA1.vals[sha1].nodes != []
    requires commands.Wf() && NoDup(picks)
    ensures Assigned(c, commands, AssignAll(c, commands, picks, sha1, k), picks, sha1, k)
  {
    if picks != [] {
      var rest, n := picks[..|picks| - 1], picks[|picks| - 1];
      assert picks == rest + [n];
      AssignAllEffect(c, commands, rest, sha1, k);
      var before := AssignAll(c, commands, rest, sha1, k);
      AssignedStep(c, commands, before, rest, n, sha1, k);
      var data := c.ix.bySHA1.vals[sha1];
      assert AssignAll(c, commands, picks, sha1, k) ==
             AssignOne(c, before, n, data.fileSize, FetchObject(Source(data, k + |rest|), sha1));
    }
  }

  // ---- the cursor walk that computes one object's picks

  /** Where the j-th builder of the rotation sits. */
  function At(n: nat, cursor: nat, j: nat): int {
    if Next(n, cursor) + j < n then Next(n, cursor) + j else Next(n, cursor) + j - n
  }

  lemma RotationStep(nodes: seq<Builder>, cursor: nat, i: nat)
    requires cursor < |nodes| && i <= |nodes|
    ensures i > 0 ==> 0 <= At(|nodes|, cursor, i - 1) < |nodes|
    ensures i < |nodes| ==>
              At(|nodes|, cursor, i) == Next(|nodes|, if i == 0 then cursor else At(|nodes|, cursor, i - 1))
    ensures i < |nodes| ==>
              && 0 <= At(|nodes|, cursor, i) < |nodes|
              && Rotation(nodes, cursor)[i] == nodes[At(|nodes|, cursor, i)]
    ensures 0 < i < |nodes| ==> At(|nodes|, cursor, i) != At(|nodes|, cursor, 0)
    ensures i == |nodes| ==> Next(|nodes|, At(|nodes|, cursor, i - 1)) == At(|nodes|, cursor, 0)
  {}

  lemma {:induction false} Unassigned(c: Context, commands: JsMap<Builder, Command>, picks: seq<Builder>,
      sha1: string, k: nat, n: Builder)
    requires sha1 in c.ix.bySHA1.vals && c.ix.bySHA1.vals[sha1].nodes != []
    requires n !in picks
    ensures CommandOf(c, AssignAll(c, commands, picks, sha1, k), n) == CommandOf(c, commands, n)
  {
    if picks != [] {
      assert picks[|picks| - 1] in picks;
      assert forall m <- picks[..|picks| - 1] :: m in picks;
      Unassigned(c, commands, picks[..|picks| - 1], sha1, k, n);
    }
  }

  /** Looking at one more builder: it was not picked before, and it is picked now iff it suits. */
  lemma SuitableStep(c: Context, commands: JsMap<Builder, Command>, sha1: string, rot: seq<Builder>, i: nat)
    requires sha1 in c.ix.bySHA1.vals && NoDup(rot) && i < |rot|
    ensures rot[i] !in Suitable(c, commands, sha1, rot[..i])
    ensures Suitable(c, commands, sha1, rot[..i + 1]) ==
            Suitable(c, commands, sha1, rot[..i]) + if Suits(c, commands, sha1, rot[i]) then [rot[i]] else []
  {
    NoDupPrefix(rot, i + 1);
    assert rot[..i + 1][..i] == rot[..i];
    SuitableMembers(c, commands, sha1, rot[..i]);
  }

  lemma AssignAllLast(c: Context, commands: JsMap<Builder, Command>, picks: seq<Builder>, n: Builder, sha1: string,
      k: nat, kk: nat)
    requires sha1 in c.ix.bySHA1.vals && c.ix.bySHA1.vals[sha1].nodes != [] && kk == k + |picks|
    ensures var data := c.ix.bySHA1.vals[sha1];
            AssignAll(c, commands, picks + [n], sha1, k) ==
            AssignOne(c, AssignAll(c, commands, picks, sha1, k), n, data.fileSize, FetchObject(Source(data, kk), sha1))
  {
    assert (picks + [n])[..|picks|] == picks;
  }

  lemma NothingPicked(c: Context, p: Plan, sha1: string)
    requires ContextOk(c) && sha1 in c.ix.bySHA1.vals && p.cursor < |c.ix.byNode.order|
    requires Quota(c, p.max, sha1) == 0
    ensures ProcessObject(c, p, sha1) == p
  {
    assert Picks(c, p, sha1) == [];
  }

  lemma {:induction false} SuitablePrefix(c: Context, commands: JsMap<Builder, Command>, sha1: string,
      ns: seq<Builder>, i: nat)
    requires sha1 in c.ix.bySHA1.vals && i <= |ns|
    ensures Suitable(c, commands, sha1, ns[..i]) <= Suitable(c, commands, sha1, ns)
  {
    if i < |ns| {
      assert ns[..|ns| - 1][..i] == ns[..i];
      SuitablePrefix(c, commands, sha1, ns[..|ns| - 1], i);
    } else {
      assert ns[..i] == ns;
    }
  }

  lemma IndexUnique(ns: seq<Builder>, i: nat)
    requires NoDup(ns) && i < |ns|
    ensures IndexOf(ns, ns[i]) == i
  {
    assert ns[i] in ns;
  }

  /** After i builders: the suitable ones among them have been picked and given a copy each. */
  ghost predicate Walk(c: Context, p: Plan, sha1: string, i: nat, first: Option<nat>, picks: seq<Builder>, r: Plan)
    requires ContextOk(c) && sha1 in c.ix.bySHA1.vals && p.cursor < |c.ix.byNode.order|
  {
    var nodes := c.ix.byNode.order;
    && i <= |nodes| && r.cursor < |nodes|
    && |picks| <= Quota(c, p.max, sha1)
    && first == (if i == 0 then None else Some(Next(|nodes|, p.cursor)))
    && r.cursor == (if i == 0 then p.cursor else At(|nodes|, p.cursor, i - 1))
    && picks == Suitable(c, p.commands, sha1, Rotation(nodes, p.cursor)[..i])
    && (|picks| == Quota(c, p.max, sha1) > 0 ==> picks[|picks| - 1] == nodes[r.cursor])
    && r.commands == AssignAll(c, p.commands, picks, sha1, p.roundRobin)
    && r.roundRobin == p.roundRobin + |picks|
    && r.max.Some? == p.max.Some? && (r.max.Some? ==> r.max.value + |picks| == p.max.value)
  }

  lemma WalkStart(c: Context, p: Plan, sha1: string)
    requires ContextOk(c) && sha1 in c.ix.bySHA1.vals && p.cursor < |c.ix.byNode.order|
    ensures Walk(c, p, sha1, 0, None, [], p)
  {}

  /** The next builder looked at, or the return to the first one. */
  lemma WalkLook(c: Context, p: Plan, sha1: string, i: nat, first: Option<nat>, picks: seq<Builder>, r: Plan)
    requires ContextOk(c) && sha1 in c.ix.bySHA1.vals && p.cursor < |c.ix.byNode.order|
    requires Walk(c, p, sha1, i, first, picks, r)
    ensures var nodes := c.ix.byNode.order;
            && (i == 0 ==> first == None && Next(|nodes|, r.cursor) == At(|nodes|, p.cursor, 0))
            && (i > 0 ==>
                  && first == Some(Next(|nodes|, p.cursor))
                  && (i == |nodes| <==> first == Some(Next(|nodes|, r.cursor))))
            && (i < |nodes| ==> Next(|nodes|, r.cursor) == At(|nodes|, p.cursor, i))
            && Next(|nodes|, r.cursor) < |nodes| && nodes[Next(|nodes|, r.cursor)] in nodes
  {
    RotationStep(c.ix.byNode.order, p.cursor, i);
    assert forall n <- c.ix.byNode.order :: n in c.ix.byNode.vals;
  }

  lemma WalkSkip(c: Context, p: Plan, sha1: string, i: nat, first: Option<nat>, picks: seq<Builder>, r: Plan)
    requires ContextOk(c) && sha1 in c.ix.bySHA1.vals && p.cursor < |c.ix.byNode.order| && i < |c.ix.byNode.order|
    requires Walk(c, p, sha1, i, first, picks, r) && |picks| < Quota(c, p.max, sha1)
    ensures var at := Next(|c.ix.byNode.order|, r.cursor);
            var n := c.ix.byNode.order[at];
            && CommandOf(c, r.commands, n) == CommandOf(c, p.commands, n)
            && (!Suits(c, p.commands, sha1, n) ==>
                  Walk(c, p, sha1, i + 1, Some(Next(|c.ix.byNode.order|, p.cursor)), picks, r.(cursor := at)))
  {
    var rot := Rotation(c.ix.byNode.order, p.cursor);
    RotationKnown(c, p.cursor);
    RotationStep(c.ix.byNode.order, p.cursor, i);
    SuitableStep(c, p.commands, sha1, rot, i);
    Unassigned(c, p.commands, picks, sha1, p.roundRobin, rot[i]);
    assert picks + [] == picks;
  }

  /** The plan after giving builder number `at` a copy. */
  function Taken(c: Context, sha1: string, r: Plan, at: nat): Plan
    requires sha1 in c.ix.bySHA1.vals && c.ix.bySHA1.vals[sha1].nodes != [] && at < |c.ix.byNode.order|
    requires r.max.Some? ==> r.max.value > 0
  {
    var data := c.ix.bySHA1.vals[sha1];
    Plan(at, if r.max.Some? then Some(r.max.value - 1) else None, r.roundRobin + 1,
         AssignOne(c, r.commands, c.ix.byNode.order[at], data.fileSize, FetchObject(Source(data, r.roundRobin), sha1)))
  }

  lemma WalkTake(c: Context, p: Plan, sha1: string, i: nat, first: Option<nat>, picks: seq<Builder>, r: Plan)
    requires ContextOk(c) && sha1 in c.ix.bySHA1.vals && p.cursor < |c.ix.byNode.order| && i < |c.ix.byNode.order|
    requires Walk(c, p, sha1, i, first, picks, r) && |picks| < Quota(c, p.max, sha1)
    requires Suits(c, p.commands, sha1, c.ix.byNode.order[Next(|c.ix.byNode.order|, r.cursor)])
    ensures var at := Next(|c.ix.byNode.order|, r.cursor);
            Walk(c, p, sha1, i + 1, Some(Next(|c.ix.byNode.order|, p.cursor)),
                 picks + [c.ix.byNode.order[at]], Taken(c, sha1, r, at))
  {
    var at := Next(|c.ix.byNode.order|, r.cursor);
    var rot, n := Rotation(c.ix.byNode.order, p.cursor), c.ix.byNode.order[at];
    RotationKnown(c, p.cursor);
    RotationStep(c.ix.byNode.order, p.cursor, i);
    assert n == rot[i];
    SuitableStep(c, p.commands, sha1, rot, i);
    AssignAllLast(c, p.commands, picks, n, sha1, p.roundRobin, r.roundRobin);
  }

  /** One more builder: given a copy if it suits, passed over otherwise. */
  lemma WalkStep(c: Context, p: Plan, sha1: string, i: nat, first: Option<nat>, picks: seq<Builder>, r: Plan)
    requires ContextOk(c) && sha1 in c.ix.bySHA1.vals && p.cursor < |c.ix.byNode.order| && i < |c.ix.byNode.order|
    requires Walk(c, p, sha1, i, first, picks, r) && |picks| < Quota(c, p.max, sha1)
    ensures var at := Next(|c.ix.byNode.order|, r.cursor);
            var n := c.ix.byNode.order[at];
            if Suits(c, r.commands, sha1, n)
            then Walk(c, p, sha1, i + 1, Some(Next(|c.ix.byNode.order|, p.cursor)), picks + [n], Taken(c, sha1, r, at))
            else Walk(c, p, sha1, i + 1, Some(Next(|c.ix.byNode.order|, p.cursor)), picks, r.(cursor := at))
  {
    WalkSkip(c, p, sha1, i, first, picks, r);
    if Suits(c, r.commands, sha1, c.ix.byNode.order[Next(|c.ix.byNode.order|, r.cursor)]) {
      WalkTake(c, p, sha1, i, first, picks, r);
    }
  }

  /** A walk that stopped because it had enough, or because it came round, has made exactly the picks. */
  lemma WalkEnd(c: Context, p: Plan, sha1: string, i: nat, first: Option<nat>, picks: seq<Builder>, r: Plan)
    requires ContextOk(c) && sha1 in c.ix.bySHA1.vals && p.cursor < |c.ix.byNode.order|
    requires Quota(c, p.max, sha1) > 0
    requires if |picks| == Quota(c, p.max, sha1) then Walk(c, p, sha1, i, first, picks, r)
             else i == |c.ix.byNode.order| && r.cursor == Next(|c.ix.byNode.order|, p.cursor)
                  && Walk(c, p, sha1, i, first, picks, r.(cursor := At(|c.ix.byNode.order|, p.cursor, i - 1)))
    ensures r == ProcessObject(c, p, sha1)
  {
    var nodes := c.ix.byNode.order;
    RotationKnown(c, p.cursor);
    var rot := Rotation(nodes, p.cursor);
    SuitablePrefix(c, p.commands, sha1, rot, i);
    if |picks| < Quota(c, p.max, sha1) { assert rot[..i] == rot; }
    assert picks == Picks(c, p, sha1);
    var q := ProcessObject(c, p, sha1);
    assert q.commands == r.commands && q.roundRobin == r.roundRobin;
    assert q.max.Some? == r.max.Some? && (r.max.Some? ==> q.max.value == r.max.value);
    assert q.cursor == r.cursor by { IndexUnique(nodes, r.cursor); }
  }
}
