/** The scheduler's counters: which builders are connected, how many compiles each has, and the global totals. */
module SchedulerRules {
  import opened Collections

  /** A builder object, known by its index, whether or not it is still connected. */
  datatype Builder = Builder(key: string, slots: nat, activeClients: int, connected: bool)

  /** compiles[c] is the handlers' `builder` variable: the builder a compile still counts against. */
  datatype State = State(
    objects: seq<Builder>, builders: map<string, nat>, builderCount: int, capacity: int,
    compiles: seq<Option<nat>>, activeJobs: int)

  const INITIAL := State([], map[], 0, 0, [], 0)

  datatype Event =
    | ConnectEvent(key: string, slots: nat)
    | DisconnectEvent(b: nat)
    | AssignEvent(b: nat)    // a compile connects and is given builder b
    | ErrorEvent(c: nat)     // a compile fails; its close may still follow
    | CloseEvent(c: nat)

  predicate Connected(s: State, b: nat) { b < |s.objects| && s.objects[b].connected }

  /** The close handler removes all listeners, so only a connected builder disconnects; only such a one is assigned. */
  predicate Enabled(s: State, e: Event) {
    match e
    case ConnectEvent(_, _) => true
    case DisconnectEvent(b) => Connected(s, b)
    case AssignEvent(b) => Connected(s, b)
    case ErrorEvent(c) => c < |s.compiles|
    case CloseEvent(c) => c < |s.compiles|
  }

  function Insert(s: State, key: string, slots: nat): State {
    s.(objects := s.objects + [Builder(key, slots, 0, true)], builders := s.builders[key := |s.objects|],
       builderCount := s.builderCount + 1, capacity := s.capacity + slots)
  }

  function RemoveBuilder(s: State, b: nat): State
    requires b < |s.objects|
  {
    s.(objects := s.objects[b := s.objects[b].(connected := false)], builders := s.builders - {s.objects[b].key},
       builderCount := s.builderCount - 1, capacity := s.capacity - s.objects[b].slots)
  }

  function AddClients(s: State, b: nat, n: int): seq<Builder>
    requires b < |s.objects|
  {
    s.objects[b := s.objects[b].(activeClients := s.objects[b].activeClients + n)]
  }

  function Assign(s: State, b: nat): State
    requires b < |s.objects|
  {
    s.(activeJobs := s.activeJobs + 1, objects := AddClients(s, b, 1), compiles := s.compiles + [Some(b)])
  }

  /** What the error and close handlers do: count the compile out, once. */
  function LetGo(s: State, c: nat): State
    requires c < |s.compiles|
  {
    if s.compiles[c].Some? && s.compiles[c].value < |s.objects| then
      s.(objects := AddClients(s, s.compiles[c].value, -1), activeJobs := s.activeJobs - 1,
        compiles := s.compiles[c := None])
    else s
  }

  function Step(s: State, e: Event): State
    requires Enabled(s, e)
  {
    match e
    case ConnectEvent(key, slots) => Insert(s, key, slots)
    case DisconnectEvent(b) => RemoveBuilder(s, b)
    case AssignEvent(b) => Assign(s, b)
    case ErrorEvent(c) => LetGo(s, c)
    case CloseEvent(c) => LetGo(s, c)
  }

  // ---- what the totals should be

  function Sum(xs: seq<int>): int { if xs == [] then 0 else Sum(xs[..|xs| - 1]) + xs[|xs| - 1] }

  function Actives(objects: seq<Builder>): (r: seq<int>)
    ensures |r| == |objects|
  {
    seq(|objects|, i requires 0 <= i < |objects| => objects[i].activeClients)
  }

  function SlotsOf(b: Builder): nat { if b.connected then b.slots else 0 }

  function ConnectedSlots(objects: seq<Builder>): (r: seq<int>)
    ensures |r| == |objects|
  {
    seq(|objects|, i requires 0 <= i < |objects| => SlotsOf(objects[i]))
  }

  function ConnectedOnes(objects: seq<Builder>): (r: seq<int>)
    ensures |r| == |objects|
  {
    seq(|objects|, i requires 0 <= i < |objects| => if objects[i].connected then 1 else 0)
  }

  /** The compiles that were assigned and have neither failed nor closed. */
  function Open(compiles: seq<Option<nat>>): nat {
    if compiles == [] then 0 else Open(compiles[..|compiles| - 1]) + if compiles[|compiles| - 1].Some? then 1 else 0
  }

  function OpenOn(compiles: seq<Option<nat>>, b: nat): nat {
    if compiles == [] then 0 else OpenOn(compiles[..|compiles| - 1], b) + if compiles[|compiles| - 1] == Some(b)
      then 1 else 0
  }

  ghost predicate Inv(s: State) {
    && s.activeJobs == Sum(Actives(s.objects)) == Open(s.compiles)
    && s.capacity == Sum(ConnectedSlots(s.objects))
    && s.builderCount == Sum(ConnectedOnes(s.objects))
    && (forall b :: 0 <= b < |s.objects| ==> s.objects[b].activeClients == OpenOn(s.compiles, b))
    && (forall c :: 0 <= c < |s.compiles| && s.compiles[c].Some? ==> s.compiles[c].value < |s.objects|)
  }

  lemma SumAppend(xs: seq<int>, x: int)
    ensures Sum(xs + [x]) == Sum(xs) + x
  {
    assert (xs + [x])[..|xs|] == xs;
  }

  lemma {:induction false} SumUpdate(xs: seq<int>, i: nat, x: int)
    requires i < |xs|
    ensures Sum(xs[i := x]) == Sum(xs) - xs[i] + x
  {
    var n := |xs| - 1;
    if i == n {
      assert xs[i := x][..n] == xs[..n];
    } else {
      assert xs[i := x][..n] == xs[..n][i := x];
      SumUpdate(xs[..n], i, x);
    }
  }

  lemma OpenAppend(compiles: seq<Option<nat>>, b: nat, x: nat)
    ensures Open(compiles + [Some(b)]) == Open(compiles) + 1
    ensures OpenOn(compiles + [Some(b)], x) == OpenOn(compiles, x) + if x == b then 1 else 0
  {
    assert (compiles + [Some(b)])[..|compiles|] == compiles;
  }

  lemma {:induction false} OpenUpdate(compiles: seq<Option<nat>>, c: nat, x: nat)
    requires c < |compiles| && compiles[c].Some?
    ensures Open(compiles[c := None]) == Open(compiles) - 1
    ensures OpenOn(compiles[c := None], x) == OpenOn(compiles, x) - if compiles[c].value == x then 1 else 0
  {
    var n := |compiles| - 1;
    if c == n {
      assert compiles[c := None][..n] == compiles[..n];
    } else {
      assert compiles[c := None][..n] == compiles[..n][c := None];
      OpenUpdate(compiles[..n], c, x);
    }
  }

  lemma AddClientsTotals(s: State, b: nat, n: int)
    requires b < |s.objects|
    ensures Sum(Actives(AddClients(s, b, n))) == Sum(Actives(s.objects)) + n
    ensures ConnectedSlots(AddClients(s, b, n)) == ConnectedSlots(s.objects)
    ensures ConnectedOnes(AddClients(s, b, n)) == ConnectedOnes(s.objects)
  {
    SumUpdate(Actives(s.objects), b, s.objects[b].activeClients + n);
    assert Actives(AddClients(s, b, n)) == Actives(s.objects)[b := s.objects[b].activeClients + n];
  }

  lemma InsertKeepsInv(s: State, key: string, slots: nat)
    requires Inv(s)
    ensures Inv(Insert(s, key, slots))
  {
    var more := Insert(s, key, slots).objects;
    assert Actives(more) == Actives(s.objects) + [0];
    assert ConnectedSlots(more) == ConnectedSlots(s.objects) + [slots];
    assert ConnectedOnes(more) == ConnectedOnes(s.objects) + [1];
    SumAppend(Actives(s.objects), 0);
    SumAppend(ConnectedSlots(s.objects), slots);
    SumAppend(ConnectedOnes(s.objects), 1);
    NoneOnNew(s.compiles, |s.objects|);
  }

  lemma {:induction false} NoneOnNew(compiles: seq<Option<nat>>, b: nat)
    requires forall c :: 0 <= c < |compiles| && compiles[c].Some? ==> compiles[c].value < b
    ensures OpenOn(compiles, b) == 0
  {
    if compiles != [] { NoneOnNew(compiles[..|compiles| - 1], b); }
  }

  lemma RemoveKeepsInv(s: State, b: nat)
    requires Inv(s) && Connected(s, b)
    ensures Inv(RemoveBuilder(s, b))
  {
    var less := RemoveBuilder(s, b).objects;
    assert Actives(less) == Actives(s.objects);
    assert ConnectedSlots(less) == ConnectedSlots(s.objects)[b := 0];
    assert ConnectedOnes(less) == ConnectedOnes(s.objects)[b := 0];
    SumUpdate(ConnectedSlots(s.objects), b, 0);
    SumUpdate(ConnectedOnes(s.objects), b, 0);
  }

  lemma AssignKeepsInv(s: State, b: nat)
    requires Inv(s) && b < |s.objects|
    ensures Inv(Assign(s, b))
  {
    AddClientsTotals(s, b, 1);
    forall x: nat | x < |s.objects| ensures Assign(s, b).objects[x].activeClients == OpenOn(Assign(s, b).compiles, x) {
      OpenAppend(s.compiles, b, x);
    }
    OpenAppend(s.compiles, b, 0);
  }

  lemma LetGoKeepsInv(s: State, c: nat)
    requires Inv(s) && c < |s.compiles|
    ensures Inv(LetGo(s, c))
  {
    if s.compiles[c].Some? {
      AddClientsTotals(s, s.compiles[c].value, -1);
      forall x: nat | x < |s.objects| ensures LetGo(s, c).objects[x].activeClients == OpenOn(LetGo(s, c).compiles, x) {
        OpenUpdate(s.compiles, c, x);
      }
      OpenUpdate(s.compiles, c, 0);
    }
  }

  lemma StepKeepsInv(s: State, e: Event)
    requires Inv(s) && Enabled(s, e)
    ensures Inv(Step(s, e))
  {
    match e
    case ConnectEvent(key, slots) => InsertKeepsInv(s, key, slots);
    case DisconnectEvent(b) => RemoveKeepsInv(s, b);
    case AssignEvent(b) => AssignKeepsInv(s, b);
    case ErrorEvent(c) => LetGoKeepsInv(s, c);
    case CloseEvent(c) => LetGoKeepsInv(s, c);
  }

  // ---- runs

  ghost predicate Next(s: State, e: Event, s': State) { Enabled(s, e) && s' == Step(s, e) }

  ghost predicate Run(states: seq<State>, events: seq<Event>) {
    && |states| == |events| + 1 && states[0] == INITIAL
    && forall i :: 0 <= i < |events| ==> Next(states[i], events[i], states[i + 1])
  }

  /** Over every run: the job counter is the sum over all builder objects, connected or gone, and the number of open
      compiles; each builder's own count is its open compiles, so none is ever negative, error followed by close or
      not. */
  lemma {:induction false} Conservation(states: seq<State>, events: seq<Event>, n: nat)
    requires Run(states, events) && n <= |events|
    ensures Inv(states[n])
    ensures states[n].activeJobs >= 0 && forall b :: 0 <= b < |states[n].objects| ==>
            states[n].objects[b].activeClients >= 0
  {
    if n > 0 {
      Conservation(states, events, n - 1);
      assert Next(states[n - 1], events[n - 1], states[n - 1 + 1]);
      StepKeepsInv(states[n - 1], events[n - 1]);
    }
  }

  /** Counting out twice is counting out once. */
  lemma ErrorThenClose(s: State, c: nat)
    requires c < |s.compiles|
    ensures LetGo(LetGo(s, c), c) == LetGo(s, c)
  {}

  // ---- the builders record

  /** The record names every connected builder under its key, and nothing else. */
  ghost predicate RecordExact(s: State) {
    && (forall b :: 0 <= b < |s.objects| && s.objects[b].connected ==>
       s.objects[b].key in s.builders && s.builders[s.objects[b].key] == b)
    && (forall k <- s.builders :: Connected(s, s.builders[k]) && s.objects[s.builders[k]].key == k)
  }

  /** It stays exact exactly until a builder connects from the address and port of one still connected; then the newer
      hides the older, and whichever leaves first takes the entry with it. */
  lemma RecordExactIff(s: State, e: Event)
    requires RecordExact(s) && Inv(s) && Enabled(s, e)
    ensures RecordExact(Step(s, e)) <==>
            !(e.ConnectEvent? && exists b: nat :: Connected(s, b) && s.objects[b].key == e.key)
  {
    var s' := Step(s, e);
    match e {
      case ConnectEvent(key, slots) =>
        var n := |s.objects|;
        assert s'.objects[n].key == key && s'.builders[key] == n;
        if b: nat :| Connected(s, b) && s.objects[b].key == key {
          assert s'.objects[b] == s.objects[b];
        } else {
          forall k | k in s'.builders ensures Connected(s', s'.builders[k]) && s'.objects[s'.builders[k]].key == k {
            if k != key { assert Connected(s, s.builders[k]); }
          }
          forall b | 0 <= b < |s'.objects| && s'.objects[b].connected
            ensures s'.objects[b].key in s'.builders && s'.builders[s'.objects[b].key] == b {
            if b < n { assert Connected(s, b); }
          }
        }
      case DisconnectEvent(b) =>
      case AssignEvent(b) =>
      case ErrorEvent(c) =>
      case CloseEvent(c) =>
    }
  }

  /** Two builders behind one address: when the older goes, the newer is connected and counted, and in no record. */
  lemma HiddenBuilderExample(key: string)
    ensures var s := RemoveBuilder(Insert(Insert(INITIAL, key, 4), key, 8), 0);
            s.builderCount == 1 && s.capacity == 8 && Connected(s, 1) && s.builders == map[]
  {}

  // ---- what each event counts

  /** A connecting builder brings its slots and a disconnecting one takes them away. */
  lemma ConnectionsCount(states: seq<State>, events: seq<Event>, n: nat)
    requires Run(states, events) && n < |events|
    ensures var s, s', e := states[n], states[n + 1], events[n];
            && (e.ConnectEvent? ==>
                  && s'.objects == s.objects + [Builder(e.key, e.slots, 0, true)]
                  && s'.builders == s.builders[e.key := |s.objects|]
                  && s'.builderCount == s.builderCount + 1 && s'.capacity == s.capacity + e.slots
                  && s'.compiles == s.compiles && s'.activeJobs == s.activeJobs)
            && (e.DisconnectEvent? ==>
                  && e.b < |s.objects| && s.objects[e.b].connected
                  && s'.objects == s.objects[e.b := s.objects[e.b].(connected := false)]
                  && s'.builders == s.builders - {s.objects[e.b].key}
                  && s'.builderCount == s.builderCount - 1 && s'.capacity == s.capacity - s.objects[e.b].slots
                  && s'.compiles == s.compiles && s'.activeJobs == s.activeJobs)
  {
    assert Next(states[n], events[n], states[n + 1]);
  }

  /** A compile counts against its builder from the assignment to the first error or close, and only once. */
  lemma CompilesCount(states: seq<State>, events: seq<Event>, n: nat)
    requires Run(states, events) && n < |events|
    ensures var s, s', e := states[n], states[n + 1], events[n];
            && (e.AssignEvent? ==>
                  && e.b < |s.objects| && s.objects[e.b].connected
                  && s'.activeJobs == s.activeJobs + 1 && s'.compiles == s.compiles + [Some(e.b)]
                  && OneMore(s, s', e.b, 1))
            && (e.ErrorEvent? || e.CloseEvent? ==>
                  && e.c < |s.compiles|
                  && if s.compiles[e.c].None? then s' == s
                     else
                       && s'.activeJobs == s.activeJobs - 1 && s'.compiles == s.compiles[e.c := None]
                       && OneMore(s, s', s.compiles[e.c].value, -1))
  {
    Conservation(states, events, n);
    assert Next(states[n], events[n], states[n + 1]);
  }

  /** Builder b has that many compiles more, and nothing else about the builders has changed. */
  ghost predicate OneMore(s: State, s': State, b: nat, more: int) {
    && s'.builders == s.builders && s'.builderCount == s.builderCount && s'.capacity == s.capacity
    && b < |s.objects|
    && s'.objects == s.objects[b := s.objects[b].(activeClients := s.objects[b].activeClients + more)]
  }

  /** The job counter is the number of compiles that still count against a builder. */
  lemma {:induction false} OpenIsCard(compiles: seq<Option<nat>>)
    ensures Open(compiles) == |set c | 0 <= c < |compiles| && compiles[c].Some?|
  {
    var all := set c | 0 <= c < |compiles| && compiles[c].Some?;
    if compiles != [] {
      var n := |compiles| - 1;
      var rest := set c | 0 <= c < n && compiles[..n][c].Some?;
      OpenIsCard(compiles[..n]);
      assert all == if compiles[n].Some? then rest + {n} else rest;
    } else {
      assert all == {};
    }
  }
}
