/** The builder's job queue: sorted by priority, with a fixed number of slots. */
module JobQueueRules {

  /** A job is known by its arrival number; it is running once it has an operation or a cached reply under way. */
  datatype Job = Job(arrival: nat, priority: int, running: bool)

  /** Besides the queue: how many jobs ever came, and how many closed while they were waiting. */
  datatype State = State(queue: seq<Job>, arrived: nat, lateCloses: nat)

  const INITIAL := State([], 0, 0)

  predicate Ahead(a: Job, b: Job) {
    a.priority > b.priority || (a.priority == b.priority && a.arrival < b.arrival)
  }

  function Running(queue: seq<Job>): (n: nat)
    ensures n <= |queue|
  {
    if queue == [] then 0 else Running(queue[..|queue| - 1]) + if queue[|queue| - 1].running then 1 else 0
  }

  /** Where a new job goes: behind the last one of at least its priority. */
  function Place(queue: seq<Job>, priority: int): (idx: nat)
    ensures idx <= |queue|
    ensures idx > 0 ==> queue[idx - 1].priority >= priority
    ensures forall i :: idx <= i < |queue| ==> queue[i].priority < priority
  {
    if queue == [] || queue[|queue| - 1].priority >= priority then |queue|
    else
      var idx := Place(queue[..|queue| - 1], priority);
      assert forall i :: idx <= i < |queue| - 1 ==> queue[i] == queue[..|queue| - 1][i];
      idx
  }

  function Insert(queue: seq<Job>, j: Job): seq<Job> {
    var idx := Place(queue, j.priority);
    queue[..idx] + [j] + queue[idx..]
  }

  /** The index of the first job that is not running, or the length. */
  function FirstWaiting(queue: seq<Job>): (idx: nat)
    ensures idx <= |queue|
    ensures forall i :: 0 <= i < idx ==> queue[i].running
    ensures idx < |queue| ==> !queue[idx].running
  {
    if queue == [] || !queue[0].running then 0 else 1 + FirstWaiting(queue[1..])
  }

  function StartPending(queue: seq<Job>): seq<Job> {
    var idx := FirstWaiting(queue);
    if idx < |queue| then queue[idx := queue[idx].(running := true)] else queue
  }

  /** The index of a job, or the length when it has left. */
  function IndexOf(queue: seq<Job>, arrival: nat): (idx: nat)
    ensures idx <= |queue|
    ensures idx < |queue| ==> queue[idx].arrival == arrival
    ensures idx == |queue| ==> forall j <- queue :: j.arrival != arrival
  {
    if queue == [] || queue[0].arrival == arrival then 0 else 1 + IndexOf(queue[1..], arrival)
  }

  function Without(queue: seq<Job>, idx: nat): seq<Job>
    requires idx < |queue|
  {
    queue[..idx] + queue[idx + 1..]
  }

  datatype Event =
    | ArriveEvent(priority: int)
    | EndEvent(arrival: nat)     // a compile finishes, or a cached reply has been sent or has failed
    | CloseEvent(arrival: nat)   // the client goes away

  /** Only a running job can end; anything may close. */
  ghost predicate Enabled(s: State, e: Event) {
    e.EndEvent? ==> IndexOf(s.queue, e.arrival) < |s.queue| ==> s.queue[IndexOf(s.queue, e.arrival)].running
  }

  function Arrive(s: State, slots: nat, priority: int): State {
    var j := Job(s.arrived, priority, |s.queue| + 1 <= slots);
    s.(queue := Insert(s.queue, j), arrived := s.arrived + 1)
  }

  function Leave(s: State, arrival: nat): State {
    var idx := IndexOf(s.queue, arrival);
    if idx == |s.queue| then s
    else
      State(StartPending(Without(s.queue, idx)), s.arrived,
            if s.queue[idx].running then s.lateCloses else s.lateCloses + 1)
  }

  function Step(s: State, slots: nat, e: Event): State {
    match e
    case ArriveEvent(priority) => Arrive(s, slots, priority)
    case EndEvent(arrival) => Leave(s, arrival)
    case CloseEvent(arrival) => Leave(s, arrival)
  }

  // ---- the invariant

  ghost predicate Sorted(queue: seq<Job>) { forall i, j :: 0 <= i < j < |queue| ==> Ahead(queue[i], queue[j]) }

  function Min(a: nat, b: nat): nat { if a <= b then a else b }

  ghost predicate Inv(s: State, slots: nat) {
    && Sorted(s.queue)
    && (forall j <- s.queue :: j.arrival < s.arrived)
    && Min(|s.queue|, slots) <= Running(s.queue) <= slots + s.lateCloses
  }

  lemma {:induction false} RunningConcat(a: seq<Job>, b: seq<Job>)
    ensures Running(a + b) == Running(a) + Running(b)
  {
    if b == [] {
      assert a + b == a;
    } else {
      var rest := b[..|b| - 1];
      assert (a + b)[..|a| + |b| - 1] == a + rest;
      RunningConcat(a, rest);
    }
  }

  lemma RunningOne(j: Job)
    ensures Running([j]) == if j.running then 1 else 0
  {
    assert [j][..0] == [];
  }

  lemma RunningSplit(a: seq<Job>, j: Job, b: seq<Job>)
    ensures Running(a + [j] + b) == Running(a) + (if j.running then 1 else 0) + Running(b)
  {
    RunningOne(j);
    RunningConcat(a, [j]);
    RunningConcat(a + [j], b);
  }

  lemma {:induction false} AllRunning(queue: seq<Job>)
    requires forall j <- queue :: j.running
    ensures Running(queue) == |queue|
  {
    if queue != [] {
      assert queue[|queue| - 1] in queue && forall j <- queue[..|queue| - 1] :: j in queue;
      AllRunning(queue[..|queue| - 1]);
    }
  }

  lemma SomeWaiting(queue: seq<Job>, i: nat)
    requires i < |queue| && !queue[i].running
    ensures Running(queue) < |queue|
  {
    assert queue == queue[..i] + [queue[i]] + queue[i + 1..];
    RunningSplit(queue[..i], queue[i], queue[i + 1..]);
  }

  lemma InsertSorted(queue: seq<Job>, j: Job)
    requires Sorted(queue) && forall k <- queue :: k.arrival < j.arrival
    ensures Sorted(Insert(queue, j))
  {
    var idx := Place(queue, j.priority);
    forall i | 0 <= i < idx ensures Ahead(queue[i], j) {
      assert queue[i] in queue && queue[idx - 1].priority >= j.priority;
      if i < idx - 1 { assert Ahead(queue[i], queue[idx - 1]); }
    }
  }

  lemma WithoutSorted(queue: seq<Job>, idx: nat)
    requires Sorted(queue) && idx < |queue|
    ensures Sorted(Without(queue, idx)) && forall j <- Without(queue, idx) :: j in queue
  {
    forall i, j | 0 <= i < j < |queue| - 1 ensures Ahead(Without(queue, idx)[i], Without(queue, idx)[j]) {
      assert Ahead(queue[if i < idx then i else i + 1], queue[if j < idx then j else j + 1]);
    }
  }

  /** Starting the next job changes nothing but its running mark. */
  lemma StartPendingFacts(queue: seq<Job>)
    ensures |StartPending(queue)| == |queue|
    ensures forall i :: 0 <= i < |queue| ==>
              && StartPending(queue)[i].arrival == queue[i].arrival
              && StartPending(queue)[i].priority == queue[i].priority
    ensures Running(StartPending(queue)) == if Running(queue) < |queue| then Running(queue) + 1 else Running(queue)
  {
    var idx := FirstWaiting(queue);
    if idx < |queue| {
      var a, b := queue[..idx], queue[idx + 1..];
      assert queue == a + [queue[idx]] + b && StartPending(queue) == a + [queue[idx].(running := true)] + b;
      RunningSplit(a, queue[idx], b);
      RunningSplit(a, queue[idx].(running := true), b);
      SomeWaiting(queue, idx);
    } else {
      AllRunning(queue);
    }
  }

  lemma InsertRunning(queue: seq<Job>, j: Job)
    ensures Running(Insert(queue, j)) == Running(queue) + if j.running then 1 else 0
    ensures |Insert(queue, j)| == |queue| + 1
    ensures forall k <- Insert(queue, j) :: k == j || k in queue
  {
    var idx := Place(queue, j.priority);
    var a, b := queue[..idx], queue[idx..];
    assert queue == a + b;
    RunningConcat(a, b);
    RunningSplit(a, j, b);
  }

  lemma ArriveKeepsInv(s: State, slots: nat, priority: int)
    requires Inv(s, slots)
    ensures Inv(Arrive(s, slots, priority), slots)
  {
    var j := Job(s.arrived, priority, |s.queue| + 1 <= slots);
    InsertSorted(s.queue, j);
    InsertRunning(s.queue, j);
  }

  lemma LeaveParts(queue: seq<Job>, idx: nat, a: seq<Job>, j: Job, b: seq<Job>)
    requires idx < |queue| && a == queue[..idx] && j == queue[idx] && b == queue[idx + 1..]
    ensures Running(queue) == Running(a) + (if j.running then 1 else 0) + Running(b)
    ensures Running(Without(queue, idx)) == Running(a) + Running(b)
  {
    assert queue == a + [j] + b;
    RunningSplit(a, j, b);
    RunningConcat(a, b);
  }

  lemma LeaveRunning(queue: seq<Job>, idx: nat)
    requires idx < |queue|
    ensures Running(Without(queue, idx)) == Running(queue) - if queue[idx].running then 1 else 0
  {
    LeaveParts(queue, idx, queue[..idx], queue[idx], queue[idx + 1..]);
  }

  lemma LeaveKeepsInv(s: State, slots: nat, arrival: nat)
    requires Inv(s, slots)
    ensures Inv(Leave(s, arrival), slots)
  {
    var idx := IndexOf(s.queue, arrival);
    if idx < |s.queue| {
      var rest := Without(s.queue, idx);
      WithoutSorted(s.queue, idx);
      LeaveRunning(s.queue, idx);
      StartPendingFacts(rest);
      StartSorted(rest);
    }
  }

  lemma StartSorted(queue: seq<Job>)
    requires Sorted(queue)
    ensures Sorted(StartPending(queue))
    ensures forall j <- StartPending(queue) :: exists k <- queue :: k.arrival == j.arrival
  {
    StartPendingFacts(queue);
    var after := StartPending(queue);
    forall i, j | 0 <= i < j < |after| ensures Ahead(after[i], after[j]) {
      assert Ahead(queue[i], queue[j]);
    }
    forall j <- after ensures exists k <- queue :: k.arrival == j.arrival {
      var i :| 0 <= i < |after| && after[i] == j;
      assert queue[i] in queue;
    }
  }

  lemma StepKeepsInv(s: State, slots: nat, e: Event)
    requires Inv(s, slots)
    ensures Inv(Step(s, slots, e), slots)
  {
    match e
    case ArriveEvent(priority) => ArriveKeepsInv(s, slots, priority);
    case EndEvent(arrival) => LeaveKeepsInv(s, slots, arrival);
    case CloseEvent(arrival) => LeaveKeepsInv(s, slots, arrival);
  }

  // ---- runs

  function After(slots: nat, events: seq<Event>): State {
    if events == [] then INITIAL else Step(After(slots, events[..|events| - 1]), slots, events[|events| - 1])
  }

  /** Always sorted, first come first served within a priority; never fewer running than there are slots or jobs;
      never more than the slots plus the jobs that closed while they were waiting. */
  lemma {:induction false} QueueInvariant(slots: nat, events: seq<Event>)
    ensures Inv(After(slots, events), slots)
  {
    if events != [] {
      QueueInvariant(slots, events[..|events| - 1]);
      StepKeepsInv(After(slots, events[..|events| - 1]), slots, events[|events| - 1]);
    }
  }

  /** A step overfills the slots exactly when a waiting job closes while they are full and another one waits. */
  lemma OverfillsIff(s: State, slots: nat, e: Event)
    requires Inv(s, slots) && Enabled(s, e) && Running(s.queue) <= slots
    ensures Running(Step(s, slots, e).queue) > slots <==>
            && e.CloseEvent? && IndexOf(s.queue, e.arrival) < |s.queue| && !s.queue[IndexOf(s.queue, e.arrival)].running
            && Running(s.queue) == slots && |s.queue| >= slots + 2
  {
    StepKeepsInv(s, slots, e);
    if e.ArriveEvent? {
      InsertRunning(s.queue, Job(s.arrived, e.priority, |s.queue| + 1 <= slots));
    } else {
      var idx := IndexOf(s.queue, e.arrival);
      if idx < |s.queue| {
        LeaveRunning(s.queue, idx);
        StartPendingFacts(Without(s.queue, idx));
      }
    }
  }

  /** Jobs 0, 1 and 2 arrive at a builder with one slot, and job 1 closes: jobs 0 and 2 both run. */
  lemma OverfillsExample()
    ensures Running(After(1, [ArriveEvent(0), ArriveEvent(0), ArriveEvent(0), CloseEvent(1)]).queue) == 2
  {
    var e, c := ArriveEvent(0), CloseEvent(1);
    assert [e, e, e, c][..3] == [e, e, e] && [e, e, e][..2] == [e, e] && [e, e][..1] == [e] && [e][..0] == [];
    assert After(1, [e]).queue == [Job(0, 0, true)];
    assert Place([Job(0, 0, true)], 0) == 1;
    assert After(1, [e, e]).queue == [Job(0, 0, true), Job(1, 0, false)];
    assert After(1, [e, e, e]).queue == [Job(0, 0, true), Job(1, 0, false), Job(2, 0, false)];
    var rest := [Job(0, 0, true), Job(2, 0, false)];
    assert IndexOf(After(1, [e, e, e]).queue, 1) == 1;
    assert Without(After(1, [e, e, e]).queue, 1) == rest;
    assert FirstWaiting(rest) == 1;
    assert StartPending(rest) == [Job(0, 0, true), Job(2, 0, true)];
    assert [Job(0, 0, true), Job(2, 0, true)][..1] == [Job(0, 0, true)] && [Job(0, 0, true)][..0] == [];
  }

  // ---- which job starts

  ghost predicate RunsIn(queue: seq<Job>, arrival: nat) { exists j <- queue :: j.arrival == arrival && j.running }

  lemma StartPendingPicks(queue: seq<Job>, i: nat, k: nat)
    requires Sorted(queue) && i < |queue| && k < |queue|
    requires !queue[i].running && StartPending(queue)[i].running && !StartPending(queue)[k].running
    ensures Ahead(queue[i], queue[k])
  {}

  lemma LeaveStartsTheFirst(queue: seq<Job>, idx: nat, x: Job, y: Job)
    requires Sorted(queue) && idx < |queue|
    requires x in StartPending(Without(queue, idx)) && x.running && !RunsIn(queue, x.arrival)
    requires y in StartPending(Without(queue, idx)) && !y.running
    ensures Ahead(x, y)
  {
    var rest := Without(queue, idx);
    WithoutSorted(queue, idx);
    StartPendingFacts(rest);
    var i :| 0 <= i < |rest| && StartPending(rest)[i] == x;
    var k :| 0 <= k < |rest| && StartPending(rest)[k] == y;
    assert rest[i] in queue && !rest[i].running;
    StartPendingPicks(rest, i, k);
  }

  /** Whenever a step starts a job, every job left waiting comes after it in priority and arrival order. */
  lemma StartsTheFirst(s: State, slots: nat, e: Event, x: Job, y: Job)
    requires Inv(s, slots)
    requires x in Step(s, slots, e).queue && x.running && !RunsIn(s.queue, x.arrival)
    requires y in Step(s, slots, e).queue && !y.running
    ensures Ahead(x, y)
  {
    if e.ArriveEvent? {
      var j := Job(s.arrived, e.priority, |s.queue| + 1 <= slots);
      InsertRunning(s.queue, j);
      assert x == j;
      var i :| 0 <= i < |s.queue| && s.queue[i] == y;
      SomeWaiting(s.queue, i);
    } else if IndexOf(s.queue, e.arrival) < |s.queue| {
      LeaveStartsTheFirst(s.queue, IndexOf(s.queue, e.arrival), x, y);
    }
  }

  // ---- the wait header

  /** The scan the headers handler does from the back of the queue. */
  function WaitScan(queue: seq<Job>, slots: nat, priority: int): bool {
    if |queue| <= slots then false
    else if queue[|queue| - 1].priority >= priority then true
    else WaitScan(queue[..|queue| - 1], slots, priority)
  }

  /** An uncached job is told to wait exactly when it would be put at an index beyond the slots. */
  lemma {:induction false} WaitIffPlacedBeyond(queue: seq<Job>, slots: nat, priority: int)
    ensures WaitScan(queue, slots, priority) <==> Place(queue, priority) > slots
  {
    if |queue| > slots && queue[|queue| - 1].priority < priority {
      WaitIffPlacedBeyond(queue[..|queue| - 1], slots, priority);
    }
  }

  /** So every job told to wait is backlogged; a backlogged one is not told exactly when it goes in at index slots or
      before. */
  lemma BackloggedUntold(s: State, slots: nat, priority: int)
    ensures WaitScan(s.queue, slots, priority) ==> |s.queue| + 1 > slots
    ensures !WaitScan(s.queue, slots, priority) && |s.queue| + 1 > slots <==>
            Place(s.queue, priority) <= slots <= |s.queue|
  {
    WaitIffPlacedBeyond(s.queue, slots, priority);
  }

  // ---- who is in the queue, and what a step does to each job

  ghost predicate In(queue: seq<Job>, arrival: nat) { exists i :: 0 <= i < |queue| && queue[i].arrival == arrival }

  predicate Leaves(e: Event, arrival: nat) { e == EndEvent(arrival) || e == CloseEvent(arrival) }

  function Arrivals(events: seq<Event>): nat {
    if events == [] then 0
    else Arrivals(events[..|events| - 1]) + if events[|events| - 1].ArriveEvent? then 1 else 0
  }

  /** The job ended or closed after it had arrived. */
  ghost predicate HasLeft(events: seq<Event>, arrival: nat) {
    exists k :: 0 <= k < |events| && LeftAt(events, k, arrival)
  }

  ghost predicate LeftAt(events: seq<Event>, k: nat, arrival: nat)
    requires k < |events|
  {
    Leaves(events[k], arrival) && arrival < Arrivals(events[..k])
  }

  /** Who arrived as number `arrival`, and with which priority. */
  ghost predicate CameWith(events: seq<Event>, arrival: nat, priority: int) {
    exists k :: 0 <= k < |events| && CameAt(events, k, arrival, priority)
  }

  ghost predicate CameAt(events: seq<Event>, k: nat, arrival: nat, priority: int)
    requires k < |events|
  {
    events[k] == ArriveEvent(priority) && Arrivals(events[..k]) == arrival
  }

  lemma InsertIn(queue: seq<Job>, j: Job, k: Job)
    ensures k in Insert(queue, j) <==> k == j || k in queue
  {
    var idx := Place(queue, j.priority);
    assert queue == queue[..idx] + queue[idx..];
    assert k in Insert(queue, j) <==> k in queue[..idx] || k in [j] || k in queue[idx..];
  }

  /** No two jobs in the queue are the same job. */
  ghost predicate Apart(queue: seq<Job>) {
    forall i, j :: 0 <= i < j < |queue| ==> queue[i].arrival != queue[j].arrival
  }

  lemma WithoutIn(queue: seq<Job>, idx: nat, k: Job)
    requires Apart(queue) && idx < |queue|
    ensures k in Without(queue, idx) <==> k in queue && k.arrival != queue[idx].arrival
  {
    var a, b := queue[..idx], queue[idx + 1..];
    assert queue == a + [queue[idx]] + b;
  }

  lemma InsertApart(queue: seq<Job>, j: Job)
    requires Apart(queue) && forall k <- queue :: k.arrival < j.arrival
    ensures Apart(Insert(queue, j))
  {
    var idx := Place(queue, j.priority);
    forall i, k | 0 <= i < k < |queue| + 1 ensures Insert(queue, j)[i].arrival != Insert(queue, j)[k].arrival {
      if i < idx { assert queue[i] in queue; }
      if k > idx { assert queue[k - 1] in queue; }
    }
  }

  lemma LeaveApart(s: State, arrival: nat)
    requires Apart(s.queue)
    ensures Apart(Leave(s, arrival).queue)
  {
    var idx := IndexOf(s.queue, arrival);
    if idx < |s.queue| {
      var rest := Without(s.queue, idx);
      assert Apart(rest);
      StartPendingFacts(rest);
    }
  }

  lemma {:induction false} JobsApart(slots: nat, events: seq<Event>)
    ensures Apart(After(slots, events).queue)
  {
    if events != [] {
      var s, e := After(slots, events[..|events| - 1]), events[|events| - 1];
      JobsApart(slots, events[..|events| - 1]);
      QueueInvariant(slots, events[..|events| - 1]);
      match e
      case ArriveEvent(priority) => InsertApart(s.queue, Job(s.arrived, priority, |s.queue| + 1 <= slots));
      case EndEvent(arrival) => LeaveApart(s, arrival);
      case CloseEvent(arrival) => LeaveApart(s, arrival);
    }
  }

  /** What an arrival does to each job: the new one is put in, running if everyone fits; nobody else changes. */
  lemma ArriveChanges(s: State, slots: nat, priority: int, k: Job)
    ensures k in Step(s, slots, ArriveEvent(priority)).queue <==>
            k in s.queue || k == Job(s.arrived, priority, |s.queue| < slots)
    ensures Step(s, slots, ArriveEvent(priority)).arrived == s.arrived + 1
  {
    InsertIn(s.queue, Job(s.arrived, priority, |s.queue| + 1 <= slots), k);
  }

  /** What an end or a close does: the job goes, and if another one waits, exactly one that nobody waiting is ahead of
      is started; nobody else changes. */
  ghost predicate LeaveDoes(queue: seq<Job>, queue': seq<Job>, arrival: nat) {
    if forall j <- queue :: j.arrival == arrival || j.running then
      forall k :: k in queue' <==> k in queue && k.arrival != arrival
    else
      exists x <- queue :: x.arrival != arrival && Starts(queue, queue', arrival, x)
  }

  ghost predicate Starts(queue: seq<Job>, queue': seq<Job>, arrival: nat, x: Job) {
    && !x.running
    && (forall j <- queue :: j.arrival != arrival && !j.running && j != x ==> Ahead(x, j))
    && forall k :: k in queue' <==> (k in queue && k.arrival != arrival && k != x) || k == x.(running := true)
  }

  lemma ReplacedMembers(queue: seq<Job>, idx: nat, y: Job, k: Job)
    requires idx < |queue| && forall i :: 0 <= i < |queue| && i != idx ==> queue[i] != queue[idx]
    ensures k in queue[idx := y] <==> (k in queue && k != queue[idx]) || k == y
  {
    if k in queue[idx := y] {
      var i :| 0 <= i < |queue| && queue[idx := y][i] == k;
      assert i != idx ==> queue[i] == k;
    }
    if k in queue && k != queue[idx] {
      var i :| 0 <= i < |queue| && queue[i] == k;
      assert queue[idx := y][i] == k;
    }
    assert queue[idx := y][idx] == y;
  }

  lemma StartChanges(queue: seq<Job>, k: Job)
    requires Apart(queue) && FirstWaiting(queue) < |queue|
    ensures var x := queue[FirstWaiting(queue)];
            k in StartPending(queue) <==> (k in queue && k != x) || k == x.(running := true)
  {
    var idx := FirstWaiting(queue);
    ReplacedMembers(queue, idx, queue[idx].(running := true), k);
  }

  lemma StartsAhead(queue: seq<Job>, j: Job)
    requires Sorted(queue) && FirstWaiting(queue) < |queue| && j in queue && !j.running
    ensures j == queue[FirstWaiting(queue)] || Ahead(queue[FirstWaiting(queue)], j)
  {
    var i :| 0 <= i < |queue| && queue[i] == j;
    assert i >= FirstWaiting(queue);
  }

  /** `rest` is the queue without the job that leaves. */
  lemma StartDoes(queue: seq<Job>, rest: seq<Job>, arrival: nat)
    requires Sorted(rest) && Apart(rest) && forall k :: k in rest <==> k in queue && k.arrival != arrival
    ensures LeaveDoes(queue, StartPending(rest), arrival)
  {
    var idx := FirstWaiting(rest);
    if idx < |rest| {
      var x := rest[idx];
      assert x in rest;
      forall j <- queue | j.arrival != arrival && !j.running && j != x ensures Ahead(x, j) { StartsAhead(rest, j); }
      forall k
        ensures k in StartPending(rest) <==>
                (k in queue && k.arrival != arrival && k != x) || k == x.(running := true)
      {
        StartChanges(rest, k);
      }
      assert Starts(queue, StartPending(rest), arrival, x);
    } else {
      NobodyWaits(rest);
    }
  }

  lemma NobodyWaits(queue: seq<Job>)
    requires FirstWaiting(queue) == |queue|
    ensures forall j <- queue :: j.running
    ensures StartPending(queue) == queue
  {}

  lemma LeaveChanges(s: State, arrival: nat)
    requires Sorted(s.queue) && Apart(s.queue) && In(s.queue, arrival)
    ensures LeaveDoes(s.queue, Leave(s, arrival).queue, arrival)
  {
    var idx := IndexOf(s.queue, arrival);
    var i :| 0 <= i < |s.queue| && s.queue[i].arrival == arrival;
    assert s.queue[i] in s.queue;
    var rest := Without(s.queue, idx);
    forall k ensures k in rest <==> k in s.queue && k.arrival != arrival { WithoutIn(s.queue, idx, k); }
    WithoutSorted(s.queue, idx);
    LeaveApart(s, arrival);
    WithoutApart(s.queue, idx);
    StartDoes(s.queue, rest, arrival);
  }

  lemma WithoutApart(queue: seq<Job>, idx: nat)
    requires Apart(queue) && idx < |queue|
    ensures Apart(Without(queue, idx))
  {}

  lemma ArrivedIs(slots: nat, events: seq<Event>)
    ensures After(slots, events).arrived == Arrivals(events)
  {
    if events != [] { ArrivedIs(slots, events[..|events| - 1]); }
  }

  /** What the next event does to each job of the queue that any run has led to. */
  lemma StepChanges(slots: nat, events: seq<Event>, e: Event)
    ensures var queue, queue' := After(slots, events).queue, After(slots, events + [e]).queue;
            if e.ArriveEvent? then
              forall k :: k in queue' <==> k in queue || k == Job(Arrivals(events), e.priority, |queue| < slots)
            else if In(queue, e.arrival) then LeaveDoes(queue, queue', e.arrival)
            else queue' == queue
  {
    var s := After(slots, events);
    assert (events + [e])[..|events|] == events;
    ArrivedIs(slots, events);
    JobsApart(slots, events);
    QueueInvariant(slots, events);
    match e
    case ArriveEvent(priority) =>
      forall k: Job
        ensures k in After(slots, events + [e]).queue <==>
                k in s.queue || k == Job(Arrivals(events), priority, |s.queue| < slots)
      {
        ArriveChanges(s, slots, priority, k);
      }
    case EndEvent(arrival) => LeaveChangesIf(s, arrival);
    case CloseEvent(arrival) => LeaveChangesIf(s, arrival);
  }

  lemma LeaveChangesIf(s: State, arrival: nat)
    requires Sorted(s.queue) && Apart(s.queue)
    ensures var queue' := Leave(s, arrival).queue;
            if In(s.queue, arrival) then LeaveDoes(s.queue, queue', arrival) else queue' == s.queue
  {
    assert IndexOf(s.queue, arrival) < |s.queue| ==> s.queue[IndexOf(s.queue, arrival)].arrival == arrival;
    if In(s.queue, arrival) { LeaveChanges(s, arrival); }
  }

  lemma ArrivalsGrow(events: seq<Event>, k: nat)
    requires k <= |events|
    ensures Arrivals(events[..k]) <= Arrivals(events)
  {
    if k < |events| {
      ArrivalsGrow(events[..|events| - 1], k);
      assert events[..|events| - 1][..k] == events[..k];
    } else {
      assert events[..k] == events;
    }
  }

  lemma HasLeftStep(events: seq<Event>, e: Event, arrival: nat)
    ensures HasLeft(events + [e], arrival) <==>
            HasLeft(events, arrival) || (Leaves(e, arrival) && arrival < Arrivals(events))
  {
    var more := events + [e];
    assert more[..|events|] == events;
    forall k | 0 <= k < |events| ensures LeftAt(more, k, arrival) <==> LeftAt(events, k, arrival) {
      assert more[..k] == events[..k];
    }
    if HasLeft(events, arrival) {
      var k :| 0 <= k < |events| && LeftAt(events, k, arrival);
      assert LeftAt(more, k, arrival);
    }
    assert LeftAt(more, |events|, arrival) <==> Leaves(e, arrival) && arrival < Arrivals(events);
  }

  lemma CameStep(events: seq<Event>, e: Event, arrival: nat, priority: int)
    ensures CameWith(events + [e], arrival, priority) <==>
            CameWith(events, arrival, priority) || (e == ArriveEvent(priority) && arrival == Arrivals(events))
  {
    var more := events + [e];
    assert more[..|events|] == events;
    forall k | 0 <= k < |events| ensures CameAt(more, k, arrival, priority) <==> CameAt(events, k, arrival, priority) {
      assert more[..k] == events[..k];
    }
    if CameWith(events, arrival, priority) {
      var k :| 0 <= k < |events| && CameAt(events, k, arrival, priority);
      assert CameAt(more, k, arrival, priority);
    }
    assert CameAt(more, |events|, arrival, priority) <==> e == ArriveEvent(priority) && arrival == Arrivals(events);
  }

  ghost predicate InWith(queue: seq<Job>, arrival: nat, priority: int) {
    Job(arrival, priority, true) in queue || Job(arrival, priority, false) in queue
  }

  lemma LeaveMembers(queue: seq<Job>, queue': seq<Job>, gone: nat, arrival: nat, priority: int)
    requires In(queue, gone) && LeaveDoes(queue, queue', gone)
    ensures InWith(queue', arrival, priority) <==> InWith(queue, arrival, priority) && arrival != gone
  {
    if !(forall j <- queue :: j.arrival == gone || j.running) {
      var x :| x in queue && x.arrival != gone && Starts(queue, queue', gone, x);
    }
  }

  /** After every run the queue holds exactly the jobs that have arrived and neither ended nor closed since, each once
      and with the priority it came with, by priority and then by arrival. */
  lemma {:induction false} QueueIsExactly(slots: nat, events: seq<Event>, arrival: nat, priority: int)
    ensures var queue := After(slots, events).queue;
            && (InWith(queue, arrival, priority) <==> CameWith(events, arrival, priority) && !HasLeft(events, arrival))
            && forall i, j :: 0 <= i < j < |queue| ==>
                 && queue[i].arrival != queue[j].arrival
                 && (queue[i].priority > queue[j].priority
                     || (queue[i].priority == queue[j].priority && queue[i].arrival < queue[j].arrival))
  {
    JobsApart(slots, events);
    QueueInvariant(slots, events);
    if events != [] {
      var before, e := events[..|events| - 1], events[|events| - 1];
      assert events == before + [e];
      QueueIsExactly(slots, before, arrival, priority);
      HasLeftStep(before, e, arrival);
      CameStep(before, e, arrival, priority);
      QueueStepExactly(slots, before, e, arrival, priority);
    }
  }

  lemma NotLeftYet(events: seq<Event>)
    ensures !HasLeft(events, Arrivals(events))
  {
    forall k | 0 <= k < |events| ensures !LeftAt(events, k, Arrivals(events)) { ArrivalsGrow(events, k); }
  }

  lemma QueueStepExactly(slots: nat, events: seq<Event>, e: Event, arrival: nat, priority: int)
    ensures var queue, queue' := After(slots, events).queue, After(slots, events + [e]).queue;
            InWith(queue', arrival, priority) <==>
            || (InWith(queue, arrival, priority) && !Leaves(e, arrival))
            || (e == ArriveEvent(priority) && arrival == Arrivals(events))
    ensures In(After(slots, events).queue, arrival) ==> arrival < Arrivals(events)
    ensures !HasLeft(events, Arrivals(events))
  {
    StepChanges(slots, events, e);
    NotLeftYet(events);
    ArrivedIs(slots, events);
    QueueInvariant(slots, events);
    var queue, queue' := After(slots, events).queue, After(slots, events + [e]).queue;
    if e.ArriveEvent? {
    } else if In(queue, e.arrival) {
      LeaveMembers(queue, queue', e.arrival, arrival, priority);
    } else if InWith(queue, arrival, priority) {
      assert In(queue, arrival);
    }
  }
}
