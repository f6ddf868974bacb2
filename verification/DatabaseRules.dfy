/** The scheduler's file database: asynchronous reads, writes and renames behind one busy flag and a queue. */
module DatabaseRules {
  import opened Collections

  type Key = string

  /** A value, as its JSON text. */
  type Value = string

  datatype Op = Get(key: Key) | Set(key: Key, value: Value)

  /** What is on disk at a path. Empty also stands for a document that parses to a falsy value. */
  datatype File = Absent | Empty | Doc(records: map<Key, Value>) | Garbage

  /** How a promise settled; a parse failure may also have moved the file out of the way. */
  datatype Outcome = Got(value: Option<Value>) | Stored | Failed(quarantined: bool)
  datatype Entry = Entry(op: Op, outcome: Outcome)

  /** Which file-system callback the operation in flight is waiting for. */
  datatype Running =
    | Reading(op: Op)
    | Writing(op: Op, records: map<Key, Value>)
    | Renaming(op: Op, records: map<Key, Value>)

  datatype State = State(
    busy: bool, queue: seq<Op>, running: Option<Running>,
    path: File, tmp: File, settled: seq<Entry>)

  function Initial(path: File, tmp: File): State { State(false, [], None, path, tmp, []) }

  predicate Parsable(f: File) { !f.Garbage? }

  function Records(f: File): map<Key, Value> { if f.Doc? then f.records else map[] }

  function Lookup(m: map<Key, Value>, k: Key): Option<Value> { if k in m then Some(m[k]) else None }

  // ---- steps

  function FinishedOperation(s: State): State {
    if s.queue != [] then s.(queue := s.queue[1..], running := Some(Reading(s.queue[0])))
    else s.(busy := false, running := None)
  }

  function Settle(s: State, outcome: Outcome): State
    requires s.running.Some?
  {
    FinishedOperation(s.(settled := s.settled + [Entry(s.running.value.op, outcome)]))
  }

  datatype Event =
    | SubmitEvent(op: Op)
    | ReadEvent(ok: bool, moved: bool)       // moved: whether quarantining an unparsable file worked
    | WriteEvent(ok: bool, partial: File)  // partial: what a failed write left in the .tmp file
    | RenameEvent(ok: bool)

  predicate Enabled(s: State, e: Event) {
    match e
    case SubmitEvent(_) => true
    case ReadEvent(_, _) => s.running.Some? && s.running.value.Reading?
    case WriteEvent(_, _) => s.running.Some? && s.running.value.Writing?
    case RenameEvent(_) => s.running.Some? && s.running.value.Renaming?
  }

  function Submit(s: State, op: Op): State {
    if s.busy then s.(queue := s.queue + [op]) else s.(busy := true, running := Some(Reading(op)))
  }

  function ReadDone(s: State, ok: bool, moved: bool): State
    requires s.running.Some?
  {
    var op := s.running.value.op;
    if !ok then Settle(s, Failed(false))
    else if s.path.Garbage? then Settle(s.(path := if moved then Absent else s.path), Failed(moved))
    else match op
      case Get(key) => Settle(s, Got(Lookup(Records(s.path), key)))
      case Set(key, value) => s.(running := Some(Writing(op, Records(s.path)[key := value])))
  }

  function WriteDone(s: State, ok: bool, partial: File): State
    requires s.running.Some? && s.running.value.Writing?
  {
    var w := s.running.value;
    if ok then s.(tmp := Doc(w.records), running := Some(Renaming(w.op, w.records)))
    else Settle(s.(tmp := partial), Failed(false))
  }

  function RenameDone(s: State, ok: bool): State
    requires s.running.Some?
  {
    if ok then Settle(s.(path := s.tmp, tmp := Absent), Stored) else Settle(s, Failed(false))
  }

  function Step(s: State, e: Event): State
    requires Enabled(s, e)
  {
    match e
    case SubmitEvent(op) => Submit(s, op)
    case ReadEvent(ok, moved) => ReadDone(s, ok, moved)
    case WriteEvent(ok, partial) => WriteDone(s, ok, partial)
    case RenameEvent(ok) => RenameDone(s, ok)
  }

  // ---- the simple sequential database it refines

  /** One settled operation, run alone on the file. */
  function SerialStep(f: File, e: Entry): File {
    match e.outcome
    case Got(_) => f
    case Stored => if e.op.Set? then Doc(Records(f)[e.op.key := e.op.value]) else f
    case Failed(quarantined) => if quarantined then Absent else f
  }

  function Serial(f: File, log: seq<Entry>): File {
    if log == [] then f else SerialStep(Serial(f, log[..|log| - 1]), log[|log| - 1])
  }

  /** What a client may be told, given the file its operation ran on. */
  ghost predicate Answer(f: File, e: Entry) {
    match e.outcome
    case Got(value) => e.op.Get? && Parsable(f) && value == Lookup(Records(f), e.op.key)
    case Stored => e.op.Set? && Parsable(f)
    case Failed(quarantined) => quarantined ==> f.Garbage?
  }

  // ---- the invariant

  function InFlight(s: State): seq<Op> { if s.running.Some? then [s.running.value.op] else [] }

  function Ops(log: seq<Entry>): (r: seq<Op>)
    ensures |r| == |log|
  {
    seq(|log|, i requires 0 <= i < |log| => log[i].op)
  }

  ghost predicate Answered(init: File, log: seq<Entry>) {
    forall i :: 0 <= i < |log| ==> Answer(Serial(init, log[..i]), log[i])
  }

  /** The records about to reach the disk are the current ones with this one change. */
  ghost predicate WriteOk(s: State) {
    s.running.Some? && !s.running.value.Reading? ==>
      var w := s.running.value;
      && w.op.Set? && Parsable(s.path) && w.records == Records(s.path)[w.op.key := w.op.value]
      && (w.Renaming? ==> s.tmp == Doc(w.records))
  }

  ghost predicate Inv(s: State, init: File, submitted: seq<Op>) {
    && (s.busy <==> s.running.Some?)
    && (s.queue != [] ==> s.busy)
    && submitted == Ops(s.settled) + InFlight(s) + s.queue
    && s.path == Serial(init, s.settled)
    && Answered(init, s.settled)
    && WriteOk(s)
  }

  function Submitted(submitted: seq<Op>, e: Event): seq<Op> {
    if e.SubmitEvent? then submitted + [e.op] else submitted
  }

  lemma OpsAppend(log: seq<Entry>, e: Entry)
    ensures Ops(log + [e]) == Ops(log) + [e.op]
  {}

  lemma AnsweredAppend(init: File, log: seq<Entry>, e: Entry)
    requires Answered(init, log) && Answer(Serial(init, log), e)
    ensures Answered(init, log + [e])
    ensures Serial(init, log + [e]) == SerialStep(Serial(init, log), e)
  {
    var more := log + [e];
    assert more[..|log|] == log;
    forall i | 0 <= i < |more| ensures Answer(Serial(init, more[..i]), more[i]) {
      if i < |log| { assert more[..i] == log[..i] && Answer(Serial(init, log[..i]), log[i]); }
    }
  }

  /** Finishing hands the head of the queue on; nothing is lost or reordered. */
  lemma SettleOrder(done: seq<Op>, op: Op, queue: seq<Op>)
    ensures done + [op] + queue == (done + [op]) + (if queue == [] then [] else [queue[0]]) +
            (if queue == [] then [] else queue[1..])
  {
    if queue != [] {
      assert queue == [queue[0]] + queue[1..];
      AppendAssoc(done + [op], [queue[0]], queue[1..]);
    }
  }

  lemma SettleKeepsInv(s: State, outcome: Outcome, path: File, init: File, submitted: seq<Op>)
    requires Inv(s, init, submitted) && s.running.Some?
    requires Answer(s.path, Entry(s.running.value.op, outcome))
    requires path == SerialStep(s.path, Entry(s.running.value.op, outcome))
    ensures forall tmp :: Inv(Settle(s.(path := path, tmp := tmp), outcome), init, submitted)
  {
    var op := s.running.value.op;
    OpsAppend(s.settled, Entry(op, outcome));
    AnsweredAppend(init, s.settled, Entry(op, outcome));
    SettleOrder(Ops(s.settled), op, s.queue);
  }

  lemma StepKeepsInv(s: State, e: Event, init: File, submitted: seq<Op>)
    requires Inv(s, init, submitted) && Enabled(s, e)
    ensures Inv(Step(s, e), init, Submitted(submitted, e))
  {
    match e
    case SubmitEvent(op) =>
      if s.busy { AppendAssoc(Ops(s.settled) + InFlight(s), s.queue, [op]); }
      else { assert submitted == Ops(s.settled); }
    case ReadEvent(ok, moved) =>
      var op := s.running.value.op;
      if !ok { SettleKeepsInv(s, Failed(false), s.path, init, submitted); }
      else if s.path.Garbage? { SettleKeepsInv(s, Failed(moved), if moved then Absent else s.path, init, submitted); }
      else if op.Get? { SettleKeepsInv(s, Got(Lookup(Records(s.path), op.key)), s.path, init, submitted); }
    case WriteEvent(ok, partial) => if !ok { SettleKeepsInv(s, Failed(false), s.path, init, submitted); }
    case RenameEvent(ok) =>
      if ok { SettleKeepsInv(s, Stored, s.tmp, init, submitted); } else {
        SettleKeepsInv(s, Failed(false), s.path, init, submitted);
      }
  }

  // ---- runs

  ghost predicate Next(s: State, e: Event, s': State) { Enabled(s, e) && s' == Step(s, e) }

  ghost predicate Run(states: seq<State>, events: seq<Event>) {
    && |states| == |events| + 1
    && states[0] == Initial(states[0].path, states[0].tmp)
    && forall i :: 0 <= i < |events| ==> Next(states[i], events[i], states[i + 1])
  }

  function Submissions(events: seq<Event>): seq<Op> {
    if events == [] then [] else Submitted(Submissions(events[..|events| - 1]), events[|events| - 1])
  }

  lemma {:induction false} RunKeepsInv(states: seq<State>, events: seq<Event>, n: nat)
    requires Run(states, events) && n <= |events|
    ensures Inv(states[n], states[0].path, Submissions(events[..n]))
  {
    if n > 0 {
      RunKeepsInv(states, events, n - 1);
      assert Next(states[n - 1], events[n - 1], states[n - 1 + 1]);
      StepKeepsInv(states[n - 1], events[n - 1], states[0].path, Submissions(events[..n - 1]));
      assert events[..n][..n - 1] == events[..n - 1];
    }
  }

  /** Operations settle in submission order, each at most once, one at a time, and a queue means someone is busy. */
  lemma Linearised(states: seq<State>, events: seq<Event>, n: nat)
    requires Run(states, events) && n <= |events|
    ensures var s := states[n];
            && Submissions(events[..n]) == Ops(s.settled) + InFlight(s) + s.queue
            && (s.queue != [] ==> s.busy) && (s.busy <==> InFlight(s) != [])
  {
    RunKeepsInv(states, events, n);
  }

  /** Every answer given in any run is the one the sequential database gives; the disk is what it would leave. */
  lemma RefinesSerial(states: seq<State>, events: seq<Event>, n: nat)
    requires Run(states, events) && n <= |events|
    ensures Answered(states[0].path, states[n].settled)
    ensures states[n].path == Serial(states[0].path, states[n].settled)
  {
    RunKeepsInv(states, events, n);
  }

  // ---- from a file that parses: last write wins

  /** The value of the last successful set of k, or what the file held at first. */
  function LastSet(init: File, log: seq<Entry>, k: Key): Option<Value> {
    if log == [] then Lookup(Records(init), k)
    else
      var e := log[|log| - 1];
      if e.outcome.Stored? && e.op.Set? && e.op.key == k then Some(e.op.value)
      else LastSet(init, log[..|log| - 1], k)
  }

  lemma {:induction false} SerialIsLastSet(init: File, log: seq<Entry>, k: Key)
    requires Parsable(init) && Answered(init, log)
    ensures Parsable(Serial(init, log)) && Lookup(Records(Serial(init, log)), k) == LastSet(init, log, k)
  {
    if log != [] {
      var rest := log[..|log| - 1];
      forall i | 0 <= i < |rest| ensures Answer(Serial(init, rest[..i]), rest[i]) {
        assert rest[..i] == log[..i] && Answer(Serial(init, log[..i]), log[i]);
      }
      SerialIsLastSet(init, rest, k);
      assert Answer(Serial(init, log[..|log| - 1]), log[|log| - 1]);
    }
  }

  /** However submissions and completions interleave: each get answers with the last successful earlier set. */
  lemma GetsLastSet(states: seq<State>, events: seq<Event>, n: nat, i: nat)
    requires Run(states, events) && n <= |events| && Parsable(states[0].path)
    requires i < |states[n].settled| && states[n].settled[i].outcome.Got?
    ensures states[n].settled[i].op.Get?
    ensures states[n].settled[i].outcome.value == LastSet(states[0].path, states[n].settled[..i],
            states[n].settled[i].op.key)
  {
    RefinesSerial(states, events, n);
    var init, log := states[0].path, states[n].settled;
    assert Answer(Serial(init, log[..i]), log[i]);
    AnsweredPrefix(init, log, i);
    SerialIsLastSet(init, log[..i], log[i].op.key);
  }

  lemma AnsweredPrefix(init: File, log: seq<Entry>, n: nat)
    requires Answered(init, log) && n <= |log|
    ensures Answered(init, log[..n])
  {
    forall i | 0 <= i < n ensures Answer(Serial(init, log[..n][..i]), log[..n][i]) {
      assert log[..n][..i] == log[..i] && Answer(Serial(init, log[..i]), log[i]);
    }
  }

  /** The file at the path is at every moment the complete result of the successful sets: a partial write never
      shows there, and is never quarantined. */
  lemma NeverPartial(states: seq<State>, events: seq<Event>, n: nat, k: Key)
    requires Run(states, events) && n <= |events| && Parsable(states[0].path)
    ensures Parsable(states[n].path) && Lookup(Records(states[n].path), k) ==
            LastSet(states[0].path, states[n].settled, k)
    ensures forall i :: 0 <= i < |states[n].settled| ==> states[n].settled[i].outcome != Failed(true)
  {
    RefinesSerial(states, events, n);
    var init, log := states[0].path, states[n].settled;
    SerialIsLastSet(init, log, k);
    forall i | 0 <= i < |log| ensures log[i].outcome != Failed(true) {
      AnsweredPrefix(init, log, i);
      SerialIsLastSet(init, log[..i], k);
      assert Answer(Serial(init, log[..i]), log[i]);
    }
  }

  // ---- everything finishes

  /** Completions still due. */
  function Due(s: State): nat {
    3 * |s.queue| +
    match s.running
    case None => 0
    case Some(r) => if r.Reading? then 3 else if r.Writing? then 2 else 1
  }

  /** Every completion makes progress, and while anything is outstanding a completion is what the file system owes. */
  lemma Progress(s: State, e: Event, init: File, submitted: seq<Op>)
    requires Inv(s, init, submitted)
    ensures !e.SubmitEvent? && Enabled(s, e) ==> Due(Step(s, e)) < Due(s)
    ensures Due(s) > 0 <==> exists c: Event :: !c.SubmitEvent? && Enabled(s, c)
    ensures Due(s) == 0 <==> |s.settled| == |submitted|
  {
    if s.running.Some? {
      var c: Event := match s.running.value
        case Reading(_) => ReadEvent(true, true)
        case Writing(_, _) => WriteEvent(true, Empty)
        case Renaming(_, _) => RenameEvent(true);
      assert Enabled(s, c);
    }
  }

  // ---- what fails, and what does not

  /** A completion that reports an error, or a read that meets a file that does not parse. */
  predicate Bad(s: State, e: Event) {
    match e
    case SubmitEvent(_) => false
    case ReadEvent(ok, _) => !ok || s.path == Garbage
    case WriteEvent(ok, _) => !ok
    case RenameEvent(ok) => !ok
  }

  predicate Quarantines(s: State, e: Event) { e == ReadEvent(true, true) && s.path == Garbage }

  /** Operations settle in order, so the completions of operation i are those with i operations settled before. */
  ghost predicate BadFor(states: seq<State>, events: seq<Event>, k: nat, i: nat)
    requires |states| == |events| + 1
  {
    k < |events| && |states[k].settled| == i && Bad(states[k], events[k])
  }

  ghost predicate QuarantinesFor(states: seq<State>, events: seq<Event>, k: nat, i: nat)
    requires |states| == |events| + 1
  {
    k < |events| && |states[k].settled| == i && Quarantines(states[k], events[k])
  }

  lemma StepSettles(s: State, e: Event)
    requires Enabled(s, e)
    ensures var log, log' := s.settled, Step(s, e).settled;
            || (log' == log && !Bad(s, e))
            || (&& |log'| == |log| + 1 && log' == log + [log'[|log|]]
                && (log'[|log|].outcome.Failed? <==> Bad(s, e))
                && (log'[|log|].outcome == Failed(true) <==> Quarantines(s, e)))
  {}

  ghost predicate SettledRightly(states: seq<State>, events: seq<Event>, n: nat)
    requires |states| == |events| + 1 && n <= |events|
  {
    && (forall k: nat :: k < n ==> |states[k].settled| <= |states[n].settled|)
    && (forall k: nat :: k < n ==> !BadFor(states, events, k, |states[n].settled|))
    && (forall i: nat :: i < |states[n].settled| ==>
          && (states[n].settled[i].outcome.Failed? <==> exists k: nat :: k < n && BadFor(states, events, k, i))
          && (states[n].settled[i].outcome == Failed(true) <==>
                exists k: nat :: k < n && QuarantinesFor(states, events, k, i)))
  }

  lemma SettlesRightly(states: seq<State>, events: seq<Event>, m: nat, n: nat)
    requires Run(states, events) && m < |events| && n == m + 1 && SettledRightly(states, events, m)
    ensures SettledRightly(states, events, n)
  {
    assert Next(states[m], events[m], states[m + 1]);
    StepSettles(states[m], events[m]);
    var log, log' := states[m].settled, states[n].settled;
    forall i: nat | i < |log'|
      ensures log'[i].outcome.Failed? <==> exists k: nat :: k < n && BadFor(states, events, k, i)
      ensures log'[i].outcome == Failed(true) <==> exists k: nat :: k < n && QuarantinesFor(states, events, k, i)
    {
      if i < |log| {
        assert log'[i] == log[i] && !BadFor(states, events, m, i) && !QuarantinesFor(states, events, m, i);
      } else {
        assert BadFor(states, events, m, i) <==> Bad(states[m], events[m]);
        assert QuarantinesFor(states, events, m, i) <==> Quarantines(states[m], events[m]);
        assert forall k: nat :: QuarantinesFor(states, events, k, i) ==> BadFor(states, events, k, i);
      }
    }
  }

  lemma {:induction false} RunSettlesRightly(states: seq<State>, events: seq<Event>, n: nat)
    requires Run(states, events) && n <= |events|
    ensures SettledRightly(states, events, n)
  {
    if n > 0 {
      RunSettlesRightly(states, events, n - 1);
      SettlesRightly(states, events, n - 1, n);
    }
  }

  /** In every run an operation fails exactly when one of its own completions reported an error or its read met a file
      that does not parse; otherwise a get is answered and a set is stored. */
  lemma FailsIff(states: seq<State>, events: seq<Event>, n: nat, i: nat)
    requires Run(states, events) && n <= |events| && i < |states[n].settled|
    ensures var e := states[n].settled[i];
            && (e.outcome.Failed? <==> exists k: nat :: k < n && BadFor(states, events, k, i))
            && (e.outcome == Failed(true) <==> exists k: nat :: k < n && QuarantinesFor(states, events, k, i))
            && (!e.outcome.Failed? ==> if e.op.Set? then e.outcome == Stored else e.outcome.Got?)
  {
    RunSettlesRightly(states, events, n);
    RefinesSerial(states, events, n);
    assert Answer(Serial(states[0].path, states[n].settled[..i]), states[n].settled[i]);
  }

  /** From a file that parses, when every completion reports success, every get is answered and every set is stored. */
  lemma AllSucceed(states: seq<State>, events: seq<Event>, n: nat, i: nat)
    requires Run(states, events) && n <= |events| && i < |states[n].settled| && states[0].path != Garbage
    requires forall k :: 0 <= k < n ==> events[k].SubmitEvent? || events[k].ok
    ensures var e := states[n].settled[i]; if e.op.Set? then e.outcome == Stored else e.outcome.Got?
  {
    FailsIff(states, events, n, i);
    if states[n].settled[i].outcome.Failed? {
      var k: nat :| k < n && BadFor(states, events, k, i);
      NeverPartial(states, events, k, "");
      assert false;
    }
  }

  /** Only a successful rename replaces the file, by what was written completely beside it, and only a quarantining read
      takes it away; the other steps leave it alone. */
  lemma ReplacedByRename(states: seq<State>, events: seq<Event>, n: nat)
    requires Run(states, events) && n < |events|
    ensures var s, s' := states[n], states[n + 1];
            if events[n] == RenameEvent(true) then
              && s.running.Some? && s.running.value.op.Set?
              && s'.path == s.tmp == Doc(Records(s.path)[s.running.value.op.key := s.running.value.op.value])
            else s'.path == if Quarantines(s, events[n]) then Absent else s.path
  {
    RunKeepsInv(states, events, n);
    assert Next(states[n], events[n], states[n + 1]);
  }
}
