/** The writer of one cache file: chunks wait in a buffer while the stream is not accepting, and go out on drain. */
module PendingWrites {
  import opened Collections
  import opened Bytes

  type Chunk = seq<byte>

  /** Node's write stream: it has taken `taken`, handed its first `handed` bytes to the system, and knows that the
      first `flushed` are on disk. After a refused write it owes a drain event. */
  datatype File = File(taken: seq<byte>, flushed: nat, handed: nat, writing: bool, needDrain: bool, ended: bool)

  /** `ending`: somebody waits for the drain that empties the buffer. `resolved`: `end` has been answered. */
  datatype Writer = Writer(file: File, buffer: Option<seq<Chunk>>, ending: bool, resolved: bool, threw: bool)

  const NEW_FILE := File([], 0, 0, false, false, false)
  const FRESH := Writer(NEW_FILE, None, false, false, false)

  /** A refused write is still taken; it only means no more before the drain. One call to the system at a time. */
  function FileWrite(f: File, data: Chunk, accepted: bool): File {
    var taken := f.taken + data;
    File(taken, f.flushed, if f.writing then f.handed else |taken|, true, f.needDrain || !accepted, f.ended)
  }

  /** A call to the system is over; what has come in since goes next. */
  function FileFlush(f: File): File {
    f.(flushed := f.handed, handed := |f.taken|, writing := f.handed < |f.taken|)
  }

  function Write(w: Writer, data: Chunk, accepted: bool): Writer {
    if w.buffer.Some? then w.(buffer := Some(w.buffer.value + [data]))
    else w.(file := FileWrite(w.file, data, accepted), buffer := if accepted then None else Some([]))
  }

  /** One write each, the stream answering as it likes; answers beyond the list are yes. */
  function WriteEach(w: Writer, chunks: seq<Chunk>, answers: seq<bool>): Writer
    decreases |chunks|
  {
    if chunks == [] then w
    else if answers == [] then WriteEach(Write(w, chunks[0], true), chunks[1..], [])
    else WriteEach(Write(w, chunks[0], answers[0]), chunks[1..], answers[1..])
  }

  /** The drain handler: with the buffer empty again it ends the file and answers `end` at once. */
  function Drain(w: Writer, answers: seq<bool>): Writer {
    var file := w.file.(needDrain := false);
    if w.buffer.None? then w.(file := file, threw := true)
    else
      var r := WriteEach(w.(file := file, buffer := None), w.buffer.value, answers);
      if r.buffer.None? && r.ending then r.(file := r.file.(ended := true), resolved := true) else r
  }

  /** A second end is rejected while the first waits for a drain. */
  function End(w: Writer): Writer {
    if w.ending then w else if w.buffer.Some? then w.(ending := true) else w.(file := w.file.(ended := true))
  }

  datatype Event = WriteEvent(data: Chunk, accepted: bool) | DrainEvent(answers: seq<bool>) | EndEvent
    | FlushEvent | FinishEvent

  /** Callers do not write after end. The stream drains when it owes a drain and everything it took is on disk, and
      finishes when it has been ended and everything is; `end` is waiting for that unless it waits for a drain. */
  predicate Enabled(w: Writer, e: Event) {
    match e
    case WriteEvent(_, _) => !w.ending && !w.file.ended
    case DrainEvent(_) => w.file.needDrain && !w.file.writing
    case EndEvent => true
    case FlushEvent => w.file.writing
    case FinishEvent => w.file.ended && !w.ending && !w.file.writing
  }

  function Step(w: Writer, e: Event): Writer {
    match e
    case WriteEvent(data, accepted) => Write(w, data, accepted)
    case DrainEvent(answers) => Drain(w, answers)
    case EndEvent => End(w)
    case FlushEvent => w.(file := FileFlush(w.file))
    case FinishEvent => w.(resolved := true)
  }

  function Buffered(w: Writer): seq<byte> { if w.buffer.Some? then Flatten(w.buffer.value) else [] }

  /** What the file knows of the disk, and that a stream not at work has written all it took. */
  ghost predicate FileInv(f: File) {
    f.flushed <= f.handed <= |f.taken| && (!f.writing ==> f.flushed == |f.taken|)
  }

  /** Everything given so far is on the stream or, in order, in the buffer; a buffer means a drain is owed. */
  ghost predicate Inv(w: Writer, given: seq<Chunk>) {
    && w.file.taken + Buffered(w) == Flatten(given)
    && FileInv(w.file)
    && (w.file.needDrain <==> w.buffer.Some?)
    && (w.file.ended ==> w.buffer.None?)
    && (w.ending && !w.resolved ==> w.buffer.Some?)
    && (w.resolved ==> w.file.ended)
    && !w.threw
  }

  lemma FlattenOne(chunks: seq<Chunk>, data: Chunk)
    ensures Flatten(chunks + [data]) == Flatten(chunks) + data
  {
    FlattenAppend(chunks, [data]);
    assert [data][1..] == [];
    assert Flatten([data]) == data + [];
  }

  /** The part of the invariant that re-sending needs: nothing about who waits for what. */
  ghost predicate Sending(w: Writer, given: seq<Chunk>) {
    && w.file.taken + Buffered(w) == Flatten(given)
    && FileInv(w.file)
    && (w.file.needDrain <==> w.buffer.Some?)
  }

  lemma WriteKeepsSending(w: Writer, data: Chunk, accepted: bool, given: seq<Chunk>)
    requires Sending(w, given)
    ensures Sending(Write(w, data, accepted), given + [data])
  {
    FlattenOne(given, data);
    if w.buffer.Some? {
      FlattenOne(w.buffer.value, data);
      AppendAssoc(w.file.taken, Flatten(w.buffer.value), data);
    }
  }

  lemma WriteKeepsInv(w: Writer, data: Chunk, accepted: bool, given: seq<Chunk>)
    requires Inv(w, given) && !w.file.ended
    ensures Inv(Write(w, data, accepted), given + [data])
  {
    WriteKeepsSending(w, data, accepted, given);
  }

  /** Re-sending keeps the order, touches nothing else, and hands over its first chunk only. */
  lemma {:induction false} WriteEachSends(w: Writer, chunks: seq<Chunk>, answers: seq<bool>, given: seq<Chunk>)
    requires Sending(w, given)
    ensures var r := WriteEach(w, chunks, answers);
            && Sending(r, given + chunks)
            && r.(file := w.file, buffer := w.buffer) == w && r.file.ended == w.file.ended
            && r.file.flushed == w.file.flushed
            && r.file.handed == (if w.buffer.Some? || w.file.writing || chunks == [] then w.file.handed
                                 else |w.file.taken| + |chunks[0]|)
    decreases |chunks|
  {
    if chunks == [] {
      assert given + chunks == given;
    } else {
      var ok := answers == [] || answers[0];
      WriteKeepsSending(w, chunks[0], ok, given);
      var later := if answers == [] then [] else answers[1..];
      WriteEachSends(Write(w, chunks[0], ok), chunks[1..], later, given + [chunks[0]]);
      assert given + [chunks[0]] + chunks[1..] == given + chunks;
    }
  }

  /** What a drain does to the file, in terms of what the buffer held. */
  lemma DrainSends(w: Writer, answers: seq<bool>, given: seq<Chunk>)
    requires Inv(w, given) && w.buffer.Some?
    ensures var file := w.file.(needDrain := false);
            var r := WriteEach(w.(file := file, buffer := None), w.buffer.value, answers);
            && Sending(r, given) && r.(file := w.file, buffer := w.buffer) == w && r.file.ended == w.file.ended
            && r.file.flushed == w.file.flushed
            && (!w.file.writing && w.buffer.value != [] ==>
                  r.file.handed == |w.file.taken| + |w.buffer.value[0]|)
            && (!w.file.writing && w.buffer.value == [] ==> r.file == file)
  {
    var file := w.file.(needDrain := false);
    var cleared, whole := w.(file := file, buffer := None), [w.file.taken];
    assert Flatten(whole) == w.file.taken by { FlattenOne([], w.file.taken); assert [] + [w.file.taken] == whole; }
    assert w.file.taken + [] == w.file.taken;
    WriteEachSends(cleared, w.buffer.value, answers, whole);
    FlattenAppend(whole, w.buffer.value);
  }

  /** The handler re-sends exactly the buffered chunks: it loses and reorders nothing. */
  lemma DrainKeepsInv(w: Writer, answers: seq<bool>, given: seq<Chunk>)
    requires Inv(w, given) && w.file.needDrain
    ensures Inv(Drain(w, answers), given)
  {
    DrainSends(w, answers, given);
  }

  lemma StepKeepsInv(w: Writer, e: Event, given: seq<Chunk>)
    requires Inv(w, given) && Enabled(w, e)
    ensures Inv(Step(w, e), if e.WriteEvent? then given + [e.data] else given)
  {
    match e
    case WriteEvent(data, accepted) => WriteKeepsInv(w, data, accepted, given);
    case DrainEvent(answers) => DrainKeepsInv(w, answers, given);
    case EndEvent =>
    case FlushEvent =>
    case FinishEvent =>
  }

  // ---- runs

  ghost predicate Next(w: Writer, e: Event, w': Writer) { Enabled(w, e) && w' == Step(w, e) }

  ghost predicate Run(states: seq<Writer>, events: seq<Event>) {
    && |states| == |events| + 1 && states[0] == FRESH
    && forall i :: 0 <= i < |events| ==> Next(states[i], events[i], states[i + 1])
  }

  function Given(events: seq<Event>): seq<Chunk> {
    if events == [] then []
    else
      var rest, e := Given(events[..|events| - 1]), events[|events| - 1];
      if e.WriteEvent? then rest + [e.data] else rest
  }

  lemma {:induction false} RunKeepsInv(states: seq<Writer>, events: seq<Event>, n: nat)
    requires Run(states, events) && n <= |events|
    ensures Inv(states[n], Given(events[..n]))
  {
    if n > 0 {
      RunKeepsInv(states, events, n - 1);
      assert Next(states[n - 1], events[n - 1], states[n - 1 + 1]);
      StepKeepsInv(states[n - 1], events[n - 1], Given(events[..n - 1]));
      assert events[..n][..n - 1] == events[..n - 1];
    }
  }

  /** Under any pattern of refused writes and drains: the stream holds a prefix of what was written, in call order;
      once it is ended, all of it, with nothing left behind; and the drain handler never finds its buffer missing. */
  lemma InCallOrder(states: seq<Writer>, events: seq<Event>, n: nat)
    requires Run(states, events) && n <= |events|
    ensures states[n].file.taken <= Flatten(Given(events[..n]))
    ensures states[n].file.ended ==> states[n].file.taken == Flatten(Given(events[..n])) && states[n].buffer == None
    ensures !states[n].threw
  {
    RunKeepsInv(states, events, n);
  }

  // ---- what is on disk when the caller looks

  /** The sizes the file may have on disk. */
  predicate OnDisk(f: File, size: nat) { f.flushed <= size <= f.handed }

  ghost predicate SurelyPasses(f: File, total: nat) { forall size :: OnDisk(f, size) ==> size == total }

  ghost predicate SurelyFails(f: File, total: nat) { forall size :: OnDisk(f, size) ==> size != total }

  function TotalSize(events: seq<Event>): nat { |Flatten(Given(events))| }

  /** The bytes a drain sends again, without those of the first chunk. */
  function Behind(buffer: seq<Chunk>): seq<byte> { if buffer == [] then [] else Flatten(buffer[1..]) }

  lemma FinishSizes(w: Writer, given: seq<Chunk>, size: nat)
    requires Inv(w, given) && Enabled(w, FinishEvent)
    ensures OnDisk(w.file, size) <==> size == |Flatten(given)|
  {}

  lemma DrainSizes(w: Writer, answers: seq<bool>, given: seq<Chunk>, size: nat)
    requires Inv(w, given) && Enabled(w, DrainEvent(answers)) && Drain(w, answers).resolved && !w.resolved
    ensures w.ending
    ensures var total := |Flatten(given)|;
            OnDisk(Drain(w, answers).file, size) <==>
            total - |Flatten(w.buffer.value)| <= size <= total - |Behind(w.buffer.value)|
  {
    DrainSends(w, answers, given);
  }

  /** When `end` is answered the caller compares the file's size with what was written. It has found no buffer when
      nothing is `ending`, and is then answered by the finish. The comparison is sure to succeed if and only if
      `end` found no buffer or the drain that ended the file sent no byte again, and sure to fail if and only if
      that drain sent bytes behind its first chunk. Otherwise it depends on how fast the disk is. */
  lemma SizeCheck(states: seq<Writer>, events: seq<Event>, n: nat)
    requires Run(states, events) && n < |events| && !states[n].resolved && states[n + 1].resolved
    ensures states[n].ending ==> states[n].buffer.Some?
    ensures SurelyPasses(states[n + 1].file, TotalSize(events[..n + 1])) <==>
            (!states[n].ending || Flatten(states[n].buffer.value) == [])
    ensures SurelyFails(states[n + 1].file, TotalSize(events[..n + 1])) <==>
            (states[n].ending && Behind(states[n].buffer.value) != [])
  {
    var w, w', e, given := states[n], states[n + 1], events[n], Given(events[..n]);
    RunKeepsInv(states, events, n);
    assert Next(w, e, w');
    assert events[..n + 1][..n] == events[..n];
    var total := TotalSize(events[..n + 1]);
    assert !e.WriteEvent?;
    assert Given(events[..n + 1]) == given;
    if e.FinishEvent? {
      forall size ensures OnDisk(w'.file, size) <==> size == total { FinishSizes(w, given, size); }
      assert OnDisk(w'.file, total);
    } else {
      var answers := e.answers;
      DrainSizes(w, answers, given, 0);
      var low, high := total - |Flatten(w.buffer.value)|, total - |Behind(w.buffer.value)|;
      assert |Behind(w.buffer.value)| <= |Flatten(w.buffer.value)| <= total;
      forall size: nat ensures OnDisk(w'.file, size) <==> low <= size <= high { DrainSizes(w, answers, given, size); }
      assert low <= high;
      assert OnDisk(w'.file, low) && OnDisk(w'.file, high);
    }
  }

  /** Two chunks behind a refused one, the second not empty: the finished file is judged too short. */
  lemma ThrownAwayExample(a: Chunk, b: Chunk, c: Chunk)
    requires c != []
    ensures exists states: seq<Writer>, events :: Run(states, events) && |events| == 6 && Given(events) == [a, b, c]
              && states[6].resolved && SurelyFails(states[6].file, |a + b + c|)
  {
    var events := [WriteEvent(a, false), WriteEvent(b, true), WriteEvent(c, true), EndEvent, FlushEvent,
      DrainEvent([])];
    var w1 := Write(FRESH, a, false);
    var w2 := Write(w1, b, true);
    var w3 := Write(w2, c, true);
    var w4 := End(w3);
    var w5 := w4.(file := FileFlush(w4.file));
    var w6 := Drain(w5, []);
    assert [] + [b] == [b] && [b] + [c] == [b, c] && [] + a == a;
    assert w4.buffer == Some([b, c]);
    assert w5.file == File(a, |a|, |a|, false, true, false);
    TwoSent(w5.(file := w5.file.(needDrain := false), buffer := None), b, c);
    assert w6.resolved && w6.file.handed == |a| + |b|;
    GivenThree(events[0], events[1], events[2], events[5]);
    var states := [FRESH, w1, w2, w3, w4, w5, w6];
    assert Run(states, events);
  }

  lemma TwoSent(w: Writer, b: Chunk, c: Chunk)
    requires w.buffer == None && !w.file.writing
    ensures WriteEach(w, [b, c], []) == Write(Write(w, b, true), c, true)
    ensures WriteEach(w, [b, c], []).buffer == None && WriteEach(w, [b, c], []).file.handed == |w.file.taken| + |b|
  {
    assert [b, c][1..] == [c] && [c][1..] == [];
    assert WriteEach(w, [b, c], []) == WriteEach(Write(w, b, true), [c], []);
  }

  lemma GivenAdd(events: seq<Event>, e: Event)
    ensures Given(events + [e]) == if e.WriteEvent? then Given(events) + [e.data] else Given(events)
  {
    assert (events + [e])[..|events|] == events;
  }

  lemma GivenThree(e1: Event, e2: Event, e3: Event, e6: Event)
    requires e1.WriteEvent? && e2.WriteEvent? && e3.WriteEvent? && e6.DrainEvent?
    ensures Given([e1, e2, e3, EndEvent, FlushEvent, e6]) == [e1.data, e2.data, e3.data]
  {
    GivenAdd([], e1);
    GivenAdd([e1], e2);
    GivenAdd([e1, e2], e3);
    GivenAdd([e1, e2, e3], EndEvent);
    GivenAdd([e1, e2, e3, EndEvent], FlushEvent);
    GivenAdd([e1, e2, e3, EndEvent, FlushEvent], e6);
    assert [] + [e1] == [e1] && [e1] + [e2] == [e1, e2] && [e1, e2] + [e3] == [e1, e2, e3];
    assert [e1, e2, e3] + [EndEvent] == [e1, e2, e3, EndEvent];
    assert [e1, e2, e3, EndEvent] + [FlushEvent] == [e1, e2, e3, EndEvent, FlushEvent];
    assert [e1, e2, e3, EndEvent, FlushEvent] + [e6] == [e1, e2, e3, EndEvent, FlushEvent, e6];
  }

  // ---- it ends

  /** Drains still needed at most. */
  function Owed(w: Writer): nat { if w.buffer.None? then 0 else 1 + |w.buffer.value| }

  lemma {:induction false} WriteEachOwed(w: Writer, chunks: seq<Chunk>, answers: seq<bool>)
    ensures Owed(WriteEach(w, chunks, answers)) <= if w.buffer.Some? then Owed(w) + |chunks| else |chunks|
    decreases |chunks|
  {
    if chunks != [] {
      var later := if answers == [] then [] else answers[1..];
      WriteEachOwed(Write(w, chunks[0], answers == [] || answers[0]), chunks[1..], later);
    }
  }

  /** Each drain makes progress however often the stream refuses; after end, the drain that empties the buffer ends
      the file. */
  lemma DrainProgress(w: Writer, answers: seq<bool>, given: seq<Chunk>)
    requires Inv(w, given) && w.file.needDrain
    ensures Owed(Drain(w, answers)) < Owed(w)
    ensures w.ending && Owed(Drain(w, answers)) == 0 ==> Drain(w, answers).file.ended
    ensures Drain(w, answers).ending == w.ending
  {
    DrainSends(w, answers, given);
    WriteEachOwed(w.(file := w.file.(needDrain := false), buffer := None), w.buffer.value, answers);
  }

  // ---- end is answered

  /** An end ends the file at once, unless something is buffered: then the drain that empties the buffer ends it and
      answers. Without a drain to wait for, the finish answers. A second end changes nothing. */
  lemma EndIsAnswered(states: seq<Writer>, events: seq<Event>, n: nat)
    requires Run(states, events) && n < |events|
    ensures var w, w', e := states[n], states[n + 1], events[n];
            && (e == EndEvent && w.ending ==> w' == w)
            && (e == EndEvent && !w.ending && w.buffer == None ==> w' == w.(file := w.file.(ended := true)))
            && (e == EndEvent && !w.ending && w.buffer != None ==> w' == w.(ending := true))
            && (e.DrainEvent? ==> w'.ending == w.ending)
            && (e.DrainEvent? && w.ending && w'.buffer == None ==> w'.file.ended && w'.resolved)
            && (e.DrainEvent? && !(w.ending && w'.buffer == None) ==>
                  w'.file.ended == w.file.ended && w'.resolved == w.resolved)
            && (e.FinishEvent? ==> w' == w.(resolved := true))
  {
    RunKeepsInv(states, events, n);
    assert Next(states[n], events[n], states[n + 1]);
    if events[n].DrainEvent? { DrainSends(states[n], events[n].answers, Given(events[..n])); }
  }

  /** What a caller gives goes to the stream at once when nothing is buffered, and into the buffer otherwise; a refusal
      starts the buffer. */
  lemma WrittenOrBuffered(states: seq<Writer>, events: seq<Event>, n: nat)
    requires Run(states, events) && n < |events| && events[n].WriteEvent?
    ensures var w, w', e := states[n], states[n + 1], events[n];
            && w'.ending == w.ending && w'.resolved == w.resolved
            && if w.buffer.Some? then w'.file == w.file && w'.buffer == Some(w.buffer.value + [e.data])
               else
                 && w'.file.taken == w.file.taken + e.data
                 && w'.buffer == if e.accepted then None else Some([])
  {
    RunKeepsInv(states, events, n);
    assert Next(states[n], events[n], states[n + 1]);
  }
}
