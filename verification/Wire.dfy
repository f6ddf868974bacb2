/** The client-to-daemon protocol: what the client writes, and the daemon's incremental parser as a
    function of the bytes it has been given. */
module Wire {
  import opened Bytes

  datatype Message = Command(code: byte) | Json(payload: seq<byte>)
  datatype Status = Open | Destroyed | Crashed

  const JSON_CODE: byte := 5

  /** AcquireCppSlot, AcquireCompileSlot, ReleaseCppSlot, ReleaseCompileSlot, AcquireSlot, ReleaseLocalSlot. */
  predicate IsCommand(b: byte) {
    1 <= b <= 7 && b != JSON_CODE
  }

  // ---- the client side

  function Encode(m: Message): seq<byte> {
    match m
    case Command(code) => [code]
    case Json(payload) => [JSON_CODE] + U32BE(|payload|) + payload
  }

  function EncodeAll(msgs: seq<Message>): seq<byte> {
    if msgs == [] then [] else Encode(msgs[0]) + EncodeAll(msgs[1..])
  }

  /** Everything a client puts on the socket: its pid, then its messages. */
  function Stream(pid: nat, msgs: seq<Message>): seq<byte> {
    U32BE(pid) + EncodeAll(msgs)
  }

  // ---- the daemon side

  /** `pid` is 0 until one is known; `messageLength` is 0 unless a JSON header has been read. */
  datatype Parser = Parser(pid: nat, messageLength: nat, data: seq<byte>)
  datatype Outcome = Outcome(messageLength: nat, data: seq<byte>, events: seq<Message>, status: Status)

  const FRESH := Parser(0, 0, [])

  function Emit(m: Message, rest: Outcome): Outcome {
    rest.(events := [m] + rest.events)
  }

  /** Parse as far as the data goes. `parses` is JSON.parse's verdict on a payload. */
  function Loop(parses: seq<byte> -> bool, len: nat, data: seq<byte>): Outcome
    decreases |data|, 1
  {
    if data == [] then Outcome(len, data, [], Open)
    else if len > 0 then Body(parses, len, data)
    else if IsCommand(data[0]) then Emit(Command(data[0]), Loop(parses, 0, data[1..]))
    else if data[0] != JSON_CODE then Outcome(0, data, [], Crashed)
    else if |data| < 5 then Outcome(0, data, [], Open)
    else Body(parses, ReadU32BE(data[1..5]), data[5..])
  }

  /** A payload of `len` bytes is due; a length of zero stops the loop like missing data does. */
  function Body(parses: seq<byte> -> bool, len: nat, data: seq<byte>): Outcome
    decreases |data|, 0
  {
    if len == 0 || len > |data| then Outcome(len, data, [], Open)
    else if parses(data[..len]) then Emit(Json(data[..len]), Loop(parses, 0, data[len..]))
    else Outcome(0, data[len..], [], Destroyed)
  }

  datatype Fed = Fed(parser: Parser, events: seq<Message>, status: Status)

  function FromOutcome(pid: nat, o: Outcome): Fed {
    Fed(Parser(pid, o.messageLength, o.data), o.events, o.status)
  }

  function Feed(parses: seq<byte> -> bool, p: Parser, chunk: seq<byte>): Fed {
    var data := p.data + chunk;
    if p.pid != 0 then FromOutcome(p.pid, Loop(parses, p.messageLength, data))
    else if |data| < 4 then Fed(p.(data := data), [], Open)
    else FromOutcome(ReadU32BE(data[..4]), Loop(parses, p.messageLength, data[4..]))
  }

  function FeedAll(parses: seq<byte> -> bool, p: Parser, chunks: seq<seq<byte>>): Fed
    decreases |chunks|
  {
    if chunks == [] then Fed(p, [], Open)
    else
      var first := Feed(parses, p, chunks[0]);
      if first.status != Open then first
      else
        var rest := FeedAll(parses, first.parser, chunks[1..]);
        rest.(events := first.events + rest.events)
  }

  // ---- round trip

  predicate Sendable(parses: seq<byte> -> bool, m: Message) {
    match m
    case Command(code) => IsCommand(code)
    case Json(payload) => 0 < |payload| < TWO_TO_THE_32 && parses(payload)
  }

  predicate AllSendable(parses: seq<byte> -> bool, msgs: seq<Message>) {
    forall i :: 0 <= i < |msgs| ==> Sendable(parses, msgs[i])
  }

  /** The bytes held and those still to come are exactly the messages still owed. */
  ghost predicate Owes(len: nat, data: seq<byte>, rest: seq<byte>, msgs: seq<Message>) {
    if len == 0 then data + rest == EncodeAll(msgs)
    else
      && msgs != [] && msgs[0].Json? && |msgs[0].payload| == len
      && data + rest == msgs[0].payload + EncodeAll(msgs[1..])
  }

  /** Nothing more can be emitted from the bytes held. */
  ghost predicate Stuck(len: nat, data: seq<byte>) {
    if len == 0 then data == [] || (data[0] == JSON_CODE && |data| < 5) else |data| < len
  }

  lemma FrameParts(payload: seq<byte>, tail: seq<byte>)
    ensures var all := [JSON_CODE] + U32BE(|payload|) + payload + tail;
            |all| >= 5 && all[0] == JSON_CODE && all[1..5] == U32BE(|payload|) && all[5..] == payload + tail
  {
    var head := [JSON_CODE] + U32BE(|payload|);
    assert head + payload + tail == head + (payload + tail);
    assert (head + (payload + tail))[1..5] == head[1..5] == U32BE(|payload|);
  }

  lemma JsonHeader(payload: seq<byte>, tail: seq<byte>, data: seq<byte>, rest: seq<byte>)
    requires |payload| < TWO_TO_THE_32 && |data| >= 5
    requires data + rest == [JSON_CODE] + U32BE(|payload|) + payload + tail
    ensures data[0] == JSON_CODE && ReadU32BE(data[1..5]) == |payload|
    ensures data[5..] + rest == payload + tail
  {
    var all := data + rest;
    ReadBack(|payload|);
    FrameParts(payload, tail);
    assert data[0] == all[0];
    assert data[1..5] == all[1..5];
    assert data[5..] + rest == all[5..];
  }

  lemma TakePayload(payload: seq<byte>, tail: seq<byte>, data: seq<byte>, rest: seq<byte>)
    requires data + rest == payload + tail && |payload| <= |data|
    ensures data[..|payload|] == payload && data[|payload|..] + rest == tail
  {
    var all := data + rest;
    assert data[..|payload|] == all[..|payload|];
    assert data[|payload|..] + rest == all[|payload|..];
  }

  lemma Owing(msgs: seq<Message>, k: nat, m: Message)
    requires msgs != [] && msgs[0] == m && k <= |msgs| - 1
    ensures [m] + msgs[1..][..k] == msgs[..k + 1] && msgs[1..][k..] == msgs[k + 1..]
  {}

  /** One run of the loop emits the owed messages that are complete, in order, and nothing else. */
  lemma {:induction false} LoopEmits(parses: seq<byte> -> bool, len: nat, data: seq<byte>, rest: seq<byte>,
      msgs: seq<Message>) returns (k: nat)
    requires AllSendable(parses, msgs) && Owes(len, data, rest, msgs)
    ensures k <= |msgs|
    ensures var o := Loop(parses, len, data);
            o.status == Open && o.events == msgs[..k] && Owes(o.messageLength, o.data, rest, msgs[k..])
              && Stuck(o.messageLength, o.data)
    decreases |data|, 1
  {
    if data == [] {
      k := 0;
    } else if len > 0 {
      k := BodyEmits(parses, len, data, rest, msgs);
    } else {
      assert (data + rest)[0] == data[0];
      assert msgs != [];
      var m, tail := msgs[0], EncodeAll(msgs[1..]);
      match m
      case Command(code) =>
        assert data[1..] + rest == (data + rest)[1..] == tail;
        k := LoopEmits(parses, 0, data[1..], rest, msgs[1..]);
        Owing(msgs, k, m);
        k := k + 1;
      case Json(payload) =>
        assert data[0] == JSON_CODE;
        if |data| < 5 {
          k := 0;
        } else {
          JsonHeader(payload, tail, data, rest);
          k := BodyEmits(parses, |payload|, data[5..], rest, msgs);
        }
    }
  }

  lemma {:induction false} BodyEmits(parses: seq<byte> -> bool, len: nat, data: seq<byte>, rest: seq<byte>,
      msgs: seq<Message>) returns (k: nat)
    requires AllSendable(parses, msgs) && len > 0 && Owes(len, data, rest, msgs)
    ensures k <= |msgs|
    ensures var o := Body(parses, len, data);
            o.status == Open && o.events == msgs[..k] && Owes(o.messageLength, o.data, rest, msgs[k..])
              && Stuck(o.messageLength, o.data)
    decreases |data|, 0
  {
    if len > |data| {
      k := 0;
    } else {
      var payload := msgs[0].payload;
      TakePayload(payload, EncodeAll(msgs[1..]), data, rest);
      assert Sendable(parses, msgs[0]);
      k := LoopEmits(parses, 0, data[len..], rest, msgs[1..]);
      Owing(msgs, k, msgs[0]);
      k := k + 1;
    }
  }

  /** With nothing left to come, being stuck means having emitted everything. */
  lemma StuckIsDone(parses: seq<byte> -> bool, len: nat, data: seq<byte>, msgs: seq<Message>)
    requires AllSendable(parses, msgs) && Owes(len, data, [], msgs) && Stuck(len, data)
    ensures msgs == [] && data == [] && len == 0
  {
    assert data + [] == data;
  }

  lemma {:induction false} ChunksEmit(parses: seq<byte> -> bool, p: Parser, chunks: seq<seq<byte>>, msgs: seq<Message>)
    requires AllSendable(parses, msgs) && p.pid != 0
    requires Owes(p.messageLength, p.data, Flatten(chunks), msgs) && Stuck(p.messageLength, p.data)
    ensures FeedAll(parses, p, chunks) == Fed(Parser(p.pid, 0, []), msgs, Open)
    decreases |chunks|
  {
    if chunks == [] {
      StuckIsDone(parses, p.messageLength, p.data, msgs);
    } else {
      var rest := Flatten(chunks[1..]);
      assert (p.data + chunks[0]) + rest == p.data + Flatten(chunks);
      var k := LoopEmits(parses, p.messageLength, p.data + chunks[0], rest, msgs);
      var first := Feed(parses, p, chunks[0]);
      ChunksEmit(parses, first.parser, chunks[1..], msgs[k..]);
      Rejoin(msgs, k);
    }
  }

  lemma Rejoin(msgs: seq<Message>, k: nat)
    requires k <= |msgs|
    ensures msgs[..k] + msgs[k..] == msgs
  {}

  lemma PidArrives(data: seq<byte>, rest: seq<byte>, pid: nat, tail: seq<byte>)
    requires pid < TWO_TO_THE_32 && |data| >= 4 && data + rest == U32BE(pid) + tail
    ensures ReadU32BE(data[..4]) == pid && data[4..] + rest == tail
  {
    ReadBack(pid);
    assert data[..4] == (data + rest)[..4] == U32BE(pid);
    assert data[4..] + rest == (data + rest)[4..];
  }

  lemma {:induction false} PidThenChunks(parses: seq<byte> -> bool, held: seq<byte>, chunks: seq<seq<byte>>, pid: nat,
      msgs: seq<Message>)
    requires AllSendable(parses, msgs) && 0 < pid < TWO_TO_THE_32 && |held| < 4
    requires held + Flatten(chunks) == Stream(pid, msgs)
    ensures FeedAll(parses, Parser(0, 0, held), chunks) == Fed(Parser(pid, 0, []), msgs, Open)
    decreases |chunks|
  {
    assert |held + Flatten(chunks)| >= 4;
    if chunks != [] {
      var data, rest := held + chunks[0], Flatten(chunks[1..]);
      assert data + rest == held + Flatten(chunks);
      if |data| < 4 {
        PidThenChunks(parses, data, chunks[1..], pid, msgs);
        assert [] + msgs == msgs;
      } else {
        PidArrives(data, rest, pid, EncodeAll(msgs));
        var k := LoopEmits(parses, 0, data[4..], rest, msgs);
        var first := Feed(parses, Parser(0, 0, held), chunks[0]);
        assert first == FromOutcome(pid, Loop(parses, 0, data[4..]));
        ChunksEmit(parses, first.parser, chunks[1..], msgs[k..]);
        Rejoin(msgs, k);
      }
    }
  }

  /** Whatever the chunking, the daemon emits exactly the messages sent, in order, and keeps nothing. */
  lemma RoundTrip(parses: seq<byte> -> bool, pid: nat, msgs: seq<Message>, chunks: seq<seq<byte>>)
    requires AllSendable(parses, msgs) && 0 < pid < TWO_TO_THE_32
    requires Flatten(chunks) == Stream(pid, msgs)
    ensures FeedAll(parses, FRESH, chunks) == Fed(Parser(pid, 0, []), msgs, Open)
  {
    assert [] + Flatten(chunks) == Flatten(chunks);
    PidThenChunks(parses, [], chunks, pid, msgs);
  }

  // ---- exactly when

  /** Messages the client's two send functions can be asked for, with payloads the daemon's parser accepts. */
  predicate Proper(parses: seq<byte> -> bool, m: Message) {
    match m
    case Command(code) => IsCommand(code)
    case Json(payload) => parses(payload)
  }

  /** The condition a client can check: a frame of length 1 to 2^32 - 1. */
  predicate Framed(m: Message) {
    m.Json? ==> 0 < |m.payload| < TWO_TO_THE_32
  }

  ghost predicate Chunking(chunks: seq<seq<byte>>, s: seq<byte>) {
    Flatten(chunks) == s && forall i :: 0 <= i < |chunks| ==> chunks[i] != []
  }

  /** Every way of cutting the stream into chunks delivers the messages. */
  ghost predicate Recovered(parses: seq<byte> -> bool, pid: nat, msgs: seq<Message>) {
    forall chunks :: Chunking(chunks, Stream(pid, msgs)) ==> FeedAll(parses, FRESH, chunks).events == msgs
  }

  function WireSize(msgs: seq<Message>): nat {
    if msgs == [] then 0
    else (match msgs[0] case Command(_) => 1 case Json(payload) => 5 + |payload|) + WireSize(msgs[1..])
  }

  lemma {:induction false} SizeOfEncoding(msgs: seq<Message>)
    ensures |EncodeAll(msgs)| == WireSize(msgs)
  {
    if msgs != [] { SizeOfEncoding(msgs[1..]); }
  }

  lemma {:induction false} LoopSize(parses: seq<byte> -> bool, len: nat, data: seq<byte>)
    ensures WireSize(Loop(parses, len, data).events) <= |data| + if len > 0 then 5 else 0
    decreases |data|, 1
  {
    if data == [] {
    } else if len > 0 {
      BodySize(parses, len, data);
    } else if IsCommand(data[0]) {
      LoopSize(parses, 0, data[1..]);
      var rest := Loop(parses, 0, data[1..]).events;
      assert ([Command(data[0])] + rest)[1..] == rest;
    } else if data[0] == JSON_CODE && |data| >= 5 {
      BodySize(parses, ReadU32BE(data[1..5]), data[5..]);
    }
  }

  lemma {:induction false} BodySize(parses: seq<byte> -> bool, len: nat, data: seq<byte>)
    ensures WireSize(Body(parses, len, data).events) <= |data| + 5
    decreases |data|, 0
  {
    if 0 < len <= |data| && parses(data[..len]) {
      LoopSize(parses, 0, data[len..]);
      var rest := Loop(parses, 0, data[len..]).events;
      assert ([Json(data[..len])] + rest)[1..] == rest;
    }
  }

  /** A pid of 0 counts as none: a chunk boundary right after it makes the next four bytes the pid. */
  lemma PidZeroLosesBytes(parses: seq<byte> -> bool, msgs: seq<Message>)
    requires msgs != []
    ensures !Recovered(parses, 0, msgs)
  {
    var r := EncodeAll(msgs);
    var chunks := [U32BE(0), r];
    SizeOfEncoding(msgs);
    assert chunks[1..] == [r] && chunks[1..][1..] == [];
    assert Flatten(chunks[1..]) == r by { assert r + [] == r; }
    assert Chunking(chunks, Stream(0, msgs));
    ReadBack(0);
    var first := Feed(parses, FRESH, chunks[0]);
    assert [] + U32BE(0) == U32BE(0);
    assert first == Fed(Parser(0, 0, []), [], Open) by { assert U32BE(0)[..4] == U32BE(0) && U32BE(0)[4..] == []; }
    assert [] + r == r;
    var second := Feed(parses, Parser(0, 0, []), r);
    if |r| >= 4 { LoopSize(parses, 0, r[4..]); }
    assert WireSize(second.events) < WireSize(msgs);
    assert FeedAll(parses, Parser(0, 0, []), [r]).events == second.events by {
      assert second.events + [] == second.events;
    }
    assert FeedAll(parses, FRESH, chunks).events == second.events by { assert [] + second.events == second.events; }
  }

  /** A sendable message at the front is emitted first. */
  lemma LoopOne(parses: seq<byte> -> bool, m: Message, rest: seq<byte>)
    requires Sendable(parses, m)
    ensures Loop(parses, 0, Encode(m) + rest) == Emit(m, Loop(parses, 0, rest))
  {
    match m
    case Command(code) => assert (Encode(m) + rest)[1..] == rest;
    case Json(payload) => LoopJson(parses, payload, rest);
  }

  lemma LoopJson(parses: seq<byte> -> bool, payload: seq<byte>, rest: seq<byte>)
    requires Sendable(parses, Json(payload))
    ensures Loop(parses, 0, Encode(Json(payload)) + rest) == Emit(Json(payload), Loop(parses, 0, rest))
  {
    ReadBack(|payload|);
    LoopFrame(parses, U32BE(|payload|), payload, rest);
  }

  lemma LoopFrame(parses: seq<byte> -> bool, length: seq<byte>, payload: seq<byte>, rest: seq<byte>)
    requires Sendable(parses, Json(payload)) && |length| == 4 && ReadU32BE(length) == |payload|
    ensures Loop(parses, 0, [JSON_CODE] + length + payload + rest) == Emit(Json(payload), Loop(parses, 0, rest))
  {
    var data := [JSON_CODE] + length + payload + rest;
    assert data == ([JSON_CODE] + length) + (payload + rest);
    assert data[0] == JSON_CODE && data[1..5] == length && data[5..] == payload + rest;
    assert Loop(parses, 0, data) == Body(parses, |payload|, payload + rest);
    BodyJson(parses, payload, rest);
  }

  lemma BodyJson(parses: seq<byte> -> bool, payload: seq<byte>, rest: seq<byte>)
    requires Sendable(parses, Json(payload))
    ensures Body(parses, |payload|, payload + rest) == Emit(Json(payload), Loop(parses, 0, rest))
  {
    assert (payload + rest)[..|payload|] == payload && (payload + rest)[|payload|..] == rest;
  }

  lemma {:induction false} LoopPrefix(parses: seq<byte> -> bool, good: seq<Message>, tail: seq<byte>)
    requires AllSendable(parses, good)
    ensures Loop(parses, 0, EncodeAll(good) + tail).events == good + Loop(parses, 0, tail).events
  {
    var events := Loop(parses, 0, tail).events;
    if good == [] {
      assert [] + tail == tail;
      assert [] + events == events;
    } else {
      var m, rest := good[0], EncodeAll(good[1..]) + tail;
      assert Sendable(parses, m);
      LoopPrefix(parses, good[1..], tail);
      LoopOne(parses, m, rest);
      EncodeHead(good, tail);
      assert good == [m] + good[1..];
      Reassociate([m], good[1..], events);
    }
  }

  lemma EncodeHead(good: seq<Message>, tail: seq<byte>)
    requires good != []
    ensures EncodeAll(good) + tail == Encode(good[0]) + (EncodeAll(good[1..]) + tail)
  {}

  lemma Reassociate(a: seq<Message>, b: seq<Message>, c: seq<Message>)
    ensures a + (b + c) == (a + b) + c
  {}

  /** An unframed payload is never delivered as itself. */
  lemma UnframedIsLost(parses: seq<byte> -> bool, payload: seq<byte>, tail: seq<byte>)
    requires !Framed(Json(payload))
    ensures var events := Loop(parses, 0, Encode(Json(payload)) + tail).events;
            events == [] || events[0] != Json(payload)
  {
    var data := Encode(Json(payload)) + tail;
    ReadBack(|payload|);
    FrameParts(payload, tail);
    assert data == [JSON_CODE] + U32BE(|payload|) + payload + tail;
  }

  lemma {:induction false} EncodeAppend(a: seq<Message>, b: seq<Message>)
    ensures EncodeAll(a + b) == EncodeAll(a) + EncodeAll(b)
  {
    if a == [] {
      assert a + b == b;
    } else {
      assert (a + b)[1..] == a[1..] + b;
      EncodeAppend(a[1..], b);
    }
  }

  /** Sending one more message extends the stream by its encoding. */
  lemma StreamAppend(pid: nat, msgs: seq<Message>, m: Message)
    ensures Stream(pid, msgs + [m]) == Stream(pid, msgs) + Encode(m)
  {
    EncodeAppend(msgs, [m]);
    assert EncodeAll([m][1..]) == [] && Encode(m) + [] == Encode(m);
    assert U32BE(pid) + (EncodeAll(msgs) + Encode(m)) == U32BE(pid) + EncodeAll(msgs) + Encode(m);
  }

  /** The whole stream fed in one go. */
  lemma InOneChunk(parses: seq<byte> -> bool, pid: nat, msgs: seq<Message>)
    requires 0 < pid < TWO_TO_THE_32
    ensures Chunking([Stream(pid, msgs)], Stream(pid, msgs))
    ensures FeedAll(parses, FRESH, [Stream(pid, msgs)]).events == Loop(parses, 0, EncodeAll(msgs)).events
  {
    var s := Stream(pid, msgs);
    var chunks := [s];
    assert chunks[1..] == [];
    assert Flatten(chunks) == s by { assert s + [] == s; }
    ReadBack(pid);
    assert [] + s == s && s[..4] == U32BE(pid) && s[4..] == EncodeAll(msgs);
    var first := Feed(parses, FRESH, s);
    assert first.events + [] == first.events;
  }

  lemma UnframedNotRecovered(parses: seq<byte> -> bool, pid: nat, msgs: seq<Message>, i: nat)
    requires 0 < pid < TWO_TO_THE_32 && i < |msgs| && !Framed(msgs[i])
    requires AllSendable(parses, msgs[..i])
    ensures !Recovered(parses, pid, msgs)
  {
    var good, bad, more := msgs[..i], msgs[i], msgs[i + 1..];
    assert msgs == good + ([bad] + more);
    EncodeAppend(good, [bad] + more);
    assert ([bad] + more)[1..] == more;
    var tail := Encode(bad) + EncodeAll(more);
    LoopPrefix(parses, good, tail);
    UnframedIsLost(parses, bad.payload, EncodeAll(more));
    var events := Loop(parses, 0, EncodeAll(msgs)).events;
    assert events == good + Loop(parses, 0, tail).events;
    assert events != msgs by { if |events| > i { assert events[i] == Loop(parses, 0, tail).events[0]; } }
    InOneChunk(parses, pid, msgs);
  }

  /** The least unframed message, if any. */
  lemma FirstUnframed(msgs: seq<Message>, n: nat) returns (i: nat)
    requires n <= |msgs| && exists j :: 0 <= j < n && !Framed(msgs[j])
    ensures i < n && !Framed(msgs[i]) && forall j :: 0 <= j < i ==> Framed(msgs[j])
  {
    if k :| 0 <= k < n - 1 && !Framed(msgs[k]) {
      i := FirstUnframed(msgs, n - 1);
    } else {
      i := n - 1;
    }
  }

  /** Every chunking delivers the messages if and only if there are none, or the pid is not 0 and every
      payload has between 1 and 2^32 - 1 bytes. */
  lemma RecoveredExactly(parses: seq<byte> -> bool, pid: nat, msgs: seq<Message>)
    requires pid < TWO_TO_THE_32 && forall i :: 0 <= i < |msgs| ==> Proper(parses, msgs[i])
    ensures Recovered(parses, pid, msgs) <==>
            msgs == [] || (pid != 0 && forall i :: 0 <= i < |msgs| ==> Framed(msgs[i]))
  {
    if msgs == [] {
      forall chunks | Chunking(chunks, Stream(pid, msgs)) ensures FeedAll(parses, FRESH, chunks).events == [] {
        PidOnly(parses, [], chunks, pid);
      }
    } else if pid == 0 {
      PidZeroLosesBytes(parses, msgs);
    } else if j :| 0 <= j < |msgs| && !Framed(msgs[j]) {
      var i := FirstUnframed(msgs, |msgs|);
      forall k | 0 <= k < i ensures Sendable(parses, msgs[..i][k]) {
        assert Proper(parses, msgs[k]) && Framed(msgs[k]);
      }
      UnframedNotRecovered(parses, pid, msgs, i);
    } else {
      forall k | 0 <= k < |msgs| ensures Sendable(parses, msgs[k]) {
        assert Proper(parses, msgs[k]) && Framed(msgs[k]);
      }
      forall chunks | Chunking(chunks, Stream(pid, msgs)) ensures FeedAll(parses, FRESH, chunks).events == msgs {
        RoundTrip(parses, pid, msgs, chunks);
      }
    }
  }

  lemma FlattenNonEmpty(chunks: seq<seq<byte>>)
    requires chunks != [] && chunks[0] != []
    ensures Flatten(chunks) != []
  {}

  /** A pid alone, zero or not, emits nothing. */
  lemma {:induction false} PidOnly(parses: seq<byte> -> bool, held: seq<byte>, chunks: seq<seq<byte>>, pid: nat)
    requires pid < TWO_TO_THE_32 && |held| < 4 && held + Flatten(chunks) == U32BE(pid)
    requires forall i :: 0 <= i < |chunks| ==> chunks[i] != []
    ensures FeedAll(parses, Parser(0, 0, held), chunks).events == []
    decreases |chunks|
  {
    if chunks != [] {
      var more, data, rest := chunks[1..], held + chunks[0], Flatten(chunks[1..]);
      if more != [] { FlattenNonEmpty(more); }
      assert data + rest == held + Flatten(chunks);
      if |data| < 4 {
        PidOnly(parses, data, chunks[1..], pid);
      } else {
        assert rest == [];
        assert data[4..] == [];
      }
    }
  }

  // ---- the bytes themselves

  /** The commands are 1 to 4, 6 and 7; a payload parses and its length can be written in four bytes. */
  ghost predicate Legal(parses: seq<byte> -> bool, m: Message) {
    match m
    case Command(code) => code == 1 || code == 2 || code == 3 || code == 4 || code == 6 || code == 7
    case Json(payload) => 0 < |payload| < 0x1_0000_0000 && parses(payload)
  }

  ghost predicate Says(bytes: seq<byte>, n: nat) {
    |bytes| == 4
    && n == 0x100_0000 * bytes[0] as int + 0x1_0000 * bytes[1] as int + 0x100 * bytes[2] as int + bytes[3] as int
  }

  /** A command is its byte; a payload follows a 5 and its length, the highest byte first. */
  lemma EncodedAs(parses: seq<byte> -> bool, m: Message)
    requires Legal(parses, m)
    ensures m.Command? ==> Encode(m) == [m.code]
    ensures m.Json? ==>
              && |Encode(m)| == 5 + |m.payload| && Encode(m)[0] == 5 && Says(Encode(m)[1..5], |m.payload|)
              && Encode(m)[5..] == m.payload
  {
    if m.Json? {
      ReadBack(|m.payload|);
      assert Encode(m)[1..5] == U32BE(|m.payload|);
    }
  }

  /** Every list of legal messages behind a pid arrives as it was sent, however it is cut up. */
  lemma LegalArrive(parses: seq<byte> -> bool, pid: nat, msgs: seq<Message>, chunks: seq<seq<byte>>)
    requires 0 < pid < 0x1_0000_0000 && forall i :: 0 <= i < |msgs| ==> Legal(parses, msgs[i])
    requires Flatten(chunks) == Stream(pid, msgs)
    ensures FeedAll(parses, FRESH, chunks) == Fed(Parser(pid, 0, []), msgs, Open)
    ensures |Stream(pid, [])| == 4 && Says(Stream(pid, []), pid)
  {
    forall i | 0 <= i < |msgs| ensures Sendable(parses, msgs[i]) { assert Legal(parses, msgs[i]); }
    RoundTrip(parses, pid, msgs, chunks);
    ReadBack(pid);
    assert Stream(pid, []) == U32BE(pid);
  }

  lemma {:induction false} FeedMore(parses: seq<byte> -> bool, p: Parser, chunks: seq<seq<byte>>, last: seq<byte>)
    requires FeedAll(parses, p, chunks).status == Open
    ensures var before := FeedAll(parses, p, chunks);
            var after := Feed(parses, before.parser, last);
            FeedAll(parses, p, chunks + [last]) == after.(events := before.events + after.events)
    decreases |chunks|
  {
    if chunks == [] {
      assert [last][1..] == [] && [] + [last] == [last];
      var after := Feed(parses, p, last);
      assert after.events + [] == after.events && [] + after.events == after.events;
    } else {
      var first := Feed(parses, p, chunks[0]);
      assert (chunks + [last])[1..] == chunks[1..] + [last] && (chunks + [last])[0] == chunks[0];
      FeedMore(parses, first.parser, chunks[1..], last);
    }
  }

  /** What the daemon makes of the bytes that follow: a command byte is that command, a 5 with a length and as many
      bytes is that payload, or the connection's end if it does not parse, and any other byte makes it throw. */
  lemma NextByte(parses: seq<byte> -> bool, pid: nat, msgs: seq<Message>, chunks: seq<seq<byte>>, b: byte,
      rest: seq<byte>, n: nat)
    requires 0 < pid < 0x1_0000_0000 && forall i :: 0 <= i < |msgs| ==> Legal(parses, msgs[i])
    requires Flatten(chunks) == Stream(pid, msgs)
    ensures var fed := FeedAll(parses, FRESH, chunks + [[b] + rest]);
            && ((b == 1 || b == 2 || b == 3 || b == 4 || b == 6 || b == 7) ==> msgs + [Command(b)] <= fed.events)
            && (b == 5 && |rest| >= 4 && Says(rest[..4], n) && 0 < n <= |rest| - 4 ==>
                  if parses(rest[4..4 + n]) then msgs + [Json(rest[4..4 + n])] <= fed.events
                  else fed.events == msgs && fed.status == Destroyed)
            && (b == 0 || b > 7 ==> fed.events == msgs && fed.status == Crashed)
  {
    LegalArrive(parses, pid, msgs, chunks);
    FeedMore(parses, FRESH, chunks, [b] + rest);
    assert [] + ([b] + rest) == [b] + rest;
    LoopNext(parses, b, rest, n);
    assert msgs + [] == msgs;
  }

  lemma LoopNext(parses: seq<byte> -> bool, b: byte, rest: seq<byte>, n: nat)
    ensures var o := Loop(parses, 0, [b] + rest);
            && ((b == 1 || b == 2 || b == 3 || b == 4 || b == 6 || b == 7) ==>
                  o.events == [Command(b)] + Loop(parses, 0, rest).events)
            && (b == 5 && |rest| >= 4 && Says(rest[..4], n) && 0 < n <= |rest| - 4 ==>
                  if parses(rest[4..4 + n]) then
                    o.events == [Json(rest[4..4 + n])] + Loop(parses, 0, rest[4 + n..]).events
                  else o.events == [] && o.status == Destroyed)
            && (b == 0 || b > 7 ==> o.events == [] && o.status == Crashed)
  {
    var data := [b] + rest;
    assert data[0] == b && data[1..] == rest;
    if b == 5 && |rest| >= 4 && Says(rest[..4], n) && 0 < n <= |rest| - 4 {
      assert data[1..5] == rest[..4] && data[5..] == rest[4..];
      assert rest[4..][..n] == rest[4..4 + n] && rest[4..][n..] == rest[4 + n..];
    }
  }
}
