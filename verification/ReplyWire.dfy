/** The daemon-to-client protocol: one-byte slot grants and length-prefixed JSON, as written by the
    daemon and as consumed by the client from a growing buffer. */
module ReplyWire {
  import opened Bytes

  datatype Reply = Slot(code: byte) | Response(payload: seq<byte>)

  const JSON_RESPONSE: byte := 12

  /** CppSlotAcquired, CompileSlotAcquired, LocalSlotAcquired. */
  predicate IsSlot(b: byte) {
    b == 10 || b == 11 || b == 13
  }

  /** A header wider than 32 bits makes the daemon's send throw before it writes anything. */
  predicate Written(r: Reply) {
    r.Response? ==> |r.payload| < TWO_TO_THE_32
  }

  /** The frame, with its code and length bytes, is counted right in 32 bits. */
  predicate Countable(r: Reply) {
    r.Response? ==> 5 + |r.payload| < TWO_TO_THE_32
  }

  predicate AllCountable(rs: seq<Reply>) {
    rs == [] || (Countable(rs[0]) && AllCountable(rs[1..]))
  }

  /** A JSON frame, whatever its four length bytes: they only have to say how long the payload is. */
  function Frame(length: seq<byte>, payload: seq<byte>): seq<byte> { [JSON_RESPONSE] + length + payload }

  function Encode(r: Reply): seq<byte> {
    match r
    case Slot(code) => [code]
    case Response(payload) => if Written(r) then Frame(U32BE(|payload|), payload) else []
  }

  function EncodeAll(rs: seq<Reply>): seq<byte> {
    if rs == [] then [] else Encode(rs[0]) + EncodeAll(rs[1..])
  }

  /** Those that reach the wire. */
  function WrittenOf(rs: seq<Reply>): seq<Reply> {
    if rs == [] then [] else (if Written(rs[0]) then [rs[0]] else []) + WrittenOf(rs[1..])
  }

  /** What the client calls with. */
  predicate SlotsProper(rs: seq<Reply>) {
    rs == [] || ((rs[0].Slot? ==> IsSlot(rs[0].code)) && SlotsProper(rs[1..]))
  }

  /** Slot codes and frames that are written. */
  predicate Proper(r: Reply) {
    match r case Slot(code) => IsSlot(code) case Response(_) => Written(r)
  }

  predicate AllProper(rs: seq<Reply>) {
    rs == [] || (Proper(rs[0]) && AllProper(rs[1..]))
  }

  // ---- the client's side

  /** How far the client got, and what it was given on the way. */
  datatype Progress = Progress(at: nat, replies: seq<Reply>)

  /** The sum of the code, the length and the payload, in 32 bits. */
  function FrameSize(n: nat): (size: nat)
    requires n < TWO_TO_THE_32
    ensures size <= 5 + n
  {
    if 5 + n < TWO_TO_THE_32 then 5 + n else 5 + n - TWO_TO_THE_32
  }

  /** A slot code, or a frame whose last byte has arrived, at an index of the buffer. */
  predicate Complete(data: seq<byte>, k: nat) {
    k < |data| && (IsSlot(data[k]) || (data[k] == JSON_RESPONSE && k + 4 < |data|
      && k + 4 + PayloadAt(data, k) < |data|))
  }

  function PayloadAt(data: seq<byte>, k: nat): (n: nat)
    requires k + 4 < |data|
    ensures n < TWO_TO_THE_32
  {
    BigEndian(data, k + 1, k + 5)
  }

  function MessageAt(data: seq<byte>, k: nat): Reply
    requires Complete(data, k)
  {
    if IsSlot(data[k]) then Slot(data[k]) else Response(data[k + 5..k + 5 + PayloadAt(data, k)])
  }

  /** By how much the client moves on. */
  function Used(data: seq<byte>, k: nat): (used: nat)
    requires Complete(data, k)
    ensures k + used <= |data|
  {
    if IsSlot(data[k]) then 1 else FrameSize(PayloadAt(data, k))
  }

  /** One pass: it ends where no message is complete, and after one that moves the client nowhere. */
  function Messages(data: seq<byte>, k: nat, replies: seq<Reply>): (p: Progress)
    requires k <= |data|
    ensures k <= p.at <= |data|
    decreases |data| - k
  {
    if !Complete(data, k) then Progress(k, replies)
    else if Used(data, k) == 0 then Progress(k, replies + [MessageAt(data, k)])
    else Messages(data, k + Used(data, k), replies + [MessageAt(data, k)])
  }

  /** Passes until one moves nowhere. */
  function Passes(data: seq<byte>, k: nat, replies: seq<Reply>): (p: Progress)
    requires k <= |data|
    ensures k <= p.at <= |data|
    decreases |data| - k
  {
    var p := Messages(data, k, replies);
    if p.at == k then p else Passes(data, p.at, p.replies)
  }

  /** What the client has been given, and what its buffer keeps. */
  datatype Client = Client(replies: seq<Reply>, kept: seq<byte>)

  function Arrive(c: Client, chunk: seq<byte>): Client {
    var data := c.kept + chunk;
    var p := Passes(data, 0, c.replies);
    Client(p.replies, data[p.at..])
  }

  function Receive(c: Client, chunks: seq<seq<byte>>): Client
    decreases |chunks|
  {
    if chunks == [] then c else Receive(Arrive(c, chunks[0]), chunks[1..])
  }

  // ---- message by message

  /** Where the first message begins that is not complete or moves the client nowhere. */
  function Reach(data: seq<byte>, k: nat): (at: nat)
    requires k <= |data|
    ensures k <= at <= |data|
    decreases |data| - k
  {
    if Complete(data, k) && Used(data, k) > 0 then Reach(data, k + Used(data, k)) else k
  }

  /** Every message moves the client on. */
  predicate Smooth(data: seq<byte>, k: nat)
    requires k <= |data|
    decreases |data| - k
  {
    Complete(data, k) ==> Used(data, k) > 0 && Smooth(data, k + Used(data, k))
  }

  /** The messages one after the other, each once. */
  function Given(data: seq<byte>, k: nat, replies: seq<Reply>): seq<Reply>
    requires k <= |data|
    decreases |data| - k
  {
    if Complete(data, k) && Used(data, k) > 0 then Given(data, k + Used(data, k), replies + [MessageAt(data, k)])
    else replies
  }

  lemma {:induction false} MessagesReach(data: seq<byte>, k: nat, replies: seq<Reply>)
    requires k <= |data|
    ensures var m := Messages(data, k, replies);
            Reach(data, m.at) == Reach(data, k) && (m.at == k ==> Reach(data, k) == k)
    decreases |data| - k
  {
    if Complete(data, k) && Used(data, k) > 0 {
      MessagesReach(data, k + Used(data, k), replies + [MessageAt(data, k)]);
    }
  }

  lemma {:induction false} MessagesSmooth(data: seq<byte>, k: nat, replies: seq<Reply>)
    requires k <= |data| && Smooth(data, k)
    ensures Messages(data, k, replies) == Progress(Reach(data, k), Given(data, k, replies))
    ensures !Complete(data, Reach(data, k))
    decreases |data| - k
  {
    if Complete(data, k) { MessagesSmooth(data, k + Used(data, k), replies + [MessageAt(data, k)]); }
  }

  /** Passes get exactly as far, and give the same when every message moves the client on. */
  lemma {:induction false} PassesReach(data: seq<byte>, k: nat, replies: seq<Reply>)
    requires k <= |data|
    ensures var p := Passes(data, k, replies);
            p.at == Reach(data, k) && (Smooth(data, k) ==> p.replies == Given(data, k, replies))
    decreases |data| - k
  {
    MessagesReach(data, k, replies);
    if Smooth(data, k) { MessagesSmooth(data, k, replies); }
    var m := Messages(data, k, replies);
    if m.at > k { PassesReach(data, m.at, m.replies); }
  }

  lemma SameHeader(a: seq<byte>, b: seq<byte>, k: nat, shift: nat)
    requires k + 4 < |a| && k + shift + 4 < |b| && a[k + 1..k + 5] == b[k + 1 + shift..k + 5 + shift]
    ensures PayloadAt(b, k + shift) == PayloadAt(a, k)
  {
    BigEndianWithin(a, b, k + 1, k + 5, shift);
  }

  lemma FrontMore(a: seq<byte>, b: seq<byte>, k: nat)
    requires Complete(a, k)
    ensures Complete(a + b, k) && Used(a + b, k) == Used(a, k) && MessageAt(a + b, k) == MessageAt(a, k)
  {
    if a[k] == JSON_RESPONSE {
      assert (a + b)[k + 1..k + 5] == a[k + 1..k + 5];
      SameHeader(a, a + b, k, 0);
      var n := PayloadAt(a, k);
      assert (a + b)[k + 5..k + 5 + n] == a[k + 5..k + 5 + n];
    }
  }

  lemma FrontShift(done: seq<byte>, a: seq<byte>, k: nat, at: nat)
    requires k <= |a| && at == |done| + k
    ensures Complete(done + a, at) == Complete(a, k)
    ensures Complete(a, k) ==> Used(done + a, at) == Used(a, k) && MessageAt(done + a, at) == MessageAt(a, k)
  {
    if k + 4 < |a| && a[k] == JSON_RESPONSE {
      assert (done + a)[k + 1 + |done|..k + 5 + |done|] == a[k + 1..k + 5];
      SameHeader(a, done + a, k, |done|);
      var n := PayloadAt(a, k);
      if k + 4 + n < |a| { assert (done + a)[at + 5..at + 5 + n] == a[k + 5..k + 5 + n]; }
    }
  }

  /** What the first part leaves is where the rest begins. */
  lemma {:induction false} ReachMore(a: seq<byte>, b: seq<byte>, k: nat)
    requires k <= |a|
    ensures Reach(a + b, Reach(a, k)) == Reach(a + b, k)
    decreases |a| - k
  {
    if Complete(a, k) && Used(a, k) > 0 {
      FrontMore(a, b, k);
      ReachMore(a, b, k + Used(a, k));
    }
  }

  lemma {:induction false} SmoothMore(a: seq<byte>, b: seq<byte>, k: nat)
    requires k <= |a| && Smooth(a + b, k)
    ensures Smooth(a, k) && Smooth(a + b, Reach(a, k))
    decreases |a| - k
  {
    if Complete(a, k) {
      FrontMore(a, b, k);
      SmoothMore(a, b, k + Used(a, k));
    }
  }

  lemma {:induction false} GivenMore(a: seq<byte>, b: seq<byte>, k: nat, replies: seq<Reply>)
    requires k <= |a|
    ensures Given(a + b, k, replies) == Given(a + b, Reach(a, k), Given(a, k, replies))
    decreases |a| - k
  {
    if Complete(a, k) && Used(a, k) > 0 {
      FrontMore(a, b, k);
      GivenMore(a, b, k + Used(a, k), replies + [MessageAt(a, k)]);
    }
  }

  lemma {:induction false} ReachShift(done: seq<byte>, a: seq<byte>, k: nat, at: nat)
    requires k <= |a| && at == |done| + k
    ensures Reach(done + a, at) == |done| + Reach(a, k)
    decreases |a| - k
  {
    FrontShift(done, a, k, at);
    if Complete(a, k) && Used(a, k) > 0 { ReachShift(done, a, k + Used(a, k), at + Used(a, k)); }
  }

  lemma {:induction false} SmoothShift(done: seq<byte>, a: seq<byte>, k: nat, at: nat)
    requires k <= |a| && at == |done| + k
    ensures Smooth(done + a, at) == Smooth(a, k)
    decreases |a| - k
  {
    FrontShift(done, a, k, at);
    if Complete(a, k) && Used(a, k) > 0 { SmoothShift(done, a, k + Used(a, k), at + Used(a, k)); }
  }

  lemma {:induction false} GivenShift(done: seq<byte>, a: seq<byte>, k: nat, at: nat, replies: seq<Reply>)
    requires k <= |a| && at == |done| + k
    ensures Given(done + a, at, replies) == Given(a, k, replies)
    decreases |a| - k
  {
    FrontShift(done, a, k, at);
    if Complete(a, k) && Used(a, k) > 0 {
      GivenShift(done, a, k + Used(a, k), at + Used(a, k), replies + [MessageAt(a, k)]);
    }
  }

  // ---- chunk by chunk

  /** What is kept of a stream. */
  function Left(data: seq<byte>): seq<byte> {
    data[Reach(data, 0)..]
  }

  lemma LeftTwice(now: seq<byte>)
    ensures Reach(Left(now), 0) == 0
  {
    Parts(now, Reach(now, 0), []);
    ReachMore(now, [], 0);
    ReachShift(now[..Reach(now, 0)], Left(now), 0, Reach(now, 0));
  }

  lemma LeftMore(now: seq<byte>, later: seq<byte>)
    ensures Left(Left(now) + later) == Left(now + later)
  {
    var done, after := now[..Reach(now, 0)], Left(now) + later;
    Parts(now, Reach(now, 0), later);
    ReachMore(now, later, 0);
    ReachShift(done, after, 0, |done|);
    Behind(done, after, Reach(after, 0));
  }

  lemma SmoothLater(now: seq<byte>, later: seq<byte>)
    requires Smooth(now + later, 0)
    ensures Smooth(now, 0) && Smooth(Left(now) + later, 0)
  {
    Parts(now, Reach(now, 0), later);
    SmoothMore(now, later, 0);
    SmoothShift(now[..Reach(now, 0)], Left(now) + later, 0, Reach(now, 0));
  }

  lemma GivenLater(now: seq<byte>, later: seq<byte>, replies: seq<Reply>)
    ensures Given(Left(now) + later, 0, Given(now, 0, replies)) == Given(now + later, 0, replies)
  {
    Parts(now, Reach(now, 0), later);
    GivenMore(now, later, 0, replies);
    GivenShift(now[..Reach(now, 0)], Left(now) + later, 0, Reach(now, 0), Given(now, 0, replies));
  }

  lemma Parts(now: seq<byte>, at: nat, later: seq<byte>)
    requires at <= |now|
    ensures now[..at] + now[at..] == now && now[..at] + (now[at..] + later) == now + later
    ensures now + [] == now
  {}

  lemma Behind(done: seq<byte>, a: seq<byte>, k: nat)
    requires k <= |a|
    ensures (done + a)[|done| + k..] == a[k..]
  {}

  lemma ArriveLeft(c: Client, chunk: seq<byte>)
    ensures Arrive(c, chunk).kept == Left(c.kept + chunk)
    ensures Smooth(c.kept + chunk, 0) ==> Arrive(c, chunk).replies == Given(c.kept + chunk, 0, c.replies)
  {
    PassesReach(c.kept + chunk, 0, c.replies);
  }

  /** However the stream is cut up, what is kept depends on the bytes alone, and so do the messages
      when each moves the client on. */
  lemma {:induction false} ReceiveWhole(c: Client, chunks: seq<seq<byte>>)
    requires Reach(c.kept, 0) == 0
    ensures var all := c.kept + Flatten(chunks);
            && Receive(c, chunks).kept == Left(all)
            && (Smooth(all, 0) ==> Receive(c, chunks).replies == Given(all, 0, c.replies))
    decreases |chunks|
  {
    if chunks == [] {
      Untouched(c);
    } else {
      var now, later := c.kept + chunks[0], Flatten(chunks[1..]);
      ArriveLeft(c, chunks[0]);
      LeftTwice(now);
      LeftMore(now, later);
      if Smooth(now + later, 0) { SmoothLater(now, later); }
      GivenLater(now, later, c.replies);
      Regroup(c.kept, chunks[0], later);
      ReceiveWhole(Arrive(c, chunks[0]), chunks[1..]);
    }
  }

  lemma Untouched(c: Client)
    requires Reach(c.kept, 0) == 0
    ensures c.kept + [] == c.kept == Left(c.kept) && (Smooth(c.kept, 0) ==> Given(c.kept, 0, c.replies) == c.replies)
  {}

  lemma Regroup(a: seq<byte>, b: seq<byte>, c: seq<byte>)
    ensures a + b + c == a + (b + c)
  {}

  // ---- one frame

  lemma LengthOf(n: nat)
    requires n < TWO_TO_THE_32
    ensures ReadU32BE(U32BE(n)) == n
  {
    ReadBack(n);
  }

  lemma FrameParts(length: seq<byte>, payload: seq<byte>, tail: seq<byte>)
    requires |length| == 4
    ensures var all := Frame(length, payload) + tail;
            && |all| == 5 + |payload| + |tail| && all[0] == JSON_RESPONSE && BigEndian(all, 1, 5) == ReadU32BE(length)
            && all[5..5 + |payload|] == payload
            && all[1] == length[0] && all[2] == length[1] && all[3] == length[2] && all[4] == length[3]
  {
    var head := [JSON_RESPONSE] + length;
    var all := Frame(length, payload) + tail;
    assert all == head + (payload + tail) && all[1..5] == length;
    BigEndianIsRead(all, 1);
  }

  lemma FrontFrame(length: seq<byte>, payload: seq<byte>, tail: seq<byte>)
    requires |length| == 4 && ReadU32BE(length) == |payload|
    ensures var data := Frame(length, payload) + tail;
            Complete(data, 0) && MessageAt(data, 0) == Response(payload) && Used(data, 0) == FrameSize(|payload|)
  {
    FrameParts(length, payload, tail);
  }

  /** The client finds a written reply at the front, and moves on by its 32-bit size. */
  lemma FrontOf(r: Reply, tail: seq<byte>)
    requires Proper(r)
    ensures var data := Encode(r) + tail;
            && Complete(data, 0) && MessageAt(data, 0) == r
            && Used(data, 0) == (if r.Slot? then 1 else FrameSize(|r.payload|))
            && (Countable(r) ==> Used(data, 0) == |Encode(r)| > 0)
  {
    if r.Response? {
      LengthOf(|r.payload|);
      FrontFrame(U32BE(|r.payload|), r.payload, tail);
    }
  }

  lemma ProperPrefix(a: seq<byte>, b: seq<byte>)
    requires a <= b && a != b
    ensures |a| < |b| && forall i :: 0 <= i < |a| ==> a[i] == b[i]
  {
    assert |a| == |b| ==> a == b;
  }

  lemma FrontCut(length: seq<byte>, payload: seq<byte>, kept: seq<byte>)
    requires |length| == 4 && ReadU32BE(length) == |payload|
    requires kept <= Frame(length, payload) && kept != Frame(length, payload)
    ensures !Complete(kept, 0)
  {
    var whole := Frame(length, payload);
    ProperPrefix(kept, whole);
    if |kept| > 4 {
      FrameParts(length, payload, []);
      assert whole + [] == whole;
      assert kept[1..5] == whole[1..5];
      BigEndianWithin(kept, whole, 1, 5, 0);
    }
  }

  /** A proper prefix of a written reply gives the client nothing, and is kept. */
  lemma ProcessPartial(r: Reply, kept: seq<byte>)
    requires Proper(r) && kept <= Encode(r) && kept != Encode(r)
    ensures !Complete(kept, 0) && Left(kept) == kept
  {
    ProperPrefix(kept, Encode(r));
    if r.Response? {
      LengthOf(|r.payload|);
      FrontCut(U32BE(|r.payload|), r.payload, kept);
    }
  }

  /** A whole reply at the front goes first. */
  lemma ProcessFrame(r: Reply, tail: seq<byte>, replies: seq<Reply>)
    requires Proper(r) && Countable(r)
    ensures var data := Encode(r) + tail;
            && Reach(data, 0) == |Encode(r)| + Reach(tail, 0) && Left(data) == Left(tail)
            && Smooth(data, 0) == Smooth(tail, 0)
            && Given(data, 0, replies) == Given(tail, 0, replies + [r])
  {
    FrontOf(r, tail);
    ReachShift(Encode(r), tail, 0, |Encode(r)|);
    SmoothShift(Encode(r), tail, 0, |Encode(r)|);
    GivenShift(Encode(r), tail, 0, |Encode(r)|, replies + [r]);
    Behind(Encode(r), tail, Reach(tail, 0));
  }

  // ---- a stream of countable replies

  /** `kept` is a proper prefix of the next frame, or empty when no frame is owed. */
  ghost predicate Partial(kept: seq<byte>, rs: seq<Reply>) {
    if rs == [] then kept == [] else kept <= Encode(rs[0]) && kept != Encode(rs[0])
  }

  /** What is kept and what is still to come encode the replies from the k-th on, and none of them is whole. */
  ghost predicate Owed(kept: seq<byte>, rest: seq<byte>, rs: seq<Reply>) {
    kept + rest == EncodeAll(rs) && Partial(kept, rs)
  }

  lemma SplitAt(data: seq<byte>, rest: seq<byte>, frame: seq<byte>, tail: seq<byte>)
    requires data + rest == frame + tail
    ensures |frame| <= |data| ==> data == frame + data[|frame|..] && data[|frame|..] + rest == tail
    ensures |data| < |frame| ==> data <= frame && data != frame
  {
    if |frame| <= |data| {
      assert data[..|frame|] == (data + rest)[..|frame|] == frame;
      assert data[|frame|..] + rest == (data + rest)[|frame|..];
    } else {
      assert data == (data + rest)[..|data|] == (frame + tail)[..|data|] == frame[..|data|];
    }
  }

  lemma {:induction false} GivenOwed(data: seq<byte>, rest: seq<byte>, rs: seq<Reply>, got: seq<Reply>) returns (k: nat)
    requires AllProper(rs) && AllCountable(rs) && data + rest == EncodeAll(rs)
    ensures Smooth(data, 0) && k <= |rs| && Given(data, 0, got) == got + rs[..k] && Owed(Left(data), rest, rs[k..])
    decreases |rs|
  {
    k := 0;
    assert rs[0..] == rs && got + rs[..0] == got;
    if rs == [] {
      assert data == [] && rest == [];
    } else {
      var frame := Encode(rs[0]);
      SplitAt(data, rest, frame, EncodeAll(rs[1..]));
      if |frame| <= |data| {
        var tail := data[|frame|..];
        ProcessFrame(rs[0], tail, got);
        k := GivenOwed(tail, rest, rs[1..], got + [rs[0]]);
        OneMore(got, rs, k);
        k := k + 1;
      } else {
        ProcessPartial(rs[0], data);
      }
    }
  }

  lemma OneMore(got: seq<Reply>, rs: seq<Reply>, k: nat)
    requires rs != [] && k < |rs|
    ensures got + [rs[0]] + rs[1..][..k] == got + rs[..k + 1] && rs[1..][k..] == rs[k + 1..]
  {}

  /** After any chunks of the stream, the replies received are the first k sent, and what is kept is a
      proper prefix of the next one. */
  lemma ReceivePrefix(chunks: seq<seq<byte>>, rest: seq<byte>, rs: seq<Reply>) returns (k: nat)
    requires AllProper(rs) && AllCountable(rs) && Flatten(chunks) + rest == EncodeAll(rs)
    ensures k <= |rs| && Receive(Client([], []), chunks).replies == rs[..k]
    ensures Owed(Receive(Client([], []), chunks).kept, rest, rs[k..])
  {
    k := GivenOwed(Flatten(chunks), rest, rs, []);
    ReceiveWhole(Client([], []), chunks);
    assert [] + Flatten(chunks) == Flatten(chunks) && [] + rs[..k] == rs[..k];
  }

  lemma {:induction false} WrittenEncode(rs: seq<Reply>)
    requires SlotsProper(rs)
    ensures EncodeAll(WrittenOf(rs)) == EncodeAll(rs) && AllProper(WrittenOf(rs))
  {
    if rs != [] {
      WrittenEncode(rs[1..]);
      var rest := WrittenOf(rs[1..]);
      if Written(rs[0]) {
        assert ([rs[0]] + rest)[1..] == rest;
      } else {
        assert [] + rest == rest;
      }
    }
  }

  lemma NothingOwed(kept: seq<byte>, rs: seq<Reply>)
    requires Owed(kept, [], rs)
    ensures rs == [] && kept == []
  {
    assert kept + [] == kept;
    if rs != [] { ProperPrefix(kept, Encode(rs[0])); }
  }

  // ---- a reply that is too long to count

  /** The lengths that wrap begin with three bytes 255. */
  lemma LongHeader(n: nat)
    requires TWO_TO_THE_32 - 5 <= n < TWO_TO_THE_32
    ensures var b := U32BE(n); b[0] == 255 && b[1] == 255 && b[2] == 255 && (n > TWO_TO_THE_32 - 5 ==> b[3] >= 252)
  {
    assert n / 256 == 0xFF_FFFF && n / 0x1_0000 == 0xFFFF && n / 0x100_0000 == 0xFF;
  }

  lemma LongFrame(length: seq<byte>, payload: seq<byte>, tail: seq<byte>)
    requires |length| == 4 && ReadU32BE(length) == |payload| && 5 + |payload| >= TWO_TO_THE_32
    requires length[0] == 255 && length[1] == 255 && length[2] == 255
    requires 5 + |payload| > TWO_TO_THE_32 ==> length[3] >= 252
    ensures var data := Frame(length, payload) + tail; Reach(data, 0) < |data|
  {
    var data := Frame(length, payload) + tail;
    FrameParts(length, payload, tail);
    FrontFrame(length, payload, tail);
    var used := FrameSize(|payload|);
    if used > 0 {
      assert used <= 4 && data[used] == length[used - 1];
      assert !Complete(data, used);
    }
  }

  /** The client never gets past a reply that is too long: something stays in its buffer for good. */
  lemma {:induction false} LongStays(ws: seq<Reply>)
    requires AllProper(ws) && !AllCountable(ws)
    ensures Left(EncodeAll(ws)) != []
  {
    var r, tail := ws[0], EncodeAll(ws[1..]);
    if Countable(r) {
      LongStays(ws[1..]);
      ProcessFrame(r, tail, []);
    } else {
      LengthOf(|r.payload|);
      LongHeader(|r.payload|);
      LongFrame(U32BE(|r.payload|), r.payload, tail);
    }
  }

  /** Round trip, exactly: under any chunking of what the daemon sends the client receives what was
      written, in order, and keeps nothing, if and only if every written payload has fewer than
      2^32 - 5 bytes. */
  lemma RecoveredExactly(rs: seq<Reply>, chunks: seq<seq<byte>>)
    requires SlotsProper(rs) && Flatten(chunks) == EncodeAll(rs)
    ensures Receive(Client([], []), chunks) == Client(WrittenOf(rs), []) <==> AllCountable(WrittenOf(rs))
  {
    WrittenEncode(rs);
    var ws := WrittenOf(rs);
    if AllCountable(ws) {
      assert Flatten(chunks) + [] == EncodeAll(ws);
      var k := ReceivePrefix(chunks, [], ws);
      NothingOwed(Receive(Client([], []), chunks).kept, ws[k..]);
      assert ws[..|ws|] == ws;
    } else {
      LongStays(ws);
      ReceiveWhole(Client([], []), chunks);
      assert [] + Flatten(chunks) == Flatten(chunks);
    }
  }

  function Times(r: Reply, n: nat): seq<Reply> {
    if n == 0 then [] else [r] + Times(r, n - 1)
  }

  /** A payload of exactly 2^32 - 5 bytes moves the client nowhere: once whole it is delivered again
      each time bytes arrive, and nothing behind it ever is. */
  lemma {:induction false} Redelivered(r: Reply, c: Client, chunks: seq<seq<byte>>)
    requires r.Response? && 5 + |r.payload| == TWO_TO_THE_32 && Encode(r) <= c.kept
    ensures Receive(c, chunks) == Client(c.replies + Times(r, |chunks|), c.kept + Flatten(chunks))
    decreases |chunks|
  {
    if chunks == [] {
      assert c.kept + [] == c.kept && c.replies + [] == c.replies;
    } else {
      var next := Client(c.replies + [r], c.kept + chunks[0]);
      DeliveredInPlace(r, c, chunks[0]);
      Redelivered(r, next, chunks[1..]);
      Regroup(c.kept, chunks[0], Flatten(chunks[1..]));
      OnceMore(c.replies, r, |chunks|);
    }
  }

  lemma OnceMore(got: seq<Reply>, r: Reply, n: nat)
    requires n > 0
    ensures got + [r] + Times(r, n - 1) == got + Times(r, n)
  {}

  lemma DeliveredInPlace(r: Reply, c: Client, chunk: seq<byte>)
    requires r.Response? && 5 + |r.payload| == TWO_TO_THE_32 && Encode(r) <= c.kept
    ensures Arrive(c, chunk) == Client(c.replies + [r], c.kept + chunk)
    ensures Encode(r) <= c.kept + chunk
  {
    var data, tail := c.kept + chunk, (c.kept + chunk)[|Encode(r)|..];
    assert data == Encode(r) + tail && data[0..] == data;
    FrontOf(r, tail);
    assert Messages(data, 0, c.replies) == Progress(0, c.replies + [r]);
  }

  // ---- the bytes themselves

  /** The slots are 10, 11 and 13; a payload's frame is counted right in four bytes. */
  ghost predicate Legal(r: Reply) {
    match r
    case Slot(code) => code == 10 || code == 11 || code == 13
    case Response(payload) => |payload| + 5 < 0x1_0000_0000
  }

  /** A slot is its byte; a payload follows a 12 and its length, the highest byte first. */
  lemma EncodedAs(r: Reply)
    requires Legal(r)
    ensures r.Slot? ==> Encode(r) == [r.code]
    ensures r.Response? ==>
              var b := Encode(r);
              && |b| == 5 + |r.payload| && b[0] == 12 && b[5..] == r.payload
              && |r.payload| == 0x100_0000 * b[1] as int + 0x1_0000 * b[2] as int + 0x100 * b[3] as int + b[4] as int
  {
    if r.Response? { ReadBack(|r.payload|); }
  }

  lemma {:induction false} LegalIsProper(rs: seq<Reply>)
    requires forall i :: 0 <= i < |rs| ==> Legal(rs[i])
    ensures AllProper(rs) && AllCountable(rs)
  {
    if rs != [] {
      assert Legal(rs[0]);
      LegalIsProper(rs[1..]);
    }
  }

  /** Every list of legal replies arrives as it was sent, however it is cut up ... */
  lemma LegalArrive(rs: seq<Reply>, chunks: seq<seq<byte>>)
    requires Flatten(chunks) == EncodeAll(rs) && forall i :: 0 <= i < |rs| ==> Legal(rs[i])
    ensures Receive(Client([], []), chunks) == Client(rs, [])
  {
    LegalIsProper(rs);
    assert Flatten(chunks) + [] == EncodeAll(rs);
    var k := ReceivePrefix(chunks, [], rs);
    NothingOwed(Receive(Client([], []), chunks).kept, rs[k..]);
    assert rs[..|rs|] == rs;
  }

  /** ... and behind a byte that begins no reply nothing is ever received. */
  lemma OtherByteBlocks(rs: seq<Reply>, chunks: seq<seq<byte>>, b: byte, rest: seq<byte>)
    requires Flatten(chunks) == EncodeAll(rs) + ([b] + rest) && forall i :: 0 <= i < |rs| ==> Legal(rs[i])
    requires b != 10 && b != 11 && b != 12 && b != 13
    ensures Receive(Client([], []), chunks) == Client(rs, [b] + rest)
  {
    LegalIsProper(rs);
    var all := Flatten(chunks);
    assert [] + all == all;
    LegalThenBlocked(rs, [b] + rest, []);
    ReceiveWhole(Client([], []), chunks);
    assert [] + rs == rs;
  }

  lemma FirstThenRest(got: seq<Reply>, rs: seq<Reply>)
    requires rs != []
    ensures got + [rs[0]] + rs[1..] == got + rs
  {}

  lemma {:induction false} LegalThenBlocked(rs: seq<Reply>, tail: seq<byte>, got: seq<Reply>)
    requires AllProper(rs) && AllCountable(rs) && !Complete(tail, 0)
    ensures var data := EncodeAll(rs) + tail; Smooth(data, 0) && Given(data, 0, got) == got + rs && Left(data) == tail
    decreases |rs|
  {
    if rs == [] {
      assert [] + tail == tail && got + [] == got && tail[0..] == tail;
    } else {
      var more := EncodeAll(rs[1..]) + tail;
      LegalThenBlocked(rs[1..], tail, got + [rs[0]]);
      ProcessFrame(rs[0], more, got);
      Regroup(Encode(rs[0]), EncodeAll(rs[1..]), tail);
      FirstThenRest(got, rs);
    }
  }
}
