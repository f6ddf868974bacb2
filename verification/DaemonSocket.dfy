/** The client's end of the daemon socket: a send buffer drained by partial writes and a receive
    buffer consumed message by message. */
module DaemonSocket {
  import opened Bytes
  import W = Wire
  import R = ReplyWire

  /** What the kernel answers to one write(2). */
  datatype WriteResult = Accepted(n: nat) | WouldBlock | WriteError
  /** What it answers to one read(2). */
  datatype ReadResult = Data(bytes: seq<byte>) | NoMore | Closed | ReadError

  class Socket {
    var mSendBuffer: seq<byte>
    var mSendBufferOffset: nat
    var mRecvBuffer: seq<byte>
    var mError: bool
    var mClosed: bool
    /** Bytes the kernel has taken, and everything ever handed over to be sent. */
    var accepted: seq<byte>
    ghost var queued: seq<byte>

    ghost predicate Valid()
      reads this
    {
      && (mSendBufferOffset < |mSendBuffer| || (mSendBuffer == [] && mSendBufferOffset == 0))
      && queued == accepted + mSendBuffer[mSendBufferOffset..]
    }

    constructor (pid: nat)
      ensures Valid() && queued == U32BE(pid) && accepted == [] && mRecvBuffer == []
    {
      mSendBuffer, mSendBufferOffset, mRecvBuffer := U32BE(pid), 0, [];
      mError, mClosed := false, false;
      accepted, queued := [], U32BE(pid);
    }

    method Append(bytes: seq<byte>)
      requires Valid() && bytes != []
      modifies this`mSendBuffer, this`queued
      ensures Valid() && queued == old(queued) + bytes
    {
      AppendTail(accepted, mSendBuffer, mSendBufferOffset, bytes);
      mSendBuffer := mSendBuffer + bytes;
      queued := queued + bytes;
    }

    method SendCommand(code: byte)
      requires Valid()
      modifies this`mSendBuffer, this`queued
      ensures Valid() && queued == old(queued) + W.Encode(W.Command(code))
    {
      Append([code]);
    }

    method SendJson(json: seq<byte>)
      requires Valid()
      modifies this`mSendBuffer, this`queued
      ensures Valid() && queued == old(queued) + W.Encode(W.Json(json))
    {
      SendCommand(W.JSON_CODE);
      Append(U32BE(|json|));
      if json != [] {
        Append(json);
      }
      Assoc3(old(queued), [W.JSON_CODE], U32BE(|json|), json);
    }

    /** Writes until the kernel stops taking bytes; nothing is lost, repeated or reordered. */
    method Write(kernel: seq<WriteResult>)
      requires Valid() && mSendBuffer != []
      requires forall i :: 0 <= i < |kernel| && kernel[i].Accepted? ==>
               Fits(kernel, i, |mSendBuffer| - mSendBufferOffset)
      modifies this`mSendBuffer, this`mSendBufferOffset, this`accepted, this`mError
      ensures Valid() && old(accepted) <= accepted && |accepted| == |old(accepted)| + Grown(kernel)
      ensures mSendBuffer == [] <==> accepted == queued
      ensures mError == (old(mError) || (mSendBuffer != [] && WriteEnd(kernel) == WriteError))
    {
      var i := 0;
      ghost var start := |mSendBuffer| - mSendBufferOffset;
      assert kernel[0..] == kernel;
      while i < |kernel|
        invariant 0 <= i <= |kernel| && Valid() && mSendBuffer != [] && old(accepted) <= accepted
        invariant |mSendBuffer| - mSendBufferOffset == start - Taken(kernel, i)
        invariant |accepted| + Grown(kernel[i..]) == |old(accepted)| + Grown(kernel) && mError == old(mError)
        invariant WriteEnd(kernel[i..]) == WriteEnd(kernel)
      {
        assert kernel[i..][1..] == kernel[i + 1..];
        match kernel[i]
        case WouldBlock => break;
        case WriteError =>
          mError := true;
          break;
        case Accepted(r) =>
          assert Fits(kernel, i, start);
          var taken := mSendBuffer[mSendBufferOffset..mSendBufferOffset + r];
          MoveTail(accepted, mSendBuffer, mSendBufferOffset, r);
          accepted := accepted + taken;
          mSendBufferOffset := mSendBufferOffset + r;
          i := i + 1;
          if mSendBufferOffset == |mSendBuffer| {
            mSendBuffer := [];
            mSendBufferOffset := 0;
            NothingMore(kernel, i, start);
            break;
          }
      }
    }

    /** Reads until the kernel has no more, then takes messages from the buffer until a pass moves nowhere. */
    method OnRead(kernel: seq<ReadResult>, given: seq<R.Reply>) returns (replies: seq<R.Reply>)
      modifies this`mRecvBuffer, this`mError, this`mClosed
      ensures R.Client(replies, mRecvBuffer) == R.Arrive(R.Client(given, old(mRecvBuffer)), Arrived(kernel))
      ensures mError == (old(mError) || ReadEnd(kernel) == ReadError)
      ensures mClosed == (old(mClosed) || ReadEnd(kernel) == Closed)
    {
      ReadAll(kernel);
      ghost var data, error, closed := mRecvBuffer, mError, mClosed;
      var ch: nat, len: nat := 0, |mRecvBuffer|;
      replies := given;
      while len > 0
        invariant mRecvBuffer == data && ch + len == |mRecvBuffer| && mError == error && mClosed == closed
        invariant R.Passes(mRecvBuffer, ch, replies) == R.Passes(mRecvBuffer, 0, given)
      {
        var consumed, more := ProcessMessage(mRecvBuffer, ch, replies);
        OnePass(mRecvBuffer, ch, replies, consumed, more);
        replies := more;
        if consumed == 0 {
          break;
        }
        ch := ch + consumed;
        len := len - consumed;
      }
      PassesAtEnd(data, replies);
      assert R.Passes(data, 0, given) == R.Progress(ch, replies);
      mRecvBuffer := mRecvBuffer[|mRecvBuffer| - len..];
    }

    method ReadAll(kernel: seq<ReadResult>)
      modifies this`mRecvBuffer, this`mError, this`mClosed
      ensures mRecvBuffer == old(mRecvBuffer) + Arrived(kernel)
      ensures mError == (old(mError) || ReadEnd(kernel) == ReadError)
      ensures mClosed == (old(mClosed) || ReadEnd(kernel) == Closed)
    {
      var i := 0;
      assert kernel[0..] == kernel;
      while i < |kernel|
        invariant i <= |kernel|
        invariant mRecvBuffer + Arrived(kernel[i..]) == old(mRecvBuffer) + Arrived(kernel)
        invariant ReadEnd(kernel[i..]) == ReadEnd(kernel) && mError == old(mError) && mClosed == old(mClosed)
      {
        assert kernel[i..][1..] == kernel[i + 1..];
        match kernel[i]
        case NoMore => break;
        case ReadError =>
          mError := true;
          break;
        case Closed =>
          mClosed := true;
          break;
        case Data(bytes) =>
          mRecvBuffer := mRecvBuffer + bytes;
          i := i + 1;
      }
    }
  }

  /** One pass over the buffer from `msg` on, added to what has been given so far: how many bytes are done with. */
  method ProcessMessage(buffer: seq<byte>, msg: nat, given: seq<R.Reply>) returns (ret: nat, replies: seq<R.Reply>)
    requires msg <= |buffer|
    ensures msg + ret <= |buffer| && R.Messages(buffer, msg, given) == R.Progress(msg + ret, replies)
  {
    ret, replies := 0, given;
    while msg + ret < |buffer|
      invariant msg + ret <= |buffer|
      invariant R.Messages(buffer, msg + ret, replies) == R.Messages(buffer, msg, given)
      decreases |buffer| - ret
    {
      var used, at := 0, msg + ret;
      if R.IsSlot(buffer[at]) {
        used := 1;
        replies := replies + [R.Slot(buffer[at])];
      } else if buffer[at] == R.JSON_RESPONSE {
        if at + 4 < |buffer| {
          var msgLen := R.PayloadAt(buffer, at);
          if at + 4 + msgLen < |buffer| {
            used := R.FrameSize(msgLen);
            replies := replies + [R.Response(buffer[at + 5..at + 5 + msgLen])];
          }
        }
      }
      if used > 0 {
        ret := ret + used;
      } else {
        break;
      }
    }
  }

  lemma OnePass(data: seq<byte>, ch: nat, given: seq<R.Reply>, consumed: nat, replies: seq<R.Reply>)
    requires ch + consumed <= |data| && R.Messages(data, ch, given) == R.Progress(ch + consumed, replies)
    ensures R.Passes(data, ch, given) ==
            if consumed == 0 then R.Progress(ch, replies) else R.Passes(data, ch + consumed, replies)
  {}

  lemma PassesAtEnd(data: seq<byte>, replies: seq<R.Reply>)
    ensures R.Passes(data, |data|, replies) == R.Progress(|data|, replies)
  {}

  /** The bytes one round of reads brings in. */
  function Arrived(kernel: seq<ReadResult>): seq<byte> {
    if kernel == [] || !kernel[0].Data? then [] else kernel[0].bytes + Arrived(kernel[1..])
  }

  /** What ends them. */
  function ReadEnd(kernel: seq<ReadResult>): ReadResult {
    if kernel == [] then NoMore else if kernel[0].Data? then ReadEnd(kernel[1..]) else kernel[0]
  }

  /** The bytes a round of writes gets rid of, and what ends it unless everything has been sent. */
  function Grown(kernel: seq<WriteResult>): nat {
    if kernel == [] || !kernel[0].Accepted? then 0 else kernel[0].n + Grown(kernel[1..])
  }

  function WriteEnd(kernel: seq<WriteResult>): WriteResult {
    if kernel == [] then WouldBlock else if kernel[0].Accepted? then WriteEnd(kernel[1..]) else kernel[0]
  }

  /** When everything has been taken, nothing more is. */
  lemma {:induction false} NothingMore(kernel: seq<WriteResult>, i: nat, start: int)
    requires i <= |kernel| && Taken(kernel, i) == start
    requires forall k :: 0 <= k < |kernel| && kernel[k].Accepted? ==> Fits(kernel, k, start)
    ensures Grown(kernel[i..]) == 0
    decreases |kernel| - i
  {
    if i < |kernel| && kernel[i].Accepted? {
      assert Fits(kernel, i, start);
      assert kernel[i..][1..] == kernel[i + 1..];
      NothingMore(kernel, i + 1, start);
    }
  }

  function Taken(kernel: seq<WriteResult>, n: nat): nat
    requires n <= |kernel|
  {
    if n == 0 then 0 else Taken(kernel, n - 1) + if kernel[n - 1].Accepted? then kernel[n - 1].n else 0
  }

  /** The kernel never takes more than it was offered. */
  ghost predicate Fits(kernel: seq<WriteResult>, i: nat, pending: int)
    requires i < |kernel|
  {
    Taken(kernel, i + 1) <= pending
  }

  lemma AppendTail(accepted: seq<byte>, buffer: seq<byte>, offset: nat, bytes: seq<byte>)
    requires offset <= |buffer|
    ensures accepted + (buffer + bytes)[offset..] == accepted + buffer[offset..] + bytes
  {
    assert (buffer + bytes)[offset..] == buffer[offset..] + bytes;
  }

  lemma MoveTail(accepted: seq<byte>, buffer: seq<byte>, offset: nat, r: nat)
    requires offset + r <= |buffer|
    ensures accepted + buffer[offset..] == (accepted + buffer[offset..offset + r]) + buffer[offset + r..]
  {
    assert buffer[offset..] == buffer[offset..offset + r] + buffer[offset + r..];
  }

  lemma Assoc3(q: seq<byte>, a: seq<byte>, b: seq<byte>, c: seq<byte>)
    ensures q + a + b + c == q + (a + b + c)
    ensures c == [] ==> q + a + b == q + (a + b + c)
  {}
}
