/** One client connection of the daemon: bytes in by chunks, events out; and frames back to the client. */
module DaemonCompile {
  import opened Bytes
  import opened Collections
  import ClientBuffer
  import ReplyWire
  import opened Wire

  class Compile {
    var messageLength: nat
    var pid: nat
    const buffer: ClientBuffer.Buffer
    const parses: seq<byte> -> bool
    /** What has been written back to the client. */
    var written: seq<byte>

    ghost predicate Valid()
      reads this, buffer
    {
      buffer.Valid()
    }

    ghost function Parser(): Wire.Parser
      requires Valid()
      reads this, buffer
    {
      Wire.Parser(pid, messageLength, buffer.Contents())
    }

    constructor (parses: seq<byte> -> bool)
      ensures Valid() && fresh(buffer) && Parser() == Wire.FRESH && this.parses == parses && written == []
    {
      messageLength, pid, written := 0, 0, [];
      buffer := new ClientBuffer.Buffer();
      this.parses := parses;
    }

    /** A chunk has arrived: emits what it completes. */
    method OnData(data: seq<byte>) returns (events: seq<Message>, status: Status)
      requires Valid() && data != []
      modifies this`messageLength, this`pid, buffer
      ensures Valid()
      ensures Fed(Parser(), events, status) == Feed(parses, old(Parser()), data)
    {
      events, status := [], Open;
      buffer.Write(data);
      var available := buffer.Available();
      if pid == 0 {
        if available < 4 {
          return;
        }
        var pidBuffer := buffer.Read(4);
        available := available - 4;
        pid := ReadU32BE(pidBuffer.value);
      }
      events, status := Drain(available);
    }

    /** A slot code, or a JSON reply; a reply too long for its header is not written at all. */
    method Send(message: ReplyWire.Reply)
      modifies this`written
      ensures written == old(written) + ReplyWire.Encode(message)
    {
      match message
      case Slot(code) =>
        written := written + [code];
      case Response(payload) =>
        if |payload| >= TWO_TO_THE_32 {
          assert written + [] == written;
          return;
        }
        var header := [ReplyWire.JSON_RESPONSE] + U32BE(|payload|);
        assert written + header + payload == written + (header + payload);
        written := written + header;
        written := written + payload;
    }

    /** The loop that emits one message at a time. */
    method Drain(available0: nat) returns (events: seq<Message>, status: Status)
      requires Valid() && available0 == |buffer.Contents()|
      modifies this`messageLength, buffer
      ensures Valid()
      ensures Outcome(messageLength, buffer.Contents(), events, status) ==
              Loop(parses, old(messageLength), old(buffer.Contents()))
    {
      ghost var whole := Loop(parses, messageLength, buffer.Contents());
      var available := available0;
      events, status := [], Open;
      while available > 0
        invariant Valid() && available == |buffer.Contents()| && status == Open
        invariant whole == Prefixed(events, Loop(parses, messageLength, buffer.Contents()))
        decreases available
      {
        ghost var held := buffer.Contents();
        if messageLength == 0 {
          var b := buffer.Peek();
          if IsCommand(b.value) {
            var _ := buffer.Read(1);
            available := available - 1;
            PrefixedEmit(events, Command(b.value), Loop(parses, 0, held[1..]));
            events := events + [Command(b.value)];
            continue;
          } else if b.value == JSON_CODE {
            if available >= 5 {
              var _ := buffer.Read(1);
              var lengthBuffer := buffer.Read(4);
              messageLength := ReadU32BE(lengthBuffer.value);
              available := available - 5;
              assert held[1..][..4] == held[1..5] && held[1..][4..] == held[5..];
            }
          } else {
            status := Crashed;
            break;
          }
        }
        if messageLength == 0 || messageLength > available {
          break;
        }
        var raw := buffer.Read(messageLength);
        available := available - messageLength;
        messageLength := 0;
        if parses(raw.value) {
          PrefixedEmit(events, Json(raw.value), Loop(parses, 0, buffer.Contents()));
          events := events + [Json(raw.value)];
        } else {
          status := Destroyed;
          break;
        }
      }
    }
  }

  function Prefixed(events: seq<Message>, o: Outcome): Outcome {
    o.(events := events + o.events)
  }

  lemma PrefixedEmit(events: seq<Message>, m: Message, o: Outcome)
    ensures Prefixed(events, Emit(m, o)) == Prefixed(events + [m], o)
  {
    assert events + ([m] + o.events) == (events + [m]) + o.events;
  }
}
