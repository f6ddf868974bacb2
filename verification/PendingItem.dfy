/** The builder's end of a cache file: the writer object, and the read loop that answers from a finished file. */
module PendingItem {
  import opened Collections
  import opened Bytes
  import R = PendingWrites
  import DiskFormat

  class PendingItem {
    var file: R.File
    var buffer: Option<seq<R.Chunk>>
    var endCB: bool
    /** Whether the promise of `end` has been resolved. */
    var resolved: bool
    const jsonLength: nat
    ghost var given: seq<R.Chunk>

    ghost function State(): R.Writer
      reads this
    {
      R.Writer(file, buffer, endCB, resolved, false)
    }

    ghost predicate Valid()
      reads this
    {
      R.Inv(State(), given)
    }

    /** The header size and the JSON go first; the stream may refuse either. */
    constructor (json: seq<byte>, first: bool, second: bool)
      requires |json| < TWO_TO_THE_32
      ensures Valid() && given == DiskFormat.Chunks(json, []) && jsonLength == |json|
      ensures !endCB && !resolved && !file.ended
    {
      file, buffer, endCB, resolved, given := R.NEW_FILE, None, false, false, [];
      jsonLength := |json|;
      new;
      Write(U32LE(|json|), first);
      Write(json, second);
    }

    method Write(data: R.Chunk, accepted: bool)
      requires Valid() && !file.ended
      modifies this
      ensures Valid() && State() == R.Write(old(State()), data, accepted) && given == old(given) + [data]
    {
      R.WriteKeepsInv(State(), data, accepted, given);
      given := given + [data];
      WriteOrPush(data, accepted);
    }

    method WriteOrPush(data: R.Chunk, accepted: bool)
      modifies this`file, this`buffer
      ensures State() == R.Write(old(State()), data, accepted)
    {
      if buffer.Some? {
        buffer := Some(buffer.value + [data]);
      } else {
        file := R.FileWrite(file, data, accepted);
        if !accepted { buffer := Some([]); }
      }
    }

    /** Runs when the stream has written everything it took; ends the file and resolves without waiting for what it
        has just sent again. */
    method OnDrain(answers: seq<bool>)
      requires Valid() && R.Enabled(State(), R.DrainEvent(answers))
      modifies this
      ensures Valid() && State() == R.Drain(old(State()), answers) && given == old(given)
    {
      R.DrainKeepsInv(State(), answers, given);
      file := file.(needDrain := false);
      var buf := buffer.value;
      buffer := None;
      WriteAll(buf, answers);
      if buffer.None? && endCB {
        file := file.(ended := true);
        resolved := true;
      }
    }

    /** The forEach of the drain handler. */
    method WriteAll(buf: seq<R.Chunk>, answers: seq<bool>)
      modifies this`file, this`buffer
      ensures State() == R.WriteEach(old(State()), buf, answers)
    {
      ghost var target := R.WriteEach(State(), buf, answers);
      assert buf[0..] == buf && answers[0..] == answers;
      for i := 0 to |buf|
        invariant R.WriteEach(State(), buf[i..], if i <= |answers| then answers[i..] else []) == target
      {
        assert buf[i..][1..] == buf[i + 1..];
        if i < |answers| { assert answers[i..][1..] == answers[i + 1..]; }
        WriteOrPush(buf[i], if i < |answers| then answers[i] else true);
      }
    }

    /** Resolved by the finish or, when there is a buffer, by the drain that empties it. */
    method End()
      requires Valid()
      modifies this
      ensures Valid() && State() == R.End(old(State())) && given == old(given)
    {
      if endCB { return; }
      if buffer.Some? { endCB := true; } else { file := file.(ended := true); }
    }

    method OnFinish()
      requires Valid() && R.Enabled(State(), R.FinishEvent)
      modifies this
      ensures Valid() && State() == R.Step(old(State()), R.FinishEvent) && given == old(given)
      ensures file.flushed == |Flatten(given)|
    {
      resolved := true;
    }
  }

  /** The chain of reads of getFromCache: each callback sends what it read and starts the next. */
  method Work(file: seq<byte>, gunzip: seq<byte> -> Option<seq<byte>>, sendCompressed: bool, pos: nat,
      index: seq<DiskFormat.IndexEntry>, fileIdx: nat)
    returns (sent: seq<seq<byte>>, ok: bool)
    requires fileIdx <= |index|
    ensures DiskFormat.Reply(sent, ok) == DiskFormat.Serve(file, gunzip, sendCompressed, pos, index, fileIdx)
    decreases |index| - fileIdx
  {
    if fileIdx == |index| { return [], true; }
    var read := index[fileIdx].bytes;
    var out := DiskFormat.ReadOne(file, gunzip, sendCompressed, pos, read);
    if out.None? { return [], false; }
    var rest: seq<seq<byte>>;
    rest, ok := Work(file, gunzip, sendCompressed, pos + read, index, fileIdx + 1);
    sent := [out.value] + rest;
    DiskFormat.ServeStep(file, gunzip, sendCompressed, pos, index, fileIdx, out.value, DiskFormat.Reply(rest, ok));
  }

  method GetFromCache(file: seq<byte>, gunzip: seq<byte> -> Option<seq<byte>>, sendCompressed: bool, headerSize: nat,
      index: seq<DiskFormat.IndexEntry>)
    returns (sent: seq<seq<byte>>, ok: bool)
    ensures DiskFormat.Reply(sent, ok) == DiskFormat.Serve(file, gunzip, sendCompressed, 4 + headerSize, index, 0)
  {
    sent, ok := Work(file, gunzip, sendCompressed, 4 + headerSize, index, 0);
  }
}
