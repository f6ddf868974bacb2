/** The daemon's receive buffer: the chunks as they arrived, and how much of the first is used up. */
module ClientBuffer {
  import opened Bytes
  import opened Collections

  class Buffer {
    var buffers: seq<seq<byte>>
    var offset: nat

    /** Chunks are never empty and the first is never used up. */
    ghost predicate Valid()
      reads this
    {
      && (forall i :: 0 <= i < |buffers| ==> buffers[i] != [])
      && (if buffers == [] then offset == 0 else offset < |buffers[0]|)
    }

    /** The bytes received and not yet read. */
    ghost function Contents(): seq<byte>
      requires Valid()
      reads this
    {
      Flatten(buffers)[offset..]
    }

    constructor ()
      ensures Valid() && Contents() == []
    {
      buffers, offset := [], 0;
    }

    method Available() returns (n: nat)
      requires Valid()
      ensures n == |Contents()|
    {
      var total := 0;
      for i := 0 to |buffers|
        invariant total == |Flatten(buffers[..i])|
      {
        assert buffers[..i + 1] == buffers[..i] + [buffers[i]];
        FlattenAppend(buffers[..i], [buffers[i]]);
        FlattenOne(buffers[i]);
        total := total + |buffers[i]|;
      }
      assert buffers[..|buffers|] == buffers;
      return total - offset;
    }

    method Write(chunk: seq<byte>)
      requires Valid() && chunk != []
      modifies this`buffers
      ensures Valid() && Contents() == old(Contents()) + chunk
    {
      FlattenAppend(buffers, [chunk]);
      FlattenOne(chunk);
      buffers := buffers + [chunk];
    }

    /** The next byte, or nothing when there is none. */
    method Peek() returns (b: Option<byte>)
      requires Valid()
      ensures b == if Contents() == [] then None else Some(Contents()[0])
    {
      var available := Available();
      if available == 0 {
        return None;
      }
      return Some(buffers[0][offset]);
    }

    /** The next `len` bytes, or nothing (and no change) when there are not that many. */
    method Read(len: nat) returns (r: Option<seq<byte>>)
      requires Valid()
      modifies this
      ensures Valid()
      ensures r.Some? <==> 0 < len <= |old(Contents())|
      ensures r.Some? ==> r.value == old(Contents())[..len] && Contents() == old(Contents())[len..]
      ensures r.None? ==> buffers == old(buffers) && offset == old(offset)
    {
      if len == 0 {
        return None;
      }
      var available := Available();
      if len > available {
        return None;
      }
      assert Flatten(buffers) == buffers[0] + Flatten(buffers[1..]);
      if |buffers[0]| - offset >= len {
        var buf := buffers[0];
        if |buf| - offset == len {
          var ret := if offset != 0 then buf[offset..] else buf;
          offset := 0;
          buffers := buffers[1..];
          assert ret == old(Contents())[..len];
          assert Contents() == old(Contents())[len..];
          return Some(ret);
        }
        var ret := buf[offset..offset + len];
        offset := offset + len;
        return Some(ret);
      }
      r := ReadAcross(len);
    }

    /** The case that spans several chunks, copied into one array. */
    method ReadAcross(len: nat) returns (r: Option<seq<byte>>)
      requires Valid() && buffers != [] && |buffers[0]| - offset < len <= |Contents()|
      modifies this
      ensures Valid() && r == Some(old(Contents())[..len]) && Contents() == old(Contents())[len..]
    {
      ghost var was := Contents();
      var ret := new byte[len];
      var retOffset := |buffers[0]| - offset;
      CopyInto(ret, 0, buffers[0][offset..]);
      DropHead(buffers[0], offset, Flatten(buffers[1..]));
      offset := 0;
      buffers := buffers[1..];
      while retOffset < len
        invariant Valid() && retOffset <= len == ret.Length
        invariant retOffset < len ==> offset == 0
        invariant was == ret[..retOffset] + Contents()
        decreases len - retOffset
      {
        ghost var done, contents := ret[..retOffset], Contents();
        assert |was| == retOffset + |contents|;
        var n := TakeChunk(ret, retOffset);
        SplitHead(was, done, contents, n);
        assert ret[..retOffset + n] == done + contents[..n];
        retOffset := retOffset + n;
      }
      r := Some(ret[..]);
      assert ret[..] == ret[..len];
    }

    /** Copies the first chunk, or as much of it as is still wanted. */
    method TakeChunk(ret: array<byte>, retOffset: nat) returns (n: nat)
      requires Valid() && offset == 0 && retOffset < ret.Length && |Contents()| >= ret.Length - retOffset
      modifies this, ret
      ensures Valid() && 0 < n <= ret.Length - retOffset && (n < ret.Length - retOffset ==> offset == 0)
      ensures n <= |old(Contents())| && Contents() == old(Contents())[n..]
      ensures ret[..retOffset] == old(ret[..retOffset]) && ret[retOffset..retOffset + n] == old(Contents())[..n]
    {
      var needed := ret.Length - retOffset;
      assert Contents() == Flatten(buffers);
      var buf := buffers[0];
      DropHead(buf, if |buf| <= needed then |buf| else needed, Flatten(buffers[1..]));
      if |buf| <= needed {
        CopyInto(ret, retOffset, buf);
        n := |buf|;
        buffers := buffers[1..];
      } else {
        CopyInto(ret, retOffset, buf[..needed]);
        n := needed;
        offset := needed;
      }
    }
  }

  /** `source.copy(target, at)`. */
  method CopyInto(target: array<byte>, at: nat, source: seq<byte>)
    requires at + |source| <= target.Length
    modifies target
    ensures target[..at] == old(target[..at]) && target[at..at + |source|] == source
    ensures target[at + |source|..] == old(target[at + |source|..])
  {
    forall i | 0 <= i < |source| {
      target[at + i] := source[i];
    }
  }

  lemma FlattenOne(chunk: seq<byte>)
    ensures Flatten([chunk]) == chunk
  {
    assert [chunk][1..] == [];
    assert chunk + [] == chunk;
  }

  lemma DropHead(buf: seq<byte>, n: nat, rest: seq<byte>)
    requires n <= |buf|
    ensures (buf + rest)[n..] == buf[n..] + rest
    ensures (buf + rest)[..n] == buf[..n]
    ensures n == |buf| ==> buf[n..] + rest == rest && buf[..n] == buf
  {}

  lemma SplitHead(was: seq<byte>, done: seq<byte>, contents: seq<byte>, n: nat)
    requires was == done + contents && n <= |contents|
    ensures was == (done + contents[..n]) + contents[n..]
  {}
}
