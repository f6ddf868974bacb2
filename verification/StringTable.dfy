/** A section of NUL-terminated strings: what an offset names, finding a string, and appending one. */
module StringTable {
  import opened Bytes
  import opened Collections

  /** The C string at an offset. */
  function CString(data: seq<byte>, off: nat): seq<byte>
    decreases |data| - off
  {
    if off >= |data| || data[off] == 0 then [] else [data[off]] + CString(data, off + 1)
  }

  ghost predicate Terminated(data: seq<byte>) { data != [] && data[|data| - 1] == 0 }

  function Append(data: seq<byte>, s: seq<byte>): seq<byte> { data + s + [0] }

  /** The patcher's test: the bytes, then a NUL. */
  predicate FoundAt(data: seq<byte>, s: seq<byte>, i: nat) {
    i + |s| < |data| && data[i..i + |s|] == s && data[i + |s|] == 0
  }

  function FindFrom(data: seq<byte>, s: seq<byte>, i: nat): (r: Option<nat>)
    ensures r.Some? ==> r.value >= i && FoundAt(data, s, r.value) && forall j :: i <= j < r.value ==>
            !FoundAt(data, s, j)
    ensures r.None? ==> forall j :: i <= j ==> !FoundAt(data, s, j)
    decreases |data| - i
  {
    if i + |s| >= |data| then None else if FoundAt(data, s, i) then Some(i) else FindFrom(data, s, i + 1)
  }

  function Find(data: seq<byte>, s: seq<byte>): Option<nat> { FindFrom(data, s, 0) }

  lemma {:induction false} CStringIs(data: seq<byte>, off: nat, s: seq<byte>)
    requires 0 !in s
    ensures FoundAt(data, s, off) <==> CString(data, off) == s && off + |s| < |data|
    decreases |s|
  {
    if s != [] {
      CStringIs(data, off + 1, s[1..]);
      if off + |s| < |data| {
        assert data[off..off + |s|] == [data[off]] + data[off + 1..off + |s|];
        assert s == [s[0]] + s[1..];
        if CString(data, off) == s { assert CString(data, off)[1..] == CString(data, off + 1); }
      }
    }
  }

  lemma {:induction false} CStringInside(data: seq<byte>, off: nat)
    requires Terminated(data) && off < |data|
    ensures off + |CString(data, off)| < |data| && 0 !in CString(data, off)
    decreases |data| - off
  {
    if data[off] != 0 { CStringInside(data, off + 1); }
  }

  /** In a terminated table the search gives the first offset that names the string, if any does. */
  lemma FindIsFirst(data: seq<byte>, s: seq<byte>)
    requires Terminated(data) && 0 !in s
    ensures Find(data, s).Some? ==> Find(data, s).value < |data| && CString(data, Find(data, s).value) == s
    ensures forall off :: 0 <= off < |data| && CString(data, off) == s ==>
            Find(data, s).Some? && Find(data, s).value <= off
  {
    if Find(data, s).Some? { CStringIs(data, Find(data, s).value, s); }
    forall off | 0 <= off < |data| && CString(data, off) == s
      ensures Find(data, s).Some? && Find(data, s).value <= off {
      CStringInside(data, off);
      CStringIs(data, off, s);
    }
  }

  lemma FoundIff(data: seq<byte>, s: seq<byte>, off: nat)
    requires Terminated(data) && 0 !in s
    ensures Find(data, s) == Some(off) <==>
            off < |data| && CString(data, off) == s && forall o :: 0 <= o < off ==> CString(data, o) != s
  {
    FindIsFirst(data, s);
  }

  method FindStringInSection(data: seq<byte>, s: seq<byte>) returns (r: Option<nat>)
    ensures r == Find(data, s)
  {
    var i: nat := 0;
    while i + |s| < |data|
      invariant Find(data, s) == FindFrom(data, s, i)
      decreases |data| - i
    {
      if data[i..i + |s|] == s && data[i + |s|] == 0 { return Some(i); }
      i := i + 1;
    }
    return None;
  }

  /** Whatever is put behind a terminated table, its old offsets keep their strings. */
  lemma {:induction false} OldOffsetsKept(data: seq<byte>, more: seq<byte>, off: nat)
    requires Terminated(data) && off < |data|
    ensures CString(data + more, off) == CString(data, off)
    decreases |data| - off
  {
    if data[off] != 0 { OldOffsetsKept(data, more, off + 1); }
  }

  /** And the appended string is what the first new offset names. */
  lemma NewOffsetNames(data: seq<byte>, s: seq<byte>)
    requires 0 !in s
    ensures CString(Append(data, s), |data|) == s && Terminated(Append(data, s))
  {
    assert Append(data, s)[|data|..|data| + |s|] == s;
    CStringIs(Append(data, s), |data|, s);
  }
}
