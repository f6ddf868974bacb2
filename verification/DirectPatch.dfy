/** Patching an object without relocations: the new strings are appended and matching offsets in .debug_info
    rewritten. */
module DirectPatch {
  import opened Bytes
  import opened Collections
  import F = DwarfForms
  import opened Leb128
  import opened DwarfWalk
  import opened StringTable
  import opened RelocPatch

  /** As many bytes as memcpy moves. */
  const WIDTH: nat := 4

  function Read4(info: seq<byte>, off: nat): (n: nat)
    requires off + 4 <= |info|
  {
    F.LoadInside(info, off, WIDTH);
    F.Load(info, off, WIDTH).value
  }

  /** The low four bytes of a value. */
  function Write4(info: seq<byte>, off: nat, v: nat): (r: seq<byte>)
    requires off + 4 <= |info|
    ensures |r| == |info| && forall i :: 0 <= i < |info| && !(off <= i < off + 4) ==> r[i] == info[i]
  {
    info[..off] + F.Little(WIDTH, v) + info[off + WIDTH..]
  }

  lemma ReadWritten(info: seq<byte>, off: nat, v: nat)
    requires off + 4 <= |info| && v < TWO_TO_THE_32
    ensures Read4(Write4(info, off, v), off) == v
  {
    F.Pow256Values();
    F.LoadLittle(Write4(info, off, v), off, WIDTH, v);
  }

  /** The same bytes read the same. */
  lemma SameRead(a: seq<byte>, b: seq<byte>, off: nat)
    requires |a| == |b| && off + 4 <= |a| && forall i :: off <= i < off + 4 ==> a[i] == b[i]
    ensures Read4(a, off) == Read4(b, off)
  {
    F.LoadSame(a, b, off, WIDTH);
  }

  /** The table after appending: the new path, and the new directory if both paths have one and they differ. */
  predicate HasNewDir(r: Rename) { Dir(r.oldPath) != [] && Dir(r.newPath) != [] && Dir(r.oldPath) != Dir(r.newPath) }

  function NewStrs(strs: seq<byte>, r: Rename): seq<byte> {
    var named := Append(strs, r.newPath);
    if HasNewDir(r) then Append(named, Dir(r.newPath)) else named
  }

  function NewOffset(strs: seq<byte>, r: Rename, isName: bool): nat {
    if isName then |strs| else |strs| + |r.newPath| + 1
  }

  /** The one offset that is rewritten: the first that names the old string, the directory being looked for in the new
      table. There is none, for a directory either, unless the old path is in the table. */
  function OldOffset(strs: seq<byte>, r: Rename, isName: bool): Option<nat> {
    if Find(strs, r.oldPath).None? then None
    else if isName then Find(strs, r.oldPath)
    else if HasNewDir(r) then Find(NewStrs(strs, r), Dir(r.oldPath))
    else None
  }

  predicate Matches(info: seq<byte>, strs: seq<byte>, r: Rename, l: AttrLocation)
    requires l.offset + 4 <= |info|
  {
    OldOffset(strs, r, l.isName) == Some(Read4(info, l.offset))
  }

  function PatchOne(info: seq<byte>, strs: seq<byte>, r: Rename, l: AttrLocation): (i: seq<byte>)
    requires l.offset + 4 <= |info|
    ensures |i| == |info|
  {
    if Matches(info, strs, r, l) then Write4(info, l.offset, NewOffset(strs, r, l.isName)) else info
  }

  ghost predicate Inside(locs: seq<AttrLocation>, size: nat) { forall l <- locs :: l.offset + 4 <= size }

  function PatchInfo(info: seq<byte>, strs: seq<byte>, r: Rename, locs: seq<AttrLocation>): (i: seq<byte>)
    requires Inside(locs, |info|)
    ensures |i| == |info|
    decreases |locs|
  {
    if locs == [] then info
    else PatchOne(PatchInfo(info, strs, r, locs[..|locs| - 1]), strs, r, locs[|locs| - 1])
  }

  /** The two sections the patcher writes back. */
  datatype Sections = Sections(info: seq<byte>, strs: seq<byte>)

  /** What it makes of them: nothing at all without attributes, or when the old path is not in the table. */
  function Patched(info: seq<byte>, strs: seq<byte>, r: Rename, locs: seq<AttrLocation>): (s: Sections)
    requires Inside(locs, |info|)
    ensures |s.info| == |info|
  {
    if locs == [] || Find(strs, r.oldPath).None? then Sections(info, strs)
    else Sections(PatchInfo(info, strs, r, locs), NewStrs(strs, r))
  }

  lemma {:induction false} NothingRewritten(info: seq<byte>, strs: seq<byte>, r: Rename, locs: seq<AttrLocation>)
    requires Inside(locs, |info|) && Find(strs, r.oldPath).None?
    ensures PatchInfo(info, strs, r, locs) == info
    decreases |locs|
  {
    if locs != [] { NothingRewritten(info, strs, r, locs[..|locs| - 1]); }
  }

  /** As nothing matches when the old path is not in the table, the loop would change nothing either. */
  lemma PatchedInfo(info: seq<byte>, strs: seq<byte>, r: Rename, locs: seq<AttrLocation>)
    requires Inside(locs, |info|)
    ensures Patched(info, strs, r, locs).info == PatchInfo(info, strs, r, locs)
  {
    if Find(strs, r.oldPath).None? { NothingRewritten(info, strs, r, locs); }
  }

  ghost predicate Apart(locs: seq<AttrLocation>) {
    forall i, j :: 0 <= i < j < |locs| ==> locs[i].offset + 4 <= locs[j].offset
  }

  ghost predicate InWindow(locs: seq<AttrLocation>, i: nat) { exists l <- locs :: l.offset <= i < l.offset + 4 }

  lemma {:induction false} LoopTouches(info: seq<byte>, strs: seq<byte>, r: Rename, locs: seq<AttrLocation>, i: nat)
    requires Inside(locs, |info|) && i < |info| && !InWindow(locs, i)
    ensures PatchInfo(info, strs, r, locs)[i] == info[i]
    decreases |locs|
  {
    if locs != [] {
      var rest, l := locs[..|locs| - 1], locs[|locs| - 1];
      assert l in locs && forall k <- rest :: k in locs;
      LoopTouches(info, strs, r, rest, i);
    }
  }

  /** No byte outside the attributes' offsets changes. */
  lemma OthersUntouched(info: seq<byte>, strs: seq<byte>, r: Rename, locs: seq<AttrLocation>, i: nat)
    requires Inside(locs, |info|) && i < |info| && !InWindow(locs, i)
    ensures Patched(info, strs, r, locs).info[i] == info[i]
  {
    LoopTouches(info, strs, r, locs, i);
  }

  lemma LaterKeeps(info: seq<byte>, strs: seq<byte>, r: Rename, l: AttrLocation, off: nat)
    requires l.offset + 4 <= |info| && off + 4 <= l.offset
    ensures Read4(PatchOne(info, strs, r, l), off) == Read4(info, off)
  {
    SameRead(PatchOne(info, strs, r, l), info, off);
  }

  lemma EarlierKeep(info: seq<byte>, strs: seq<byte>, r: Rename, locs: seq<AttrLocation>, off: nat)
    requires Inside(locs, |info|) && off + 4 <= |info| && forall l <- locs :: l.offset + 4 <= off
    ensures Read4(PatchInfo(info, strs, r, locs), off) == Read4(info, off)
  {
    var after := PatchInfo(info, strs, r, locs);
    forall i | off <= i < off + 4 ensures after[i] == info[i] {
      LoopTouches(info, strs, r, locs, i);
    }
    SameRead(after, info, off);
  }

  lemma PatchedOne(before: seq<byte>, info: seq<byte>, strs: seq<byte>, r: Rename, l: AttrLocation)
    requires |before| == |info| && l.offset + 4 <= |info| && Read4(before, l.offset) == Read4(info, l.offset)
    requires |NewStrs(strs, r)| <= TWO_TO_THE_32
    ensures Read4(PatchOne(before, strs, r, l), l.offset) ==
            if Matches(info, strs, r, l) then NewOffset(strs, r, l.isName) else Read4(info, l.offset)
  {
    if Matches(info, strs, r, l) { ReadWritten(before, l.offset, NewOffset(strs, r, l.isName)); }
  }

  lemma {:induction false} LoopRewrites(info: seq<byte>, strs: seq<byte>, r: Rename, locs: seq<AttrLocation>, k: nat)
    requires Inside(locs, |info|) && Apart(locs) && k < |locs| && locs[k].offset + 4 <= |info|
    requires |NewStrs(strs, r)| <= TWO_TO_THE_32
    ensures Read4(PatchInfo(info, strs, r, locs), locs[k].offset) ==
            if Matches(info, strs, r, locs[k]) then NewOffset(strs, r, locs[k].isName) else Read4(info, locs[k].offset)
    decreases |locs|
  {
    var rest, last := locs[..|locs| - 1], locs[|locs| - 1];
    var before := PatchInfo(info, strs, r, rest);
    if k < |rest| {
      assert rest[k] == locs[k];
      LoopRewrites(info, strs, r, rest, k);
      LaterKeeps(before, strs, r, last, locs[k].offset);
    } else {
      EarlierKeep(info, strs, r, rest, last.offset);
      PatchedOne(before, info, strs, r, last);
    }
  }

  /** Each attribute is rewritten exactly when the old path is in the table and it held the one old offset, and then to
      the new one. */
  lemma RewrittenIff(info: seq<byte>, strs: seq<byte>, r: Rename, locs: seq<AttrLocation>, k: nat)
    requires Inside(locs, |info|) && Apart(locs) && k < |locs| && locs[k].offset + 4 <= |info|
    requires |Patched(info, strs, r, locs).strs| <= TWO_TO_THE_32
    ensures Read4(Patched(info, strs, r, locs).info, locs[k].offset) ==
            if Matches(info, strs, r, locs[k]) then NewOffset(strs, r, locs[k].isName) else Read4(info, locs[k].offset)
    ensures Matches(info, strs, r, locs[k]) ==>
              Find(strs, r.oldPath).Some? && Patched(info, strs, r, locs).strs == NewStrs(strs, r)
  {
    if Find(strs, r.oldPath).Some? { LoopRewrites(info, strs, r, locs, k); }
  }

  /** What a rewrite means: old and new offset name the old and the new path, or directory, in the new table, in which
      every old offset still names what it did. */
  lemma RewriteMeans(strs: seq<byte>, r: Rename, isName: bool)
    requires Terminated(strs) && PathsOk(r) && OldOffset(strs, r, isName).Some?
    ensures CString(NewStrs(strs, r), OldOffset(strs, r, isName).value) == From(r, isName)
    ensures CString(NewStrs(strs, r), NewOffset(strs, r, isName)) == To(r, isName)
  {
    if isName {
      FindIsFirst(strs, r.oldPath);
      NewStrsKept(strs, r, OldOffset(strs, r, true).value);
    } else {
      DirMeans(strs, r);
    }
  }

  lemma DirMeans(strs: seq<byte>, r: Rename)
    requires Terminated(strs) && PathsOk(r) && HasNewDir(r) && Find(NewStrs(strs, r), Dir(r.oldPath)).Some?
    ensures CString(NewStrs(strs, r), Find(NewStrs(strs, r), Dir(r.oldPath)).value) == Dir(r.oldPath)
    ensures CString(NewStrs(strs, r), NewOffset(strs, r, false)) == Dir(r.newPath)
  {
    DirPrefix(r.oldPath);
    DirPrefix(r.newPath);
    NewStrsKept(strs, r, 0);
    FindIsFirst(NewStrs(strs, r), Dir(r.oldPath));
    NewOffsetNames(Append(strs, r.newPath), Dir(r.newPath));
  }

  lemma NewStrsKept(strs: seq<byte>, r: Rename, off: nat)
    requires Terminated(strs) && PathsOk(r)
    ensures off < |strs| ==> CString(NewStrs(strs, r), off) == CString(strs, off)
    ensures Terminated(NewStrs(strs, r)) && strs <= NewStrs(strs, r)
    ensures CString(NewStrs(strs, r), |strs|) == r.newPath
  {
    var named := Append(strs, r.newPath);
    NewOffsetNames(strs, r.newPath);
    assert named == strs + (r.newPath + [0]);
    if off < |strs| { OldOffsetsKept(strs, r.newPath + [0], off); }
    if HasNewDir(r) {
      assert NewStrs(strs, r) == named + (Dir(r.newPath) + [0]);
      if off < |strs| { OldOffsetsKept(named, Dir(r.newPath) + [0], off); }
      OldOffsetsKept(named, Dir(r.newPath) + [0], |strs|);
    }
  }

  /** The attribute holds another offset afterwards. */
  ghost predicate Changed(info: seq<byte>, strs: seq<byte>, r: Rename, locs: seq<AttrLocation>, k: nat)
    requires Inside(locs, |info|) && k < |locs| && locs[k].offset + 4 <= |info|
  {
    Read4(Patched(info, strs, r, locs).info, locs[k].offset) != Read4(info, locs[k].offset)
  }

  lemma ChangedIff(info: seq<byte>, strs: seq<byte>, r: Rename, locs: seq<AttrLocation>, k: nat)
    requires Inside(locs, |info|) && Apart(locs) && k < |locs| && locs[k].offset + 4 <= |info|
    requires Terminated(strs) && PathsOk(r) && |Patched(info, strs, r, locs).strs| <= TWO_TO_THE_32
    ensures Changed(info, strs, r, locs, k) <==> Matches(info, strs, r, locs[k])
  {
    RewrittenIff(info, strs, r, locs, k);
    if Matches(info, strs, r, locs[k]) { OffsetsDiffer(strs, r, locs[k].isName); }
  }

  /** So an attribute that names the old path is renamed exactly when it does so by the first offset that does: a second
      copy of the path in the table is missed. */
  lemma RenamedIffFirst(info: seq<byte>, strs: seq<byte>, r: Rename, locs: seq<AttrLocation>, k: nat)
    requires Inside(locs, |info|) && Apart(locs) && k < |locs| && locs[k].offset + 4 <= |info|
    requires Terminated(strs) && PathsOk(r) && |Patched(info, strs, r, locs).strs| <= TWO_TO_THE_32
    requires locs[k].isName
    ensures Changed(info, strs, r, locs, k) <==>
            var off := Read4(info, locs[k].offset);
            && off < |strs| && CString(strs, off) == r.oldPath
            && forall o :: 0 <= o < off ==> CString(strs, o) != r.oldPath
  {
    ChangedIff(info, strs, r, locs, k);
    FoundIff(strs, r.oldPath, Read4(info, locs[k].offset));
  }

  /** A directory is renamed exactly when the old path is in the table, both paths have a directory, these differ, and
      the attribute names the old one by the first offset that does in the table that already has the new strings. */
  lemma DirRenamedIffFirst(info: seq<byte>, strs: seq<byte>, r: Rename, locs: seq<AttrLocation>, k: nat)
    requires Inside(locs, |info|) && Apart(locs) && k < |locs| && locs[k].offset + 4 <= |info|
    requires Terminated(strs) && PathsOk(r) && |Patched(info, strs, r, locs).strs| <= TWO_TO_THE_32
    requires !locs[k].isName
    ensures Changed(info, strs, r, locs, k) <==>
            var off, table, dir := Read4(info, locs[k].offset), NewStrs(strs, r), Dir(r.oldPath);
            && Find(strs, r.oldPath).Some? && HasNewDir(r)
            && off < |table| && CString(table, off) == dir && forall o :: 0 <= o < off ==> CString(table, o) != dir
  {
    ChangedIff(info, strs, r, locs, k);
    NewStrsKept(strs, r, 0);
    DirPrefix(r.oldPath);
    FoundIff(NewStrs(strs, r), Dir(r.oldPath), Read4(info, locs[k].offset));
  }

  /** A unit whose directory is in the table and whose path is not, as when its name is of form line_strp: both paths
      have a directory, these differ, and the attribute names the old one first; yet nothing is patched. */
  lemma DirKeptExample()
    ensures var info: seq<byte>, strs: seq<byte> := [0, 0, 0, 0], [97, 0];
            var r, locs := Rename([97, 47, 98], [99, 47, 98]), [AttrLocation(0, false)];
            && Inside(locs, |info|) && HasNewDir(r)
            && Find(NewStrs(strs, r), Dir(r.oldPath)) == Some(Read4(info, 0))
            && Patched(info, strs, r, locs) == Sections(info, strs)
  {
    var info: seq<byte>, strs: seq<byte> := [0, 0, 0, 0], [97, 0];
    var r := Rename([97, 47, 98], [99, 47, 98]);
    var dir: seq<byte> := [97];
    assert Dir(r.oldPath) == dir by { assert r.oldPath[..2][..1] == dir; }
    assert Dir(r.newPath) == [99] by { assert r.newPath[..2][..1] == [99]; }
    var table := NewStrs(strs, r);
    assert table[0] == 97 && table[1] == 0 && |table| > 2;
    assert FoundAt(table, dir, 0) by { assert table[0..1] == dir; }
    assert Read4(info, 0) == 0 by { ReadZero(info); }
  }

  lemma ReadZero(info: seq<byte>)
    requires info == [0, 0, 0, 0]
    ensures Read4(info, 0) == 0
  {
    assert At(info, 0, F.Little(WIDTH, 0)) by { assert F.Little(3, 0) == [0, 0, 0]; }
    F.Pow256Values();
    F.LoadLittle(info, 0, WIDTH, 0);
  }

  // ---- the table an attribute's offset is for

  /** Location k still holds what it held, or it named the old path, or directory, in its own table and now names the
      new one there. A line_strp attribute's table is .debug_line_str, which is not patched. */
  ghost predicate SoundAt(info: seq<byte>, strs: seq<byte>, lineStrs: seq<byte>, r: Rename, locs: seq<AttrLocation>,
      k: nat, line: bool)
    requires Inside(locs, |info|) && k < |locs| && locs[k].offset + 4 <= |info|
  {
    var after := Patched(info, strs, r, locs);
    var table := if line then lineStrs else after.strs;
    var before, after := Read4(info, locs[k].offset), Read4(after.info, locs[k].offset);
    before == after
    || (CString(table, before) == From(r, locs[k].isName) && CString(table, after) == To(r, locs[k].isName))
  }

  lemma OffsetsDiffer(strs: seq<byte>, r: Rename, isName: bool)
    requires Terminated(strs) && PathsOk(r) && OldOffset(strs, r, isName).Some?
    ensures OldOffset(strs, r, isName).value != NewOffset(strs, r, isName)
    ensures isName || To(r, isName) != []
  {
    RewriteMeans(strs, r, isName);
    FindIsFirst(strs, r.oldPath);
  }

  /** The location itself does not say which table its offset is for, and the patcher does not ask: what it does is
      right unless the old path is in .debug_str and a line_strp attribute holds the one number that is then rewritten
      (which `Matches` says). */
  lemma SoundIff(info: seq<byte>, strs: seq<byte>, lineStrs: seq<byte>, r: Rename, locs: seq<AttrLocation>, k: nat,
      line: bool)
    requires Inside(locs, |info|) && Apart(locs) && k < |locs| && locs[k].offset + 4 <= |info|
    requires Terminated(strs) && PathsOk(r) && r.newPath != []
    requires |lineStrs| <= |strs| && |Patched(info, strs, r, locs).strs| <= TWO_TO_THE_32
    ensures SoundAt(info, strs, lineStrs, r, locs, k, line) <==> (line ==> !Matches(info, strs, r, locs[k]))
  {
    RewrittenIff(info, strs, r, locs, k);
    if Matches(info, strs, r, locs[k]) {
      RewriteMeans(strs, r, locs[k].isName);
      OffsetsDiffer(strs, r, locs[k].isName);
      assert CString(lineStrs, NewOffset(strs, r, locs[k].isName)) == [];
    }
  }

  /** A line_strp attribute that holds the right number is rewritten although it names another string in its own
      table. */
  lemma LineStrpExample()
    ensures var info: seq<byte>, strs: seq<byte>, lineStrs: seq<byte> := [0, 0, 0, 0], [111, 0], [120, 0];
            var r, l := Rename([111], [110]), AttrLocation(0, true);
            && WalkValues(More(Pair(NAME, F.LINE_STRP), Done), info, 0, 8, 4) == Found([l])
            && Matches(info, strs, r, l) && CString(lineStrs, Read4(info, 0)) == [120]
  {
    var info: seq<byte>, strs: seq<byte>, lineStrs: seq<byte> := [0, 0, 0, 0], [111, 0], [120, 0];
    assert FoundAt(strs, [111], 0);
    assert CString(lineStrs, 1) == [];
    assert WalkValues(Done, info, 4, 8, 4) == Found([]);
    ReadZero(info);
  }

  // ---- the loop

  lemma PatchInfoNext(info: seq<byte>, strs: seq<byte>, r: Rename, locs: seq<AttrLocation>, k: nat)
    requires Inside(locs, |info|) && k < |locs|
    ensures Inside(locs[..k], |info|) && Inside(locs[..k + 1], |info|) && locs[k].offset + 4 <= |info|
    ensures PatchInfo(info, strs, r, locs[..k + 1]) == PatchOne(PatchInfo(info, strs, r, locs[..k]), strs, r, locs[k])
  {
    assert locs[..k + 1][..k] == locs[..k] && locs[k] in locs;
  }

  /** One round of the loop. */
  method PatchLocation(info: seq<byte>, strs: seq<byte>, strs': seq<byte>, r: Rename, oldOffset: Option<nat>,
      newDirOffset: Option<nat>, l: AttrLocation) returns (info': seq<byte>)
    requires l.offset + 4 <= |info| && strs' == NewStrs(strs, r)
    requires oldOffset.Some? && oldOffset == Find(strs, r.oldPath)
    requires newDirOffset == if HasNewDir(r) then Some(NewOffset(strs, r, false)) else None
    ensures info' == PatchOne(info, strs, r, l)
  {
    info' := info;
    var oldDir := Dir(r.oldPath);
    var currentOffset := Read4(info, l.offset);
    if l.isName && Some(currentOffset) == oldOffset {
      info' := Write4(info, l.offset, |strs|);
    } else if !l.isName && oldDir != [] {
      var oldDirOffset := FindStringInSection(strs', oldDir);
      if Some(currentOffset) == oldDirOffset && newDirOffset.Some? {
        info' := Write4(info, l.offset, newDirOffset.value);
      }
    }
  }

  method PatchDirect(info: seq<byte>, strs: seq<byte>, r: Rename, locs: seq<AttrLocation>)
    returns (info': seq<byte>, strs': seq<byte>)
    requires Inside(locs, |info|)
    ensures Sections(info', strs') == Patched(info, strs, r, locs)
  {
    info', strs' := info, strs;
    if locs == [] { return; }
    var oldOffset := FindStringInSection(strs, r.oldPath);
    if oldOffset.None? { return; }
    var newStrOffset := |strs|;
    var oldDir, newDir := Dir(r.oldPath), Dir(r.newPath);
    var newDirOffset: Option<nat> := None;
    strs' := Append(strs', r.newPath);
    if oldDir != [] && newDir != [] && oldDir != newDir {
      newDirOffset := Some(newStrOffset + |r.newPath| + 1);
      strs' := Append(strs', newDir);
    }
    info' := PatchEach(info, strs, strs', r, oldOffset, newDirOffset, locs);
  }

  method PatchEach(info: seq<byte>, strs: seq<byte>, strs': seq<byte>, r: Rename, oldOffset: Option<nat>,
      newDirOffset: Option<nat>, locs: seq<AttrLocation>) returns (info': seq<byte>)
    requires Inside(locs, |info|) && oldOffset.Some? && oldOffset == Find(strs, r.oldPath) && strs' == NewStrs(strs, r)
    requires newDirOffset == if HasNewDir(r) then Some(NewOffset(strs, r, false)) else None
    ensures info' == PatchInfo(info, strs, r, locs)
  {
    info' := info;
    for k := 0 to |locs|
      invariant Inside(locs[..k], |info|) && info' == PatchInfo(info, strs, r, locs[..k])
    {
      PatchInfoNext(info, strs, r, locs, k);
      info' := PatchLocation(info', strs, strs', r, oldOffset, newDirOffset, locs[k]);
    }
    assert locs[..|locs|] == locs;
  }
}
