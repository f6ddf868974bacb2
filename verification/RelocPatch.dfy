/** Patching a relocatable object: strings are appended, and the addends of matching relocations moved to them. */
module RelocPatch {
  import opened Bytes
  import opened Collections
  import opened StringTable
  import opened DwarfWalk

  const SLASH: byte := 47

  /** Everything before the last slash, or nothing. */
  function Dir(path: seq<byte>): seq<byte> {
    if path == [] then []
    else if path[|path| - 1] == SLASH then path[..|path| - 1]
    else Dir(path[..|path| - 1])
  }

  lemma {:induction false} DirPrefix(path: seq<byte>)
    ensures Dir(path) <= path
    ensures forall b <- Dir(path) :: b in path
  {
    if path != [] && path[|path| - 1] != SLASH { DirPrefix(path[..|path| - 1]); }
  }

  datatype Rename = Rename(oldPath: seq<byte>, newPath: seq<byte>)

  function From(r: Rename, isName: bool): seq<byte> { if isName then r.oldPath else Dir(r.oldPath) }
  function To(r: Rename, isName: bool): seq<byte> { if isName then r.newPath else Dir(r.newPath) }

  /** A directory is renamed only if there is one. */
  predicate Applies(r: Rename, isName: bool, current: seq<byte>) {
    current == From(r, isName) && (isName || current != [])
  }

  /** An entry of .rela.debug_info; section is where its symbol lives. */
  datatype Reloc = Reloc(offset: nat, section: nat, addend: int)
  datatype State = State(strs: seq<byte>, relas: seq<Reloc>, patched: bool)

  /** The entry the inner loop stops at: at the location, into the string section, inside what is there by now. */
  predicate Usable(e: Reloc, strIdx: nat, size: nat, offset: nat) {
    e.offset == offset && e.section == strIdx && 0 <= e.addend < size
  }

  function FirstUsable(relas: seq<Reloc>, strIdx: nat, size: nat, offset: nat): (n: nat)
    ensures n <= |relas| && forall i :: 0 <= i < n ==> !Usable(relas[i], strIdx, size, offset)
    ensures n < |relas| ==> Usable(relas[n], strIdx, size, offset)
  {
    if relas == [] || Usable(relas[0], strIdx, size, offset)
      then 0 else 1 + FirstUsable(relas[1..], strIdx, size, offset)
  }

  function PatchAt(s: State, r: Rename, strIdx: nat, l: AttrLocation): State {
    var i := FirstUsable(s.relas, strIdx, |s.strs|, l.offset);
    if i < |s.relas| && Applies(r, l.isName, CString(s.strs, s.relas[i].addend)) then
      State(Append(s.strs, To(r, l.isName)), s.relas[i := s.relas[i].(addend := |s.strs|)], true)
    else s
  }

  function PatchAll(s: State, r: Rename, strIdx: nat, locs: seq<AttrLocation>): State {
    if locs == [] then s else PatchAt(PatchAll(s, r, strIdx, locs[..|locs| - 1]), r, strIdx, locs[|locs| - 1])
  }

  ghost predicate PathsOk(r: Rename) { 0 !in r.oldPath && 0 !in r.newPath }

  ghost predicate Distinct(locs: seq<AttrLocation>) {
    forall i, j :: 0 <= i < j < |locs| ==> locs[i].offset != locs[j].offset
  }

  /** Entry e has become f: only the addend may differ; if it does, it named the old string and names the new one. */
  ghost predicate Sound(e: Reloc, f: Reloc, strs: seq<byte>, was: nat, r: Rename, strIdx: nat,
      locs: seq<AttrLocation>) {
    f == e ||
    exists l <- locs ::
      && l.offset == e.offset && e.section == strIdx && f == e.(addend := f.addend)
      && 0 <= e.addend < |strs| && was <= f.addend < |strs|
      && Applies(r, l.isName, CString(strs, e.addend)) && CString(strs, f.addend) == To(r, l.isName)
  }

  ghost predicate AllSound(s: State, t: State, r: Rename, strIdx: nat, locs: seq<AttrLocation>) {
    && Terminated(t.strs) && s.strs <= t.strs && |t.relas| == |s.relas|
    && (forall i :: 0 <= i < |s.relas| ==> Sound(s.relas[i], t.relas[i], t.strs, |s.strs|, r, strIdx, locs))
    && (forall i :: 0 <= i < |s.relas| && (forall l <- locs :: l.offset != s.relas[i].offset) ==>
       t.relas[i] == s.relas[i])
  }

  lemma ToHasNoNul(r: Rename, isName: bool)
    requires PathsOk(r)
    ensures 0 !in To(r, isName)
  {
    DirPrefix(r.newPath);
  }

  lemma SoundLater(e: Reloc, f: Reloc, strs: seq<byte>, more: seq<byte>, was: nat, r: Rename, strIdx: nat,
      locs: seq<AttrLocation>, l: AttrLocation)
    requires Terminated(strs) && Sound(e, f, strs, was, r, strIdx, locs)
    ensures Sound(e, f, strs + more, was, r, strIdx, locs + [l])
  {
    if f != e {
      OldOffsetsKept(strs, more, e.addend);
      OldOffsetsKept(strs, more, f.addend);
    }
  }

  /** One location: nothing but the first usable entry there changes, and that one soundly. */
  lemma PatchAtSound(s: State, t: State, r: Rename, strIdx: nat, locs: seq<AttrLocation>, l: AttrLocation)
    requires AllSound(s, t, r, strIdx, locs) && PathsOk(r) && forall k <- locs :: k.offset != l.offset
    ensures AllSound(s, PatchAt(t, r, strIdx, l), r, strIdx, locs + [l])
  {
    var u, n, to := PatchAt(t, r, strIdx, l), FirstUsable(t.relas, strIdx, |t.strs|, l.offset), To(r, l.isName);
    var more := if u == t then [] else to + [0];
    ToHasNoNul(r, l.isName);
    NewOffsetNames(t.strs, to);
    assert u.strs == t.strs + more;
    forall i | 0 <= i < |s.relas| ensures Sound(s.relas[i], u.relas[i], u.strs, |s.strs|, r, strIdx, locs + [l]) {
      SoundLater(s.relas[i], t.relas[i], t.strs, more, |s.strs|, r, strIdx, locs, l);
      if u != t && i == n {
        assert t.relas[i] == s.relas[i];
        OldOffsetsKept(t.strs, more, s.relas[i].addend);
        assert l in locs + [l];
      }
    }
    forall i | 0 <= i < |s.relas| && forall k <- locs + [l] :: k.offset != s.relas[i].offset
      ensures u.relas[i] == s.relas[i] {
      assert l in locs + [l] && forall k <- locs :: k in locs + [l];
    }
  }

  /** Patching appends only, so every old offset names its old string; each entry it moved named the old path or its
      directory and now names the new one; and every other entry is untouched. */
  lemma {:induction false} PatchIsSound(s: State, r: Rename, strIdx: nat, locs: seq<AttrLocation>)
    requires Terminated(s.strs) && PathsOk(r) && Distinct(locs)
    ensures AllSound(s, PatchAll(s, r, strIdx, locs), r, strIdx, locs)
    ensures forall off :: 0 <= off < |s.strs| ==>
              CString(PatchAll(s, r, strIdx, locs).strs, off) == CString(s.strs, off)
  {
    var t := PatchAll(s, r, strIdx, locs);
    if locs != [] {
      var rest, l := locs[..|locs| - 1], locs[|locs| - 1];
      PatchIsSound(s, r, strIdx, rest);
      assert forall k <- rest :: k.offset != l.offset;
      PatchAtSound(s, PatchAll(s, r, strIdx, rest), r, strIdx, rest, l);
      assert locs == rest + [l];
    }
    forall off | 0 <= off < |s.strs| ensures CString(t.strs, off) == CString(s.strs, off) {
      assert t.strs == s.strs + t.strs[|s.strs|..];
      OldOffsetsKept(s.strs, t.strs[|s.strs|..], off);
    }
  }

  /** Relocations into the string section that point inside it, as a linker requires. */
  ghost predicate InRange(s: State, strIdx: nat) {
    forall e <- s.relas :: e.section == strIdx ==> 0 <= e.addend < |s.strs|
  }

  lemma SameFirst(a: seq<Reloc>, b: seq<Reloc>, strIdx: nat, m: nat, n: nat, offset: nat)
    requires |a| == |b| && forall i :: 0 <= i < |a| ==> (Usable(a[i], strIdx, m, offset) <==>
             Usable(b[i], strIdx, n, offset))
    ensures FirstUsable(a, strIdx, m, offset) == FirstUsable(b, strIdx, n, offset)
  {
  }

  lemma StillInRange(s: State, t: State, r: Rename, strIdx: nat, locs: seq<AttrLocation>, offset: nat)
    requires AllSound(s, t, r, strIdx, locs) && InRange(s, strIdx)
    ensures FirstUsable(t.relas, strIdx, |t.strs|, offset) == FirstUsable(s.relas, strIdx, |s.strs|, offset)
  {
    forall i | 0 <= i < |s.relas|
      ensures Usable(s.relas[i], strIdx, |s.strs|, offset) <==> Usable(t.relas[i], strIdx, |t.strs|, offset)
    {
      assert s.relas[i] in s.relas && Sound(s.relas[i], t.relas[i], t.strs, |s.strs|, r, strIdx, locs);
    }
    SameFirst(s.relas, t.relas, strIdx, |s.strs|, |t.strs|, offset);
  }

  /** Nothing that should be renamed is missed: at each location the first entry into the string section is moved
      exactly when it named the old path, or for comp_dir its non-empty directory. */
  lemma {:induction false} RenamesExactly(s: State, r: Rename, strIdx: nat, locs: seq<AttrLocation>, k: nat)
    requires Terminated(s.strs) && PathsOk(r) && Distinct(locs) && InRange(s, strIdx) && k < |locs|
    ensures var n := FirstUsable(s.relas, strIdx, |s.strs|, locs[k].offset);
            n < |s.relas| ==>
              (|PatchAll(s, r, strIdx, locs).relas| == |s.relas| &&
               (PatchAll(s, r, strIdx, locs).relas[n] != s.relas[n] <==>
                 Applies(r, locs[k].isName, CString(s.strs, s.relas[n].addend))))
    decreases |locs|
  {
    var rest, l := locs[..|locs| - 1], locs[|locs| - 1];
    var t := PatchAll(s, r, strIdx, rest);
    var n := FirstUsable(s.relas, strIdx, |s.strs|, locs[k].offset);
    PatchIsSound(s, r, strIdx, rest);
    StillInRange(s, t, r, strIdx, rest, l.offset);
    if k == |locs| - 1 {
      assert forall j <- rest :: j.offset != l.offset;
      if n < |s.relas| { assert t.relas[n] == s.relas[n]; }
    } else {
      RenamesExactly(s, r, strIdx, rest, k);
      assert rest[k].offset != l.offset;
      if n < |s.relas| { assert Sound(s.relas[n], t.relas[n], t.strs, |s.strs|, r, strIdx, rest); }
    }
  }

  // ---- the loops

  /** The inner loop: the first usable entry, as an index. */
  method FindEntry(relas: seq<Reloc>, strIdx: nat, size: nat, offset: nat) returns (i: nat)
    ensures i == FirstUsable(relas, strIdx, size, offset)
  {
    i := 0;
    while i < |relas|
      invariant i <= |relas| && FirstUsable(relas, strIdx, size, offset) ==
                i + FirstUsable(relas[i..], strIdx, size, offset)
    {
      if relas[i].offset == offset && relas[i].section == strIdx && 0 <= relas[i].addend < size { break; }
      assert relas[i..][1..] == relas[i + 1..];
      i := i + 1;
    }
  }

  /** One location. */
  method PatchLocation(s: State, r: Rename, strIdx: nat, oldDir: seq<byte>, newDir: seq<byte>, l: AttrLocation)
    returns (t: State)
    requires oldDir == Dir(r.oldPath) && newDir == Dir(r.newPath)
    ensures t == PatchAt(s, r, strIdx, l)
  {
    t := s;
    var i := FindEntry(s.relas, strIdx, |s.strs|, l.offset);
    if i < |s.relas| {
      var current := CString(s.strs, s.relas[i].addend);
      if l.isName && current == r.oldPath {
        t := State(Append(s.strs, r.newPath), s.relas[i := s.relas[i].(addend := |s.strs|)], true);
      } else if !l.isName && oldDir != [] && current == oldDir {
        t := State(Append(s.strs, newDir), s.relas[i := s.relas[i].(addend := |s.strs|)], true);
      }
    }
  }

  method PatchRelocations(strs: seq<byte>, relas: seq<Reloc>, r: Rename, strIdx: nat, locs: seq<AttrLocation>)
    returns (t: State)
    ensures t == PatchAll(State(strs, relas, false), r, strIdx, locs)
  {
    t := State(strs, relas, false);
    var oldDir, newDir := Dir(r.oldPath), Dir(r.newPath);
    for k := 0 to |locs|
      invariant t == PatchAll(State(strs, relas, false), r, strIdx, locs[..k])
    {
      assert locs[..k + 1][..k] == locs[..k];
      t := PatchLocation(t, r, strIdx, oldDir, newDir, locs[k]);
    }
    assert locs[..|locs|] == locs;
  }

  /** The directory of a path is what is in front of its last slash, and empty without one. */
  lemma {:induction false} DirIs(dir: seq<byte>, base: seq<byte>)
    requires 47 !in base
    ensures Dir(base) == [] && Dir(dir + [47] + base) == dir
    decreases |base|
  {
    var path := dir + [47] + base;
    if base == [] {
      assert path[..|path| - 1] == dir;
    } else {
      DirIs(dir, base[..|base| - 1]);
      assert path[..|path| - 1] == dir + [47] + base[..|base| - 1];
    }
  }

  /** The object is written back exactly when something was moved: then the table has grown, and otherwise nothing has
      changed. */
  lemma {:induction false} WrittenBackIff(s: State, r: Rename, strIdx: nat, locs: seq<AttrLocation>)
    requires !s.patched
    ensures var t := PatchAll(s, r, strIdx, locs);
            if t.patched then |t.strs| > |s.strs| else t == s
    decreases |locs|
  {
    if locs != [] { WrittenBackIff(s, r, strIdx, locs[..|locs| - 1]); }
  }
}
