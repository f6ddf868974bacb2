/** The search and the two ways of patching together: what an encoder's unit says before and after. */
module DwarfPatch {
  import opened Bytes
  import opened Collections
  import opened Leb128
  import F = DwarfForms
  import opened DwarfWalk
  import opened StringTable
  import opened RelocPatch
  import opened DirectPatch

  /** An encoder's unit without payloads of blocks in its first DIE, so that the search finds its attributes. */
  ghost predicate Plain(info: seq<byte>, abbrev: seq<byte>, u: Unit, entries: seq<Abbrev>, k: nat,
      values: seq<F.Value>) {
    Encodes(info, abbrev, u, entries, k, values) && NoPayload(values)
  }

  /** The places the search finds. */
  function PlacesOf(u: Unit, entries: seq<Abbrev>, k: nat, values: seq<F.Value>): seq<AttrLocation>
    requires k < |entries| && |entries[k].specs| == |values|
  {
    Expected(entries[k].specs, values, Start(u, entries, k))
  }

  /** The form of the i-th of them. */
  predicate IsLine(entries: seq<Abbrev>, k: nat, i: nat)
    requires k < |entries| && i < CountWanted(entries[k].specs)
  {
    entries[k].specs[WantedIndex(entries[k].specs, i)].form == F.LINE_STRP
  }

  lemma PlacesFit(info: seq<byte>, abbrev: seq<byte>, u: Unit, entries: seq<Abbrev>, k: nat, values: seq<F.Value>)
    requires Encodes(info, abbrev, u, entries, k, values)
    ensures var locs := PlacesOf(u, entries, k, values);
            && |locs| == CountWanted(entries[k].specs) && Inside(locs, |info|) && Apart(locs) && Distinct(locs)
            && (forall i :: 0 <= i < |locs| ==> Start(u, entries, k) <= locs[i].offset
                                                && locs[i].offset + OffsetSize(u) <= |info|)
            && (forall i, j :: 0 <= i < j < |locs| ==> locs[i].offset + OffsetSize(u) <= locs[j].offset)
  {
    var specs, p, locs := entries[k].specs, Start(u, entries, k), PlacesOf(u, entries, k, values);
    ExpectedHoldValues(specs, values, p, info, u.addressSize as int, OffsetSize(u), 0);
    forall i | 0 <= i < |locs| ensures p <= locs[i].offset && locs[i].offset + OffsetSize(u) <= |info| {
      ExpectedHoldValues(specs, values, p, info, u.addressSize as int, OffsetSize(u), i);
    }
    forall i, j | 0 <= i < j < |locs| ensures locs[i].offset + OffsetSize(u) <= locs[j].offset {
      ExpectedApart(specs, values, p, info, u.addressSize as int, OffsetSize(u), i, j);
    }
  }

  // ---- without relocations: which table an offset is for

  /** Patching an encoder's unit is right at every attribute if and only if the old path is not in .debug_str or no
      attribute of form line_strp holds the one number that is rewritten for it. */
  lemma UnitSoundIff(info: seq<byte>, abbrev: seq<byte>, u: Unit, entries: seq<Abbrev>, k: nat, values: seq<F.Value>,
      strs: seq<byte>, lineStrs: seq<byte>, r: Rename)
    requires Encodes(info, abbrev, u, entries, k, values)
    requires Terminated(strs) && PathsOk(r) && r.newPath != []
    requires |lineStrs| <= |strs| && |NewStrs(strs, r)| <= TWO_TO_THE_32
    ensures var locs := PlacesOf(u, entries, k, values);
            && Inside(locs, |info|) && |locs| == CountWanted(entries[k].specs)
            && ((forall i :: 0 <= i < |locs| ==> SoundAt(info, strs, lineStrs, r, locs, i, IsLine(entries, k, i))) <==>
                (forall i :: 0 <= i < |locs| && IsLine(entries, k, i) ==> !Matches(info, strs, r, locs[i])))
  {
    PlacesFit(info, abbrev, u, entries, k, values);
    var locs := PlacesOf(u, entries, k, values);
    forall i | 0 <= i < |locs|
      ensures SoundAt(info, strs, lineStrs, r, locs, i, IsLine(entries, k, i)) <==>
              (IsLine(entries, k, i) ==> !Matches(info, strs, r, locs[i]))
    {
      SoundIff(info, strs, lineStrs, r, locs, i, IsLine(entries, k, i));
    }
  }

  // ---- without relocations: the unit afterwards

  /** Where value i starts. */
  function Place(values: seq<F.Value>, p: nat, i: nat): nat
    requires i <= |values|
  {
    p + Sum(Sizes(values), i)
  }

  lemma {:induction false} PlaceNext(values: seq<F.Value>, p: nat, i: nat)
    requires i < |values|
    ensures Place(values, p, i + 1) == Place(values, p, i) + |F.EncodeValue(values[i])|
  {
    assert Sizes(values)[1..] == Sizes(values[1..]);
    assert Sum(Sizes(values), i + 1) == Sizes(values)[0] + Sum(Sizes(values[1..]), i);
    if i > 0 { PlaceNext(values[1..], p, i - 1); }
  }

  ghost predicate EachAt(values: seq<F.Value>, data: seq<byte>, p: nat) {
    forall i {:trigger Place(values, p, i)} :: 0 <= i < |values| ==>
      At(data, Place(values, p, i), F.EncodeValue(values[i]))
  }

  lemma {:induction false} AllAt(values: seq<F.Value>, data: seq<byte>, p: nat, k: nat, at: nat, rest: seq<F.Value>)
    requires k <= |values| && Place(values, p, |values|) <= |data| && EachAt(values, data, p)
    requires at == Place(values, p, k) && rest == values[k..]
    ensures At(data, at, EncodeValues(rest))
    decreases |values| - k
  {
    if k < |values| {
      var next := Place(values, p, k + 1);
      PlaceNext(values, p, k);
      AllAt(values, data, p, k + 1, next, rest[1..]);
      AtJoin(data, at, F.EncodeValue(values[k]), EncodeValues(rest[1..]));
    }
  }

  lemma AtJoin(data: seq<byte>, p: nat, a: seq<byte>, b: seq<byte>)
    requires At(data, p, a) && At(data, p + |a|, b)
    ensures At(data, p, a + b)
  {
    forall i | 0 <= i < |a + b| ensures data[p + i] == (a + b)[i] {
      if i >= |a| { assert data[p + |a| + (i - |a|)] == b[i - |a|]; }
    }
  }

  lemma {:induction false} SameSizes(a: seq<F.Value>, b: seq<F.Value>)
    requires |a| == |b| && forall i :: 0 <= i < |a| ==> |F.EncodeValue(a[i])| == |F.EncodeValue(b[i])|
    ensures Sizes(a) == Sizes(b)
  {
    if a != [] {
      forall i | 0 <= i < |a| - 1 ensures |F.EncodeValue(a[1..][i])| == |F.EncodeValue(b[1..][i])| {
        assert a[1..][i] == a[i + 1] && b[1..][i] == b[i + 1];
      }
      SameSizes(a[1..], b[1..]);
    }
  }

  lemma {:induction false} NoPayloadIff(values: seq<F.Value>)
    ensures NoPayload(values) <==> forall i :: 0 <= i < |values| ==> F.Payload(values[i]) == 0
  {
    if values != [] {
      NoPayloadIff(values[1..]);
      assert forall i :: 0 <= i < |values| - 1 ==> values[1..][i] == values[i + 1];
      assert forall i :: 0 < i < |values| ==> values[i] == values[1..][i - 1];
    }
  }

  /** The values that a patched section holds: those of the wanted attributes read back, the others as they were. */
  function Reread(specs: seq<Spec>, values: seq<F.Value>, after: seq<byte>, p: nat): (r: seq<F.Value>)
    requires |specs| == |values|
    ensures |r| == |values|
  {
    seq(|values|, i requires 0 <= i < |values| => RereadOne(specs[i], values[i], after, Place(values, p, i)))
  }

  function RereadOne(s: Spec, v: F.Value, after: seq<byte>, q: nat): F.Value {
    if Wanted(s.name, s.form) && q + |F.EncodeValue(v)| <= |after| then F.Fixed(after[q..q + |F.EncodeValue(v)|]) else v
  }

  /** What is read back of one value is laid out as it was. */
  lemma OneReread(specs: seq<Spec>, values: seq<F.Value>, after: seq<byte>, p: nat, addressSize: nat, offsetSize: nat,
      i: nat)
    requires ValuesOk(specs, values, addressSize, offsetSize) && i < |specs| && F.Payload(values[i]) == 0
    requires Place(values, p, i) + |F.EncodeValue(values[i])| <= |after|
    requires !Wanted(specs[i].name, specs[i].form) ==> At(after, Place(values, p, i), F.EncodeValue(values[i]))
    ensures var v := RereadOne(specs[i], values[i], after, Place(values, p, i));
            && F.Fits(v, F.Standard(specs[i].form, addressSize, offsetSize))
            && |F.EncodeValue(v)| == |F.EncodeValue(values[i])| && F.Payload(v) == 0
            && At(after, Place(values, p, i), F.EncodeValue(v))
  {
    assert F.Fits(values[i], F.Standard(specs[i].form, addressSize, offsetSize));
    if Wanted(specs[i].name, specs[i].form) { WantedIsOffset(specs, values, addressSize, offsetSize, i); }
  }

  /** Nothing but wanted values has changed. */
  ghost predicate OthersAt(specs: seq<Spec>, values: seq<F.Value>, after: seq<byte>, p: nat)
    requires |specs| == |values|
  {
    forall i :: 0 <= i < |values| ==>
      && Place(values, p, i) + |F.EncodeValue(values[i])| <= |after|
      && (!Wanted(specs[i].name, specs[i].form) ==> At(after, Place(values, p, i), F.EncodeValue(values[i])))
  }

  lemma RereadFits(specs: seq<Spec>, values: seq<F.Value>, after: seq<byte>, p: nat, addressSize: nat, offsetSize: nat)
    requires ValuesOk(specs, values, addressSize, offsetSize) && NoPayload(values) && OthersAt(specs, values, after, p)
    ensures ValuesOk(specs, Reread(specs, values, after, p), addressSize, offsetSize)
  {
    var values' := Reread(specs, values, after, p);
    NoPayloadIff(values);
    forall i | 0 <= i < |values| ensures F.Fits(values'[i], F.Standard(specs[i].form, addressSize, offsetSize)) {
      OneReread(specs, values, after, p, addressSize, offsetSize, i);
    }
  }

  lemma RereadLaid(specs: seq<Spec>, values: seq<F.Value>, after: seq<byte>, p: nat, addressSize: nat, offsetSize: nat)
    requires ValuesOk(specs, values, addressSize, offsetSize) && NoPayload(values) && OthersAt(specs, values, after, p)
    ensures var values' := Reread(specs, values, after, p);
            && (forall i :: 0 <= i < |values| ==> |F.EncodeValue(values'[i])| == |F.EncodeValue(values[i])|)
            && (forall i :: 0 <= i < |values| ==> At(after, Place(values, p, i), F.EncodeValue(values'[i])))
            && NoPayload(values')
  {
    var values' := Reread(specs, values, after, p);
    NoPayloadIff(values);
    forall i | 0 <= i < |values|
      ensures |F.EncodeValue(values'[i])| == |F.EncodeValue(values[i])| && F.Payload(values'[i]) == 0
      ensures At(after, Place(values, p, i), F.EncodeValue(values'[i]))
    {
      OneReread(specs, values, after, p, addressSize, offsetSize, i);
    }
    NoPayloadIff(values');
  }

  lemma LaidAgain(values: seq<F.Value>, values': seq<F.Value>, after: seq<byte>, p: nat)
    requires |values'| == |values| && Place(values, p, |values|) <= |after|
    requires forall i :: 0 <= i < |values| ==> |F.EncodeValue(values'[i])| == |F.EncodeValue(values[i])|
    requires forall i :: 0 <= i < |values| ==> At(after, Place(values, p, i), F.EncodeValue(values'[i]))
    ensures At(after, p, EncodeValues(values')) && Sizes(values') == Sizes(values)
  {
    SameSizes(values', values);
    forall i | 0 <= i < |values'| ensures At(after, Place(values', p, i), F.EncodeValue(values'[i])) {
      SamePlace(values, values', p, i);
    }
    SamePlace(values, values', p, |values|);
    AllLaid(values', after, p);
  }

  lemma AllLaid(values: seq<F.Value>, data: seq<byte>, p: nat)
    requires Place(values, p, |values|) <= |data|
    requires EachAt(values, data, p)
    ensures At(data, p, EncodeValues(values))
  {
    assert values == values[0..];
    AllAt(values, data, p, 0, p, values);
  }

  lemma SamePlace(a: seq<F.Value>, b: seq<F.Value>, p: nat, i: nat)
    requires Sizes(a) == Sizes(b) && |a| == |b| && i <= |a|
    ensures Place(a, p, i) == Place(b, p, i)
  {}

  /** The windows lie inside the wanted values. */
  lemma WindowsInside(specs: seq<Spec>, values: seq<F.Value>, info: seq<byte>, p: nat, addressSize: nat,
      offsetSize: nat, i: nat, b: nat)
    requires ValuesOk(specs, values, addressSize, offsetSize) && At(info, p, EncodeValues(values)) && 4 <= offsetSize
    requires i < |specs| && !Wanted(specs[i].name, specs[i].form)
    requires p + Sum(Sizes(values), i) <= b < p + Sum(Sizes(values), i) + Sizes(values)[i]
    ensures !InWindow(Expected(specs, values, p), b)
  {
    var locs, sizes := Expected(specs, values, p), Sizes(values);
    PlaceOf(specs, sizes, p, 0);
    forall k | 0 <= k < |locs| ensures !(locs[k].offset <= b < locs[k].offset + 4) {
      PlaceOf(specs, sizes, p, k);
      var w := WantedIndex(specs, k);
      WantedSize(specs, values, info, p, addressSize, offsetSize, w);
      if w < i { SumGrows(sizes, w, i); } else { SumGrows(sizes, i, w); }
    }
  }

  lemma WantedSize(specs: seq<Spec>, values: seq<F.Value>, info: seq<byte>, p: nat, addressSize: nat, offsetSize: nat,
      w: nat)
    requires ValuesOk(specs, values, addressSize, offsetSize) && At(info, p, EncodeValues(values))
    requires w < |specs| && Wanted(specs[w].name, specs[w].form)
    ensures Sizes(values)[w] == offsetSize
  {
    ValueAt(values, info, p, w);
    WantedIsOffset(specs, values, addressSize, offsetSize, w);
  }

  lemma {:induction false} PlaceEnd(values: seq<F.Value>, data: seq<byte>, p: nat)
    requires At(data, p, EncodeValues(values))
    ensures Place(values, p, |values|) == p + |EncodeValues(values)| <= |data|
  {
    if values != [] {
      AtConcat(data, p, F.EncodeValue(values[0]), EncodeValues(values[1..]));
      PlaceEnd(values[1..], data, p + |F.EncodeValue(values[0])|);
    }
  }

  lemma PatchKeeps(specs: seq<Spec>, values: seq<F.Value>, info: seq<byte>, p: nat, addressSize: nat, offsetSize: nat,
      strs: seq<byte>, r: Rename)
    requires ValuesOk(specs, values, addressSize, offsetSize) && At(info, p, EncodeValues(values)) && 4 <= offsetSize
    requires Inside(Expected(specs, values, p), |info|)
    ensures OthersAt(specs, values, PatchInfo(info, strs, r, Expected(specs, values, p)), p)
  {
    var locs := Expected(specs, values, p);
    forall i | 0 <= i < |values|
      ensures Place(values, p, i) + |F.EncodeValue(values[i])| <= |info|
      ensures !Wanted(specs[i].name, specs[i].form) ==>
                At(PatchInfo(info, strs, r, locs), Place(values, p, i), F.EncodeValue(values[i]))
    {
      ValueAt(values, info, p, i);
      if !Wanted(specs[i].name, specs[i].form) {
        ValueKept(specs, values, info, p, addressSize, offsetSize, strs, r, i);
      }
    }
  }

  lemma ValueKept(specs: seq<Spec>, values: seq<F.Value>, info: seq<byte>, p: nat, addressSize: nat, offsetSize: nat,
      strs: seq<byte>, r: Rename, i: nat)
    requires ValuesOk(specs, values, addressSize, offsetSize) && At(info, p, EncodeValues(values)) && 4 <= offsetSize
    requires Inside(Expected(specs, values, p), |info|) && i < |specs| && !Wanted(specs[i].name, specs[i].form)
    ensures At(PatchInfo(info, strs, r, Expected(specs, values, p)), Place(values, p, i), F.EncodeValue(values[i]))
  {
    var locs, q, b := Expected(specs, values, p), Place(values, p, i), F.EncodeValue(values[i]);
    ValueAt(values, info, p, i);
    forall x: nat | q <= x < q + |b| ensures !InWindow(locs, x) {
      WindowsInside(specs, values, info, p, addressSize, offsetSize, i, x);
    }
    OutsideKept(info, strs, r, locs, q, b);
  }

  lemma OutsideKept(info: seq<byte>, strs: seq<byte>, r: Rename, locs: seq<AttrLocation>, at: nat, b: seq<byte>)
    requires Inside(locs, |info|) && At(info, at, b) && forall x: nat :: at <= x < at + |b| ==> !InWindow(locs, x)
    ensures At(PatchInfo(info, strs, r, locs), at, b)
  {
    forall i | 0 <= i < |b| ensures PatchInfo(info, strs, r, locs)[at + i] == b[i] {
      LoopTouches(info, strs, r, locs, at + i);
    }
  }

  lemma FrontKept(info: seq<byte>, strs: seq<byte>, r: Rename, locs: seq<AttrLocation>, at: nat, b: seq<byte>, p: nat)
    requires Inside(locs, |info|) && At(info, at, b) && at + |b| <= p
    requires forall i :: 0 <= i < |locs| ==> p <= locs[i].offset
    ensures At(PatchInfo(info, strs, r, locs), at, b)
  {
    assert forall l <- locs :: p <= l.offset;
    OutsideKept(info, strs, r, locs, at, b);
  }

  lemma ValuesAgain(specs: seq<Spec>, values: seq<F.Value>, info: seq<byte>, p: nat, addressSize: nat, offsetSize: nat,
      strs: seq<byte>, r: Rename) returns (values': seq<F.Value>)
    requires ValuesOk(specs, values, addressSize, offsetSize) && At(info, p, EncodeValues(values)) && 4 <= offsetSize
    requires Inside(Expected(specs, values, p), |info|) && NoPayload(values)
    ensures ValuesOk(specs, values', addressSize, offsetSize) && NoPayload(values') && Sizes(values') == Sizes(values)
    ensures At(PatchInfo(info, strs, r, Expected(specs, values, p)), p, EncodeValues(values'))
  {
    var after := PatchInfo(info, strs, r, Expected(specs, values, p));
    PatchKeeps(specs, values, info, p, addressSize, offsetSize, strs, r);
    PlaceEnd(values, info, p);
    values' := Reread(specs, values, after, p);
    RereadFits(specs, values, after, p, addressSize, offsetSize);
    RereadLaid(specs, values, after, p, addressSize, offsetSize);
    LaidAgain(values, values', after, p);
  }

  /** Patching leaves an encoder's unit an encoder's unit. */
  lemma StillEncodes(info: seq<byte>, abbrev: seq<byte>, u: Unit, entries: seq<Abbrev>, k: nat, values: seq<F.Value>,
      strs: seq<byte>, r: Rename) returns (values': seq<F.Value>)
    requires Plain(info, abbrev, u, entries, k, values) && Inside(PlacesOf(u, entries, k, values), |info|)
    ensures Plain(PatchInfo(info, strs, r, PlacesOf(u, entries, k, values)), abbrev, u, entries, k, values')
    ensures PlacesOf(u, entries, k, values') == PlacesOf(u, entries, k, values)
  {
    values' := ValuesAgain(entries[k].specs, values, info, Start(u, entries, k), u.addressSize as int, OffsetSize(u),
      strs, r);
    FrontAgain(info, abbrev, u, entries, k, values, strs, r);
    EncodesAgain(info, PatchInfo(info, strs, r, PlacesOf(u, entries, k, values)), abbrev, u, entries, k, values,
      values');
  }

  lemma FrontAgain(info: seq<byte>, abbrev: seq<byte>, u: Unit, entries: seq<Abbrev>, k: nat, values: seq<F.Value>,
      strs: seq<byte>, r: Rename)
    requires Encodes(info, abbrev, u, entries, k, values) && Inside(PlacesOf(u, entries, k, values), |info|)
    ensures var after := PatchInfo(info, strs, r, PlacesOf(u, entries, k, values));
            At(after, 0, EncodeHeader(u)) && At(after, |EncodeHeader(u)|, EncodeU(entries[k].code))
  {
    var p, locs := Start(u, entries, k), PlacesOf(u, entries, k, values);
    PlacesFit(info, abbrev, u, entries, k, values);
    FrontKept(info, strs, r, locs, 0, EncodeHeader(u), p);
    FrontKept(info, strs, r, locs, |EncodeHeader(u)|, EncodeU(entries[k].code), p);
  }

  lemma EncodesAgain(info: seq<byte>, after: seq<byte>, abbrev: seq<byte>, u: Unit, entries: seq<Abbrev>, k: nat,
      values: seq<F.Value>, values': seq<F.Value>)
    requires Encodes(info, abbrev, u, entries, k, values)
    requires At(after, 0, EncodeHeader(u)) && At(after, |EncodeHeader(u)|, EncodeU(entries[k].code))
    requires At(after, Start(u, entries, k), EncodeValues(values'))
    requires ValuesOk(entries[k].specs, values', u.addressSize as int, OffsetSize(u))
    ensures Encodes(after, abbrev, u, entries, k, values')
  {}

  /** With the same attributes at the same places. */
  lemma FoundAgain(info: seq<byte>, abbrev: seq<byte>, u: Unit, entries: seq<Abbrev>, k: nat, values: seq<F.Value>,
      strs: seq<byte>, r: Rename)
    requires Plain(info, abbrev, u, entries, k, values)
    ensures var locs := PlacesOf(u, entries, k, values);
            && Inside(locs, |info|) && FindAttrLocations(info, abbrev) == Found(locs)
            && FindAttrLocations(Patched(info, strs, r, locs).info, abbrev) == Found(locs)
  {
    PlacesFit(info, abbrev, u, entries, k, values);
    PatchedInfo(info, strs, r, PlacesOf(u, entries, k, values));
    FindsAttributes(info, abbrev, u, entries, k, values);
    var values' := StillEncodes(info, abbrev, u, entries, k, values, strs, r);
    FindsAttributes(PatchInfo(info, strs, r, PlacesOf(u, entries, k, values)), abbrev, u, entries, k, values');
  }

  lemma {:induction false} LoadSplit(data: seq<byte>, p: nat, m: nat, n: nat)
    requires p + m + n <= |data|
    ensures F.Load(data, p, m + n).Read? && F.Load(data, p, m).Read? && F.Load(data, p + m, n).Read?
    ensures F.Load(data, p, m + n).value == F.Load(data, p, m).value + F.Pow256(m) * F.Load(data, p + m, n).value
    decreases m
  {
    F.LoadInside(data, p + m, n);
    if m > 0 {
      LoadSplit(data, p + 1, m - 1, n);
      Shifted(data[p] as int, F.Load(data, p + 1, m - 1).value, F.Pow256(m - 1), F.Load(data, p + m, n).value);
    }
  }

  lemma Shifted(low: int, middle: int, power: int, high: int)
    ensures low + 256 * (middle + power * high) == (low + 256 * middle) + 256 * power * high
  {}

  /** The string an attribute that is an offset into .debug_str names afterwards: the new one if the old path is in the
      table and it named the old string by the offset looked for, and otherwise the one it named. Of an 8-byte offset
      only the low half is rewritten. */
  lemma DirectReads(info: seq<byte>, abbrev: seq<byte>, u: Unit, entries: seq<Abbrev>, k: nat, values: seq<F.Value>,
      strs: seq<byte>, r: Rename, i: nat)
    requires Encodes(info, abbrev, u, entries, k, values) && Terminated(strs) && PathsOk(r)
    requires |NewStrs(strs, r)| <= TWO_TO_THE_32 && i < CountWanted(entries[k].specs)
    ensures var locs := PlacesOf(u, entries, k, values);
            && |locs| == CountWanted(entries[k].specs) && Inside(locs, |info|)
            && var patched := Patched(info, strs, r, locs);
               var before := F.Load(info, locs[i].offset, OffsetSize(u));
               var after := F.Load(patched.info, locs[i].offset, OffsetSize(u));
            && before.Read? && after.Read? && locs[i].offset + 4 <= |info|
            && (before.value < |strs| ==>
                  CString(patched.strs, after.value) ==
                  if Matches(info, strs, r, locs[i]) then To(r, locs[i].isName) else CString(strs, before.value))
  {
    PlacesFit(info, abbrev, u, entries, k, values);
    ReadsAt(info, strs, r, PlacesOf(u, entries, k, values), i, OffsetSize(u));
  }

  lemma ReadsAt(info: seq<byte>, strs: seq<byte>, r: Rename, locs: seq<AttrLocation>, i: nat, width: nat)
    requires Inside(locs, |info|) && Apart(locs) && i < |locs| && Terminated(strs) && PathsOk(r)
    requires (width == 4 || width == 8) && locs[i].offset + width <= |info| && |NewStrs(strs, r)| <= TWO_TO_THE_32
    requires forall i, j :: 0 <= i < j < |locs| ==> locs[i].offset + width <= locs[j].offset
    ensures var patched := Patched(info, strs, r, locs);
            var before, after := F.Load(info, locs[i].offset, width), F.Load(patched.info, locs[i].offset, width);
            && before.Read? && after.Read?
            && (before.value < |strs| ==>
                  CString(patched.strs, after.value) ==
                  if Matches(info, strs, r, locs[i]) then To(r, locs[i].isName) else CString(strs, before.value))
  {
    var off := locs[i].offset;
    NewStrsKept(strs, r, 0);
    RewrittenIff(info, strs, r, locs, i);
    HighKept(info, strs, r, locs, i, width);
    if F.Load(info, off, width).value < |strs| {
      NewStrsKept(strs, r, F.Load(info, off, width).value);
      if Matches(info, strs, r, locs[i]) { RewriteMeans(strs, r, locs[i].isName); }
    }
  }

  /** So where the search found the old path's first offset it will find an offset that names the new path. */
  lemma NameBecomesNew(info: seq<byte>, abbrev: seq<byte>, u: Unit, entries: seq<Abbrev>, k: nat, values: seq<F.Value>,
      strs: seq<byte>, r: Rename, i: nat)
    requires Plain(info, abbrev, u, entries, k, values) && Terminated(strs) && PathsOk(r)
    requires |NewStrs(strs, r)| <= TWO_TO_THE_32 && i < CountWanted(entries[k].specs)
    requires var locs := PlacesOf(u, entries, k, values);
             && i < |locs| && locs[i].isName && F.Load(info, locs[i].offset, OffsetSize(u)).Read?
             && Find(strs, r.oldPath) == Some(F.Load(info, locs[i].offset, OffsetSize(u)).value)
    ensures var locs := PlacesOf(u, entries, k, values);
            && Inside(locs, |info|)
            && var after := Patched(info, strs, r, locs);
            && FindAttrLocations(after.info, abbrev) == Found(locs)
            && F.Load(after.info, locs[i].offset, OffsetSize(u)).Read?
            && CString(after.strs, F.Load(after.info, locs[i].offset, OffsetSize(u)).value) == r.newPath
  {
    var locs := PlacesOf(u, entries, k, values);
    PlacesFit(info, abbrev, u, entries, k, values);
    FoundAgain(info, abbrev, u, entries, k, values, strs, r);
    DirectReads(info, abbrev, u, entries, k, values, strs, r, i);
    FindIsFirst(strs, r.oldPath);
    HighKept(info, strs, r, locs, i, OffsetSize(u));
  }

  /** A small offset is in its low half, and stays there. */
  lemma HighKept(info: seq<byte>, strs: seq<byte>, r: Rename, locs: seq<AttrLocation>, i: nat, width: nat)
    requires Inside(locs, |info|) && i < |locs| && (width == 4 || width == 8) && locs[i].offset + width <= |info|
    requires forall i, j :: 0 <= i < j < |locs| ==> locs[i].offset + width <= locs[j].offset
    ensures var off, after := locs[i].offset, Patched(info, strs, r, locs).info;
            F.Load(info, off, width).Read? && F.Load(after, off, width).Read?
            && (F.Load(info, off, width).value < TWO_TO_THE_32 ==>
                  F.Load(info, off, width).value == Read4(info, off)
                    && F.Load(after, off, width).value == Read4(after, off))
  {
    var off, after := locs[i].offset, Patched(info, strs, r, locs).info;
    F.LoadInside(info, off, width);
    F.LoadInside(after, off, width);
    if width == 8 {
      forall b | off + 4 <= b < off + 8 ensures after[b] == info[b] {
        BetweenWindows(locs, i, b);
        OthersUntouched(info, strs, r, locs, b);
      }
      HighHalf(info, after, off, width);
    }
  }

  lemma BetweenWindows(locs: seq<AttrLocation>, i: nat, b: nat)
    requires i < |locs| && locs[i].offset + 4 <= b < locs[i].offset + 8
    requires forall i, j :: 0 <= i < j < |locs| ==> locs[i].offset + 8 <= locs[j].offset
    ensures !InWindow(locs, b)
  {
    forall j | 0 <= j < |locs| ensures !(locs[j].offset <= b < locs[j].offset + 4) {
      assert j < i ==> locs[j].offset + 8 <= locs[i].offset;
      assert i < j ==> locs[i].offset + 8 <= locs[j].offset;
    }
  }

  lemma TwoHalves(data: seq<byte>, off: nat, width: nat)
    requires width == 2 * WIDTH && off + width <= |data|
    ensures F.Load(data, off, width).Read? && F.Load(data, off + 4, WIDTH).Read?
    ensures F.Load(data, off, width).value == Read4(data, off) + TWO_TO_THE_32 * F.Load(data, off + 4, WIDTH).value
  {
    LoadSplit(data, off, WIDTH, WIDTH);
    assert F.Pow256(WIDTH) == TWO_TO_THE_32 by { F.Pow256Values(); }
  }

  lemma HighHalf(a: seq<byte>, b: seq<byte>, off: nat, width: nat)
    requires |a| == |b| && width == 2 * WIDTH && off + width <= |a|
    requires forall i :: off + 4 <= i < off + 8 ==> b[i] == a[i]
    ensures F.Load(a, off, width).Read? && F.Load(b, off, width).Read?
    ensures F.Load(a, off, width).value < TWO_TO_THE_32 ==>
              F.Load(a, off, width).value == Read4(a, off) && F.Load(b, off, width).value == Read4(b, off)
  {
    TwoHalves(a, off, width);
    TwoHalves(b, off, width);
    F.LoadSame(a, b, off + 4, WIDTH);
  }

  // ---- with relocations

  /** The section itself is left alone, so the search finds the same places; and the string the linker will put at each
      of them, if a relocation fills it, is the new one exactly when it was the old one. */
  lemma RelocReads(info: seq<byte>, abbrev: seq<byte>, u: Unit, entries: seq<Abbrev>, k: nat, values: seq<F.Value>,
      s: State, r: Rename, strIdx: nat, i: nat)
    requires Encodes(info, abbrev, u, entries, k, values) && Terminated(s.strs) && PathsOk(r) && InRange(s, strIdx)
    requires i < CountWanted(entries[k].specs)
    ensures var locs := PlacesOf(u, entries, k, values);
            var t := PatchAll(s, r, strIdx, locs);
            && |locs| == CountWanted(entries[k].specs)
            && var n := FirstUsable(s.relas, strIdx, |s.strs|, locs[i].offset);
            && n == FirstUsable(t.relas, strIdx, |t.strs|, locs[i].offset) && |t.relas| == |s.relas|
            && (n < |s.relas| ==>
                  var current := CString(s.strs, s.relas[n].addend);
                  t.relas[n].addend >= 0 && CString(t.strs, t.relas[n].addend) ==
                  if Applies(r, locs[i].isName, current) then To(r, locs[i].isName) else current)
  {
    PlacesFit(info, abbrev, u, entries, k, values);
    var locs := PlacesOf(u, entries, k, values);
    RelocRead(s, r, strIdx, locs, i);
  }

  lemma RelocRead(s: State, r: Rename, strIdx: nat, locs: seq<AttrLocation>, i: nat)
    requires Terminated(s.strs) && PathsOk(r) && Distinct(locs) && InRange(s, strIdx) && i < |locs|
    ensures var t, n := PatchAll(s, r, strIdx, locs), FirstUsable(s.relas, strIdx, |s.strs|, locs[i].offset);
            && n == FirstUsable(t.relas, strIdx, |t.strs|, locs[i].offset) && |t.relas| == |s.relas|
            && (n < |s.relas| ==>
                  var current := CString(s.strs, s.relas[n].addend);
                  t.relas[n].addend >= 0 && CString(t.strs, t.relas[n].addend) ==
                  if Applies(r, locs[i].isName, current) then To(r, locs[i].isName) else current)
  {
    var t, n := PatchAll(s, r, strIdx, locs), FirstUsable(s.relas, strIdx, |s.strs|, locs[i].offset);
    PatchIsSound(s, r, strIdx, locs);
    StillInRange(s, t, r, strIdx, locs, locs[i].offset);
    RenamesExactly(s, r, strIdx, locs, i);
    if n < |s.relas| {
      assert Sound(s.relas[n], t.relas[n], t.strs, |s.strs|, r, strIdx, locs);
      if t.relas[n] != s.relas[n] { MovedBy(s.relas[n], t.relas[n], t.strs, |s.strs|, r, strIdx, locs, i); }
    }
  }

  /** No two locations have the same offset, so the one that moved the entry is this one. */
  lemma MovedBy(e: Reloc, f: Reloc, strs: seq<byte>, was: nat, r: Rename, strIdx: nat, locs: seq<AttrLocation>, i: nat)
    requires Sound(e, f, strs, was, r, strIdx, locs) && f != e && Distinct(locs)
    requires i < |locs| && locs[i].offset == e.offset
    ensures f.addend >= 0 && CString(strs, f.addend) == To(r, locs[i].isName)
  {
    var l :| l in locs && l.offset == e.offset && f.addend >= 0 && CString(strs, f.addend) == To(r, l.isName);
    var j :| 0 <= j < |locs| && locs[j] == l;
    assert j == i;
  }

  // ---- what becomes of each name and directory

  lemma DirBecomesNew(info: seq<byte>, abbrev: seq<byte>, u: Unit, entries: seq<Abbrev>, k: nat, values: seq<F.Value>,
      strs: seq<byte>, r: Rename, i: nat)
    requires Plain(info, abbrev, u, entries, k, values) && Terminated(strs) && PathsOk(r)
    requires |NewStrs(strs, r)| <= TWO_TO_THE_32 && i < CountWanted(entries[k].specs)
    requires var locs := PlacesOf(u, entries, k, values);
             && i < |locs| && !locs[i].isName && F.Load(info, locs[i].offset, OffsetSize(u)).Read?
             && HasNewDir(r) && Find(strs, r.oldPath).Some?
             && Find(NewStrs(strs, r), Dir(r.oldPath)) == Some(F.Load(info, locs[i].offset, OffsetSize(u)).value)
             && F.Load(info, locs[i].offset, OffsetSize(u)).value < |strs|
    ensures var locs := PlacesOf(u, entries, k, values);
            && Inside(locs, |info|)
            && var after := Patched(info, strs, r, locs);
            && FindAttrLocations(after.info, abbrev) == Found(locs)
            && F.Load(after.info, locs[i].offset, OffsetSize(u)).Read?
            && CString(after.strs, F.Load(after.info, locs[i].offset, OffsetSize(u)).value) == Dir(r.newPath)
  {
    var locs := PlacesOf(u, entries, k, values);
    PlacesFit(info, abbrev, u, entries, k, values);
    FoundAgain(info, abbrev, u, entries, k, values, strs, r);
    DirectReads(info, abbrev, u, entries, k, values, strs, r, i);
    NewStrsKept(strs, r, 0);
    HighKept(info, strs, r, locs, i, OffsetSize(u));
  }

  /** The first offset that names a string. */
  ghost predicate FirstNaming(strs: seq<byte>, path: seq<byte>, off: nat) {
    off < |strs| && CString(strs, off) == path && forall o :: 0 <= o < off ==> CString(strs, o) != path
  }

  lemma FirstOfNew(strs: seq<byte>, r: Rename, path: seq<byte>, off: nat)
    requires Terminated(strs) && PathsOk(r) && FirstNaming(strs, path, off)
    ensures FirstNaming(NewStrs(strs, r), path, off)
  {
    NewStrsKept(strs, r, off);
    forall o | 0 <= o < off ensures CString(NewStrs(strs, r), o) != path { NewStrsKept(strs, r, o); }
  }

  /** Where value i starts, and which string the offset there names. */
  function ValueStart(u: Unit, entries: seq<Abbrev>, k: nat, values: seq<F.Value>, i: nat): nat
    requires k < |entries| && i < |values|
  {
    |EncodeHeader(u)| + |EncodeU(entries[k].code)| + |EncodeValues(values[..i])|
  }

  lemma FoundAt(info: seq<byte>, abbrev: seq<byte>, u: Unit, entries: seq<Abbrev>, k: nat, values: seq<F.Value>,
      i: nat, isName: bool) returns (n: nat)
    requires Plain(info, abbrev, u, entries, k, values) && i < |values| && IsAttribute(entries[k].specs[i], isName)
    ensures var locs := PlacesOf(u, entries, k, values);
            && FindAttrLocations(info, abbrev) == Found(locs) && Inside(locs, |info|)
            && n < |locs| && n < CountWanted(entries[k].specs)
            && locs[n] == AttrLocation(ValueStart(u, entries, k, values, i), isName)
  {
    var locs, l := PlacesOf(u, entries, k, values), AttrLocation(ValueStart(u, entries, k, values, i), isName);
    PlacesFit(info, abbrev, u, entries, k, values);
    FindsAttributes(info, abbrev, u, entries, k, values);
    FoundExactly(info, abbrev, u, entries, k, values, l);
    assert FoundBy(u, entries, k, values, i, l);
    n :| n < |locs| && locs[n] == l;
  }

  /** A name attribute that is the first offset of the old path names the new path afterwards ... */
  lemma NameRenamed(info: seq<byte>, abbrev: seq<byte>, u: Unit, entries: seq<Abbrev>, k: nat, values: seq<F.Value>,
      strs: seq<byte>, r: Rename, i: nat, off: nat)
    requires Plain(info, abbrev, u, entries, k, values) && Terminated(strs) && PathsOk(r)
    requires |NewStrs(strs, r)| <= TWO_TO_THE_32 && i < |values| && IsAttribute(entries[k].specs[i], true)
    requires var before := F.Load(info, ValueStart(u, entries, k, values, i), OffsetSize(u));
             before.Read? && before.value == off
    requires FirstNaming(strs, r.oldPath, off)
    ensures var found := FindAttrLocations(info, abbrev);
            && found.Found? && Inside(found.locations, |info|)
            && var patched := Patched(info, strs, r, found.locations);
               var after := F.Load(patched.info, ValueStart(u, entries, k, values, i), OffsetSize(u));
            && after.Read? && CString(patched.strs, after.value) == r.newPath
  {
    var n := FoundAt(info, abbrev, u, entries, k, values, i, true);
    FoundIff(strs, r.oldPath, off);
    NameBecomesNew(info, abbrev, u, entries, k, values, strs, r, n);
  }

  /** ... and a directory attribute that is the first offset of the old path's directory names the new path's, if
      the old path is in the table and the two directories are there and differ. */
  lemma DirRenamed(info: seq<byte>, abbrev: seq<byte>, u: Unit, entries: seq<Abbrev>, k: nat, values: seq<F.Value>,
      strs: seq<byte>, r: Rename, i: nat, off: nat, pathOff: nat)
    requires Plain(info, abbrev, u, entries, k, values) && Terminated(strs) && PathsOk(r)
    requires |NewStrs(strs, r)| <= TWO_TO_THE_32 && i < |values| && IsAttribute(entries[k].specs[i], false)
    requires var before := F.Load(info, ValueStart(u, entries, k, values, i), OffsetSize(u));
             before.Read? && before.value == off
    requires FirstNaming(strs, Dir(r.oldPath), off) && FirstNaming(strs, r.oldPath, pathOff)
    requires Dir(r.oldPath) != [] && Dir(r.newPath) != [] && Dir(r.oldPath) != Dir(r.newPath)
    ensures var found := FindAttrLocations(info, abbrev);
            && found.Found? && Inside(found.locations, |info|)
            && var patched := Patched(info, strs, r, found.locations);
               var after := F.Load(patched.info, ValueStart(u, entries, k, values, i), OffsetSize(u));
            && after.Read? && CString(patched.strs, after.value) == Dir(r.newPath)
  {
    var n := FoundAt(info, abbrev, u, entries, k, values, i, false);
    DirPrefix(r.oldPath);
    NewStrsKept(strs, r, 0);
    FirstOfNew(strs, r, Dir(r.oldPath), off);
    FoundIff(strs, r.oldPath, pathOff);
    FoundIff(NewStrs(strs, r), Dir(r.oldPath), off);
    DirBecomesNew(info, abbrev, u, entries, k, values, strs, r, n);
  }

  /** With relocations: the first entry at a name, or a directory, that points into the string table keeps
      everything but its addend, and the string there is the new one exactly when it was the old one. */
  lemma RelocRenamed(info: seq<byte>, abbrev: seq<byte>, u: Unit, entries: seq<Abbrev>, k: nat, values: seq<F.Value>,
      s: State, r: Rename, strIdx: nat, i: nat, isName: bool, n: nat)
    requires Plain(info, abbrev, u, entries, k, values) && Terminated(s.strs) && PathsOk(r) && InRange(s, strIdx)
    requires i < |values| && IsAttribute(entries[k].specs[i], isName) && n < |s.relas|
    requires s.relas[n].offset == ValueStart(u, entries, k, values, i) && s.relas[n].section == strIdx
             && 0 <= s.relas[n].addend < |s.strs|
    requires forall j :: 0 <= j < n ==>
               s.relas[j].offset != s.relas[n].offset || s.relas[j].section != strIdx
               || !(0 <= s.relas[j].addend < |s.strs|)
    ensures FindAttrLocations(info, abbrev).Found?
    ensures var t := PatchAll(s, r, strIdx, FindAttrLocations(info, abbrev).locations);
            var current := CString(s.strs, s.relas[n].addend);
            && |t.relas| == |s.relas| && t.relas[n] == s.relas[n].(addend := t.relas[n].addend)
            && t.relas[n].addend >= 0
            && CString(t.strs, t.relas[n].addend) ==
               if isName && current == r.oldPath then r.newPath
               else if !isName && current == Dir(r.oldPath) && current != [] then Dir(r.newPath)
               else current
  {
    var w := FoundAt(info, abbrev, u, entries, k, values, i, isName);
    var locs := PlacesOf(u, entries, k, values);
    RelocReads(info, abbrev, u, entries, k, values, s, r, strIdx, w);
    PlacesFit(info, abbrev, u, entries, k, values);
    PatchIsSound(s, r, strIdx, locs);
    FirstIs(s.relas, strIdx, |s.strs|, locs[w].offset, n);
    var t := PatchAll(s, r, strIdx, locs);
    assert Sound(s.relas[n], t.relas[n], t.strs, |s.strs|, r, strIdx, locs);
  }

  lemma FirstIs(relas: seq<Reloc>, strIdx: nat, size: nat, offset: nat, n: nat)
    requires n < |relas| && relas[n].offset == offset && relas[n].section == strIdx && 0 <= relas[n].addend < size
    requires forall j :: 0 <= j < n ==>
               relas[j].offset != offset || relas[j].section != strIdx || !(0 <= relas[j].addend < size)
    ensures FirstUsable(relas, strIdx, size, offset) == n
  {
    assert Usable(relas[n], strIdx, size, offset);
    assert forall j :: 0 <= j < n ==> !Usable(relas[j], strIdx, size, offset);
  }
}
