/** The patcher's loops over the two sections, with both pointers moving. */
module DwarfReader {
  import opened Bytes
  import opened Leb128
  import opened DwarfForms
  import opened DwarfWalk

  function Prepend(locations: seq<AttrLocation>, o: Outcome): Outcome {
    if o.Found? then Found(locations + o.locations) else o
  }

  lemma RecordOne(locations: seq<AttrLocation>, l: AttrLocation, o: Outcome)
    ensures Prepend(locations, Prepend([l], o)) == Prepend(locations + [l], o)
    ensures Prepend([], o) == o
  {
    if o.Found? { assert locations + ([l] + o.locations) == (locations + [l]) + o.locations; }
  }

  lemma OneRound(list: SpecList, info: seq<byte>, p: nat, next: nat, addressSize: nat, offsetSize: nat)
    requires list.More? && PastValue(list.spec.form % 0x1_0000, addressSize, offsetSize, info, p) == To(next)
    ensures var l := if Wanted(list.spec.name, list.spec.form) then [AttrLocation(p, list.spec.name == NAME)] else [];
            WalkValues(list, info, p, addressSize, offsetSize) ==
              Prepend(l, WalkValues(list.rest, info, next, addressSize, offsetSize))
  {}

  /** The loop over the matching abbreviation's attributes. */
  method WalkAttributes(abbrev: seq<byte>, specsAt: nat, info: seq<byte>, start: nat, addressSize: nat,
      offsetSize: nat) returns (o: Outcome)
    ensures o == WalkValues(ParseSpecs(abbrev, specsAt), info, start, addressSize, offsetSize)
  {
    var ap, p: nat := specsAt, start;
    var locations: seq<AttrLocation> := [];
    ghost var target := WalkValues(ParseSpecs(abbrev, specsAt), info, start, addressSize, offsetSize);
    ghost var left := ParseSpecs(abbrev, ap);
    RecordOne([], AttrLocation(0, false), target);
    while ap < |abbrev|
      invariant left == ParseSpecs(abbrev, ap)
      invariant target == Prepend(locations, WalkValues(left, info, p, addressSize, offsetSize))
      decreases |abbrev| - ap
    {
      var spec := ReadSpec(abbrev, ap);
      if spec.Fault? { return Crash; }
      if spec.value == Pair(0, 0) { return Found(locations); }
      var past := PastValue(spec.value.form % 0x1_0000, addressSize, offsetSize, info, p);
      if past.Stop? { return Crash; }
      if past.Unknown? { return NotFound; }
      OneRound(left, info, p, past.next, addressSize, offsetSize);
      left := left.rest;
      if Wanted(spec.value.name, spec.value.form) {
        RecordOne(locations, AttrLocation(p, spec.value.name == NAME),
          WalkValues(left, info, past.next, addressSize, offsetSize));
        locations := locations + [AttrLocation(p, spec.value.name == NAME)];
      }
      ap, p := spec.next, past.next;
    }
    return Found(locations);
  }

  /** The loop that passes over an abbreviation that does not match. */
  method PassOver(abbrev: seq<byte>, specsAt: nat) returns (r: Reading<bool>)
    ensures r == SkipSpecs(abbrev, specsAt)
  {
    var ap: nat := specsAt;
    while ap < |abbrev|
      invariant SkipSpecs(abbrev, ap) == SkipSpecs(abbrev, specsAt)
      decreases |abbrev| - ap
    {
      var spec := ReadSpec(abbrev, ap);
      if spec.Fault? { return Fault; }
      ap := spec.next;
      if spec.value == Pair(0, 0) { break; }
    }
    return Read(true, ap);
  }

  /** The search for the abbreviation: where its specifications start. */
  method FindAbbreviation(abbrev: seq<byte>, offset: nat, wanted: nat) returns (specsAt: Reading<nat>, found: bool)
    ensures found ==> specsAt.Read? && FindAbbrev(abbrev, offset, wanted) == Entry(ParseSpecs(abbrev, specsAt.value))
    ensures !found ==> FindAbbrev(abbrev, offset, wanted) == if specsAt.Fault? then Lost else Missing
  {
    var ap: nat := offset;
    while ap < |abbrev|
      invariant FindAbbrev(abbrev, ap, wanted) == FindAbbrev(abbrev, offset, wanted)
      decreases |abbrev| - ap
    {
      var code := ReadU(abbrev, ap);
      if code.Fault? { return Fault, false; }
      if code.value == 0 { break; }
      var tag := ReadU(abbrev, code.next);
      if tag.Fault? { return Fault, false; }
      if code.value == wanted { return Read(tag.next + 1, ap), true; }
      var past := PassOver(abbrev, tag.next + 1);
      if past.Fault? { return Fault, false; }
      ap := past.next;
    }
    return Read(0, ap), false;
  }

  method FindLocations(info: seq<byte>, abbrev: seq<byte>) returns (o: Outcome)
    ensures o == FindAttrLocations(info, abbrev)
  {
    var h := ReadHeader(info);
    if h.Fault? { return Crash; }
    var code := ReadU(info, h.next);
    if code.Fault? { return Crash; }
    if code.value == 0 { return NotFound; }
    var specsAt, found := FindAbbreviation(abbrev, h.value.abbrevOffset, code.value);
    if !found { return if specsAt.Fault? then Crash else NotFound; }
    o := WalkAttributes(abbrev, specsAt.value, info, code.next, h.value.addressSize, h.value.offsetSize);
  }
}
