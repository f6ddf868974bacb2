/** Finding the name and comp_dir attributes of the first unit: the patcher's pointer walk against DWARF 5's
    encoders. */
module DwarfWalk {
  import opened Bytes
  import opened Leb128
  import opened DwarfForms

  const NAME: nat := 0x03
  const COMP_DIR: nat := 0x1b

  datatype AttrLocation = AttrLocation(offset: nat, isName: bool)

  /** Fault is a read outside a section; the patcher itself does not check. */
  datatype Outcome = Crash | NotFound | Found(locations: seq<AttrLocation>)

  predicate Wanted(name: nat, form: nat) { (name == NAME || name == COMP_DIR) && (form == STRP || form == LINE_STRP) }

  // ---- the walk

  datatype Pair = Pair(name: nat, form: nat)

  /** One attribute specification: name, form, and the constant an implicit_const carries in the table. */
  function ReadSpec(abbrev: seq<byte>, ap: nat): (r: Reading<Pair>)
    ensures r.Read? ==> ap < r.next <= |abbrev|
  {
    match ReadU(abbrev, ap)
    case Fault => Fault
    case Read(name, a1) =>
      match ReadU(abbrev, a1)
      case Fault => Fault
      case Read(form, a2) =>
        if form != IMPLICIT_CONST then Read(Pair(name, form), a2)
        else match ReadS(abbrev, a2) case Fault => Fault case Read(_, a3) => Read(Pair(name, form), a3)
  }

  /** The specifications of one abbreviation as the loop meets them, up to the pair of zeros or the section's end. */
  datatype SpecList = Broken | Done | More(spec: Pair, rest: SpecList)

  function ParseSpecs(abbrev: seq<byte>, ap: nat): SpecList
    decreases |abbrev| - ap
  {
    if ap >= |abbrev| then Done
    else match ReadSpec(abbrev, ap)
      case Fault => Broken
      case Read(s, next) => if s == Pair(0, 0) then Done else More(s, ParseSpecs(abbrev, next))
  }

  /** Past the specifications of an abbreviation that is not the one looked for. */
  function SkipSpecs(abbrev: seq<byte>, ap: nat): (r: Reading<bool>)
    ensures r.Read? ==> ap <= r.next
    decreases |abbrev| - ap
  {
    if ap >= |abbrev| then Read(true, ap)
    else match ReadSpec(abbrev, ap)
      case Fault => Fault
      case Read(s, next) => if s == Pair(0, 0) then Read(true, next) else SkipSpecs(abbrev, next)
  }

  datatype Lookup = Lost | Missing | Entry(specs: SpecList)

  function FindAbbrev(abbrev: seq<byte>, ap: nat, wanted: nat): Lookup
    decreases |abbrev| - ap
  {
    if ap >= |abbrev| then Missing
    else match ReadU(abbrev, ap)
      case Fault => Lost
      case Read(code, a1) =>
        if code == 0 then Missing
        else match ReadU(abbrev, a1)
          case Fault => Lost
          case Read(_, a2) =>
            if code == wanted then Entry(ParseSpecs(abbrev, a2 + 1))
            else match SkipSpecs(abbrev, a2 + 1)
              case Fault => Lost
              case Read(_, next) => FindAbbrev(abbrev, next, wanted)
  }

  /** The pointer into the unit moves past one value for each specification. */
  function WalkValues(list: SpecList, info: seq<byte>, p: nat, addressSize: nat, offsetSize: nat): Outcome {
    match list
    case Broken => Crash
    case Done => Found([])
    case More(s, rest) =>
      match PastValue(s.form % 0x1_0000, addressSize, offsetSize, info, p)
      case Stop => Crash
      case Unknown => NotFound
      case To(next) =>
        var more := WalkValues(rest, info, next, addressSize, offsetSize);
        if more.Found? && Wanted(s.name, s.form)
        then Found([AttrLocation(p, s.name == NAME)] + more.locations) else more
  }

  /** The unit header's fields, and where it ends. */
  datatype Header = Header(addressSize: nat, offsetSize: nat, abbrevOffset: nat)

  function ReadHeader(info: seq<byte>): Reading<Header> {
    match Load(info, 0, 4)
    case Fault => Fault
    case Read(unitLength32, p0) =>
      var offsetSize := if unitLength32 == 0xFFFF_FFFF then 8 else 4;
      var p1 := if unitLength32 == 0xFFFF_FFFF then p0 + 8 else p0;
      match Load(info, p1, 2)
      case Fault => Fault
      case Read(version, p2) =>
        if version >= 5 then
          match Load(info, p2 + 1, 1)
          case Fault => Fault
          case Read(addressSize, p3) =>
            match Load(info, p3, offsetSize)
            case Fault => Fault
            case Read(abbrevOffset, p4) => Read(Header(addressSize, offsetSize, abbrevOffset), p4)
        else
          match Load(info, p2, offsetSize)
          case Fault => Fault
          case Read(abbrevOffset, p3) =>
            match Load(info, p3, 1)
            case Fault => Fault
            case Read(addressSize, p4) => Read(Header(addressSize, offsetSize, abbrevOffset), p4)
  }

  function FindAttrLocations(info: seq<byte>, abbrev: seq<byte>): Outcome {
    match ReadHeader(info)
    case Fault => Crash
    case Read(h, p) =>
      match ReadU(info, p)
      case Fault => Crash
      case Read(abbrevCode, p1) =>
        if abbrevCode == 0 then NotFound
        else match FindAbbrev(abbrev, h.abbrevOffset, abbrevCode)
          case Lost => Crash
          case Missing => NotFound
          case Entry(specs) => WalkValues(specs, info, p1, h.addressSize, h.offsetSize)
  }

  // ---- what a producer writes

  datatype Spec = Spec(name: nat, form: nat, constant: int)
  datatype Abbrev = Abbrev(code: nat, tag: nat, hasChildren: byte, specs: seq<Spec>)

  function EncodeSpec(s: Spec): seq<byte> {
    EncodeU(s.name) + (EncodeU(s.form) + if s.form == IMPLICIT_CONST then EncodeS(s.constant) else [])
  }

  function EncodeSpecs(specs: seq<Spec>): seq<byte> {
    if specs == [] then EncodeU(0) + EncodeU(0) else EncodeSpec(specs[0]) + EncodeSpecs(specs[1..])
  }

  function EncodeAbbrev(a: Abbrev): seq<byte> {
    EncodeU(a.code) + (EncodeU(a.tag) + ([a.hasChildren] + EncodeSpecs(a.specs)))
  }

  function EncodeTable(entries: seq<Abbrev>): seq<byte> {
    if entries == [] then EncodeU(0) else EncodeAbbrev(entries[0]) + EncodeTable(entries[1..])
  }

  function EncodeValues(values: seq<Value>): seq<byte> {
    if values == [] then [] else EncodeValue(values[0]) + EncodeValues(values[1..])
  }

  ghost predicate SpecOk(s: Spec) {
    s.name < TWO_TO_THE_64 && s.form < TWO_TO_THE_64 && (s.name, s.form) != (0, 0)
      && -TWO_TO_THE_63 <= s.constant < TWO_TO_THE_63
  }

  ghost predicate SpecsOk(specs: seq<Spec>) { specs == [] || (SpecOk(specs[0]) && SpecsOk(specs[1..])) }

  ghost predicate AbbrevOk(a: Abbrev) { 0 < a.code < TWO_TO_THE_64 && a.tag < TWO_TO_THE_64 && SpecsOk(a.specs) }

  ghost predicate TableOk(entries: seq<Abbrev>) { entries == [] || (AbbrevOk(entries[0]) && TableOk(entries[1..])) }

  /** The values of a DIE, each laid out as the standard says for its form. */
  ghost predicate ValuesOk(specs: seq<Spec>, values: seq<Value>, addressSize: nat, offsetSize: nat) {
    && |specs| == |values|
    && forall i {:trigger Fits(values[i], Standard(specs[i].form, addressSize, offsetSize))} ::
         0 <= i < |specs| ==> Fits(values[i], Standard(specs[i].form, addressSize, offsetSize))
  }

  /** Nothing but empty blocks, if any. */
  predicate NoPayload(values: seq<Value>) { values == [] || (Payload(values[0]) == 0 && NoPayload(values[1..])) }

  function Sizes(values: seq<Value>): (r: seq<nat>)
    ensures |r| == |values|
  {
    if values == [] then [] else [|EncodeValue(values[0])|] + Sizes(values[1..])
  }

  /** Where the wanted attributes are, for values of these sizes that start at p. */
  function Places(specs: seq<Spec>, sizes: seq<nat>, p: nat): seq<AttrLocation>
    requires |specs| == |sizes|
  {
    if specs == [] then []
    else
      var rest := Places(specs[1..], sizes[1..], p + sizes[0]);
      if Wanted(specs[0].name, specs[0].form) then [AttrLocation(p, specs[0].name == NAME)] + rest else rest
  }

  /** Where they are for the values themselves. */
  function Expected(specs: seq<Spec>, values: seq<Value>, p: nat): seq<AttrLocation>
    requires |specs| == |values|
  {
    Places(specs, Sizes(values), p)
  }

  /** A full compilation unit header of section 7.5.1.1, of version 2 to 5 and either format. */
  datatype Unit = Unit(is64: bool, unitLength: nat, version: nat, unitType: byte, addressSize: byte, abbrevOffset: nat)

  ghost predicate UnitOk(u: Unit) {
    && 2 <= u.version <= 5 && u.abbrevOffset < (if u.is64 then TWO_TO_THE_64 else TWO_TO_THE_32)
    && u.unitLength < if u.is64 then TWO_TO_THE_64 else 0xFFFF_FFF0
  }

  function OffsetSize(u: Unit): nat { if u.is64 then 8 else 4 }

  function EncodeLength(u: Unit): seq<byte> {
    if u.is64 then Little(4, 0xFFFF_FFFF) + Little(8, u.unitLength) else Little(4, u.unitLength)
  }

  function HeaderTail(u: Unit): seq<byte> {
    var offset := Little(OffsetSize(u), u.abbrevOffset);
    if u.version >= 5 then [u.unitType] + ([u.addressSize] + offset) else offset + [u.addressSize]
  }

  function EncodeHeader(u: Unit): seq<byte> {
    EncodeLength(u) + (Little(2, u.version) + HeaderTail(u))
  }

  // ---- the walk finds what the producer wrote

  lemma ReadSpecAt(abbrev: seq<byte>, ap: nat, s: Spec)
    requires At(abbrev, ap, EncodeSpec(s)) && s.name < TWO_TO_THE_64 && s.form < TWO_TO_THE_64
    requires -TWO_TO_THE_63 <= s.constant < TWO_TO_THE_63
    ensures ReadSpec(abbrev, ap) == Read(Pair(s.name, s.form), ap + |EncodeSpec(s)|)
  {
    var constant := if s.form == IMPLICIT_CONST then EncodeS(s.constant) else [];
    AtConcat(abbrev, ap, EncodeU(s.name), EncodeU(s.form) + constant);
    var a1 := ap + |EncodeU(s.name)|;
    AtConcat(abbrev, a1, EncodeU(s.form), constant);
    UnsignedRoundTrip(abbrev, ap, s.name);
    UnsignedRoundTrip(abbrev, a1, s.form);
    if s.form == IMPLICIT_CONST { SignedRoundTrip(abbrev, a1 + |EncodeU(s.form)|, s.constant); }
  }

  /** The pair of zeros that ends a list of specifications. */
  lemma ReadEnd(abbrev: seq<byte>, ap: nat)
    requires At(abbrev, ap, EncodeSpecs([]))
    ensures ReadSpec(abbrev, ap) == Read(Pair(0, 0), ap + |EncodeSpecs([])|)
  {
    assert EncodeSpecs([]) == EncodeSpec(Spec(0, 0, 0));
    ReadSpecAt(abbrev, ap, Spec(0, 0, 0));
  }

  function ListOf(specs: seq<Spec>): SpecList {
    if specs == [] then Done else More(Pair(specs[0].name, specs[0].form), ListOf(specs[1..]))
  }

  lemma SpecsTail(abbrev: seq<byte>, ap: nat, specs: seq<Spec>)
    requires specs != [] && At(abbrev, ap, EncodeSpecs(specs))
    ensures At(abbrev, ap, EncodeSpec(specs[0])) && At(abbrev, ap + |EncodeSpec(specs[0])|, EncodeSpecs(specs[1..]))
    ensures |EncodeSpecs(specs)| == |EncodeSpec(specs[0])| + |EncodeSpecs(specs[1..])|
  {
    AtConcat(abbrev, ap, EncodeSpec(specs[0]), EncodeSpecs(specs[1..]));
  }

  lemma SpecStep(abbrev: seq<byte>, ap: nat, s: Pair, next: nat)
    requires ReadSpec(abbrev, ap) == Read(s, next) && s != Pair(0, 0)
    ensures ParseSpecs(abbrev, ap) == More(s, ParseSpecs(abbrev, next))
            && SkipSpecs(abbrev, ap) == SkipSpecs(abbrev, next)
  {}

  lemma {:induction false} SpecsRead(abbrev: seq<byte>, ap: nat, specs: seq<Spec>)
    requires At(abbrev, ap, EncodeSpecs(specs)) && SpecsOk(specs)
    ensures ParseSpecs(abbrev, ap) == ListOf(specs)
    ensures SkipSpecs(abbrev, ap) == Read(true, ap + |EncodeSpecs(specs)|)
    decreases |specs|
  {
    if specs == [] {
      ReadEnd(abbrev, ap);
    } else {
      var next := ap + |EncodeSpec(specs[0])|;
      SpecsTail(abbrev, ap, specs);
      FirstSpec(abbrev, ap, specs[0], next);
      SpecsRead(abbrev, next, specs[1..]);
    }
  }

  lemma FirstSpec(abbrev: seq<byte>, ap: nat, s: Spec, next: nat)
    requires At(abbrev, ap, EncodeSpec(s)) && SpecOk(s) && next == ap + |EncodeSpec(s)|
    ensures ParseSpecs(abbrev, ap) == More(Pair(s.name, s.form), ParseSpecs(abbrev, next))
    ensures SkipSpecs(abbrev, ap) == SkipSpecs(abbrev, next)
  {
    ReadSpecAt(abbrev, ap, s);
    SpecStep(abbrev, ap, Pair(s.name, s.form), next);
  }

  lemma ValuesTail(specs: seq<Spec>, info: seq<byte>, p: nat, values: seq<Value>, addressSize: nat, offsetSize: nat)
    requires specs != [] && At(info, p, EncodeValues(values)) && ValuesOk(specs, values, addressSize, offsetSize)
    ensures At(info, p, EncodeValue(values[0])) && At(info, p + |EncodeValue(values[0])|, EncodeValues(values[1..]))
    ensures Fits(values[0], Standard(specs[0].form, addressSize, offsetSize))
    ensures ValuesOk(specs[1..], values[1..], addressSize, offsetSize)
  {
    AtConcat(info, p, EncodeValue(values[0]), EncodeValues(values[1..]));
    assert Fits(values[0], Standard(specs[0].form, addressSize, offsetSize));
    forall i | 0 <= i < |specs| - 1
      ensures Fits(values[1..][i], Standard(specs[1..][i].form, addressSize, offsetSize))
    {
      assert Fits(values[i + 1], Standard(specs[i + 1].form, addressSize, offsetSize));
    }
  }

  /** The walk passes the specifications' values in these steps. */
  ghost predicate Steps(specs: seq<Spec>, info: seq<byte>, p: nat, steps: seq<nat>, addressSize: nat, offsetSize: nat) {
    && |specs| == |steps|
    && (specs == []
        || (PastValue(specs[0].form % 0x1_0000, addressSize, offsetSize, info, p) == To(p + steps[0])
            && Steps(specs[1..], info, p + steps[0], steps[1..], addressSize, offsetSize)))
  }

  lemma ValueStep(s: Pair, rest: SpecList, info: seq<byte>, p: nat, next: nat, addressSize: nat, offsetSize: nat,
      more: Outcome)
    requires PastValue(s.form % 0x1_0000, addressSize, offsetSize, info, p) == To(next)
    requires more == WalkValues(rest, info, next, addressSize, offsetSize)
    ensures WalkValues(More(s, rest), info, p, addressSize, offsetSize) ==
            if more.Found? && Wanted(s.name, s.form)
            then Found([AttrLocation(p, s.name == NAME)] + more.locations) else more
  {}

  /** So it meets every wanted attribute where they lead it. */
  lemma {:induction false} WalkPlaces(specs: seq<Spec>, info: seq<byte>, p: nat, steps: seq<nat>, addressSize: nat,
      offsetSize: nat)
    requires Steps(specs, info, p, steps, addressSize, offsetSize)
    ensures WalkValues(ListOf(specs), info, p, addressSize, offsetSize) == Found(Places(specs, steps, p))
    decreases |specs|
  {
    if specs != [] {
      var next := p + steps[0];
      WalkPlaces(specs[1..], info, next, steps[1..], addressSize, offsetSize);
      ValueStep(Pair(specs[0].name, specs[0].form), ListOf(specs[1..]), info, p, next, addressSize, offsetSize,
                Found(Places(specs[1..], steps[1..], next)));
    }
  }

  /** One value, and where the next one is. */
  lemma PassesFirst(specs: seq<Spec>, info: seq<byte>, p: nat, values: seq<Value>, addressSize: nat, offsetSize: nat)
    requires specs != [] && At(info, p, EncodeValues(values)) && ValuesOk(specs, values, addressSize, offsetSize)
    ensures var v := values[0];
            && PastValue(specs[0].form % 0x1_0000, addressSize, offsetSize, info, p) ==
               (if Countable(v) then To(p + Walked(v)) else Unknown)
            && |EncodeValue(v)| == Walked(v) + Payload(v) && (Payload(v) == 0 ==> Countable(v))
            && At(info, p + |EncodeValue(v)|, EncodeValues(values[1..]))
            && ValuesOk(specs[1..], values[1..], addressSize, offsetSize)
  {
    ValuesTail(specs, info, p, values, addressSize, offsetSize);
    SupportedIsSmall(specs[0].form, addressSize, offsetSize);
    PastValueOf(specs[0].form, addressSize, offsetSize, info, p, values[0]);
    WalkedPart(values[0]);
    if Payload(values[0]) == 0 { NothingLeft(values[0]); }
  }

  /** Without payloads of blocks, each step is exactly past a value. */
  lemma {:induction false} StepsPastValues(specs: seq<Spec>, info: seq<byte>, p: nat, values: seq<Value>,
      addressSize: nat, offsetSize: nat)
    requires At(info, p, EncodeValues(values)) && ValuesOk(specs, values, addressSize, offsetSize) && NoPayload(values)
    ensures Steps(specs, info, p, Sizes(values), addressSize, offsetSize)
    decreases |specs|
  {
    if specs != [] {
      PassesFirst(specs, info, p, values, addressSize, offsetSize);
      StepsPastValues(specs[1..], info, p + |EncodeValue(values[0])|, values[1..], addressSize, offsetSize);
    }
  }

  /** So the walk meets every wanted attribute where its value starts. */
  lemma WalkFinds(specs: seq<Spec>, info: seq<byte>, p: nat, values: seq<Value>, addressSize: nat, offsetSize: nat)
    requires At(info, p, EncodeValues(values)) && ValuesOk(specs, values, addressSize, offsetSize) && NoPayload(values)
    ensures WalkValues(ListOf(specs), info, p, addressSize, offsetSize) == Found(Expected(specs, values, p))
  {
    StepsPastValues(specs, info, p, values, addressSize, offsetSize);
    WalkPlaces(specs, info, p, Sizes(values), addressSize, offsetSize);
  }

  lemma NothingLeft(v: Value)
    requires Payload(v) == 0
    ensures Countable(v) && Walked(v) == |EncodeValue(v)|
  {}

  lemma SupportedIsSmall(form: nat, addressSize: nat, offsetSize: nat)
    requires !Standard(form, addressSize, offsetSize).Unsupported?
    ensures form % 0x1_0000 == form
  {}

  /** Entry k is the first with its code. */
  ghost predicate FirstWith(entries: seq<Abbrev>, k: nat) {
    k < |entries| && forall j :: 0 <= j < k ==> entries[j].code != entries[k].code
  }

  lemma EntryStep(abbrev: seq<byte>, ap: nat, code: nat, tag: nat, a1: nat, a2: nat, next: nat, wanted: nat)
    requires ap < |abbrev| && ReadU(abbrev, ap) == Read(code, a1) && code != 0 && ReadU(abbrev, a1) == Read(tag, a2)
    requires SkipSpecs(abbrev, a2 + 1) == Read(true, next)
    ensures FindAbbrev(abbrev, ap, wanted) ==
            if code == wanted then Entry(ParseSpecs(abbrev, a2 + 1)) else FindAbbrev(abbrev, next, wanted)
  {}

  /** The entry with the code is taken, and any other one passed over. */
  lemma EntryRead(abbrev: seq<byte>, ap: nat, a: Abbrev, wanted: nat)
    requires At(abbrev, ap, EncodeAbbrev(a)) && AbbrevOk(a)
    ensures FindAbbrev(abbrev, ap, wanted) ==
            if a.code == wanted then Entry(ListOf(a.specs)) else FindAbbrev(abbrev, ap + |EncodeAbbrev(a)|, wanted)
  {
    var a1, a2 := EntryAt(abbrev, ap, a);
    SpecsRead(abbrev, a2 + 1, a.specs);
    CodeIsPositive(a);
    EntryStep(abbrev, ap, a.code, a.tag, a1, a2, ap + |EncodeAbbrev(a)|, wanted);
  }

  lemma CodeIsPositive(a: Abbrev)
    requires AbbrevOk(a)
    ensures a.code != 0
  {}

  lemma {:induction false} FindAbbrevOf(abbrev: seq<byte>, ap: nat, entries: seq<Abbrev>, k: nat)
    requires At(abbrev, ap, EncodeTable(entries)) && TableOk(entries) && FirstWith(entries, k)
    ensures FindAbbrev(abbrev, ap, entries[k].code) == Entry(ListOf(entries[k].specs))
    decreases k
  {
    var a := entries[0];
    AtConcat(abbrev, ap, EncodeAbbrev(a), EncodeTable(entries[1..]));
    EntryRead(abbrev, ap, a, entries[k].code);
    if k > 0 {
      assert a.code != entries[k].code;
      assert entries[1..][k - 1] == entries[k];
      FindAbbrevOf(abbrev, ap + |EncodeAbbrev(a)|, entries[1..], k - 1);
    }
  }

  /** Code and tag of an entry are read back, and its specifications start behind the children byte. */
  lemma EntryAt(abbrev: seq<byte>, ap: nat, a: Abbrev) returns (a1: nat, a2: nat)
    requires At(abbrev, ap, EncodeAbbrev(a)) && AbbrevOk(a)
    ensures ap < |abbrev| && ReadU(abbrev, ap) == Read(a.code, a1) && ReadU(abbrev, a1) == Read(a.tag, a2)
    ensures At(abbrev, a2 + 1, EncodeSpecs(a.specs)) && a2 + 1 + |EncodeSpecs(a.specs)| == ap + |EncodeAbbrev(a)|
  {
    var specs := EncodeSpecs(a.specs);
    AtConcat(abbrev, ap, EncodeU(a.code), EncodeU(a.tag) + ([a.hasChildren] + specs));
    a1 := ap + |EncodeU(a.code)|;
    AtConcat(abbrev, a1, EncodeU(a.tag), [a.hasChildren] + specs);
    a2 := a1 + |EncodeU(a.tag)|;
    AtConcat(abbrev, a2, [a.hasChildren], specs);
    UnsignedRoundTrip(abbrev, ap, a.code);
    UnsignedRoundTrip(abbrev, a1, a.tag);
  }

  lemma LengthAt(info: seq<byte>, u: Unit)
    requires UnitOk(u) && At(info, 0, EncodeLength(u))
    ensures Load(info, 0, 4).Read? && (Load(info, 0, 4).value == 0xFFFF_FFFF <==> u.is64)
    ensures |EncodeLength(u)| == if u.is64 then 12 else 4
  {
    Pow256Values();
    if u.is64 {
      AtConcat(info, 0, Little(4, 0xFFFF_FFFF), Little(8, u.unitLength));
      LoadLittle(info, 0, 4, 0xFFFF_FFFF);
    } else {
      LoadLittle(info, 0, 4, u.unitLength);
    }
  }

  lemma LoadByte(info: seq<byte>, p: nat, b: byte)
    requires At(info, p, [b])
    ensures Load(info, p, 1) == Read(b as int, p + 1)
  {
    AtCons(info, p, b, []) by { assert [b] == [b] + []; }
    assert Load(info, p + 1, 0) == Read(0, p + 1);
  }

  lemma NewTail(info: seq<byte>, p: nat, u: Unit)
    requires UnitOk(u) && u.version >= 5 && At(info, p, HeaderTail(u))
    ensures Load(info, p + 1, 1) == Read(u.addressSize as int, p + 2)
    ensures Load(info, p + 2, OffsetSize(u)) == Read(u.abbrevOffset, p + 2 + OffsetSize(u))
  {
    var offset := Little(OffsetSize(u), u.abbrevOffset);
    AtConcat(info, p, [u.unitType], [u.addressSize] + offset);
    AtConcat(info, p + 1, [u.addressSize], offset);
    LoadByte(info, p + 1, u.addressSize);
    Pow256Values();
    LoadLittle(info, p + 2, OffsetSize(u), u.abbrevOffset);
  }

  lemma OldTail(info: seq<byte>, p: nat, u: Unit)
    requires UnitOk(u) && u.version < 5 && At(info, p, HeaderTail(u))
    ensures Load(info, p, OffsetSize(u)) == Read(u.abbrevOffset, p + OffsetSize(u))
    ensures Load(info, p + OffsetSize(u), 1) == Read(u.addressSize as int, p + OffsetSize(u) + 1)
  {
    var offset := Little(OffsetSize(u), u.abbrevOffset);
    AtConcat(info, p, offset, [u.addressSize]);
    Pow256Values();
    LoadLittle(info, p, OffsetSize(u), u.abbrevOffset);
    LoadByte(info, p + OffsetSize(u), u.addressSize);
  }

  lemma HeaderAt(info: seq<byte>, u: Unit)
    requires UnitOk(u) && At(info, 0, EncodeHeader(u))
    ensures ReadHeader(info) == Read(Header(u.addressSize as int, OffsetSize(u), u.abbrevOffset), |EncodeHeader(u)|)
  {
    AtConcat(info, 0, EncodeLength(u), Little(2, u.version) + HeaderTail(u));
    LengthAt(info, u);
    var p1 := |EncodeLength(u)|;
    AtConcat(info, p1, Little(2, u.version), HeaderTail(u));
    assert Load(info, p1, 2) == Read(u.version, p1 + 2) by { Pow256Values(); LoadLittle(info, p1, 2, u.version); }
    if u.version >= 5 { NewTail(info, p1 + 2, u); } else { OldTail(info, p1 + 2, u); }
    HeaderStep(info, u, p1, u.addressSize as int, OffsetSize(u), u.abbrevOffset);
  }

  lemma HeaderStep(info: seq<byte>, u: Unit, p1: nat, addressSize: nat, offsetSize: nat, abbrevOffset: nat)
    requires Load(info, 0, 4).Read? && offsetSize == (if Load(info, 0, 4).value == 0xFFFF_FFFF then 8 else 4)
             && p1 == 2 * offsetSize - 4
    requires Load(info, p1, 2) == Read(u.version, p1 + 2)
    requires u.version >= 5 ==>
               && Load(info, p1 + 3, 1) == Read(addressSize, p1 + 4)
               && Load(info, p1 + 4, offsetSize) == Read(abbrevOffset, p1 + 4 + offsetSize)
    requires u.version < 5 ==>
               && Load(info, p1 + 2, offsetSize) == Read(abbrevOffset, p1 + 2 + offsetSize)
               && Load(info, p1 + 2 + offsetSize, 1) == Read(addressSize, p1 + 3 + offsetSize)
    ensures ReadHeader(info) ==
            Read(Header(addressSize, offsetSize, abbrevOffset), p1 + 3 + offsetSize + if u.version >= 5 then 1 else 0)
  {}

  /** A full header of either format, the code of the first DIE and its values in .debug_info, and an abbreviation
      table whose first entry with that code lists the values' forms, all of them supported. */
  ghost predicate Encodes(info: seq<byte>, abbrev: seq<byte>, u: Unit, entries: seq<Abbrev>, k: nat,
      values: seq<Value>) {
    && UnitOk(u) && TableOk(entries) && FirstWith(entries, k)
    && At(info, 0, EncodeHeader(u)) && At(info, |EncodeHeader(u)|, EncodeU(entries[k].code))
    && At(info, |EncodeHeader(u)| + |EncodeU(entries[k].code)|, EncodeValues(values))
    && ValuesOk(entries[k].specs, values, u.addressSize as int, OffsetSize(u))
    && At(abbrev, u.abbrevOffset, EncodeTable(entries))
  }

  /** Where the values start. */
  function Start(u: Unit, entries: seq<Abbrev>, k: nat): nat
    requires k < |entries|
  {
    |EncodeHeader(u)| + |EncodeU(entries[k].code)|
  }

  /** Header, code and table lead to the walk over the right specifications. */
  lemma FindsWalk(info: seq<byte>, abbrev: seq<byte>, u: Unit, entries: seq<Abbrev>, k: nat, values: seq<Value>)
    requires Encodes(info, abbrev, u, entries, k, values)
    ensures FindAttrLocations(info, abbrev) ==
            WalkValues(ListOf(entries[k].specs), info, Start(u, entries, k), u.addressSize as int, OffsetSize(u))
  {
    var h := Header(u.addressSize as int, OffsetSize(u), u.abbrevOffset);
    var p, code, p1 := |EncodeHeader(u)|, entries[k].code, Start(u, entries, k);
    HeaderAt(info, u);
    CodeOk(entries, k);
    UnsignedRoundTrip(info, p, code);
    FindAbbrevOf(abbrev, u.abbrevOffset, entries, k);
    FindStep(info, abbrev, h, p, code, p1, ListOf(entries[k].specs));
  }

  /** Of an encoder's unit whose first DIE has no block with a payload: exactly the wanted attributes are recorded, at
      the offsets where the producer put their values. */
  lemma FindsAttributes(info: seq<byte>, abbrev: seq<byte>, u: Unit, entries: seq<Abbrev>, k: nat, values: seq<Value>)
    requires Encodes(info, abbrev, u, entries, k, values) && NoPayload(values)
    ensures FindAttrLocations(info, abbrev) == Found(Expected(entries[k].specs, values, Start(u, entries, k)))
  {
    FindsWalk(info, abbrev, u, entries, k, values);
    ValuesThere(info, abbrev, u, entries, k, values);
    WalkFinds(entries[k].specs, info, Start(u, entries, k), values, u.addressSize as int, OffsetSize(u));
  }

  lemma ValuesThere(info: seq<byte>, abbrev: seq<byte>, u: Unit, entries: seq<Abbrev>, k: nat, values: seq<Value>)
    requires Encodes(info, abbrev, u, entries, k, values)
    ensures At(info, Start(u, entries, k), EncodeValues(values))
    ensures ValuesOk(entries[k].specs, values, u.addressSize as int, OffsetSize(u))
  {}

  lemma {:induction false} CodeOk(entries: seq<Abbrev>, k: nat)
    requires TableOk(entries) && k < |entries|
    ensures 0 < entries[k].code < TWO_TO_THE_64
  {
    if k > 0 { CodeOk(entries[1..], k - 1); }
  }

  lemma FindStep(info: seq<byte>, abbrev: seq<byte>, h: Header, p: nat, code: nat, p1: nat, specs: SpecList)
    requires ReadHeader(info) == Read(h, p) && ReadU(info, p) == Read(code, p1) && code != 0
    requires FindAbbrev(abbrev, h.abbrevOffset, code) == Entry(specs)
    ensures FindAttrLocations(info, abbrev) == WalkValues(specs, info, p1, h.addressSize, h.offsetSize)
  {}

  // ---- what the recorded places are

  function CountWanted(specs: seq<Spec>): nat {
    if specs == [] then 0 else (if Wanted(specs[0].name, specs[0].form) then 1 else 0) + CountWanted(specs[1..])
  }

  /** The k-th wanted specification. */
  function WantedIndex(specs: seq<Spec>, k: nat): (i: nat)
    requires k < CountWanted(specs)
    ensures i < |specs| && Wanted(specs[i].name, specs[i].form)
  {
    if !Wanted(specs[0].name, specs[0].form) then 1 + WantedIndex(specs[1..], k)
    else if k == 0 then 0
    else 1 + WantedIndex(specs[1..], k - 1)
  }

  lemma {:induction false} WantedOrder(specs: seq<Spec>, j: nat, k: nat)
    requires j < k < CountWanted(specs)
    ensures WantedIndex(specs, j) < WantedIndex(specs, k)
  {
    if !Wanted(specs[0].name, specs[0].form) {
      WantedOrder(specs[1..], j, k);
    } else if j > 0 {
      WantedOrder(specs[1..], j - 1, k - 1);
    }
  }

  function Sum(sizes: seq<nat>, i: nat): nat
    requires i <= |sizes|
  {
    if i == 0 then 0 else sizes[0] + Sum(sizes[1..], i - 1)
  }

  /** The k-th place is where the value of the k-th wanted specification starts. */
  lemma {:induction false} PlaceOf(specs: seq<Spec>, sizes: seq<nat>, p: nat, k: nat)
    requires |specs| == |sizes|
    ensures |Places(specs, sizes, p)| == CountWanted(specs)
    ensures k < CountWanted(specs) ==>
              var i := WantedIndex(specs, k);
              Places(specs, sizes, p)[k] == AttrLocation(p + Sum(sizes, i), specs[i].name == NAME)
  {
    if specs != [] {
      var wanted := Wanted(specs[0].name, specs[0].form);
      PlaceOf(specs[1..], sizes[1..], p + sizes[0], if wanted && k > 0 then k - 1 else k);
    }
  }

  lemma {:induction false} SumGrows(sizes: seq<nat>, i: nat, j: nat)
    requires i < j <= |sizes|
    ensures Sum(sizes, i) + sizes[i] <= Sum(sizes, j)
  {
    if i > 0 { SumGrows(sizes[1..], i - 1, j - 1); }
  }

  lemma {:induction false} ValueAt(values: seq<Value>, info: seq<byte>, p: nat, i: nat)
    requires At(info, p, EncodeValues(values)) && i < |values|
    ensures At(info, p + Sum(Sizes(values), i), EncodeValue(values[i])) && Sizes(values)[i] == |EncodeValue(values[i])|
  {
    AtConcat(info, p, EncodeValue(values[0]), EncodeValues(values[1..]));
    if i > 0 { ValueAt(values[1..], info, p + |EncodeValue(values[0])|, i - 1); }
  }

  lemma WantedIsOffset(specs: seq<Spec>, values: seq<Value>, addressSize: nat, offsetSize: nat, i: nat)
    requires ValuesOk(specs, values, addressSize, offsetSize) && i < |specs| && Wanted(specs[i].name, specs[i].form)
    ensures values[i].Fixed? && |values[i].bytes| == offsetSize
  {
    assert Fits(values[i], Standard(specs[i].form, addressSize, offsetSize));
  }

  /** The k-th recorded place holds the value of the k-th wanted attribute, which is an offset as wide as the
      format's. */
  lemma ExpectedHoldValues(specs: seq<Spec>, values: seq<Value>, p: nat, info: seq<byte>, addressSize: nat,
      offsetSize: nat, k: nat)
    requires ValuesOk(specs, values, addressSize, offsetSize) && At(info, p, EncodeValues(values))
    ensures |Expected(specs, values, p)| == CountWanted(specs)
    ensures k < CountWanted(specs) ==>
              var l, i := Expected(specs, values, p)[k], WantedIndex(specs, k);
              && p <= l.offset && (l.isName <==> specs[i].name == NAME)
              && values[i].Fixed? && |values[i].bytes| == offsetSize && At(info, l.offset, values[i].bytes)
  {
    PlaceOf(specs, Sizes(values), p, k);
    if k < CountWanted(specs) {
      var i := WantedIndex(specs, k);
      ValueAt(values, info, p, i);
      WantedIsOffset(specs, values, addressSize, offsetSize, i);
    }
  }

  /** The offsets go up by at least that width: the recorded values do not overlap. */
  lemma ExpectedApart(specs: seq<Spec>, values: seq<Value>, p: nat, info: seq<byte>, addressSize: nat, offsetSize: nat,
      j: nat, k: nat)
    requires ValuesOk(specs, values, addressSize, offsetSize) && At(info, p, EncodeValues(values))
    requires j < k < |Expected(specs, values, p)|
    ensures Expected(specs, values, p)[j].offset + offsetSize <= Expected(specs, values, p)[k].offset
  {
    var sizes := Sizes(values);
    PlaceOf(specs, sizes, p, j);
    PlaceOf(specs, sizes, p, k);
    WantedOrder(specs, j, k);
    var i := WantedIndex(specs, j);
    ValueAt(values, info, p, i);
    WantedIsOffset(specs, values, addressSize, offsetSize, i);
    SumGrows(sizes, i, WantedIndex(specs, k));
  }

  // ---- which attributes are found, and where

  /** DW_AT_name, or DW_AT_comp_dir, of form DW_FORM_strp or DW_FORM_line_strp. */
  ghost predicate IsAttribute(s: Spec, isName: bool) {
    s.name == (if isName then 0x03 else 0x1b) && (s.form == 0x0e || s.form == 0x1f)
  }

  ghost predicate PlacedBy(specs: seq<Spec>, sizes: seq<nat>, p: nat, i: nat, l: AttrLocation)
    requires |specs| == |sizes| && i < |specs|
  {
    IsAttribute(specs[i], l.isName) && l.offset == p + Sum(sizes, i)
  }

  lemma {:induction false} PlacesIff(specs: seq<Spec>, sizes: seq<nat>, p: nat, l: AttrLocation)
    requires |specs| == |sizes|
    ensures l in Places(specs, sizes, p) <==> exists i: nat :: i < |specs| && PlacedBy(specs, sizes, p, i, l)
  {
    if specs != [] {
      var tail, more, q := specs[1..], sizes[1..], p + sizes[0];
      PlacesIff(tail, more, q, l);
      assert PlacedBy(specs, sizes, p, 0, l) <==>
             Wanted(specs[0].name, specs[0].form) && l == AttrLocation(p, specs[0].name == NAME);
      if i: nat :| i < |tail| && PlacedBy(tail, more, q, i, l) { assert PlacedBy(specs, sizes, p, i + 1, l); }
      if i: nat :| 0 < i < |specs| && PlacedBy(specs, sizes, p, i, l) { assert PlacedBy(tail, more, q, i - 1, l); }
    }
  }

  lemma {:induction false} SumIsFront(values: seq<Value>, i: nat)
    requires i <= |values|
    ensures Sum(Sizes(values), i) == |EncodeValues(values[..i])|
  {
    if i > 0 {
      SumIsFront(values[1..], i - 1);
      assert values[..i][1..] == values[1..][..i - 1];
    }
  }

  /** Attribute l is where value i starts, behind the header, the code and the values in front, and specification i says
      that it is a name, or a directory, that is an offset into a string section. */
  ghost predicate FoundBy(u: Unit, entries: seq<Abbrev>, k: nat, values: seq<Value>, i: nat, l: AttrLocation)
    requires k < |entries| && |entries[k].specs| == |values| && i < |values|
  {
    && IsAttribute(entries[k].specs[i], l.isName)
    && l.offset == |EncodeHeader(u)| + |EncodeU(entries[k].code)| + |EncodeValues(values[..i])|
  }

  /** Of an encoder's unit whose first DIE has no block with a payload, exactly the name and directory attributes of
      these two forms are found, each where its value starts, and in the order of their values. */
  lemma FoundExactly(info: seq<byte>, abbrev: seq<byte>, u: Unit, entries: seq<Abbrev>, k: nat, values: seq<Value>,
      l: AttrLocation)
    requires Encodes(info, abbrev, u, entries, k, values) && NoPayload(values)
    ensures var found := FindAttrLocations(info, abbrev);
            && found.Found?
            && (l in found.locations <==> exists i: nat :: i < |values| && FoundBy(u, entries, k, values, i, l))
            && forall i, j :: 0 <= i < j < |found.locations| ==> found.locations[i].offset < found.locations[j].offset
  {
    FindsAttributes(info, abbrev, u, entries, k, values);
    var specs, sizes, p := entries[k].specs, Sizes(values), Start(u, entries, k);
    PlacesIff(specs, sizes, p, l);
    forall i: nat | i < |values| ensures FoundBy(u, entries, k, values, i, l) <==> PlacedBy(specs, sizes, p, i, l) {
      SumIsFront(values, i);
    }
    var locs := Expected(specs, values, p);
    forall i, j | 0 <= i < j < |locs| ensures locs[i].offset < locs[j].offset {
      ExpectedApart(specs, values, p, info, u.addressSize as int, OffsetSize(u), i, j);
    }
  }

  // ---- two units, byte by byte

  /** An abbreviation of a DIE with a name and a directory, and the end of the table. */
  const TABLE: seq<byte> := [1, 0x11, 0, 0x03, 0x0e, 0x1b, 0x1f, 0, 0, 0]

  lemma OneByte(data: seq<byte>, p: nat)
    requires p < |data| && data[p] < 128
    ensures ReadU(data, p) == Read(data[p] as nat, p + 1)
  {
    assert Shl(data[p] as int, 0) == data[p] as int;
  }

  lemma TableRead()
    ensures FindAbbrev(TABLE, 0, 1) == Entry(More(Pair(0x03, 0x0e), More(Pair(0x1b, 0x1f), Done)))
  {
    OneByte(TABLE, 0);
    OneByte(TABLE, 1);
    OneByte(TABLE, 3);
    OneByte(TABLE, 4);
    OneByte(TABLE, 5);
    OneByte(TABLE, 6);
    OneByte(TABLE, 7);
    OneByte(TABLE, 8);
    assert ReadSpec(TABLE, 3) == Read(Pair(0x03, 0x0e), 5);
    assert ReadSpec(TABLE, 5) == Read(Pair(0x1b, 0x1f), 7);
    assert ReadSpec(TABLE, 7) == Read(Pair(0, 0), 9);
    assert ParseSpecs(TABLE, 7) == Done;
    assert ParseSpecs(TABLE, 5) == More(Pair(0x1b, 0x1f), Done);
  }

  lemma TwoAttributes(info: seq<byte>, p: nat)
    ensures WalkValues(More(Pair(0x03, 0x0e), More(Pair(0x1b, 0x1f), Done)), info, p, 8, 4) ==
            Found([AttrLocation(p, true), AttrLocation(p + 4, false)])
  {
    var rest := More(Pair(0x1b, 0x1f), Done);
    assert WalkValues(Done, info, p + 8, 8, 4) == Found([]);
    assert WalkValues(rest, info, p + 4, 8, 4) == Found([AttrLocation(p + 4, false)]);
  }

  /** The 32-bit format: a length, and in version 4 the offset of the table in front of the address size, in version 5
      behind it and the unit's type; then the code and the attributes. */
  lemma UnitExamples(rest: seq<byte>)
    ensures FindAttrLocations([24, 0, 0, 0, 4, 0, 0, 0, 0, 0, 8, 1] + rest, TABLE) ==
            Found([AttrLocation(12, true), AttrLocation(16, false)])
    ensures FindAttrLocations([24, 0, 0, 0, 5, 0, 1, 8, 0, 0, 0, 0, 1] + rest, TABLE) ==
            Found([AttrLocation(13, true), AttrLocation(17, false)])
  {
    Version4(rest);
    Version5(rest);
  }

  lemma Version4(rest: seq<byte>)
    ensures FindAttrLocations([24, 0, 0, 0, 4, 0, 0, 0, 0, 0, 8, 1] + rest, TABLE) ==
            Found([AttrLocation(12, true), AttrLocation(16, false)])
  {
    var info := [24, 0, 0, 0, 4, 0, 0, 0, 0, 0, 8, 1] + rest;
    LoadIs(info, 0);
    LoadIs(info, 6);
    TwoBytes(info, 4);
    LastByte(info, 10);
    OneByte(info, 11);
    assert ReadHeader(info) == Read(Header(8, 4, 0), 11);
    TableRead();
    TwoAttributes(info, 12);
  }

  lemma Version5(rest: seq<byte>)
    ensures FindAttrLocations([24, 0, 0, 0, 5, 0, 1, 8, 0, 0, 0, 0, 1] + rest, TABLE) ==
            Found([AttrLocation(13, true), AttrLocation(17, false)])
  {
    var info := [24, 0, 0, 0, 5, 0, 1, 8, 0, 0, 0, 0, 1] + rest;
    LoadIs(info, 0);
    LoadIs(info, 8);
    TwoBytes(info, 4);
    LastByte(info, 7);
    OneByte(info, 12);
    assert ReadHeader(info) == Read(Header(8, 4, 0), 12);
    TableRead();
    TwoAttributes(info, 13);
  }

  lemma LastByte(info: seq<byte>, p: nat)
    requires p < |info|
    ensures Load(info, p, 1) == Read(info[p] as int, p + 1)
  {
    assert Load(info, p + 1, 0) == Read(0, p + 1);
  }

  lemma TwoBytes(info: seq<byte>, p: nat)
    requires p + 2 <= |info|
    ensures Load(info, p, 2) == Read(info[p] as int + 256 * info[p + 1] as int, p + 2)
  {
    LastByte(info, p + 1);
  }
}
