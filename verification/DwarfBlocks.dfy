/** What blocks do to the search: the walk goes on right behind a block's length instead of behind its payload. */
module DwarfBlocks {
  import opened Bytes
  import opened Leb128
  import opened DwarfForms
  import opened DwarfWalk

  // ---- no payload in front of what is wanted

  /** No block with a payload precedes a wanted attribute. */
  predicate InFront(specs: seq<Spec>, values: seq<Value>)
    requires |specs| == |values|
  {
    specs == [] || ((Payload(values[0]) > 0 ==> CountWanted(specs[1..]) == 0) && InFront(specs[1..], values[1..]))
  }

  lemma WalkStep(s: Pair, rest: SpecList, info: seq<byte>, p: nat, addressSize: nat, offsetSize: nat)
    ensures WalkValues(More(s, rest), info, p, addressSize, offsetSize).Found? ==>
            var past := PastValue(s.form % 0x1_0000, addressSize, offsetSize, info, p);
            && past.To? && WalkValues(rest, info, past.next, addressSize, offsetSize).Found?
            && WalkValues(More(s, rest), info, p, addressSize, offsetSize).locations ==
               (if Wanted(s.name, s.form) then [AttrLocation(p, s.name == NAME)] else [])
               + WalkValues(rest, info, past.next, addressSize, offsetSize).locations
  {}

  lemma {:induction false} NothingWanted(specs: seq<Spec>, info: seq<byte>, p: nat, addressSize: nat, offsetSize: nat)
    requires CountWanted(specs) == 0
    ensures var o := WalkValues(ListOf(specs), info, p, addressSize, offsetSize); o.Found? ==> o == Found([])
    decreases |specs|
  {
    if specs != [] {
      var s, rest := Pair(specs[0].name, specs[0].form), ListOf(specs[1..]);
      WalkStep(s, rest, info, p, addressSize, offsetSize);
      var past := PastValue(s.form % 0x1_0000, addressSize, offsetSize, info, p);
      if past.To? { NothingWanted(specs[1..], info, past.next, addressSize, offsetSize); }
    }
  }

  /** Each step is past a value, up to one behind which nothing is wanted. */
  ghost predicate StepsInFront(specs: seq<Spec>, info: seq<byte>, p: nat, sizes: seq<nat>, addressSize: nat,
      offsetSize: nat)
  {
    && |specs| == |sizes|
    && (specs == [] || CountWanted(specs[1..]) == 0
        || (PastValue(specs[0].form % 0x1_0000, addressSize, offsetSize, info, p) == To(p + sizes[0])
            && StepsInFront(specs[1..], info, p + sizes[0], sizes[1..], addressSize, offsetSize)))
  }

  lemma {:induction false} InFrontSteps(specs: seq<Spec>, info: seq<byte>, p: nat, values: seq<Value>, addressSize: nat,
      offsetSize: nat)
    requires At(info, p, EncodeValues(values)) && ValuesOk(specs, values, addressSize, offsetSize)
    requires InFront(specs, values)
    ensures StepsInFront(specs, info, p, Sizes(values), addressSize, offsetSize)
    decreases |specs|
  {
    if specs != [] && CountWanted(specs[1..]) > 0 {
      PassesFirst(specs, info, p, values, addressSize, offsetSize);
      InFrontSteps(specs[1..], info, p + |EncodeValue(values[0])|, values[1..], addressSize, offsetSize);
    }
  }

  lemma {:induction false} WalkInFront(specs: seq<Spec>, info: seq<byte>, p: nat, sizes: seq<nat>, addressSize: nat,
      offsetSize: nat)
    requires StepsInFront(specs, info, p, sizes, addressSize, offsetSize)
    ensures var o := WalkValues(ListOf(specs), info, p, addressSize, offsetSize);
            o.Found? ==> o.locations == Places(specs, sizes, p)
    decreases |specs|
  {
    if specs != [] {
      var s, rest := Pair(specs[0].name, specs[0].form), ListOf(specs[1..]);
      var past := PastValue(s.form % 0x1_0000, addressSize, offsetSize, info, p);
      WalkStep(s, rest, info, p, addressSize, offsetSize);
      if CountWanted(specs[1..]) == 0 {
        PlaceOf(specs[1..], sizes[1..], p + sizes[0], 0);
        if past.To? { NothingWanted(specs[1..], info, past.next, addressSize, offsetSize); }
      } else {
        WalkInFront(specs[1..], info, p + sizes[0], sizes[1..], addressSize, offsetSize);
      }
    }
  }

  // ---- where a wanted attribute behind a payload is looked for

  function Walks(values: seq<Value>): (r: seq<nat>)
    ensures |r| == |values|
  {
    if values == [] then [] else [Walked(values[0])] + Walks(values[1..])
  }

  /** Where the walk puts the wanted attributes. */
  function Recorded(specs: seq<Spec>, values: seq<Value>, p: nat): seq<AttrLocation>
    requires |specs| == |values|
  {
    Places(specs, Walks(values), p)
  }

  predicate AllSteady(specs: seq<Spec>, addressSize: nat, offsetSize: nat) {
    specs == []
    || (Steady(Standard(specs[0].form, addressSize, offsetSize)) && AllSteady(specs[1..], addressSize, offsetSize))
  }

  /** Behind the first payload, only forms that step the same wherever they are read. */
  predicate SteadyBehind(specs: seq<Spec>, values: seq<Value>, addressSize: nat, offsetSize: nat)
    requires |specs| == |values|
  {
    specs == []
    || if Payload(values[0]) == 0 then SteadyBehind(specs[1..], values[1..], addressSize, offsetSize)
       else Countable(values[0]) && AllSteady(specs[1..], addressSize, offsetSize)
  }

  lemma {:induction false} WalkedInside(values: seq<Value>)
    ensures Sum(Walks(values), |values|) <= |EncodeValues(values)|
  {
    if values != [] {
      WalkedPart(values[0]);
      WalkedInside(values[1..]);
    }
  }

  lemma SteadyFirst(specs: seq<Spec>, info: seq<byte>, p: nat, values: seq<Value>, addressSize: nat, offsetSize: nat)
    requires specs != [] && ValuesOk(specs, values, addressSize, offsetSize)
    requires Steady(Standard(specs[0].form, addressSize, offsetSize)) && p + Walked(values[0]) <= |info|
    ensures PastValue(specs[0].form % 0x1_0000, addressSize, offsetSize, info, p) == To(p + Walked(values[0]))
    ensures ValuesOk(specs[1..], values[1..], addressSize, offsetSize)
  {
    var layout := Standard(specs[0].form, addressSize, offsetSize);
    assert Fits(values[0], layout);
    forall i | 0 <= i < |specs| - 1
      ensures Fits(values[1..][i], Standard(specs[1..][i].form, addressSize, offsetSize))
    {
      assert Fits(values[i + 1], Standard(specs[i + 1].form, addressSize, offsetSize));
    }
    StepIsWalked(values[0], layout);
    SupportedIsSmall(specs[0].form, addressSize, offsetSize);
    PastSteady(specs[0].form, addressSize, offsetSize, info, p);
  }

  lemma {:induction false} StepsSteadily(specs: seq<Spec>, info: seq<byte>, p: nat, values: seq<Value>,
      addressSize: nat, offsetSize: nat)
    requires ValuesOk(specs, values, addressSize, offsetSize) && AllSteady(specs, addressSize, offsetSize)
    requires p + Sum(Walks(values), |values|) <= |info|
    ensures Steps(specs, info, p, Walks(values), addressSize, offsetSize)
    decreases |specs|
  {
    if specs != [] {
      SteadyFirst(specs, info, p, values, addressSize, offsetSize);
      StepsSteadily(specs[1..], info, p + Walked(values[0]), values[1..], addressSize, offsetSize);
    }
  }

  lemma {:induction false} StepsOnLengths(specs: seq<Spec>, info: seq<byte>, p: nat, values: seq<Value>,
      addressSize: nat, offsetSize: nat)
    requires At(info, p, EncodeValues(values)) && ValuesOk(specs, values, addressSize, offsetSize)
    requires SteadyBehind(specs, values, addressSize, offsetSize)
    ensures Steps(specs, info, p, Walks(values), addressSize, offsetSize)
    decreases |specs|
  {
    if specs != [] {
      var v, next := values[0], p + Walked(values[0]);
      PassesFirst(specs, info, p, values, addressSize, offsetSize);
      if Payload(v) == 0 {
        StepsOnLengths(specs[1..], info, next, values[1..], addressSize, offsetSize);
      } else {
        WalkedInside(values[1..]);
        StepsSteadily(specs[1..], info, next, values[1..], addressSize, offsetSize);
      }
    }
  }

  /** The payloads in front of value i. */
  function PayloadsBefore(values: seq<Value>, i: nat): nat
    requires i <= |values|
  {
    if i == 0 then 0 else Payload(values[0]) + PayloadsBefore(values[1..], i - 1)
  }

  lemma {:induction false} ShortBy(values: seq<Value>, i: nat)
    requires i <= |values|
    ensures Sum(Walks(values), i) + PayloadsBefore(values, i) == Sum(Sizes(values), i)
  {
    if i > 0 {
      WalkedPart(values[0]);
      ShortBy(values[1..], i - 1);
    }
  }

  /** The k-th wanted attribute has no payload in front of it. */
  predicate NothingBefore(specs: seq<Spec>, values: seq<Value>, k: nat)
    requires |specs| == |values| && k < CountWanted(specs)
  {
    PayloadsBefore(values, WantedIndex(specs, k)) == 0
  }

  lemma {:induction false} InFrontIff(specs: seq<Spec>, values: seq<Value>)
    requires |specs| == |values|
    ensures InFront(specs, values) <==> forall k :: 0 <= k < CountWanted(specs) ==> NothingBefore(specs, values, k)
  {
    if specs != [] {
      var wanted := if Wanted(specs[0].name, specs[0].form) then 1 else 0;
      InFrontIff(specs[1..], values[1..]);
      forall k | 0 <= k < CountWanted(specs[1..])
        ensures NothingBefore(specs, values, k + wanted) <==>
                Payload(values[0]) == 0 && NothingBefore(specs[1..], values[1..], k)
      {}
      if wanted == 1 { assert NothingBefore(specs, values, 0); }
      if InFront(specs, values) {
        forall k | 0 <= k < CountWanted(specs) ensures NothingBefore(specs, values, k) {
          if k >= wanted { assert NothingBefore(specs[1..], values[1..], k - wanted); }
        }
      } else if CountWanted(specs[1..]) > 0 && Payload(values[0]) > 0 {
        assert !NothingBefore(specs, values, 0 + wanted);
      } else {
        var k :| 0 <= k < CountWanted(specs[1..]) && !NothingBefore(specs[1..], values[1..], k);
        assert !NothingBefore(specs, values, k + wanted);
      }
    }
  }

  /** Each place is short of where the value starts by the payloads in front of it. */
  lemma RecordedShort(specs: seq<Spec>, values: seq<Value>, p: nat, k: nat)
    requires |specs| == |values|
    ensures |Recorded(specs, values, p)| == |Expected(specs, values, p)| == CountWanted(specs)
    ensures k < CountWanted(specs) ==>
              var rec, exp := Recorded(specs, values, p)[k], Expected(specs, values, p)[k];
              rec.isName == exp.isName && rec.offset + PayloadsBefore(values, WantedIndex(specs, k)) == exp.offset
  {
    PlaceOf(specs, Walks(values), p, k);
    PlaceOf(specs, Sizes(values), p, k);
    if k < CountWanted(specs) { ShortBy(values, WantedIndex(specs, k)); }
  }

  /** So all are right exactly when there are none. */
  lemma RecordedRightIff(specs: seq<Spec>, values: seq<Value>, p: nat)
    requires |specs| == |values|
    ensures Recorded(specs, values, p) == Expected(specs, values, p) <==> InFront(specs, values)
  {
    var rec, exp := Recorded(specs, values, p), Expected(specs, values, p);
    RecordedShort(specs, values, p, 0);
    InFrontIff(specs, values);
    forall k | 0 <= k < CountWanted(specs) ensures rec[k] == exp[k] <==> NothingBefore(specs, values, k) {
      RecordedShort(specs, values, p, k);
    }
  }

  // ---- whole units

  /** Of an encoder's unit in whose first DIE no payload precedes a wanted attribute, no wrong place is recorded,
      whatever the walk makes of what follows: it fails, or finds every wanted attribute where its value starts. */
  lemma FindsInFront(info: seq<byte>, abbrev: seq<byte>, u: Unit, entries: seq<Abbrev>, k: nat, values: seq<Value>)
    requires Encodes(info, abbrev, u, entries, k, values) && InFront(entries[k].specs, values)
    ensures var o := FindAttrLocations(info, abbrev);
            o.Found? ==> o == Found(Expected(entries[k].specs, values, Start(u, entries, k)))
  {
    FindsWalk(info, abbrev, u, entries, k, values);
    var specs, p := entries[k].specs, Start(u, entries, k);
    InFrontSteps(specs, info, p, values, u.addressSize as int, OffsetSize(u));
    WalkInFront(specs, info, p, Sizes(values), u.addressSize as int, OffsetSize(u));
  }

  /** And where only forms of fixed size, block1 and block2 follow the first payload, the attributes are recorded short
      of their values by the payloads in front of them: all of them rightly if and only if there are none. */
  lemma BlocksMisplace(info: seq<byte>, abbrev: seq<byte>, u: Unit, entries: seq<Abbrev>, k: nat, values: seq<Value>)
    requires Encodes(info, abbrev, u, entries, k, values)
    requires SteadyBehind(entries[k].specs, values, u.addressSize as int, OffsetSize(u))
    ensures var specs, p := entries[k].specs, Start(u, entries, k);
            var o, exp := FindAttrLocations(info, abbrev), Expected(specs, values, p);
            && o.Found? && |o.locations| == |exp| == CountWanted(specs)
            && (forall i :: 0 <= i < |exp| ==>
                  o.locations[i].offset + PayloadsBefore(values, WantedIndex(specs, i)) == exp[i].offset)
            && (o == Found(exp) <==> InFront(specs, values))
  {
    var specs, p := entries[k].specs, Start(u, entries, k);
    FindsWalk(info, abbrev, u, entries, k, values);
    StepsOnLengths(specs, info, p, values, u.addressSize as int, OffsetSize(u));
    WalkPlaces(specs, info, p, Walks(values), u.addressSize as int, OffsetSize(u));
    RecordedRightIff(specs, values, p);
    RecordedShort(specs, values, p, 0);
    forall i | 0 <= i < CountWanted(specs)
      ensures Recorded(specs, values, p)[i].offset + PayloadsBefore(values, WantedIndex(specs, i)) ==
              Expected(specs, values, p)[i].offset
    {
      RecordedShort(specs, values, p, i);
    }
  }
}
