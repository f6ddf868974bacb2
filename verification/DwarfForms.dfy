/** The size of an attribute value: the patcher's form switch against DWARF 5, section 7.5.6. */
module DwarfForms {
  import opened Bytes
  import opened Leb128

  const STRP: nat := 0x0e
  const LINE_STRP: nat := 0x1f
  const IMPLICIT_CONST: nat := 0x21

  /** Little-endian loads, as memcpy does them on the machines the client runs on. */
  function Load(data: seq<byte>, p: nat, n: nat): (r: Reading<nat>)
    ensures r.Read? ==> r.next == p + n <= |data|
    decreases n
  {
    if p + n > |data| then Fault
    else if n == 0 then Read(0, p)
    else
      var high := Load(data, p + 1, n - 1);
      Read(data[p] as int + 256 * high.value, p + n)
  }

  lemma {:induction false} LoadInside(data: seq<byte>, p: nat, n: nat)
    ensures Load(data, p, n).Read? <==> p + n <= |data|
    decreases n
  {
    if n > 0 { LoadInside(data, p + 1, n - 1); }
  }

  lemma {:induction false} LoadSame(a: seq<byte>, b: seq<byte>, p: nat, n: nat)
    requires |a| == |b| && p + n <= |a| && forall i :: p <= i < p + n ==> a[i] == b[i]
    ensures Load(a, p, n) == Load(b, p, n)
    decreases n
  {
    if n > 0 { LoadSame(a, b, p + 1, n - 1); }
  }

  function Little(n: nat, v: nat): (b: seq<byte>)
    ensures |b| == n
  {
    if n == 0 then [] else [(v % 256) as byte] + Little(n - 1, v / 256)
  }

  lemma {:induction false} LoadLittle(data: seq<byte>, p: nat, n: nat, v: nat)
    requires At(data, p, Little(n, v)) && v < Pow256(n)
    ensures Load(data, p, n) == Read(v, p + n)
    decreases n
  {
    if n > 0 {
      AtCons(data, p, (v % 256) as byte, Little(n - 1, v / 256));
      LoadLittle(data, p + 1, n - 1, v / 256);
    }
  }

  function Pow256(n: nat): nat { if n == 0 then 1 else 256 * Pow256(n - 1) }

  lemma Pow256Values()
    ensures Pow256(1) == 256 && Pow256(2) == 0x1_0000 && Pow256(4) == 0x1_0000_0000 && Pow256(8) == TWO_TO_THE_64
  {
    assert Pow256(3) == 0x100_0000 && Pow256(5) == 0x100_0000_0000 && Pow256(6) == 0x1_0000_0000_0000;
  }

  // ---- the switch

  /** The length of the C string at p. */
  function StringLength(data: seq<byte>, p: nat): (r: Reading<nat>)
    ensures r.Read? ==> r.next == p
    decreases |data| - p
  {
    if p >= |data| then Fault
    else if data[p] == 0 then Read(0, p)
    else match StringLength(data, p + 1)
      case Fault => Fault
      case Read(n, _) => Read(n + 1, p)
  }

  function SkipU(data: seq<byte>, p: nat): (r: Reading<int>)
    ensures r.Read? ==> p < r.next <= |data|
  {
    match ReadU(data, p) case Fault => Fault case Read(_, next) => Read(0, next)
  }

  /** A size computed from an unsigned LEB128 is cast to int. */
  function AsInt(n: nat): int {
    var m := n % TWO_TO_THE_32;
    if m >= 0x8000_0000 then m - TWO_TO_THE_32 else m
  }

  /** The returned size, and where the pointer was left; negative for a form it does not know. */
  function FormSize(form: nat, addressSize: nat, offsetSize: nat, data: seq<byte>, p: nat): Reading<int> {
    if form == 0x01 then Read(addressSize, p)
    else if form == 0x0b || form == 0x11 || form == 0x0c || form == 0x25 || form == 0x29 then Read(1, p)
    else if form == 0x05 || form == 0x12 || form == 0x26 || form == 0x2a then Read(2, p)
    else if form == 0x27 || form == 0x2b then Read(3, p)
    else if form == 0x06 || form == 0x13 || form == 0x1c || form == 0x28 || form == 0x2c then Read(4, p)
    else if form == 0x07 || form == 0x14 || form == 0x20 || form == 0x24 then Read(8, p)
    else if form == 0x1e then Read(16, p)
    else if form == STRP || form == LINE_STRP || form == 0x17 || form == 0x10 || form == 0x1d then Read(offsetSize, p)
    else if form == 0x19 || form == IMPLICIT_CONST then Read(0, p)
    else if form == 0x0d then match ReadS(data, p) { case Fault => Fault case Read(_, next) => Read(0, next) }
    else if form == 0x0f || form == 0x15 || form == 0x22 || form == 0x23 || form == 0x1a || form == 0x1b then
      SkipU(data, p)
    else if form == 0x08 then match StringLength(data, p) { case Fault => Fault case Read(n, _) => Read(n + 1, p) }
    else if form == 0x0a then match Load(data, p, 1) { case Fault => Fault case Read(n, next) => Read(n, next) }
    else if form == 0x03 then match Load(data, p, 2) { case Fault => Fault case Read(n, next) => Read(n, next) }
    else if form == 0x04 then match Load(data, p, 4) { case Fault => Fault case Read(n, next) => Read(AsInt(n), next) }
    else if form == 0x09 || form == 0x18 then
      match ReadU(data, p) { case Fault => Fault case Read(n, next) => Read(AsInt(n), next) }
    else Read(-1, p)
  }

  /** Past the value, as the walk does it: by the size only if the pointer has not moved; None for an unknown form. */
  datatype Past = Stop | Unknown | To(next: nat)

  function PastValue(form: nat, addressSize: nat, offsetSize: nat, data: seq<byte>, p: nat): Past {
    match FormSize(form, addressSize, offsetSize, data, p)
    case Fault => Stop
    case Read(sz, next) => if sz < 0 then Unknown else if next == p then To(p + sz) else To(next)
  }

  // ---- the standard

  /** A block begins with the length of its payload, in `width` bytes or, if that is 0, as an unsigned LEB128. */
  datatype Value = Fixed(bytes: seq<byte>) | Signed(n: int) | Unsigned(u: nat) | Text(chars: seq<byte>)
    | Block(width: nat, payload: seq<byte>)

  function BlockHead(width: nat, n: nat): seq<byte> { if width == 0 then EncodeU(n) else Little(width, n) }

  function EncodeValue(v: Value): seq<byte> {
    match v
    case Fixed(bytes) => bytes
    case Signed(n) => EncodeS(n)
    case Unsigned(n) => EncodeU(n)
    case Text(chars) => chars + [0]
    case Block(width, payload) => BlockHead(width, |payload|) + payload
  }

  /** How a form is laid out, form by form in the order of the standard's table; the indirect form is not among them. */
  datatype Layout = Bytes(n: nat) | SignedLeb | UnsignedLeb | CString | Sized(width: nat) | Unsupported

  function Standard(form: nat, addressSize: nat, offsetSize: nat): Layout {
    match form
    case 0x01 => Bytes(addressSize) // addr
    case 0x03 => Sized(2)           // block2
    case 0x04 => Sized(4)           // block4
    case 0x05 => Bytes(2)           // data2
    case 0x06 => Bytes(4)           // data4
    case 0x07 => Bytes(8)           // data8
    case 0x08 => CString            // string
    case 0x09 => Sized(0)           // block
    case 0x0a => Sized(1)           // block1
    case 0x0b => Bytes(1)           // data1
    case 0x0c => Bytes(1)           // flag
    case 0x0d => SignedLeb          // sdata
    case 0x0e => Bytes(offsetSize)  // strp
    case 0x0f => UnsignedLeb        // udata
    case 0x10 => Bytes(offsetSize)  // ref_addr
    case 0x11 => Bytes(1)           // ref1
    case 0x12 => Bytes(2)           // ref2
    case 0x13 => Bytes(4)           // ref4
    case 0x14 => Bytes(8)           // ref8
    case 0x15 => UnsignedLeb        // ref_udata
    case 0x17 => Bytes(offsetSize)  // sec_offset
    case 0x18 => Sized(0)           // exprloc
    case 0x19 => Bytes(0)           // flag_present
    case 0x1a => UnsignedLeb        // strx
    case 0x1b => UnsignedLeb        // addrx
    case 0x1c => Bytes(4)           // ref_sup4
    case 0x1d => Bytes(offsetSize)  // strp_sup
    case 0x1e => Bytes(16)          // data16
    case 0x1f => Bytes(offsetSize)  // line_strp
    case 0x20 => Bytes(8)           // ref_sig8
    case 0x21 => Bytes(0)           // implicit_const
    case 0x22 => UnsignedLeb        // loclistx
    case 0x23 => UnsignedLeb        // rnglistx
    case 0x24 => Bytes(8)           // ref_sup8
    case 0x25 => Bytes(1)           // strx1
    case 0x26 => Bytes(2)           // strx2
    case 0x27 => Bytes(3)           // strx3
    case 0x28 => Bytes(4)           // strx4
    case 0x29 => Bytes(1)           // addrx1
    case 0x2a => Bytes(2)           // addrx2
    case 0x2b => Bytes(3)           // addrx3
    case 0x2c => Bytes(4)           // addrx4
    case _ => Unsupported
  }

  ghost predicate Fits(v: Value, layout: Layout) {
    match layout
    case Bytes(n) => v.Fixed? && |v.bytes| == n
    case SignedLeb => v.Signed? && -TWO_TO_THE_63 <= v.n < TWO_TO_THE_63
    case UnsignedLeb => v.Unsigned? && v.u < TWO_TO_THE_64
    case CString => v.Text? && 0 !in v.chars
    case Sized(w) => v.Block? && v.width == w && |v.payload| < if w == 0 then TWO_TO_THE_64 else Pow256(w)
    case Unsupported => false
  }

  lemma {:induction false} StringLengthAt(data: seq<byte>, p: nat, chars: seq<byte>)
    requires At(data, p, chars + [0]) && 0 !in chars
    ensures StringLength(data, p) == Read(|chars|, p)
    decreases |chars|
  {
    if chars == [] {
      AtCons(data, p, 0, []) by { assert chars + [0] == [0] + []; }
    } else {
      assert chars + [0] == [chars[0]] + (chars[1..] + [0]);
      AtCons(data, p, chars[0], chars[1..] + [0]);
      StringLengthAt(data, p + 1, chars[1..]);
    }
  }

  /** The payload's length survives the cast to int. */
  predicate Countable(v: Value) { v.Block? ==> AsInt(|v.payload|) >= 0 }

  /** What the walk passes of a value: of a block only the length. */
  function Walked(v: Value): nat {
    if v.Block? then |BlockHead(v.width, |v.payload|)| else |EncodeValue(v)|
  }

  /** What it leaves. */
  function Payload(v: Value): nat { if v.Block? then |v.payload| else 0 }

  lemma WalkedPart(v: Value)
    ensures |EncodeValue(v)| == Walked(v) + Payload(v)
  {}

  lemma AsIntSmall(n: nat)
    requires n < 0x8000_0000
    ensures AsInt(n) == n
  {}

  lemma LengthRead(data: seq<byte>, p: nat, width: nat, n: nat)
    requires At(data, p, Little(width, n)) && n < Pow256(width)
    requires width == 1 || width == 2 || width == 4
    ensures Load(data, p, width) == Read(n, p + width)
  {
    LoadLittle(data, p, width, n);
  }

  /** Past the length of a block, unless the cast makes it negative. */
  lemma PastBlock(form: nat, addressSize: nat, offsetSize: nat, data: seq<byte>, p: nat, v: Value)
    requires v.Block? && Fits(v, Standard(form, addressSize, offsetSize)) && At(data, p, EncodeValue(v))
    ensures PastValue(form, addressSize, offsetSize, data, p) == if Countable(v) then To(p + Walked(v)) else Unknown
  {
    var n := |v.payload|;
    AtConcat(data, p, BlockHead(v.width, n), v.payload);
    if v.width == 0 {
      UnsignedRoundTrip(data, p, n);
    } else {
      LengthRead(data, p, v.width, n);
      Pow256Values();
      if v.width < 4 { AsIntSmall(n); }
    }
  }

  /** For every form of the standard the client supports, the walk moves exactly past the value, or, for a block, past
      its length. */
  lemma PastValueOf(form: nat, addressSize: nat, offsetSize: nat, data: seq<byte>, p: nat, v: Value)
    requires Fits(v, Standard(form, addressSize, offsetSize)) && At(data, p, EncodeValue(v))
    ensures PastValue(form, addressSize, offsetSize, data, p) == if Countable(v) then To(p + Walked(v)) else Unknown
  {
    match v
    case Fixed(_) =>
    case Signed(n) => SignedRoundTrip(data, p, n);
    case Unsigned(n) => UnsignedRoundTrip(data, p, n);
    case Text(chars) => StringLengthAt(data, p, chars);
    case Block(_, _) => PastBlock(form, addressSize, offsetSize, data, p, v);
  }

  // ---- forms that step the same wherever they are read

  predicate Steady(layout: Layout) { layout.Bytes? || layout == Sized(1) || layout == Sized(2) }

  function Step(layout: Layout): nat
    requires Steady(layout)
  {
    if layout.Bytes? then layout.n else layout.width
  }

  lemma StepIsWalked(v: Value, layout: Layout)
    requires Steady(layout) && Fits(v, layout)
    ensures Step(layout) == Walked(v)
  {}

  /** Whatever the bytes there are. */
  lemma PastSteady(form: nat, addressSize: nat, offsetSize: nat, data: seq<byte>, p: nat)
    requires Steady(Standard(form, addressSize, offsetSize))
    requires p + Step(Standard(form, addressSize, offsetSize)) <= |data|
    ensures PastValue(form, addressSize, offsetSize, data, p) == To(p + Step(Standard(form, addressSize, offsetSize)))
  {
    if form == 0x0a {
      assert Load(data, p + 1, 0) == Read(0, p + 1);
    } else if form == 0x03 {
      assert Load(data, p + 2, 0) == Read(0, p + 2);
      assert Load(data, p + 1, 1) == Read(data[p + 1] as int, p + 2);
    }
  }

  /** The forms of fixed size, by their codes: which bytes stand there does not matter. */
  lemma FixedSizes(form: nat, addressSize: nat, offsetSize: nat, data: seq<byte>, p: nat)
    ensures form in {0x19, 0x21} ==> PastValue(form, addressSize, offsetSize, data, p) == To(p)
    ensures form in {0x0b, 0x0c, 0x11, 0x25, 0x29} ==> PastValue(form, addressSize, offsetSize, data, p) == To(p + 1)
    ensures form in {0x05, 0x12, 0x26, 0x2a} ==> PastValue(form, addressSize, offsetSize, data, p) == To(p + 2)
    ensures form in {0x27, 0x2b} ==> PastValue(form, addressSize, offsetSize, data, p) == To(p + 3)
    ensures form in {0x06, 0x13, 0x1c, 0x28, 0x2c} ==> PastValue(form, addressSize, offsetSize, data, p) == To(p + 4)
    ensures form in {0x07, 0x14, 0x20, 0x24} ==> PastValue(form, addressSize, offsetSize, data, p) == To(p + 8)
    ensures form == 0x1e ==> PastValue(form, addressSize, offsetSize, data, p) == To(p + 16)
    ensures form == 0x01 ==> PastValue(form, addressSize, offsetSize, data, p) == To(p + addressSize)
    ensures form in {0x0e, 0x10, 0x17, 0x1d, 0x1f} ==>
              PastValue(form, addressSize, offsetSize, data, p) == To(p + offsetSize)
  {}

  /** And the others: an integer ends with its first byte below 128, a string behind its NUL; no other code is known. */
  lemma OtherSizes(form: nat, addressSize: nat, offsetSize: nat, data: seq<byte>, p: nat)
    requires form !in {0x19, 0x21, 0x0b, 0x0c, 0x11, 0x25, 0x29, 0x05, 0x12, 0x26, 0x2a, 0x27, 0x2b, 0x1e, 0x01}
    requires form !in {0x06, 0x13, 0x1c, 0x28, 0x2c, 0x07, 0x14, 0x20, 0x24, 0x0e, 0x10, 0x17, 0x1d, 0x1f}
    requires p < |data|
    ensures form in {0x0d, 0x0f, 0x15, 0x1a, 0x1b, 0x22, 0x23} && data[p] < 128 ==>
              PastValue(form, addressSize, offsetSize, data, p) == To(p + 1)
    ensures form == 0x08 && data[p] == 0 ==> PastValue(form, addressSize, offsetSize, data, p) == To(p + 1)
    ensures form !in {0x0d, 0x0f, 0x15, 0x1a, 0x1b, 0x22, 0x23, 0x08, 0x0a, 0x03, 0x04, 0x09, 0x18} ==>
              PastValue(form, addressSize, offsetSize, data, p) == Unknown
  {}

  /** Four bytes, the lowest first. */
  lemma LoadIs(data: seq<byte>, p: nat)
    requires p + 4 <= |data|
    ensures Load(data, p, 4) ==
            Read(data[p] as int + 0x100 * data[p + 1] as int + 0x1_0000 * data[p + 2] as int
                 + 0x100_0000 * data[p + 3] as int, p + 4)
  {
    assert Load(data, p + 4, 0) == Read(0, p + 4);
    assert Load(data, p + 3, 1) == Read(data[p + 3] as int, p + 4);
    assert Load(data, p + 2, 2) == Read(data[p + 2] as int + 256 * data[p + 3] as int, p + 4);
  }
}
