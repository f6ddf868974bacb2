/** Variable-length integers of DWARF 5, section 7.6: the patcher's two readers against the standard's encoders. */
module Leb128 {
  import opened Bytes

  const TWO_TO_THE_63: int := 0x8000_0000_0000_0000
  const TWO_TO_THE_64: int := 0x1_0000_0000_0000_0000

  /** n shifted left by k. */
  function Shl(n: int, k: nat): int { if k == 0 then n else 2 * Shl(n, k - 1) }

  /** A pointer into a section moves on past what was read; Fault is a read beyond the section or an undefined shift. */
  datatype Reading<T> = Fault | Read(value: T, next: nat)

  // ---- encoders

  function EncodeU(n: nat): (b: seq<byte>)
    ensures |b| >= 1
  {
    if n < 128 then [n as byte] else [(n % 128 + 128) as byte] + EncodeU(n / 128)
  }

  function EncodeS(n: int): (b: seq<byte>)
    ensures |b| >= 1
    decreases if n >= 0 then n else -n
  {
    if -64 <= n < 64 then [(n % 128) as byte] else [(n % 128 + 128) as byte] + EncodeS(n / 128)
  }

  // ---- readers

  /** The low seven bits of a byte. */
  function Low(b: byte): nat { if b >= 128 then b as int - 128 else b as int }

  /** What 64 bits keep. */
  function Wrap64(n: int): (r: nat) { if 0 <= n < TWO_TO_THE_64 then n else n % TWO_TO_THE_64 }

  /** The loop of the unsigned reader; the new bits lie above the old ones, so or-ing them in is addition. */
  function ReadUFrom(data: seq<byte>, p: nat, shift: nat, result: nat): (r: Reading<nat>)
    ensures r.Read? ==> p < r.next <= |data|
    decreases |data| - p
  {
    if p >= |data| || shift >= 64 then Fault
    else
      var now := Wrap64(result + Shl(Low(data[p]), shift));
      if data[p] >= 128 then ReadUFrom(data, p + 1, shift + 7, now) else Read(now, p + 1)
  }

  function ReadU(data: seq<byte>, p: nat): (r: Reading<nat>)
    ensures r.Read? ==> p < r.next <= |data|
  {
    ReadUFrom(data, p, 0, 0)
  }

  function AsSigned(n: nat): int { if n >= TWO_TO_THE_63 then n - TWO_TO_THE_64 else n }

  function ReadSFrom(data: seq<byte>, p: nat, shift: nat, result: nat): (r: Reading<int>)
    ensures r.Read? ==> p < r.next <= |data|
    decreases |data| - p
  {
    if p >= |data| || shift >= 64 then Fault
    else
      var now := Wrap64(result + Shl(Low(data[p]), shift));
      if data[p] >= 128 then ReadSFrom(data, p + 1, shift + 7, now)
      else if shift + 7 < 64 && Low(data[p]) >= 64 then Read(AsSigned(now) - Shl(1, shift + 7), p + 1)
      else Read(AsSigned(now), p + 1)
  }

  function ReadS(data: seq<byte>, p: nat): (r: Reading<int>)
    ensures r.Read? ==> p < r.next <= |data|
  {
    ReadSFrom(data, p, 0, 0)
  }

  /** data has b at p. */
  ghost predicate At(data: seq<byte>, p: nat, b: seq<byte>) {
    p + |b| <= |data| && forall i :: 0 <= i < |b| ==> data[p + i] == b[i]
  }

  lemma AtConcat(data: seq<byte>, p: nat, a: seq<byte>, b: seq<byte>)
    requires At(data, p, a + b)
    ensures At(data, p, a) && At(data, p + |a|, b)
  {
    forall i | 0 <= i < |a| ensures data[p + i] == a[i] {
      assert (a + b)[i] == a[i];
    }
    forall i | 0 <= i < |b| ensures data[p + |a| + i] == b[i] {
      assert (a + b)[|a| + i] == b[i];
    }
  }

  lemma AtCons(data: seq<byte>, p: nat, x: byte, b: seq<byte>)
    requires At(data, p, [x] + b)
    ensures p < |data| && data[p] == x && At(data, p + 1, b)
  {
    assert ([x] + b)[0] == x;
    AtConcat(data, p, [x], b);
  }

  // ---- arithmetic of the shifts

  lemma {:induction false} ShlPlus(a: int, b: int, k: nat)
    ensures Shl(a + b, k) == Shl(a, k) + Shl(b, k)
  {
    if k > 0 { ShlPlus(a, b, k - 1); }
  }

  lemma {:induction false} ShlMonotone(a: int, b: int, k: nat)
    requires a <= b
    ensures Shl(a, k) <= Shl(b, k)
    ensures Shl(0, k) == 0
  {
    if k > 0 { ShlMonotone(a, b, k - 1); }
  }

  lemma {:induction false} ShlGrows(n: nat, a: nat, b: nat)
    requires a <= b
    ensures 0 <= Shl(n, a) <= Shl(n, b)
  {
    if a < b { ShlGrows(n, a, b - 1); } else { ShlMonotone(0, n, a); }
  }

  /** Seven places are a factor of 128, wherever they are taken. */
  lemma ShlSeven(n: int, k: nat)
    ensures Shl(n, k + 7) == 128 * Shl(n, k) == Shl(128 * n, k)
  {
    assert Shl(n, k + 7) == 2 * Shl(n, k + 6) && Shl(n, k + 6) == 2 * Shl(n, k + 5)
           && Shl(n, k + 5) == 2 * Shl(n, k + 4);
    assert Shl(n, k + 4) == 2 * Shl(n, k + 3) && Shl(n, k + 3) == 2 * Shl(n, k + 2)
           && Shl(n, k + 2) == 2 * Shl(n, k + 1);
    ShlScale(n, k);
  }

  lemma {:induction false} ShlScale(n: int, k: nat)
    ensures Shl(128 * n, k) == 128 * Shl(n, k)
  {
    if k > 0 { ShlScale(n, k - 1); }
  }

  lemma ShlTop(n: int)
    ensures Shl(n, 63) == n * TWO_TO_THE_63 && Shl(n, 64) == n * TWO_TO_THE_64
  {
    ShlSeven(n, 0);
    ShlSeven(n, 7);
    ShlSeven(n, 14);
    ShlSeven(n, 21);
    ShlSeven(n, 28);
    ShlSeven(n, 35);
    ShlSeven(n, 42);
    ShlSeven(n, 49);
    ShlSeven(n, 56);
  }

  /** n is its low seven bits, and the rest seven places higher. */
  lemma ShlSplit(n: int, k: nat)
    ensures Shl(n, k) == Shl(n % 128, k) + Shl(n / 128, k + 7)
    ensures 0 <= Shl(n % 128, k) && Shl(n % 128, k) + Shl(1, k) <= Shl(1, k + 7)
  {
    ShlPlus(n % 128, 128 * (n / 128), k);
    ShlSeven(n / 128, k);
    ShlMonotone(0, n % 128, k);
    ShlPlus(n % 128, 1, k);
    ShlMonotone(n % 128 + 1, 128, k);
    ShlSeven(1, k);
  }

  // ---- reading inverts encoding

  lemma MoreBytesU(shift: nat, result: nat, n: nat, v: nat) returns (now: nat)
    requires n >= 128 && v == result + Shl(n, shift) && v < TWO_TO_THE_64
    ensures shift + 7 < 64
    ensures now == result + Shl(n % 128, shift)
    ensures now < TWO_TO_THE_64 && v == now + Shl(n / 128, shift + 7)
  {
    ShlSplit(n, shift);
    ShlMonotone(1, n / 128, shift + 7);
    ShlMonotone(0, 1, shift + 7);
    if shift + 7 >= 64 {
      ShlGrows(1, 64, shift + 7);
      ShlTop(1);
    }
    now := result + Shl(n % 128, shift);
  }

  lemma ReadUNext(data: seq<byte>, p: nat, shift: nat, result: nat, now: nat)
    requires p < |data| && shift < 64 && data[p] >= 128
    requires now == result + Shl(Low(data[p]), shift) < TWO_TO_THE_64
    ensures ReadUFrom(data, p, shift, result) == ReadUFrom(data, p + 1, shift + 7, now)
  {}

  lemma {:induction false} ReadUEncoded(data: seq<byte>, p: nat, shift: nat, result: nat, n: nat, v: nat)
    requires At(data, p, EncodeU(n)) && shift < 64
    requires v == result + Shl(n, shift) && v < TWO_TO_THE_64
    ensures ReadUFrom(data, p, shift, result) == Read(v, p + |EncodeU(n)|)
    decreases n
  {
    if n < 128 {
      AtCons(data, p, n as byte, []);
    } else {
      AtCons(data, p, (n % 128 + 128) as byte, EncodeU(n / 128));
      var now := MoreBytesU(shift, result, n, v);
      ReadUNext(data, p, shift, result, now);
      ReadUEncoded(data, p + 1, shift + 7, now, n / 128, v);
    }
  }

  /** Every 64-bit unsigned value is read back, and the pointer is just behind its encoding, wherever that lies. */
  lemma UnsignedRoundTrip(data: seq<byte>, p: nat, n: nat)
    requires At(data, p, EncodeU(n)) && n < TWO_TO_THE_64
    ensures ReadU(data, p) == Read(n, p + |EncodeU(n)|)
  {
    ReadUEncoded(data, p, 0, 0, n, n);
  }

  lemma MoreBytesS(shift: nat, result: nat, n: int, v: int) returns (now: nat)
    requires shift < 64 && shift % 7 == 0 && !(-64 <= n < 64) && result < Shl(1, shift)
    requires v == result + Shl(n, shift) && -TWO_TO_THE_63 <= v < TWO_TO_THE_63
    ensures shift + 7 < 64
    ensures now == result + Shl(n % 128, shift)
    ensures now < Shl(1, shift + 7) < TWO_TO_THE_64 && v == now + Shl(n / 128, shift + 7)
  {
    ShlTop(n);
    ShlTop(1);
    ShlSplit(n, shift);
    assert shift != 63;
    ShlGrows(1, shift + 7, 63);
    now := result + Shl(n % 128, shift);
  }

  lemma ReadSNext(data: seq<byte>, p: nat, shift: nat, result: nat, now: nat)
    requires p < |data| && shift < 64 && data[p] >= 128
    requires now == result + Shl(Low(data[p]), shift) < TWO_TO_THE_64
    ensures ReadSFrom(data, p, shift, result) == ReadSFrom(data, p + 1, shift + 7, now)
  {}

  lemma ReadSFinal(data: seq<byte>, p: nat, shift: nat, result: nat, now: nat)
    requires p < |data| && shift < 64 && data[p] < 128
    requires now == Wrap64(result + Shl(data[p] as int, shift))
    ensures ReadSFrom(data, p, shift, result) ==
            Read(if shift + 7 < 64 && data[p] >= 64 then AsSigned(now) - Shl(1, shift + 7) else AsSigned(now), p + 1)
  {}

  /** The final byte: below the sign position, sign extension turns its seven bits into the value they stand for; as the
      tenth byte, only its lowest bit fits, and that is the sign. */
  lemma ReadSLast(data: seq<byte>, p: nat, shift: nat, result: nat, n: int, v: int)
    requires p < |data| && data[p] == (n % 128) as byte && -64 <= n < 64
    requires shift < 64 && shift % 7 == 0 && result < Shl(1, shift)
    requires v == result + Shl(n, shift) && -TWO_TO_THE_63 <= v < TWO_TO_THE_63
    ensures ReadSFrom(data, p, shift, result) == Read(v, p + 1)
  {
    var low := n % 128;
    ShlTop(1);
    if shift + 7 < 64 {
      ShlSplit(n, shift);
      ShlGrows(1, shift + 7, 63);
      ShlPlus(n, 128, shift);
      ShlSeven(1, shift);
      ReadSFinal(data, p, shift, result, result + Shl(low, shift));
    } else {
      ShlTop(n);
      ShlTop(low);
      assert shift == 63 && (n == 0 || n == -1);
      ReadSFinal(data, p, shift, result, if n == 0 then result else result + TWO_TO_THE_63);
    }
  }

  lemma {:induction false} ReadSEncoded(data: seq<byte>, p: nat, shift: nat, result: nat, n: int, v: int)
    requires At(data, p, EncodeS(n)) && shift < 64 && shift % 7 == 0 && result < Shl(1, shift)
    requires v == result + Shl(n, shift) && -TWO_TO_THE_63 <= v < TWO_TO_THE_63
    ensures ReadSFrom(data, p, shift, result) == Read(v, p + |EncodeS(n)|)
    decreases if n >= 0 then n else -n
  {
    if -64 <= n < 64 {
      AtCons(data, p, (n % 128) as byte, []);
      ReadSLast(data, p, shift, result, n, v);
    } else {
      AtCons(data, p, (n % 128 + 128) as byte, EncodeS(n / 128));
      var now := MoreBytesS(shift, result, n, v);
      ReadSNext(data, p, shift, result, now);
      ReadSEncoded(data, p + 1, shift + 7, now, n / 128, v);
    }
  }

  /** Every 64-bit signed value is read back. */
  lemma SignedRoundTrip(data: seq<byte>, p: nat, n: int)
    requires At(data, p, EncodeS(n)) && -TWO_TO_THE_63 <= n < TWO_TO_THE_63
    ensures ReadS(data, p) == Read(n, p + |EncodeS(n)|)
  {
    ReadSEncoded(data, p, 0, 0, n, n);
  }

  // ---- the readers as loops over a moving pointer

  method ReadULEB128(data: seq<byte>, p: nat) returns (r: Reading<nat>)
    ensures r == ReadU(data, p)
  {
    var result: nat, shift: nat, at: nat := 0, 0, p;
    while true
      invariant ReadU(data, p) == ReadUFrom(data, at, shift, result)
      decreases |data| - at
    {
      if at >= |data| || shift >= 64 { return Fault; }
      result := Wrap64(result + Shl(Low(data[at]), shift));
      shift := shift + 7;
      at := at + 1;
      if data[at - 1] < 128 { return Read(result, at); }
    }
  }

  method ReadSLEB128(data: seq<byte>, p: nat) returns (r: Reading<int>)
    ensures r == ReadS(data, p)
  {
    var result: nat, shift: nat, at: nat := 0, 0, p;
    while true
      invariant ReadS(data, p) == ReadSFrom(data, at, shift, result)
      decreases |data| - at
    {
      if at >= |data| || shift >= 64 { return Fault; }
      result := Wrap64(result + Shl(Low(data[at]), shift));
      shift := shift + 7;
      at := at + 1;
      if data[at - 1] < 128 {
        if shift < 64 && Low(data[at - 1]) >= 64 { return Read(AsSigned(result) - Shl(1, shift), at); }
        return Read(AsSigned(result), at);
      }
    }
  }

  // ---- the standard's own examples

  lemma UnsignedExamples()
    ensures EncodeU(2) == [0x02] && EncodeU(127) == [0x7f] && EncodeU(128) == [0x80, 0x01]
    ensures EncodeU(129) == [0x81, 0x01] && EncodeU(12857) == [0xb9, 0x64]
  {
    assert EncodeU(1) == [1] && EncodeU(100) == [100];
  }

  lemma SignedExamples()
    ensures EncodeS(2) == [0x02] && EncodeS(-2) == [0x7e] && EncodeS(127) == [0xff, 0x00]
    ensures EncodeS(-127) == [0x81, 0x7f] && EncodeS(128) == [0x80, 0x01] && EncodeS(-128) == [0x80, 0x7f]
    ensures EncodeS(129) == [0x81, 0x01] && EncodeS(-129) == [0xff, 0x7e]
  {
    assert EncodeS(0) == [0x00] && EncodeS(1) == [0x01] && EncodeS(-1) == [0x7f] && EncodeS(-2) == [0x7e];
  }
}
