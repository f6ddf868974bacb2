/** Bytes and the 32-bit integers both wire and disk formats are made of. */
module Bytes {
  newtype byte = i: int | 0 <= i < 256

  const TWO_TO_THE_32: nat := 0x1_0000_0000

  /** Big endian, as htonl and writeUInt32BE write it; wider values lose their high bits. */
  function U32BE(n: nat): (b: seq<byte>)
    ensures |b| == 4
  {
    [(n / 0x100_0000 % 256) as byte, (n / 0x1_0000 % 256) as byte, (n / 256 % 256) as byte, (n % 256) as byte]
  }

  function ReadU32BE(b: seq<byte>): (n: nat)
    requires |b| >= 4
    ensures n < TWO_TO_THE_32
  {
    b[0] as int * 0x100_0000 + b[1] as int * 0x1_0000 + b[2] as int * 256 + b[3] as int
  }

  /** The number that some of a sequence's bytes write down, the first of them counting most. */
  function BigEndian(b: seq<byte>, i: nat, j: nat): (n: nat)
    requires i <= j <= |b|
    ensures j == i + 1 ==> n < 0x100
    ensures j == i + 2 ==> n < 0x1_0000
    ensures j == i + 3 ==> n < 0x100_0000
    ensures j == i + 4 ==> n < TWO_TO_THE_32
    decreases j - i
  {
    if i == j then 0 else BigEndian(b, i, j - 1) * 256 + b[j - 1] as int
  }

  lemma {:induction false} BigEndianWithin(a: seq<byte>, b: seq<byte>, i: nat, j: nat, shift: nat)
    requires i <= j <= |a| && j + shift <= |b|
    requires a[i..j] == b[i + shift..j + shift]
    ensures BigEndian(a, i, j) == BigEndian(b, i + shift, j + shift)
    decreases j - i
  {
    if i < j {
      assert a[j - 1] == a[i..j][j - 1 - i] == b[j - 1 + shift];
      assert a[i..j - 1] == a[i..j][..j - 1 - i] == b[i + shift..j - 1 + shift];
      BigEndianWithin(a, b, i, j - 1, shift);
    }
  }

  lemma BigEndianIsRead(b: seq<byte>, i: nat)
    requires i + 4 <= |b|
    ensures BigEndian(b, i, i + 4) == ReadU32BE(b[i..i + 4])
  {
    assert BigEndian(b, i, i + 3) == BigEndian(b, i, i + 2) * 256 + b[i + 2] as int;
    assert BigEndian(b, i, i + 1) == b[i] as int;
  }

  function U32LE(n: nat): (b: seq<byte>)
    ensures |b| == 4
  {
    [(n % 256) as byte, (n / 256 % 256) as byte, (n / 0x1_0000 % 256) as byte, (n / 0x100_0000 % 256) as byte]
  }

  function ReadU32LE(b: seq<byte>): (n: nat)
    requires |b| >= 4
    ensures n < TWO_TO_THE_32
  {
    b[0] as int + b[1] as int * 256 + b[2] as int * 0x1_0000 + b[3] as int * 0x100_0000
  }

  /** Reading back gives the value modulo 2^32. */
  lemma ReadBack(n: nat)
    ensures ReadU32BE(U32BE(n)) == n % TWO_TO_THE_32
    ensures ReadU32LE(U32LE(n)) == n % TWO_TO_THE_32
    ensures n < TWO_TO_THE_32 ==> ReadU32BE(U32BE(n)) == n == ReadU32LE(U32LE(n))
  {
    var a, b, c := n / 256, n / 0x1_0000, n / 0x100_0000;
    assert b == a / 256 && c == b / 256;
    assert n == a * 256 + n % 256;
    assert a == b * 256 + a % 256;
    assert b == c * 256 + b % 256;
  }

  function Flatten(chunks: seq<seq<byte>>): seq<byte> {
    if chunks == [] then [] else chunks[0] + Flatten(chunks[1..])
  }

  lemma {:induction false} FlattenAppend(a: seq<seq<byte>>, b: seq<seq<byte>>)
    ensures Flatten(a + b) == Flatten(a) + Flatten(b)
  {
    if a == [] {
      assert a + b == b;
    } else {
      assert (a + b)[1..] == a[1..] + b;
      FlattenAppend(a[1..], b);
    }
  }
}
