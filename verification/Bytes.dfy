// Bytes as they travel on the wire, and the little-endian integers built from them.
module Bytes {
  type Byte = b: int | 0 <= b < 256

  const U16_LIMIT := 0x1_0000
  const U32_LIMIT := 0x1_0000_0000

  function Zeros(n: nat): (z: seq<Byte>)
    ensures |z| == n && forall i :: 0 <= i < n ==> z[i] == 0
  {
    seq(n, _ => 0)
  }

  function U16(n: int): (b: seq<Byte>)
    requires 0 <= n < U16_LIMIT
    ensures |b| == 2
  {
    [n % 256, n / 256]
  }

  function U32(n: int): (b: seq<Byte>)
    requires 0 <= n < U32_LIMIT
    ensures |b| == 4
  {
    [n % 256, n / 256 % 256, n / 0x1_0000 % 256, n / 0x100_0000]
  }

  function ReadU16(b: seq<Byte>, offset: nat): (n: int)
    requires offset + 2 <= |b|
    ensures 0 <= n < U16_LIMIT
  {
    var b0: int, b1: int := b[offset], b[offset + 1];
    b0 + 256 * b1
  }

  function ReadU32(b: seq<Byte>, offset: nat): (n: int)
    requires offset + 4 <= |b|
    ensures 0 <= n < U32_LIMIT
  {
    var b0: int, b1: int, b2: int, b3: int := b[offset], b[offset + 1], b[offset + 2], b[offset + 3];
    b0 + 256 * b1 + 0x1_0000 * b2 + 0x100_0000 * b3
  }

  // Least significant byte first.
  lemma LittleEndian(a: Byte, b: Byte, c: Byte, d: Byte)
    ensures U16(a + 256 * b) == [a, b]
    ensures U32(a + 256 * b + 256 * 256 * c + 256 * 256 * 256 * d) == [a, b, c, d]
  {
    ReadU16Inverse([a, b], 0);
    ReadU32Inverse([a, b, c, d], 0);
  }

  lemma U16RoundTrip(n: int)
    requires 0 <= n < U16_LIMIT
    ensures ReadU16(U16(n), 0) == n
  {
  }

  lemma ReadU16Inverse(b: seq<Byte>, offset: nat)
    requires offset + 2 <= |b|
    ensures U16(ReadU16(b, offset)) == b[offset..offset + 2]
  {
  }

  lemma U32RoundTrip(n: int)
    requires 0 <= n < U32_LIMIT
    ensures ReadU32(U32(n), 0) == n
  {
    var m := n / 256;
    assert n / 0x1_0000 == m / 256 && n / 0x100_0000 == m / 256 / 256;
  }

  lemma ReadU32Inverse(b: seq<Byte>, offset: nat)
    requires offset + 4 <= |b|
    ensures U32(ReadU32(b, offset)) == b[offset..offset + 4]
  {
    var n: int := ReadU32(b, offset);
    var b0: int, b1: int, b2: int, b3: int := b[offset], b[offset + 1], b[offset + 2], b[offset + 3];
    var m := b1 + 256 * b2 + 0x1_0000 * b3;
    assert n == b0 + 256 * m;
    assert n / 256 == m;
    assert m / 256 == b2 + 256 * b3;
    assert n / 0x1_0000 == m / 256;
    assert n / 0x100_0000 == m / 256 / 256;
  }
}
