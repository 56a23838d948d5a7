/**
 * Sequential reads from a blob: a byte sequence and a read position. Reading past the
 * end fails with the offset of the read. Multi-byte integers are little-endian and
 * compressed integers follow section II.23.2 of ECMA-335.
 */
module Blob {
  import opened Wrappers
  import opened Metadata

  /** Reads one byte and returns it with the position after it. */
  function ReadByte(data: seq<byte>, pos: nat): (r: Decoded<(byte, nat)>)
    ensures r.Success? <==> pos < |data|
    ensures r.Success? ==> r.value == (data[pos], pos + 1)
  {
    if pos < |data| then Success((data[pos], pos + 1)) else Failure(EndOfBlob(pos))
  }

  /** Reads a little-endian unsigned 16-bit integer. */
  function ReadUInt16(data: seq<byte>, pos: nat): (r: Decoded<(nat, nat)>)
    ensures r.Success? <==> pos + 2 <= |data|
    ensures r.Success? ==> r.value.0 < 0x1_0000 && r.value.1 == pos + 2
    ensures r.Success? ==> r.value.0 == data[pos] as nat + 0x100 * data[pos + 1] as nat
  {
    if pos + 2 <= |data| then Success((data[pos] as nat + 0x100 * data[pos + 1] as nat, pos + 2))
    else Failure(EndOfBlob(pos))
  }

  /**
   * Reads a compressed unsigned integer: a first byte 0xxxxxxx holds 7 bits, 10xxxxxx
   * starts a 14-bit value in two bytes, 110xxxxx a 29-bit value in four bytes; any other
   * first byte is malformed.
   */
  function ReadCompressedUnsignedInt(data: seq<byte>, pos: nat): (r: Decoded<(nat, nat)>)
    ensures r.Success? ==> r.value.0 <= 0x1FFF_FFFF && pos < r.value.1 <= |data|
  {
    if pos >= |data| then Failure(EndOfBlob(pos))
    else if data[pos] < 0x80 then Success((data[pos] as nat, pos + 1))
    else if data[pos] < 0xC0 then
      if pos + 2 <= |data| then
        Success(((data[pos] - 0x80) as nat * 0x100 + data[pos + 1] as nat, pos + 2))
      else Failure(EndOfBlob(pos))
    else if data[pos] < 0xE0 then
      if pos + 4 <= |data| then
        Success(((data[pos] - 0xC0) as nat * 0x100_0000 + data[pos + 1] as nat * 0x1_0000
                 + data[pos + 2] as nat * 0x100 + data[pos + 3] as nat, pos + 4))
      else Failure(EndOfBlob(pos))
    else Failure(BadCompressedInteger(pos))
  }

  /** The shortest compressed encoding of `n`, as a writer of the format produces it. */
  function EncodeCompressedUnsignedInt(n: nat): (e: seq<byte>)
    requires n <= 0x1FFF_FFFF
    ensures |e| == (if n < 0x80 then 1 else if n < 0x4000 then 2 else 4)
  {
    if n < 0x80 then [n as byte]
    else if n < 0x4000 then [(0x80 + n / 0x100) as byte, (n % 0x100) as byte]
    else [(0xC0 + n / 0x100_0000) as byte, (n / 0x1_0000 % 0x100) as byte,
          (n / 0x100 % 0x100) as byte, (n % 0x100) as byte]
  }

  /** Reading back an encoded integer yields it, whatever follows, and consumes exactly its encoding. */
  lemma CompressedRoundTrip(n: nat, prefix: seq<byte>, rest: seq<byte>)
    requires n <= 0x1FFF_FFFF
    ensures ReadCompressedUnsignedInt(prefix + EncodeCompressedUnsignedInt(n) + rest, |prefix|)
            == Success((n, |prefix| + |EncodeCompressedUnsignedInt(n)|))
  {
    var e := EncodeCompressedUnsignedInt(n);
    var data := prefix + e + rest;
    var p := |prefix|;
    assert data[p..p + |e|] == e;
    if n < 0x80 {
      assert data[p] == e[0];
    } else if n < 0x4000 {
      assert data[p] == e[0] && data[p + 1] == e[1];
      assert (n / 0x100) * 0x100 + n % 0x100 == n;
    } else {
      assert data[p] == e[0] && data[p + 1] == e[1] && data[p + 2] == e[2] && data[p + 3] == e[3];
      ByteSplit(n);
    }
  }

  lemma ByteSplit(n: nat)
    requires 0x4000 <= n <= 0x1FFF_FFFF
    ensures (n / 0x100_0000) * 0x100_0000 + (n / 0x1_0000 % 0x100) * 0x1_0000
            + (n / 0x100 % 0x100) * 0x100 + n % 0x100 == n
  {
    var a, b, c, d := n / 0x100_0000, n / 0x1_0000 % 0x100, n / 0x100 % 0x100, n % 0x100;
    assert n / 0x1_0000 == a * 0x100 + b;
    assert n / 0x100 == (n / 0x1_0000) * 0x100 + c;
    assert n == (n / 0x100) * 0x100 + d;
  }

  /** A first byte of the form 111xxxxx starts no compressed integer. */
  lemma CompressedIntegerRejected(data: seq<byte>, pos: nat)
    requires pos < |data| && data[pos] >= 0xE0
    ensures ReadCompressedUnsignedInt(data, pos) == Failure(BadCompressedInteger(pos))
  {
  }

  /** The width of a compressed integer is chosen by its first byte; the boundaries 0x7F/0x80 and 0x3FFF/0x4000 switch it. */
  lemma CompressedWidthBoundaries()
    ensures EncodeCompressedUnsignedInt(0x7F) == [0x7F]
    ensures EncodeCompressedUnsignedInt(0x80) == [0x80, 0x80]
    ensures EncodeCompressedUnsignedInt(0x3FFF) == [0xBF, 0xFF]
    ensures EncodeCompressedUnsignedInt(0x4000) == [0xC0, 0x00, 0x40, 0x00]
  {
  }
}
