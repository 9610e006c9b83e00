/** Bytes and the little-endian 16-bit fields every packet of the server is made of. */
module Bytes {

  type byte = x: int | 0 <= x < 256

  const U16_RANGE := 65536

  /** The size of a send context's own buffer. */
  const MAX_BUF_SIZE := 4096

  /** The value of two bytes as they lie in memory, low byte first. */
  function U16(lo: byte, hi: byte): (v: nat)
    ensures v < U16_RANGE
  {
    lo + 256 * hi
  }

  /** The two bytes a `static_cast<uint16_t>` of any int is stored as. The cast wraps
      modulo 65536, and Dafny's `%` is never negative, so it wraps the same way. */
  function U16Bytes(v: int): (b: seq<byte>)
    ensures |b| == 2
    ensures U16(b[0], b[1]) == v % U16_RANGE
  {
    [v % 256, (v / 256) % 256]
  }

  /** The number that any string of bytes stands for in memory. */
  function LittleEndian(b: seq<byte>): nat {
    if b == [] then 0 else b[0] + 256 * LittleEndian(b[1..])
  }

  lemma U16IsLittleEndian(b: seq<byte>)
    requires |b| == 2
    ensures U16(b[0], b[1]) == LittleEndian(b)
  {
    assert b[1..][1..] == [];
    assert LittleEndian(b[1..]) == b[1] + 256 * LittleEndian([]);
  }

  /** The 16-bit fields are little-endian, read and written. */
  lemma U16BytesAreLittleEndian(v: int)
    ensures LittleEndian(U16Bytes(v)) == v % U16_RANGE
  {
    U16IsLittleEndian(U16Bytes(v));
  }

  /** Glues a list of byte strings together. */
  function Flatten(chunks: seq<seq<byte>>): seq<byte> {
    if chunks == [] then [] else chunks[0] + Flatten(chunks[1..])
  }

  lemma FlattenCons(f: seq<byte>, fs: seq<seq<byte>>)
    ensures Flatten([f] + fs) == f + Flatten(fs)
  {
    assert ([f] + fs)[1..] == fs;
  }

  lemma {:induction false} FlattenAppend(a: seq<seq<byte>>, b: seq<seq<byte>>)
    ensures Flatten(a + b) == Flatten(a) + Flatten(b)
  {
    if a == [] {
      assert a + b == b;
    } else {
      FlattenAppend(a[1..], b);
      assert a + b == [a[0]] + (a[1..] + b);
      FlattenCons(a[0], a[1..] + b);
    }
  }

  lemma FlattenLast(a: seq<seq<byte>>, c: seq<byte>)
    ensures Flatten(a + [c]) == Flatten(a) + c
  {
    FlattenAppend(a, [c]);
    assert Flatten([c]) == c + Flatten([]);
  }
}
