/** Little-endian 32-bit words read from a byte buffer, and the four-character-code packing.
    The loader reads every header field as a signed 32-bit `int`; a `bv32` holds the same
    bit pattern, so equality tests and bit masks on it behave exactly as on the C# value. */
module LittleEndian {

  type byte = bv8

  /** The word stored little-endian at `off`: `b[off]` is the least significant byte. */
  function ReadU32(b: seq<byte>, off: nat): bv32
    requires off + 4 <= |b|
  {
    (b[off] as bv32)
    | ((b[off + 1] as bv32) << 8)
    | ((b[off + 2] as bv32) << 16)
    | ((b[off + 3] as bv32) << 24)
  }

  /** The four bytes that store `w` little-endian (the inverse of `ReadU32`). */
  function Bytes32(w: bv32): (r: seq<byte>)
    ensures |r| == 4
  {
    [(w & 0xFF) as byte, ((w >> 8) & 0xFF) as byte, ((w >> 16) & 0xFF) as byte, (w >> 24) as byte]
  }

  /** Reading back the bytes of a word gives the word. */
  lemma ReadBytes32(w: bv32)
    ensures ReadU32(Bytes32(w), 0) == w
  {
  }

  /** The bytes a read consumed are exactly the bytes of the word it returned. */
  lemma BytesOfRead(b: seq<byte>, off: nat)
    requires off + 4 <= |b|
    ensures Bytes32(ReadU32(b, off)) == b[off..off + 4]
  {
  }

  /** `b` with the four bytes at `off` replaced by the little-endian bytes of `w`. */
  function Write32(b: seq<byte>, off: nat, w: bv32): (r: seq<byte>)
    requires off + 4 <= |b|
    ensures |r| == |b|
    ensures forall i :: 0 <= i < |b| && (i < off || off + 4 <= i) ==> r[i] == b[i]
    ensures ReadU32(r, off) == w
  {
    var r := b[..off] + Bytes32(w) + b[off + 4..];
    assert r[off..off + 4] == Bytes32(w);
    ReadBytes32(w);
    r
  }

  /** A read that does not overlap a write sees the bytes from before the write. */
  lemma ReadPastWrite(b: seq<byte>, off: nat, w: bv32, off': nat)
    requires off + 4 <= |b| && off' + 4 <= |b|
    requires off' + 4 <= off || off + 4 <= off'
    ensures ReadU32(Write32(b, off, w), off') == ReadU32(b, off')
  {
    var r := Write32(b, off, w);
    assert r[off'..off' + 4] == b[off'..off' + 4];
    ReadSameBytes(r, off', b, off');
  }

  /** A read depends only on the four bytes it covers. */
  lemma ReadSameBytes(b: seq<byte>, off: nat, b': seq<byte>, off': nat)
    requires off + 4 <= |b| && off' + 4 <= |b'|
    requires b[off..off + 4] == b'[off'..off' + 4]
    ensures ReadU32(b, off) == ReadU32(b', off')
  {
    assert b[off] == b'[off'] && b[off + 1] == b'[off' + 1];
    assert b[off + 2] == b'[off' + 2] && b[off + 3] == b'[off' + 3];
  }

  /** The value a C# `char` has once promoted to `int`. A Dafny `char` is a Unicode scalar value,
      not a UTF-16 code unit, but the tags packed here are ASCII, where the two agree. */
  function CharWord(c: char): bv32 {
    (c as int) as bv32
  }

  /** FC2I: packs the first four characters of a tag as `c0 | c1<<8 | c2<<16 | c3<<24`. */
  function FC2I(tag: string): bv32
    requires |tag| >= 4
  {
    CharWord(tag[0]) | (CharWord(tag[1]) << 8) | (CharWord(tag[2]) << 16) | (CharWord(tag[3]) << 24)
  }
}
