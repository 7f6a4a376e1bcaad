/** Bytes and the fixed-width integers the binary protocol writes into Node
    buffers (`readUInt16BE`, `writeUInt16BE`, `writeUInt16LE`, `readUInt32BE`,
    `writeUInt32BE`). */
module Bytes {
  type byte = b: int | 0 <= b < 0x100
  type u16 = n: int | 0 <= n < 0x1_0000
  type u32 = n: int | 0 <= n < 0x1_0000_0000

  /** `writeUInt16BE`: high byte first. */
  function U16Bytes(v: u16): (r: seq<byte>)
    ensures |r| == 2 && r[0] as int * 0x100 + r[1] == v
  {
    [v / 0x100, v % 0x100]
  }

  /** `writeUInt16LE`: low byte first. */
  function U16BytesLE(v: u16): (r: seq<byte>)
    ensures |r| == 2 && r[1] as int * 0x100 + r[0] == v
  {
    [v % 0x100, v / 0x100]
  }

  /** `readUInt16BE(off)`. */
  function U16At(s: seq<byte>, off: nat): u16
    requires off + 2 <= |s|
  {
    s[off] as int * 0x100 + s[off + 1]
  }

  /** Reading back what was written gives the value, and writing back what was
      read gives the bytes. */
  lemma U16RoundTrip(v: u16, s: seq<byte>, off: nat)
    requires off + 2 <= |s|
    ensures U16At(U16Bytes(v), 0) == v
    ensures U16Bytes(U16At(s, off)) == s[off..off + 2]
  {
    var w := U16At(s, off);
    assert w / 0x100 == s[off] && w % 0x100 == s[off + 1];
  }

  /** `writeUInt32BE`: the high and the low half, each high byte first. */
  function U32Bytes(v: u32): (r: seq<byte>)
    ensures |r| == 4
  {
    U16Bytes(v / 0x1_0000) + U16Bytes(v % 0x1_0000)
  }

  /** `readUInt32BE(off)`. */
  function U32At(s: seq<byte>, off: nat): u32
    requires off + 4 <= |s|
  {
    U16At(s, off) as int * 0x1_0000 + U16At(s, off + 2)
  }

  lemma U32RoundTrip(v: u32, s: seq<byte>, off: nat)
    requires off + 4 <= |s|
    ensures U32At(U32Bytes(v), 0) == v
    ensures U32Bytes(U32At(s, off)) == s[off..off + 4]
  {
    var b := U32Bytes(v);
    U16RoundTrip(v / 0x1_0000, b, 0);
    U16RoundTrip(v % 0x1_0000, b, 2);
    assert b[..2] == U16Bytes(v / 0x1_0000) && b[2..4] == U16Bytes(v % 0x1_0000);
    assert U16At(b, 0) == U16At(b[..2], 0) && U16At(b, 2) == U16At(b[2..4], 0);
    var w := U32At(s, off);
    U16RoundTrip(0, s, off);
    U16RoundTrip(0, s, off + 2);
    assert w / 0x1_0000 == U16At(s, off) && w % 0x1_0000 == U16At(s, off + 2);
    assert s[off..off + 4] == s[off..off + 2] + s[off + 2..off + 4];
  }

  /** The two words of an 8-byte big-endian value read back separately. */
  lemma U32Pair(hi: u32, lo: u32)
    ensures U32At(U32Bytes(hi) + U32Bytes(lo), 0) == hi
    ensures U32At(U32Bytes(hi) + U32Bytes(lo), 4) == lo
  {
    var a, b := U32Bytes(hi), U32Bytes(lo);
    U32RoundTrip(hi, a, 0);
    U32RoundTrip(lo, b, 0);
    var c := a + b;
    assert c[0..4] == a && c[4..8] == b;
    assert U32At(c, 0) == U32At(a, 0) by {
      assert U16At(c, 0) == U16At(a, 0) && U16At(c, 2) == U16At(a, 2);
    }
    assert U32At(c, 4) == U32At(b, 0) by {
      assert U16At(c, 4) == U16At(b, 0) && U16At(c, 6) == U16At(b, 2);
    }
  }
}
