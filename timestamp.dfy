/** The 8-byte millisecond timestamp of the binary protocol
    (lib/smockron/message/ts.js): the high 32 bits, then the low 32 bits, both
    big-endian; eight zero bytes stand for "no time". */
module Timestamp {
  import opened Wrappers
  import opened Bytes

  const Two32: nat := 0x1_0000_0000

  /** The bytes `writeTimestamp` puts into a buffer, or the error it throws when
      the high word does not fit in 32 bits. */
  function EncodeStamp(ts: Option<nat>): (r: Result<seq<byte>>)
    ensures r.Success? <==> ts.None? || ts.value < Two32 * Two32
    ensures r.Success? ==> |r.value| == 8
  {
    if ts.None? || ts.value == 0 then Success([0, 0, 0, 0, 0, 0, 0, 0])
    else if ts.value / Two32 >= Two32 then Failure("value is out of bounds")
    else Success(U32Bytes(ts.value / Two32) + U32Bytes(ts.value % Two32))
  }

  /** `readTimestamp`: a buffer shorter than 8 bytes throws; a zero time reads
      as absent. */
  function ReadStamp(buf: seq<byte>): (r: Result<Option<nat>>)
    ensures r.Success? <==> |buf| >= 8
    ensures r.Success? && r.value.Some? ==> r.value.value > 0
  {
    if |buf| < 8 then Failure("index out of range")
    else
      var ms := U32At(buf, 0) as int * Two32 + U32At(buf, 4);
      if ms == 0 then Success(None) else Success(Some(ms))
  }

  /** A zero time is written as eight zero bytes and so comes back absent. */
  function Canon(ts: Option<nat>): (r: Option<nat>)
    ensures r.Some? ==> r.value > 0
    ensures ts.Some? && ts.value > 0 ==> r == ts
  {
    if ts.Some? && ts.value == 0 then None else ts
  }

  /** Reading what was written gives the time back (up to `Canon`). */
  lemma StampRoundTrip(ts: Option<nat>)
    requires EncodeStamp(ts).Success?
    ensures ReadStamp(EncodeStamp(ts).value) == Success(Canon(ts))
  {
    if ts.Some? && ts.value > 0 {
      var hi, lo := ts.value / Two32, ts.value % Two32;
      U32Pair(hi, lo);
      assert hi * Two32 + lo == ts.value;
    } else {
      U32Pair(0, 0);
    }
  }

  /** Writing what was read gives the first eight bytes back. */
  lemma StampBytesRoundTrip(buf: seq<byte>)
    requires |buf| >= 8
    ensures EncodeStamp(ReadStamp(buf).value) == Success(buf[..8])
  {
    var hi, lo := U32At(buf, 0), U32At(buf, 4);
    U32RoundTrip(0, buf, 0);
    U32RoundTrip(0, buf, 4);
    var ms := hi as int * Two32 + lo;
    assert buf[..8] == buf[0..4] + buf[4..8];
    if ms == 0 {
      assert hi == 0 && lo == 0;
      assert buf[0..4] == U32Bytes(0) == [0, 0, 0, 0];
      assert buf[4..8] == U32Bytes(0);
      assert ReadStamp(buf) == Success(None);
      assert buf[..8] == [0, 0, 0, 0, 0, 0, 0, 0];
    } else {
      assert ReadStamp(buf) == Success(Some(ms));
      assert ms / Two32 == hi && ms % Two32 == lo;
      assert EncodeStamp(Some(ms)) == Success(U32Bytes(hi) + U32Bytes(lo));
    }
  }

  /** `writeTimestamp(buf, ts, offset)` on a caller's buffer. The high word is
      written first, so a buffer with room for only one word gets that word
      before the second write throws; a high word out of range throws before
      anything is written. Nothing outside `offset..offset+7` changes. */
  method WriteTimestamp(buf: array<byte>, ts: Option<nat>, offset: nat) returns (ok: bool)
    modifies buf
    ensures ok <==> EncodeStamp(ts).Success? && offset + 8 <= buf.Length
    ensures ok ==> buf[..] == old(buf[..])[..offset] + EncodeStamp(ts).value + old(buf[..])[offset + 8..]
    ensures EncodeStamp(ts).Success? && offset + 4 <= buf.Length < offset + 8 ==>
      buf[..] == old(buf[..])[..offset] + EncodeStamp(ts).value[..4] + old(buf[..])[offset + 4..]
    ensures EncodeStamp(ts).Failure? || buf.Length < offset + 4 ==> buf[..] == old(buf[..])
  {
    var enc := EncodeStamp(ts);
    if enc.Failure? || buf.Length < offset + 4 {
      return false;
    }
    forall i | 0 <= i < 4 {
      buf[offset + i] := enc.value[i];
    }
    if buf.Length < offset + 8 {
      assert buf[..] == old(buf[..])[..offset] + enc.value[..4] + old(buf[..])[offset + 4..];
      return false;
    }
    forall i | 4 <= i < 8 {
      buf[offset + i] := enc.value[i];
    }
    assert buf[..] == old(buf[..])[..offset] + enc.value + old(buf[..])[offset + 8..];
    ok := true;
  }
}
