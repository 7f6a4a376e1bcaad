/** Packet framing of the UDP socket (lib/smockron/socket.js): a big-endian
    16-bit message type, then each part as a big-endian 16-bit length and its
    bytes, then the trailer word 0xffff. */
module Socket {
  import opened Wrappers
  import opened Bytes

  /** A message as `format` returns it: `{type, data}`. */
  datatype Packet = Packet(kind: u16, data: seq<seq<byte>>)

  const TrailerWord: u16 := 0xffff
  const Trailer: seq<byte> := [0xff, 0xff]

  /** The parse loop from offset `off` on: the parts up to the trailer. */
  function Segments(msg: seq<byte>, off: nat): (r: Result<seq<seq<byte>>>)
    requires off <= |msg|
    decreases |msg| - off
  {
    if off == |msg| then Failure("message without trailer, probably truncated")
    else if off + 2 > |msg| then Failure("index out of range")
    else if U16At(msg, off) == TrailerWord then Success([])
    else if off + 2 + U16At(msg, off) > |msg| then Failure("segment runs off the end of message")
    else
      var rest :- Segments(msg, off + 2 + U16At(msg, off));
      Success([msg[off + 2..off + 2 + U16At(msg, off)]] + rest)
  }

  /** `parsePacket` as a function of the received bytes. */
  function DecodePacket(msg: seq<byte>): (r: Result<Packet>)
    ensures |msg| < 4 ==> r == Failure("too-short message received")
    ensures r.Success? ==> |msg| >= 4 && r.value.kind == U16At(msg, 0)
  {
    if |msg| < 4 then Failure("too-short message received")
    else
      var data :- Segments(msg, 2);
      Success(Packet(U16At(msg, 0), data))
  }

  /** `prefix` followed by the outcome of the rest of the loop. */
  function Prepend(prefix: seq<seq<byte>>, r: Result<seq<seq<byte>>>): Result<seq<seq<byte>>> {
    if r.Success? then Success(prefix + r.value) else r
  }

  lemma PrependStep(prefix: seq<seq<byte>>, part: seq<byte>, r: Result<seq<seq<byte>>>)
    ensures Prepend(prefix + [part], r) == Prepend(prefix, if r.Success? then Success([part] + r.value) else r)
  {
    if r.Success? {
      assert prefix + [part] + r.value == prefix + ([part] + r.value);
    }
  }

  /** `parsePacket`: the while loop over the segments. */
  method ParsePacket(msg: seq<byte>) returns (r: Result<Packet>)
    ensures r == DecodePacket(msg)
  {
    if |msg| < 4 {
      return Failure("too-short message received");
    }
    var kind := U16At(msg, 0);
    var off := 2;
    var data: seq<seq<byte>> := [];
    var foundTrailer := false;
    assert Prepend(data, Segments(msg, off)) == Segments(msg, 2) by {
      var r := Segments(msg, 2);
      if r.Success? {
        assert [] + r.value == r.value;
      }
    }
    while off < |msg|
      invariant 2 <= off <= |msg|
      invariant Prepend(data, Segments(msg, off)) == Segments(msg, 2)
      decreases |msg| - off
    {
      if off + 2 > |msg| {
        return Failure("index out of range");
      }
      var segmentLength := U16At(msg, off);
      if segmentLength == TrailerWord {
        assert Segments(msg, off) == Success([]);
        assert data + [] == data;
        foundTrailer := true;
        break;
      }
      off := off + 2;
      if off + segmentLength > |msg| {
        return Failure("segment runs off the end of message");
      }
      PrependStep(data, msg[off..off + segmentLength], Segments(msg, off + segmentLength));
      data := data + [msg[off..off + segmentLength]];
      off := off + segmentLength;
    }
    if !foundTrailer {
      return Failure("message without trailer, probably truncated");
    }
    r := Success(Packet(kind, data));
  }

  /** One part on the wire: its length, then its bytes. */
  function Segment(part: seq<byte>): seq<byte>
    requires |part| <= 0xffff
  {
    U16Bytes(|part|) + part
  }

  predicate Writable(parts: seq<seq<byte>>) {
    forall i :: 0 <= i < |parts| ==> |parts[i]| <= 0xffff
  }

  function EncodeParts(parts: seq<seq<byte>>): seq<byte>
    requires Writable(parts)
  {
    if parts == [] then [] else Segment(parts[0]) + EncodeParts(parts[1..])
  }

  /** `makePacket`: `writeUInt16BE` throws on a part longer than 0xffff bytes. */
  function Encode(p: Packet): (r: Result<seq<byte>>)
    ensures r.Success? <==> Writable(p.data)
  {
    if Writable(p.data) then Success(U16Bytes(p.kind) + EncodeParts(p.data) + Trailer)
    else Failure("value is out of bounds")
  }

  lemma {:induction false} EncodePartsSnoc(parts: seq<seq<byte>>, part: seq<byte>)
    requires Writable(parts) && |part| <= 0xffff
    ensures Writable(parts + [part])
    ensures EncodeParts(parts + [part]) == EncodeParts(parts) + Segment(part)
    decreases |parts|
  {
    if parts != [] {
      assert (parts + [part])[1..] == parts[1..] + [part];
      EncodePartsSnoc(parts[1..], part);
    } else {
      assert [part][1..] == [];
    }
  }

  /** `makePacket`: the for loop over the parts. */
  method MakePacket(p: Packet) returns (r: Result<seq<byte>>)
    ensures r == Encode(p)
  {
    var out := U16Bytes(p.kind);
    for i := 0 to |p.data|
      invariant Writable(p.data[..i])
      invariant out == U16Bytes(p.kind) + EncodeParts(p.data[..i])
    {
      var len := |p.data[i]|;
      if len > 0xffff {
        return Failure("value is out of bounds");
      }
      assert p.data[..i + 1] == p.data[..i] + [p.data[i]];
      EncodePartsSnoc(p.data[..i], p.data[i]);
      out := out + (U16Bytes(len) + p.data[i]);
    }
    assert p.data[..|p.data|] == p.data;
    r := Success(out + Trailer);
  }

  function TotalLength(parts: seq<seq<byte>>): nat {
    if parts == [] then 0 else 2 + |parts[0]| + TotalLength(parts[1..])
  }

  /** The packet is the type word, a length word and the bytes of each part,
      and the trailer word. */
  lemma {:induction false} EncodedLength(p: Packet)
    requires Writable(p.data)
    ensures |Encode(p).value| == 2 + TotalLength(p.data) + 2
  {
    EncodePartsLength(p.data);
  }

  lemma {:induction false} EncodePartsLength(parts: seq<seq<byte>>)
    requires Writable(parts)
    ensures |EncodeParts(parts)| == TotalLength(parts)
    decreases |parts|
  {
    if parts != [] {
      EncodePartsLength(parts[1..]);
    }
  }

  predicate Framable(parts: seq<seq<byte>>) {
    forall i :: 0 <= i < |parts| ==> |parts[i]| < 0xffff
  }

  /** Parsing from the start of the encoded parts reads them all, stopping at
      the trailer whatever follows it. */
  lemma {:induction false} SegmentsOfEncoding(pre: seq<byte>, parts: seq<seq<byte>>, junk: seq<byte>)
    requires Framable(parts)
    ensures Segments(pre + EncodeParts(parts) + Trailer + junk, |pre|) == Success(parts)
    decreases |parts|
  {
    var msg := pre + EncodeParts(parts) + Trailer + junk;
    if parts == [] {
      assert msg[|pre|] == 0xff && msg[|pre| + 1] == 0xff;
    } else {
      var p := parts[0];
      var pre' := pre + Segment(p);
      assert msg == pre' + EncodeParts(parts[1..]) + Trailer + junk;
      assert msg[|pre|] == U16Bytes(|p|)[0] && msg[|pre| + 1] == U16Bytes(|p|)[1];
      assert U16At(msg, |pre|) == |p|;
      assert msg[|pre| + 2..|pre| + 2 + |p|] == p;
      SegmentsOfEncoding(pre', parts[1..], junk);
      assert [p] + parts[1..] == parts;
    }
  }

  /** `parsePacket(makePacket(m))` gives back `m` when every part is shorter
      than 0xffff bytes, and so does the same packet with bytes appended. */
  lemma PacketRoundTrip(p: Packet, junk: seq<byte>)
    requires Framable(p.data)
    ensures Encode(p).Success?
    ensures DecodePacket(Encode(p).value + junk) == Success(p)
  {
    var msg := Encode(p).value + junk;
    SegmentsOfEncoding(U16Bytes(p.kind), p.data, junk);
    assert msg == U16Bytes(p.kind) + EncodeParts(p.data) + Trailer + junk;
    U16RoundTrip(p.kind, msg, 0);
    assert msg[..2] == U16Bytes(p.kind);
  }

  /** A part of exactly 0xffff bytes is written, but its length word reads as
      the trailer: the parts from there on are lost. */
  lemma MaxLengthPartEndsPacket(kind: u16, part: seq<byte>)
    requires |part| == 0xffff
    ensures Encode(Packet(kind, [part])).Success?
    ensures DecodePacket(Encode(Packet(kind, [part])).value) == Success(Packet(kind, []))
  {
    var msg := Encode(Packet(kind, [part])).value;
    assert EncodeParts([part]) == Segment(part);
    assert msg == U16Bytes(kind) + (U16Bytes(0xffff) + part) + Trailer;
    assert msg[2] == 0xff && msg[3] == 0xff;
    assert U16At(msg, 2) == TrailerWord;
    U16RoundTrip(kind, msg, 0);
    assert msg[..2] == U16Bytes(kind);
  }

  /** The handler a packet type is dispatched to. */
  datatype Route = HelloRoute | AccountingRoute | DelayUntilRoute | SyncRoute | UnknownRoute

  const HelloType: u16 := 0x0001
  const AccountingType: u16 := 0x0101
  const DelayUntilType: u16 := 0x8001
  const SyncType: u16 := 0x8101

  /** `dispatchMessage`. */
  function RouteOf(kind: u16): (r: Route)
    ensures r == HelloRoute <==> kind == HelloType
    ensures r == AccountingRoute <==> kind == AccountingType
    ensures r == DelayUntilRoute <==> kind == DelayUntilType
    ensures r == SyncRoute <==> kind == SyncType
  {
    if kind == HelloType then HelloRoute
    else if kind == AccountingType then AccountingRoute
    else if kind == DelayUntilType then DelayUntilRoute
    else if kind == SyncType then SyncRoute
    else UnknownRoute
  }
}
