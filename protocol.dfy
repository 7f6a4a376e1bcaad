/** Receiving a datagram (`onPacket` in lib/smockron/socket.js): parse the
    packet, then hand its parts to the parser its type selects. The model uses
    the corrected delay and sync parsers; the parsers as written fail on every
    input (see `DelayUntilMessage` and `SyncMessage`). */
module Protocol {
  import opened Wrappers
  import opened Bytes
  import opened Timestamp
  import opened Socket
  import opened AccountingMessage
  import opened DelayUntilMessage
  import opened HelloMessage
  import opened SyncMessage
  import opened HelloReplyMessage

  datatype Message =
    | HelloMsg(hello: Hello)
    | AccountingMsg(accounting: Accounting)
    | DelayUntilMsg(delay: DelayUntil)
    | SyncMsg(sync: Sync)
    | UnknownMsg(packet: Packet)

  /** `dispatchMessage`: the parser selected by the type; an unknown type is
      passed on as it is. */
  function Dispatch(p: Packet): (r: Result<Message>)
    ensures RouteOf(p.kind) == UnknownRoute ==> r == Success(UnknownMsg(p))
    ensures r.Success? && r.value.HelloMsg? ==> p.kind == HelloType
    ensures r.Success? && r.value.AccountingMsg? ==> p.kind == AccountingType
    ensures r.Success? && r.value.DelayUntilMsg? ==> p.kind == DelayUntilType
    ensures r.Success? && r.value.SyncMsg? ==> p.kind == SyncType
  {
    match RouteOf(p.kind)
    case HelloRoute => var h :- ParseHello(p.data); Success(HelloMsg(h))
    case AccountingRoute => var a :- ParseAccounting(p.data); Success(AccountingMsg(a))
    case DelayUntilRoute => var d :- ParseDelayUntil(p.data); Success(DelayUntilMsg(d))
    case SyncRoute => var s :- ParseSync(p.data); Success(SyncMsg(s))
    case UnknownRoute => Success(UnknownMsg(p))
  }

  /** `onPacket`. */
  function Receive(datagram: seq<byte>): (r: Result<Message>)
    ensures DecodePacket(datagram).Failure? ==> r.Failure?
    ensures DecodePacket(datagram).Success? ==> r == Dispatch(DecodePacket(datagram).value)
  {
    var p :- DecodePacket(datagram);
    Dispatch(p)
  }

  predicate Short(s: seq<byte>) {
    |s| < 0xffff
  }

  /** An accounting record sent by a gatekeeper arrives at the master intact. */
  lemma AccountingArrives(a: Accounting)
    requires FormatAccounting(a).Success?
    requires Short(a.domain) && Short(a.identifier) && Short(a.logInfo)
    ensures var p := FormatAccounting(a).value;
      && Encode(p).Success?
      && Receive(Encode(p).value) == Success(AccountingMsg(a.(rcvTS := Canon(a.rcvTS), delayTS := Canon(a.delayTS))))
  {
    var p := FormatAccounting(a).value;
    PacketRoundTrip(p, []);
    assert Encode(p).value + [] == Encode(p).value;
    AccountingRoundTrip(a);
  }

  /** A delay sent by the master arrives at the gatekeeper intact. */
  lemma DelayUntilArrives(d: DelayUntil)
    requires FormatDelayUntil(d).Success?
    requires Short(d.domain) && Short(d.identifier)
    ensures var p := FormatDelayUntil(d).value;
      && Encode(p).Success?
      && Receive(Encode(p).value) == Success(DelayUntilMsg(CanonDelay(d)))
  {
    var p := FormatDelayUntil(d).value;
    PacketRoundTrip(p, []);
    assert Encode(p).value + [] == Encode(p).value;
    DelayUntilRoundTrip(d);
  }

  /** A greeting arrives with its flag and domains (the flag only with the
      big-endian `format`). */
  lemma HelloArrives(h: Hello)
    requires h.domains != [] && forall i :: 0 <= i < |h.domains| ==> NulFree(h.domains[i])
    requires Short(Join(h.domains))
    ensures Encode(FormatHello(h)).Success?
    ensures Receive(Encode(FormatHello(h)).value) == Success(HelloMsg(h))
  {
    var p := FormatHello(h);
    PacketRoundTrip(p, []);
    assert Encode(p).value + [] == Encode(p).value;
    HelloRoundTrip(h);
  }

  /** A reply to a greeting arrives as a sync with the same flag and delays. */
  lemma HelloReplyArrivesAsSync(h: HelloReply)
    requires SyncPacket(Sync(h.more, h.delays.GetOr([]))).Success?
    requires Framable(SyncPacket(Sync(h.more, h.delays.GetOr([]))).value.data)
    ensures var p := SyncPacket(Sync(h.more, h.delays.GetOr([]))).value;
      && Encode(p).Success?
      && Receive(Encode(p).value) == Success(SyncMsg(Sync(h.more, CanonAll(h.delays.GetOr([])))))
  {
    var p := SyncPacket(Sync(h.more, h.delays.GetOr([]))).value;
    PacketRoundTrip(p, []);
    assert Encode(p).value + [] == Encode(p).value;
    HelloReplyReadAsSync(h);
  }
}
