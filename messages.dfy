/** The accounting message of the binary protocol
    (lib/smockron/message/accounting.js). Texts are kept as the bytes of their
    UTF-8 encoding. */
module AccountingMessage {
  import opened Wrappers
  import opened Bytes
  import opened Timestamp
  import opened Socket
  import opened Admission

  /** An empty `logInfo` stands for an absent one: both are sent as an empty part. */
  datatype Accounting = Accounting(
    domain: seq<byte>,
    identifier: seq<byte>,
    status: Status,
    rcvTS: Option<nat>,
    delayTS: Option<nat>,
    logInfo: seq<byte>)

  /** `statusToCode`. */
  function StatusCode(s: Status): byte {
    match s
    case ACCEPTED => 0
    case DELAYED => 1
    case REJECTED => 2
  }

  /** `statusFromCode[code]`, undefined beyond the three codes. */
  function StatusFromCode(c: byte): Option<Status> {
    if c == 0 then Some(ACCEPTED)
    else if c == 1 then Some(DELAYED)
    else if c == 2 then Some(REJECTED)
    else None
  }

  /** The two tables are inverse to each other on codes 0 to 2. */
  lemma StatusTablesInverse(s: Status, c: byte)
    ensures StatusFromCode(StatusCode(s)) == Some(s)
    ensures StatusFromCode(c).Some? <==> c <= 2
    ensures StatusFromCode(c).Some? ==> StatusCode(StatusFromCode(c).value) == c
  {
  }

  /** `Accounting.parse`: a missing part or a short buffer throws, and so does a
      status code outside the table. */
  function ParseAccounting(data: seq<seq<byte>>): (r: Result<Accounting>)
    ensures r.Success? ==> |data| >= 6 && |data[2]| >= 1 && |data[3]| >= 8 && |data[4]| >= 8
    ensures r.Success? ==> r.value.domain == data[0] && r.value.identifier == data[1] && r.value.logInfo == data[5]
    ensures r.Success? ==> StatusCode(r.value.status) == data[2][0]
    ensures |data| >= 3 && |data[2]| >= 1 && data[2][0] > 2 ==> r == Failure("invalid status")
  {
    if |data| < 3 then Failure("missing part")
    else if |data[2]| < 1 then Failure("index out of range")
    else match StatusFromCode(data[2][0])
      case None => Failure("invalid status")
      case Some(status) =>
        if |data| < 5 then Failure("missing part")
        else
          var rcvTS :- ReadStamp(data[3]);
          var delayTS :- ReadStamp(data[4]);
          if |data| < 6 then Failure("missing part")
          else Success(Accounting(data[0], data[1], status, rcvTS, delayTS, data[5]))
  }

  /** `Accounting.prototype.format`. */
  function FormatAccounting(a: Accounting): (r: Result<Packet>)
    ensures r.Success? <==> EncodeStamp(a.rcvTS).Success? && EncodeStamp(a.delayTS).Success?
    ensures r.Success? ==> r.value.kind == AccountingType && |r.value.data| == 6
    ensures r.Success? ==> |r.value.data[2]| == 1 && |r.value.data[3]| == 8 && |r.value.data[4]| == 8
  {
    var rcvTS :- EncodeStamp(a.rcvTS);
    var delayTS :- EncodeStamp(a.delayTS);
    Success(Packet(AccountingType, [a.domain, a.identifier, [StatusCode(a.status)], rcvTS, delayTS, a.logInfo]))
  }

  /** Parsing a formatted message gives it back, a zero time coming back absent. */
  lemma AccountingRoundTrip(a: Accounting)
    requires FormatAccounting(a).Success?
    ensures ParseAccounting(FormatAccounting(a).value.data)
      == Success(a.(rcvTS := Canon(a.rcvTS), delayTS := Canon(a.delayTS)))
  {
    StampRoundTrip(a.rcvTS);
    StampRoundTrip(a.delayTS);
    StatusTablesInverse(a.status, 0);
  }
}

/** The delay message of the binary protocol (lib/smockron/message/delayuntil.js). */
module DelayUntilMessage {
  import opened Wrappers
  import opened Bytes
  import opened Timestamp
  import opened Socket

  datatype DelayUntil = DelayUntil(domain: seq<byte>, identifier: seq<byte>, delayTS: Option<nat>)

  /** `format` as written: the timestamp is written first, then the identifier
      part is built from the misspelled property `idneitifer`, which no
      `DelayUntil` has; a buffer built from `undefined` throws. */
  function FormatDelayUntilAsWritten(d: DelayUntil): (r: Result<Packet>)
    ensures r.Failure?
  {
    var delayTS :- EncodeStamp(d.delayTS);
    Failure("first argument must be a string")
  }

  /** `parse` as written: after the two texts it calls `this.readTimestamp`,
      and `DelayUntil` has no such function. */
  function ParseDelayUntilAsWritten(data: seq<seq<byte>>): (r: Result<DelayUntil>)
    ensures r.Failure?
  {
    if |data| < 2 then Failure("missing part")
    else Failure("readTimestamp is not a function")
  }

  /** Neither half of the codec as written ever succeeds. */
  lemma DelayUntilAsWrittenFails(d: DelayUntil)
    ensures FormatDelayUntilAsWritten(d).Failure?
    ensures forall data :: ParseDelayUntilAsWritten(data).Failure?
  {
  }

  /** `format` with the identifier property spelled right. */
  function FormatDelayUntil(d: DelayUntil): (r: Result<Packet>)
    ensures r.Success? <==> EncodeStamp(d.delayTS).Success?
    ensures r.Success? ==> r.value.kind == DelayUntilType
    ensures r.Success? ==> r.value.data == [d.domain, d.identifier, EncodeStamp(d.delayTS).value]
  {
    var delayTS :- EncodeStamp(d.delayTS);
    Success(Packet(DelayUntilType, [d.domain, d.identifier, delayTS]))
  }

  /** `parse` reading the time with `ts.readTimestamp`. */
  function ParseDelayUntil(data: seq<seq<byte>>): (r: Result<DelayUntil>)
    ensures r.Success? <==> |data| >= 3 && |data[2]| >= 8
    ensures r.Success? ==> r.value.domain == data[0] && r.value.identifier == data[1]
  {
    if |data| < 3 then Failure("missing part")
    else
      var delayTS :- ReadStamp(data[2]);
      Success(DelayUntil(data[0], data[1], delayTS))
  }

  function CanonDelay(d: DelayUntil): DelayUntil {
    d.(delayTS := Canon(d.delayTS))
  }

  lemma DelayUntilRoundTrip(d: DelayUntil)
    requires FormatDelayUntil(d).Success?
    ensures ParseDelayUntil(FormatDelayUntil(d).value.data) == Success(CanonDelay(d))
  {
    StampRoundTrip(d.delayTS);
  }
}

/** The greeting a gatekeeper sends (lib/smockron/message/hello.js): a flags
    word whose bit 0 asks for a sync, and the NUL-joined list of domains. */
module HelloMessage {
  import opened Wrappers
  import opened Bytes
  import opened Socket

  datatype Hello = Hello(syncReq: bool, domains: seq<seq<byte>>)

  const Nul: byte := 0

  predicate NulFree(s: seq<byte>) {
    forall i :: 0 <= i < |s| ==> s[i] != Nul
  }

  /** `Array.prototype.join("\0")`. */
  function Join(ds: seq<seq<byte>>): seq<byte> {
    if ds == [] then []
    else if |ds| == 1 then ds[0]
    else ds[0] + [Nul] + Join(ds[1..])
  }

  /** The first NUL in `s`. */
  function FirstNul(s: seq<byte>): (r: Option<nat>)
    ensures r.Some? ==> r.value < |s| && s[r.value] == Nul && NulFree(s[..r.value])
    ensures r.None? ==> NulFree(s)
  {
    if s == [] then None
    else if s[0] == Nul then Some(0)
    else match FirstNul(s[1..])
      case None => None
      case Some(i) => assert s[..i + 1] == [s[0]] + s[1..][..i]; Some(i + 1)
  }

  /** `String.prototype.split("\0")`: one piece more than there are NULs. */
  function Split(s: seq<byte>): (r: seq<seq<byte>>)
    ensures |r| >= 1
    decreases |s|
  {
    match FirstNul(s)
    case None => [s]
    case Some(i) => [s[..i]] + Split(s[i + 1..])
  }

  function FlagWord(b: bool): u16 {
    if b then 1 else 0
  }

  /** `Hello.parse`: bit 0 of the big-endian flags word, and the domains. */
  function ParseHello(data: seq<seq<byte>>): (r: Result<Hello>)
    ensures r.Success? <==> |data| >= 2 && |data[0]| >= 2
    ensures r.Success? ==> (r.value.syncReq <==> data[0][1] % 2 == 1)
  {
    if |data| < 1 then Failure("missing part")
    else if |data[0]| < 2 then Failure("index out of range")
    else if |data| < 2 then Failure("missing part")
    else Success(Hello(U16At(data[0], 0) % 2 == 1, Split(data[1])))
  }

  /** `Hello.prototype.format` as written: the flags are written little-endian. */
  function FormatHelloAsWritten(h: Hello): (p: Packet)
    ensures p.kind == HelloType && |p.data| == 2
    ensures p.data[0] == [if h.syncReq then 1 else 0, 0]
    ensures p.data[1] == Join(h.domains)
  {
    Packet(HelloType, [U16BytesLE(FlagWord(h.syncReq)), Join(h.domains)])
  }

  /** A sync request is lost on the way: its flag bytes are 01 00, and the
      parser reads the big-endian word 0x0100, whose bit 0 is clear. */
  lemma SyncRequestLost(domains: seq<seq<byte>>)
    ensures FormatHelloAsWritten(Hello(true, domains)).data[0] == [1, 0]
    ensures ParseHello(FormatHelloAsWritten(Hello(true, domains)).data).value.syncReq == false
  {
    var flags := FormatHelloAsWritten(Hello(true, domains)).data[0];
    assert flags == [1, 0];
    assert U16At(flags, 0) == 0x100;
  }

  /** `format` writing the flags big-endian, as `parse` reads them. */
  function FormatHello(h: Hello): (p: Packet)
    ensures p.kind == HelloType && |p.data| == 2
    ensures p.data[0] == [0, if h.syncReq then 1 else 0]
    ensures p.data[1] == Join(h.domains)
  {
    Packet(HelloType, [U16Bytes(FlagWord(h.syncReq)), Join(h.domains)])
  }

  lemma {:induction false} SplitJoin(ds: seq<seq<byte>>)
    requires |ds| >= 1
    requires forall i :: 0 <= i < |ds| ==> NulFree(ds[i])
    ensures Split(Join(ds)) == ds
    decreases |ds|
  {
    if |ds| == 1 {
      assert FirstNul(ds[0]).None?;
    } else {
      var rest := ds[1..];
      assert forall i :: 0 <= i < |rest| ==> NulFree(rest[i]) by {
        forall i | 0 <= i < |rest| ensures NulFree(rest[i]) {
          assert rest[i] == ds[i + 1];
        }
      }
      SplitJoin(rest);
      assert Join(ds) == ds[0] + ([Nul] + Join(rest));
      SplitAtNul(ds[0], Join(rest));
      assert [ds[0]] + rest == ds;
    }
  }

  /** A NUL-free piece, a NUL, and the rest split as the piece followed by
      the pieces of the rest. */
  lemma SplitAtNul(u: seq<byte>, v: seq<byte>)
    requires NulFree(u)
    ensures Split(u + ([Nul] + v)) == [u] + Split(v)
  {
    var s := u + ([Nul] + v);
    FirstNulAfter(u, v);
    assert s[..|u|] == u;
    assert s[|u| + 1..] == v;
  }

  lemma {:induction false} FirstNulAfter(u: seq<byte>, v: seq<byte>)
    requires NulFree(u)
    ensures FirstNul(u + ([Nul] + v)) == Some(|u|)
    decreases |u|
  {
    if u != [] {
      assert (u + ([Nul] + v))[1..] == u[1..] + ([Nul] + v);
      FirstNulAfter(u[1..], v);
    }
  }

  /** The domain list comes back for a non-empty list of NUL-free names; an
      empty list comes back as one empty name. */
  lemma HelloRoundTrip(h: Hello)
    requires forall i :: 0 <= i < |h.domains| ==> NulFree(h.domains[i])
    ensures h.domains != [] ==> ParseHello(FormatHello(h).data) == Success(h)
    ensures h.domains == [] ==> ParseHello(FormatHello(h).data) == Success(Hello(h.syncReq, [[]]))
  {
    if h.domains != [] {
      SplitJoin(h.domains);
    } else {
      assert FirstNul([]).None?;
    }
    U16RoundTrip(FlagWord(h.syncReq), [0, 0], 0);
  }
}
