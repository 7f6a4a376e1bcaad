/** The sync message of the binary protocol (lib/smockron/message/sync.js): a
    flags word whose bit 0 says more syncs follow, then the three parts of
    each delay message. */
module SyncMessage {
  import opened Wrappers
  import opened Bytes
  import opened Timestamp
  import opened Socket
  import opened DelayUntilMessage
  import HelloMessage

  datatype Sync = Sync(more: bool, delays: seq<DelayUntil>)

  /** The delays' parts, in list order: the loop body of `format`, which
      appends each delay's formatted parts to what it has. */
  function DelayParts(ds: seq<DelayUntil>): (r: Result<seq<seq<byte>>>)
    ensures r.Success? <==> forall i :: 0 <= i < |ds| ==> EncodeStamp(ds[i].delayTS).Success?
    ensures r.Success? ==> |r.value| == 3 * |ds|
    decreases |ds|
  {
    if ds == [] then Success([])
    else
      var init :- DelayParts(ds[..|ds| - 1]);
      var last :- FormatDelayUntil(ds[|ds| - 1]);
      assert forall i :: 0 <= i < |ds| - 1 ==> ds[..|ds| - 1][i] == ds[i];
      Success(init + last.data)
  }

  /** Delay `k`'s three parts sit at `3k`, `3k+1` and `3k+2`. */
  lemma {:induction false} DelayPartsAt(ds: seq<DelayUntil>, k: nat)
    requires DelayParts(ds).Success? && k < |ds|
    ensures DelayParts(ds).value[3 * k..3 * k + 3] == FormatDelayUntil(ds[k]).value.data
    decreases |ds|
  {
    var init := DelayParts(ds[..|ds| - 1]);
    if k < |ds| - 1 {
      DelayPartsAt(ds[..|ds| - 1], k);
      assert ds[..|ds| - 1][k] == ds[k];
      assert DelayParts(ds).value[3 * k..3 * k + 3] == init.value[3 * k..3 * k + 3];
    }
  }

  /** A delay that cannot be written makes the whole list fail with its error. */
  lemma {:induction false} DelayPartsFailurePrefix(ds: seq<DelayUntil>, j: nat)
    requires j <= |ds| && DelayParts(ds[..j]).Failure?
    ensures DelayParts(ds) == DelayParts(ds[..j])
    decreases |ds|
  {
    if j < |ds| {
      assert ds[..|ds| - 1][..j] == ds[..j];
      DelayPartsFailurePrefix(ds[..|ds| - 1], j);
    } else {
      assert ds[..j] == ds;
    }
  }

  /** `Sync.prototype.format`, with each delay formatted as it was meant to be. */
  function SyncPacket(s: Sync): (r: Result<Packet>)
    ensures r.Success? ==> r.value.kind == SyncType && |r.value.data| == 1 + 3 * |s.delays|
    ensures r.Success? ==> r.value.data[0] == U16Bytes(HelloMessage.FlagWord(s.more))
  {
    var parts :- DelayParts(s.delays);
    Success(Packet(SyncType, [U16Bytes(HelloMessage.FlagWord(s.more))] + parts))
  }

  /** `Sync.prototype.format`: the loop over the delays. */
  method FormatSync(s: Sync) returns (r: Result<Packet>)
    ensures r == SyncPacket(s)
  {
    var data := [U16Bytes(HelloMessage.FlagWord(s.more))];
    for i := 0 to |s.delays|
      invariant DelayParts(s.delays[..i]).Success?
      invariant data == [U16Bytes(HelloMessage.FlagWord(s.more))] + DelayParts(s.delays[..i]).value
    {
      var delayOut := FormatDelayUntil(s.delays[i]);
      assert s.delays[..i + 1][..i] == s.delays[..i];
      if delayOut.Failure? {
        DelayPartsFailurePrefix(s.delays, i + 1);
        return delayOut.PropagateFailure();
      }
      data := data + delayOut.value.data;
    }
    assert s.delays[..|s.delays|] == s.delays;
    r := Success(Packet(SyncType, data));
  }

  /** Delay messages read three parts at a time from part `i` on. */
  function Triples(data: seq<seq<byte>>, i: nat): (r: Result<seq<DelayUntil>>)
    decreases |data| - i
  {
    if i >= |data| then Success([])
    else if i + 2 >= |data| then Failure("missing part")
    else
      var delayTS :- ReadStamp(data[i + 2]);
      var rest :- Triples(data, i + 3);
      Success([DelayUntil(data[i], data[i + 1], delayTS)] + rest)
  }

  /** `Sync.parse` as written: with at least one part the loop runs, and its
      first call of `this.readTimestamp` throws, since `Sync` has no such
      function. */
  function ParseSyncAsWritten(data: seq<seq<byte>>): (r: Result<Sync>)
    ensures r.Failure?
  {
    if |data| < 1 then Failure("missing part")
    else if |data[0]| < 2 then Failure("index out of range")
    else Failure("readTimestamp is not a function")
  }

  /** Even with the timestamp reader fixed, the as-written loop starts at
      part 0, the flags: a formatted sync has 1 + 3n parts, so its last triple
      is cut short and every parse fails. */
  lemma {:induction false} TriplesFromFlagsFail(data: seq<seq<byte>>, i: nat)
    requires i % 3 == 0 && |data| % 3 == 1 && i <= |data|
    ensures Triples(data, i).Failure?
    decreases |data| - i
  {
    if i < |data| && i + 2 < |data| && ReadStamp(data[i + 2]).Success? {
      TriplesFromFlagsFail(data, i + 3);
    }
  }

  /** `Sync.parse` reading the time with `ts.readTimestamp` and the delays from
      part 1 on. */
  function ParseSync(data: seq<seq<byte>>): (r: Result<Sync>)
    ensures r.Success? ==> |data| >= 1 && |data[0]| >= 2
    ensures r.Success? ==> (r.value.more <==> data[0][1] % 2 == 1)
  {
    if |data| < 1 then Failure("missing part")
    else if |data[0]| < 2 then Failure("index out of range")
    else
      var delays :- Triples(data, 1);
      Success(Sync(U16At(data[0], 0) % 2 == 1, delays))
  }

  /** `[d] + outcome`, or the outcome's failure. */
  function Cons(prefix: seq<DelayUntil>, r: Result<seq<DelayUntil>>): Result<seq<DelayUntil>> {
    if r.Success? then Success(prefix + r.value) else r
  }

  /** `Sync.parse`: the stepping loop over the triples. */
  method ParseSyncParts(data: seq<seq<byte>>) returns (r: Result<Sync>)
    ensures r == ParseSync(data)
  {
    if |data| < 1 {
      return Failure("missing part");
    }
    if |data[0]| < 2 {
      return Failure("index out of range");
    }
    var flags := U16At(data[0], 0);
    var delays: seq<DelayUntil> := [];
    var i := 1;
    assert Cons(delays, Triples(data, i)) == Triples(data, 1) by {
      var t := Triples(data, 1);
      if t.Success? {
        assert [] + t.value == t.value;
      }
    }
    while i < |data|
      invariant 1 <= i
      invariant Cons(delays, Triples(data, i)) == Triples(data, 1)
      decreases |data| - i
    {
      if i + 2 >= |data| {
        return Failure("missing part");
      }
      var delayTS := ReadStamp(data[i + 2]);
      if delayTS.Failure? {
        return delayTS.PropagateFailure();
      }
      var d := DelayUntil(data[i], data[i + 1], delayTS.value);
      var rest := Triples(data, i + 3);
      if rest.Success? {
        assert delays + [d] + rest.value == delays + ([d] + rest.value);
      }
      delays := delays + [d];
      i := i + 3;
    }
    assert delays + [] == delays;
    r := Success(Sync(flags % 2 == 1, delays));
  }

  function CanonAll(ds: seq<DelayUntil>): (r: seq<DelayUntil>)
    ensures |r| == |ds| && forall i :: 0 <= i < |ds| ==> r[i] == CanonDelay(ds[i])
  {
    seq(|ds|, i requires 0 <= i < |ds| => CanonDelay(ds[i]))
  }

  lemma {:induction false} TriplesOfFormat(ds: seq<DelayUntil>, data: seq<seq<byte>>, k: nat)
    requires DelayParts(ds).Success?
    requires |data| == 1 + 3 * |ds| && data[1..] == DelayParts(ds).value
    requires k <= |ds|
    ensures Triples(data, 1 + 3 * k) == Success(CanonAll(ds[k..]))
    decreases |ds| - k
  {
    if k < |ds| {
      TripleAt(ds, data, k);
      TriplesOfFormat(ds, data, k + 1);
      TriplesStep(data, 1 + 3 * k);
      CanonAllCons(ds, k);
    } else {
      assert CanonAll(ds[k..]) == [];
    }
  }

  lemma CanonAllCons(ds: seq<DelayUntil>, k: nat)
    requires k < |ds|
    ensures CanonAll(ds[k..]) == [CanonDelay(ds[k])] + CanonAll(ds[k + 1..])
  {
    assert CanonAll(ds[k..])[1..] == CanonAll(ds[k + 1..]);
  }

  lemma TriplesStep(data: seq<seq<byte>>, i: nat)
    requires i + 2 < |data| && ReadStamp(data[i + 2]).Success? && Triples(data, i + 3).Success?
    ensures Triples(data, i)
      == Success([DelayUntil(data[i], data[i + 1], ReadStamp(data[i + 2]).value)] + Triples(data, i + 3).value)
  {
  }

  lemma TripleAt(ds: seq<DelayUntil>, data: seq<seq<byte>>, k: nat)
    requires DelayParts(ds).Success?
    requires |data| == 1 + 3 * |ds| && data[1..] == DelayParts(ds).value
    requires k < |ds|
    ensures ReadStamp(data[3 * k + 3]) == Success(CanonDelay(ds[k]).delayTS)
    ensures data[3 * k + 1] == ds[k].domain && data[3 * k + 2] == ds[k].identifier
  {
    var parts := DelayParts(ds).value;
    DelayPartsAt(ds, k);
    assert data[3 * k + 1] == parts[3 * k] && data[3 * k + 2] == parts[3 * k + 1] && data[3 * k + 3] == parts[3 * k + 2];
    DelayUntilRoundTrip(ds[k]);
  }

  /** Parsing a formatted sync gives its flag and its delays back. */
  lemma SyncRoundTrip(s: Sync)
    requires SyncPacket(s).Success?
    ensures ParseSync(SyncPacket(s).value.data) == Success(Sync(s.more, CanonAll(s.delays)))
  {
    var data := SyncPacket(s).value.data;
    TriplesOfFormat(s.delays, data, 0);
    assert s.delays[0..] == s.delays;
    U16RoundTrip(HelloMessage.FlagWord(s.more), [0, 0], 0);
  }
}

/** The reply to a greeting (lib/smockron/message/helloreply.js): the same
    layout as a sync, with the delay list optional, and sent with the same
    message type. */
module HelloReplyMessage {
  import opened Wrappers
  import opened Bytes
  import opened Socket
  import opened DelayUntilMessage
  import opened SyncMessage

  datatype HelloReply = HelloReply(more: bool, delays: Option<seq<DelayUntil>>)

  /** `HelloReply.prototype.format`: without delays only the flags are sent;
      otherwise the loop is that of a sync. */
  method FormatHelloReply(h: HelloReply) returns (r: Result<Packet>)
    ensures h.delays.None? ==> r.Success? && |r.value.data| == 1
    ensures r == SyncPacket(Sync(h.more, h.delays.GetOr([])))
  {
    if h.delays.Some? {
      r := FormatSync(Sync(h.more, h.delays.value));
    } else {
      r := FormatSync(Sync(h.more, []));
    }
  }

  /** `HelloReply.parse` as written: the same loop as `Sync.parse`, starting at
      the flags part and calling `this.readTimestamp`, which `HelloReply` does
      not have; it fails on every input. */
  function ParseHelloReplyAsWritten(data: seq<seq<byte>>): (r: Result<HelloReply>)
    ensures r.Failure?
  {
    match ParseSyncAsWritten(data)
    case Failure(e) => Failure(e)
    case Success(s) => Success(HelloReply(s.more, Some(s.delays)))
  }

  /** `HelloReply.parse` reading the time with `ts.readTimestamp` and the delays
      from part 1 on; the parsed list is always present. */
  function ParseHelloReply(data: seq<seq<byte>>): (r: Result<HelloReply>)
    ensures r.Success? <==> ParseSync(data).Success?
    ensures r.Success? ==> r.value.delays.Some? && (r.value.more <==> data[0][1] % 2 == 1)
  {
    var s :- ParseSync(data);
    Success(HelloReply(s.more, Some(s.delays)))
  }

  /** A formatted reply parses back with its flag and delays; an absent delay
      list comes back empty. */
  lemma HelloReplyRoundTrip(h: HelloReply)
    requires SyncPacket(Sync(h.more, h.delays.GetOr([]))).Success?
    ensures var p := SyncPacket(Sync(h.more, h.delays.GetOr([]))).value;
      ParseHelloReply(p.data) == Success(HelloReply(h.more, Some(CanonAll(h.delays.GetOr([])))))
  {
    SyncRoundTrip(Sync(h.more, h.delays.GetOr([])));
  }

  /** The reply carries type 0x8101, so the socket hands it to the sync parser,
      which reads its flag and its delays back. */
  lemma HelloReplyReadAsSync(h: HelloReply)
    requires SyncPacket(Sync(h.more, h.delays.GetOr([]))).Success?
    ensures var p := SyncPacket(Sync(h.more, h.delays.GetOr([]))).value;
      && RouteOf(p.kind) == SyncRoute
      && ParseSync(p.data) == Success(Sync(h.more, CanonAll(h.delays.GetOr([]))))
  {
    SyncRoundTrip(Sync(h.more, h.delays.GetOr([])));
  }
}
