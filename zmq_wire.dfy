/** The ZeroMQ multipart messages between gatekeeper and master, and the
    connection-string rule that places the control socket next to the
    accounting socket. Frames are modelled as strings (what `buf.toString()`
    yields and what the sender passes to `send`). */
module ZmqWire {
  import opened Wrappers
  import opened Text
  import opened Admission

  const DefaultScheme := "tcp"
  const DefaultPort: nat := 10004
  const DelayUntilCommand := "DELAY_UNTIL"

  // ---------------------------------------------------------------------------
  // Connection strings: /^(?:(\w+):\/\/)?(.*?)(?::(\d+))?$/

  predicate IsWordChar(c: char) {
    'a' <= c <= 'z' || 'A' <= c <= 'Z' || '0' <= c <= '9' || c == '_'
  }

  /** The characters that `.` does not match in a JavaScript regular expression. */
  predicate IsLineTerminator(c: char) {
    c == '\n' || c == '\r' || c == '\U{2028}' || c == '\U{2029}'
  }

  predicate NoLineTerminator(s: string) {
    forall i :: 0 <= i < |s| ==> !IsLineTerminator(s[i])
  }

  /** Length of the longest prefix of word characters. */
  function WordRun(s: string): (n: nat)
    ensures n <= |s|
    ensures forall i :: 0 <= i < n ==> IsWordChar(s[i])
    ensures n < |s| ==> !IsWordChar(s[n])
  {
    if s != [] && IsWordChar(s[0]) then 1 + WordRun(s[1..]) else 0
  }

  /** Length of the longest suffix of decimal digits. */
  function TrailingDigits(s: string): (n: nat)
    ensures n <= |s|
    ensures forall i :: |s| - n <= i < |s| ==> IsDigit(s[i])
    ensures n < |s| ==> !IsDigit(s[|s| - n - 1])
  {
    if s != [] && IsDigit(s[|s| - 1]) then 1 + TrailingDigits(s[..|s| - 1]) else 0
  }

  datatype Address = Address(scheme: string, host: string, port: nat)

  function Render(a: Address): string {
    a.scheme + "://" + a.host + ":" + NatToString(a.port)
  }

  /** The optional `(\w+)://` prefix: the scheme, if present, and the rest. */
  function SplitScheme(s: string): (Option<string>, string) {
    var w := WordRun(s);
    if w > 0 && w + 3 <= |s| && s[w..w + 3] == "://" then (Some(s[..w]), s[w + 3..]) else (None, s)
  }

  /** The lazy host and the optional `:(\d+)` suffix: the host stops at the colon
      that is followed by digits only, up to the end. */
  function SplitPort(rest: string): (string, Option<nat>) {
    var d := TrailingDigits(rest);
    if d > 0 && d < |rest| && rest[|rest| - d - 1] == ':' then
      (rest[..|rest| - d - 1], Some(DigitsValue(rest[|rest| - d..])))
    else
      (rest, None)
  }

  /** The regular-expression match and its defaults: a missing scheme is `tcp`,
      a missing port 10004. The expression fails only when `.` meets a line
      terminator. */
  function ParseAddress(s: string): (r: Result<Address>)
    ensures r.Success? <==> NoLineTerminator(s)
  {
    if !NoLineTerminator(s) then Failure("Invalid connection string '" + s + "'")
    else
      var (scheme, rest) := SplitScheme(s);
      var (host, port) := SplitPort(rest);
      Success(Address(scheme.GetOr(DefaultScheme), host, port.GetOr(DefaultPort)))
  }

  datatype Endpoints = Endpoints(accounting: string, control: string)

  /** `_parseConnectionString`; `None` is an undefined argument. */
  function ParseConnectionString(cs: Option<string>): (r: Result<Endpoints>)
    ensures r.Success? <==> cs.Some? && NoLineTerminator(cs.value)
  {
    match cs
    case None => Failure("Invalid connection string 'undefined'")
    case Some(s) =>
      var a :- ParseAddress(s);
      Success(Endpoints(Render(a), Render(a.(port := a.port + 1))))
  }

  lemma WordRunOfConcat(u: string, v: string)
    requires forall i :: 0 <= i < |u| ==> IsWordChar(u[i])
    requires v != [] && !IsWordChar(v[0])
    ensures WordRun(u + v) == |u|
  {
    var s := u + v;
    assert forall i :: 0 <= i < |u| ==> s[i] == u[i];
    assert s[|u|] == v[0];
  }

  lemma TrailingDigitsOfConcat(u: string, v: string)
    requires AllDigits(v)
    requires u != [] && !IsDigit(u[|u| - 1])
    ensures TrailingDigits(u + v) == |v|
  {
    var s := u + v;
    assert forall i :: |u| <= i < |s| ==> s[i] == v[i - |u|];
    assert s[|u| - 1] == u[|u| - 1];
  }

  lemma SplitSchemeOfRender(scheme: string, rest: string)
    requires scheme != [] && forall i :: 0 <= i < |scheme| ==> IsWordChar(scheme[i])
    ensures SplitScheme(scheme + "://" + rest) == (Some(scheme), rest)
  {
    var s := scheme + "://" + rest;
    assert s == scheme + ("://" + rest);
    WordRunOfConcat(scheme, "://" + rest);
    assert s[|scheme|..|scheme| + 3] == "://";
    assert s[..|scheme|] == scheme;
    assert s[|scheme| + 3..] == rest;
  }

  lemma SplitPortOfRender(host: string, port: nat)
    ensures SplitPort(host + ":" + NatToString(port)) == (host, Some(port))
  {
    var digits := NatToString(port);
    var rest := host + ":" + digits;
    TrailingDigitsOfConcat(host + ":", digits);
    assert rest[|rest| - |digits| - 1] == ':';
    assert rest[..|rest| - |digits| - 1] == host;
    assert rest[|rest| - |digits|..] == digits;
    DigitsValueOfNatToString(port);
  }

  lemma RenderHasNoLineTerminator(a: Address)
    requires forall i :: 0 <= i < |a.scheme| ==> IsWordChar(a.scheme[i])
    requires NoLineTerminator(a.host)
    ensures NoLineTerminator(Render(a))
  {
    var digits := NatToString(a.port);
    var s := Render(a);
    assert s == a.scheme + "://" + a.host + ":" + digits;
    forall i | 0 <= i < |s|
      ensures !IsLineTerminator(s[i])
    {
      if i < |a.scheme| {
        assert s[i] == a.scheme[i];
      } else if i >= |a.scheme| + 3 + |a.host| + 1 {
        assert s[i] == digits[i - (|a.scheme| + 3 + |a.host| + 1)];
      } else if i >= |a.scheme| + 3 && i < |a.scheme| + 3 + |a.host| {
        assert s[i] == a.host[i - |a.scheme| - 3];
      }
    }
  }

  /** A rendered address parses back to itself, whatever its host. */
  lemma {:induction false} AddressRoundTrip(a: Address)
    requires a.scheme != [] && forall i :: 0 <= i < |a.scheme| ==> IsWordChar(a.scheme[i])
    requires NoLineTerminator(a.host)
    ensures ParseAddress(Render(a)) == Success(a)
  {
    RenderHasNoLineTerminator(a);
    var rest := a.host + ":" + NatToString(a.port);
    assert Render(a) == a.scheme + "://" + rest;
    SplitSchemeOfRender(a.scheme, rest);
    SplitPortOfRender(a.host, a.port);
  }

  lemma ParsedAddressIsRenderable(s: string)
    requires ParseAddress(s).Success?
    ensures var a := ParseAddress(s).value;
      a.scheme != [] && (forall i :: 0 <= i < |a.scheme| ==> IsWordChar(a.scheme[i])) && NoLineTerminator(a.host)
  {
    var (scheme, rest) := SplitScheme(s);
    assert NoLineTerminator(rest) by {
      if scheme.Some? {
        forall i | 0 <= i < |rest| ensures !IsLineTerminator(rest[i]) {
          assert rest[i] == s[i + WordRun(s) + 3];
        }
      }
    }
    var a := ParseAddress(s).value;
    assert a.host == SplitPort(rest).0;
    forall i | 0 <= i < |a.host| ensures !IsLineTerminator(a.host[i]) {
      assert a.host[i] == rest[i];
    }
  }

  /** The control address names the accounting address's scheme and host and
      the next port; re-parsing the accounting address gives back the same pair. */
  lemma ControlIsNextPort(s: string, a: Address)
    requires ParseAddress(s) == Success(a)
    ensures ParseConnectionString(Some(s)) == Success(Endpoints(Render(a), Render(a.(port := a.port + 1))))
    ensures ParseAddress(Render(a.(port := a.port + 1))) == Success(a.(port := a.port + 1))
    ensures ParseConnectionString(Some(Render(a))) == ParseConnectionString(Some(s))
  {
    ParsedAddressIsRenderable(s);
    ConnectionOfAddress(s, a);
    AddressRoundTrip(a);
    ConnectionOfAddress(Render(a), a);
    AddressRoundTrip(a.(port := a.port + 1));
  }

  lemma ConnectionOfAddress(s: string, a: Address)
    requires ParseAddress(s) == Success(a)
    ensures ParseConnectionString(Some(s)) == Success(Endpoints(Render(a), Render(a.(port := a.port + 1))))
  {
  }

  /** A bare host gets the `tcp` scheme and port 10004. */
  lemma DefaultsApply(host: string)
    requires NoLineTerminator(host)
    requires forall i :: 0 <= i < |host| ==> host[i] != ':'
    ensures ParseAddress(host) == Success(Address(DefaultScheme, host, DefaultPort))
  {
    var w := WordRun(host);
    if w + 3 <= |host| {
      assert host[w..w + 3][0] == host[w];
    }
  }

  // ---------------------------------------------------------------------------
  // Gatekeeper side (lib/smockron/gatekeeper/client.js)

  datatype ControlMsg = ControlMsg(
    domain: string,
    command: string,
    identifier: string,
    args: seq<string>,
    ts: Option<nat>)

  /** `_parseControl`: at least three parts; the domain loses one trailing NUL;
      `ts` is read from the first argument of a `DELAY_UNTIL` only. */
  function ParseControl(parts: seq<string>): (r: Result<ControlMsg>)
    ensures r.Success? <==> |parts| >= 3
    ensures r.Success? ==>
      && r.value.domain == StripNul(parts[0])
      && r.value.command == parts[1]
      && r.value.identifier == parts[2]
      && r.value.args == parts[3..]
    ensures r.Success? && r.value.ts.Some? ==> parts[1] == DelayUntilCommand && |parts| > 3
  {
    if |parts| < 3 then Failure("Too-short control message")
    else
      var args := parts[3..];
      var ts := if parts[1] == DelayUntilCommand && |args| > 0 then ParseDecimal(args[0]) else None;
      Success(ControlMsg(StripNul(parts[0]), parts[1], parts[2], args, ts))
  }

  /** The subscription topic of a gatekeeper's control socket. */
  function Topic(domain: string): string {
    domain + "\0"
  }

  function StatusName(s: Status): string {
    match s
    case ACCEPTED => "ACCEPTED"
    case DELAYED => "DELAYED"
    case REJECTED => "REJECTED"
  }

  /** `sendAccounting`: always six frames; frames 4 and 5 stay empty unless a
      delay time or log information is supplied. */
  function SendAccounting(domain: string, rec: AccountingRecord, logInfo: Option<string>): (frames: seq<string>)
    ensures |frames| == 6
    ensures frames[0] == Topic(domain) && frames[1] == StatusName(rec.status) && frames[2] == rec.identifier
    ensures frames[3] == NatToString(rec.rcvTS)
    ensures frames[4] == "" <==> rec.delayTS.None?
    ensures rec.delayTS.Some? ==> frames[4] == NatToString(rec.delayTS.value)
    ensures frames[5] == "" <==> logInfo.None? || logInfo.value == ""
    ensures logInfo.Some? ==> frames[5] == logInfo.value
  {
    [ domain + "\0",
      StatusName(rec.status),
      rec.identifier,
      NatToString(rec.rcvTS),
      if rec.delayTS.Some? then NatToString(rec.delayTS.value) else "",
      if logInfo.Some? then logInfo.value else "" ]
  }

  // ---------------------------------------------------------------------------
  // Master side (lib/smockron/master/server.js)

  datatype AccountingMsg = AccountingMsg(
    domain: string,
    status: Status,
    identifier: string,
    rcvTS: Option<nat>,
    delayTS: Option<nat>,
    hasLogInfo: bool)

  datatype ServerMsg = Resync(domain: string) | Accounting(msg: AccountingMsg)

  function StatusFromName(s: string): (r: Option<Status>)
    ensures r.Some? ==> StatusName(r.value) == s
    ensures forall st :: StatusName(st) == s ==> r == Some(st)
  {
    if s == "ACCEPTED" then Some(ACCEPTED)
    else if s == "DELAYED" then Some(DELAYED)
    else if s == "REJECTED" then Some(REJECTED)
    else None
  }

  /** `_parseAccounting`: two parts at least; `RESYNC` needs nothing more; a
      status needs five parts; anything else is an unknown message. */
  function ParseAccounting(parts: seq<string>): (r: Result<ServerMsg>)
    ensures |parts| < 2 ==> r.Failure?
    ensures |parts| >= 2 && parts[1] == "RESYNC" ==> r == Success(Resync(StripNul(parts[0])))
    ensures r.Success? && r.value.Accounting? ==>
      && |parts| >= 5
      && StatusName(r.value.msg.status) == parts[1]
      && r.value.msg.domain == StripNul(parts[0])
      && r.value.msg.identifier == parts[2]
      && (r.value.msg.delayTS.Some? ==> parts[4] != "")
    ensures |parts| >= 2 && parts[1] != "RESYNC" && StatusFromName(parts[1]).None? ==>
      r == Failure("Unknown message of type " + parts[1] + " on accounting socket")
    ensures |parts| >= 2 && StatusFromName(parts[1]).Some? ==> (r.Success? <==> |parts| >= 5)
  {
    if |parts| < 2 then Failure("Too-short message on accounting socket")
    else
      var domain := StripNul(parts[0]);
      if parts[1] == "RESYNC" then Success(Resync(domain))
      else match StatusFromName(parts[1])
        case Some(status) =>
          if |parts| < 5 then Failure("Too-short accounting message")
          else Success(Accounting(AccountingMsg(
            domain, status, parts[2], ParseDecimal(parts[3]),
            if parts[4] != "" then ParseDecimal(parts[4]) else None,
            |parts| > 5 && parts[5] != "")))
        case None => Failure("Unknown message of type " + parts[1] + " on accounting socket")
  }

  /** `sendControl`: the domain with its NUL, the command, the identifier when it
      is non-empty, then the arguments. */
  function SendControl(domain: string, command: string, identifier: string, args: seq<string>): (frames: seq<string>)
    ensures |frames| >= 2 && frames[..2] == [Topic(domain), command]
    ensures identifier != "" ==> frames == [Topic(domain), command, identifier] + args
    ensures identifier == "" ==> frames == [Topic(domain), command] + args
  {
    [domain + "\0", command] + (if identifier != "" then [identifier] else []) + args
  }

  /** What the master sends when a client must wait: the gatekeeper reads back the
      domain, the identifier and the time. */
  lemma {:induction false} DelayUntilReachesGatekeeper(domain: string, identifier: string, until: nat)
    requires identifier != ""
    ensures ParseControl(SendControl(domain, DelayUntilCommand, identifier, [NatToString(until)]))
      == Success(ControlMsg(domain, DelayUntilCommand, identifier, [NatToString(until)], Some(until)))
  {
    StripNulAfterNul(domain);
    DecimalRoundTrip(until);
  }

  /** Control frames round-trip whenever the identifier frame is present. */
  lemma {:induction false} ControlRoundTrip(domain: string, command: string, identifier: string, args: seq<string>)
    requires identifier != ""
    ensures ParseControl(SendControl(domain, command, identifier, args)).Success?
    ensures var m := ParseControl(SendControl(domain, command, identifier, args)).value;
      m.domain == domain && m.command == command && m.identifier == identifier && m.args == args
  {
    var f := SendControl(domain, command, identifier, args);
    StripNulAfterNul(domain);
    assert f[3..] == args;
  }

  /** An empty identifier is left out of the frames, so the first argument is
      read back as the identifier. */
  lemma EmptyIdentifierShiftsArguments(domain: string, command: string, args: seq<string>)
    requires |args| > 0
    ensures ParseControl(SendControl(domain, command, "", args)).Success?
    ensures ParseControl(SendControl(domain, command, "", args)).value.identifier == args[0]
  {
  }

  /** What a gatekeeper publishes, the master reads back: domain, status,
      identifier, receive time and (for a held request) the delay time. */
  lemma {:induction false} AccountingRoundTrip(domain: string, rec: AccountingRecord, logInfo: Option<string>)
    ensures ParseAccounting(SendAccounting(domain, rec, logInfo)) == Success(Accounting(AccountingMsg(
      domain, rec.status, rec.identifier, Some(rec.rcvTS), rec.delayTS, logInfo.Some? && logInfo.value != "")))
  {
    StripNulAfterNul(domain);
    DecimalRoundTrip(rec.rcvTS);
    if rec.delayTS.Some? {
      DecimalRoundTrip(rec.delayTS.value);
    }
  }

  // ---------------------------------------------------------------------------
  // The older combined master (master/lib/index.js)

  datatype LegacyAccountingMsg = LegacyAccountingMsg(
    domain: string,
    status: string,
    identifier: string,
    rcvTS: Option<nat>,
    delayTS: Option<nat>,
    hasLogInfo: bool)

  /** The older `_parseAccounting`: five parts at least, the status is not checked. */
  function ParseAccountingLegacy(parts: seq<string>): (r: Result<LegacyAccountingMsg>)
    ensures r.Success? <==> |parts| >= 5
    ensures r.Success? ==>
      && r.value.domain == StripNul(parts[0]) && r.value.status == parts[1] && r.value.identifier == parts[2]
      && (r.value.delayTS.Some? ==> parts[4] != "")
  {
    if |parts| < 5 then Failure("Too-short accounting message")
    else Success(LegacyAccountingMsg(
      StripNul(parts[0]), parts[1], parts[2], ParseDecimal(parts[3]),
      if parts[4] != "" then ParseDecimal(parts[4]) else None,
      |parts| > 5 && parts[5] != ""))
  }

  /** The older `sendControl`: the identifier frame is always present. */
  function SendControlLegacy(domain: string, command: string, identifier: string, args: seq<string>): (frames: seq<string>)
    ensures |frames| == 3 + |args| && frames[3..] == args
    ensures ParseControl(frames).Success?
  {
    [domain + "\0", command, identifier] + args
  }

  lemma {:induction false} LegacyControlRoundTrip(domain: string, command: string, identifier: string, args: seq<string>)
    ensures ParseControl(SendControlLegacy(domain, command, identifier, args)).Success?
    ensures var m := ParseControl(SendControlLegacy(domain, command, identifier, args)).value;
      m.domain == domain && m.command == command && m.identifier == identifier && m.args == args
  {
    StripNulAfterNul(domain);
  }

  lemma {:induction false} LegacyAccountingRoundTrip(domain: string, rec: AccountingRecord, logInfo: Option<string>)
    ensures ParseAccountingLegacy(SendAccounting(domain, rec, logInfo)) == Success(LegacyAccountingMsg(
      domain, StatusName(rec.status), rec.identifier, Some(rec.rcvTS), rec.delayTS, logInfo.Some? && logInfo.value != ""))
  {
    StripNulAfterNul(domain);
    DecimalRoundTrip(rec.rcvTS);
    if rec.delayTS.Some? {
      DecimalRoundTrip(rec.delayTS.value);
    }
  }
}
