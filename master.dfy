/** The master's accounting handler: `_onAccounting` of lib/smockron/master/index.js
    (the same text is `Smockron.Master.prototype._onAccounting` in
    master/lib/index.js). Each accounting message from a gatekeeper charges one
    access to its identifier in the store; when the identifier's next allowed
    time is then in the future, the master publishes a `DELAY_UNTIL` control
    message. The clock is a parameter and the published messages are kept in a
    list. */
module Master {
  import opened Wrappers
  import opened Text
  import opened Admission
  import opened ZmqWire
  import opened Rates
  import opened Store

  /** The time an access is charged at: `rcvTS` for ACCEPTED, `delayTS` for
      DELAYED, and none (`undefined`) for any other status. */
  function ChargedTime(status: string, rcvTS: Option<nat>, delayTS: Option<nat>): (r: Option<nat>)
    ensures status == "ACCEPTED" ==> r == rcvTS
    ensures status == "DELAYED" ==> r == delayTS
    ensures status != "ACCEPTED" && status != "DELAYED" ==> r.None?
  {
    if status == "ACCEPTED" then rcvTS
    else if status == "DELAYED" then delayTS
    else None
  }

  /** Whether the script reaches its `set`: a configured domain with an
      interval and a burst, and a status other than REJECTED. */
  predicate ScriptWrites(domains: map<string, Domain>, domain: string, status: string) {
    && domain in domains && status != "REJECTED"
    && domains[domain].interval.Some? && domains[domain].burst.Some?
  }

  /** The next allowed time one accounting message yields, from the
      identifier's stored time `prev`: `None` when the script does not run to
      its end (unknown domain, REJECTED, an undefined interval or burst, or a
      missing time, for which it writes NaN and then fails). */
  function Charge(domains: map<string, Domain>, domain: string, status: string,
                  rcvTS: Option<nat>, delayTS: Option<nat>, prev: Option<int>, now: nat): (r: Option<int>)
    ensures domain !in domains || status == "REJECTED" ==> r.None?
    ensures status != "ACCEPTED" && status != "DELAYED" ==> r.None?
    ensures r.Some? <==> ScriptWrites(domains, domain, status) && ChargedTime(status, rcvTS, delayTS).Some?
  {
    if domain !in domains || status == "REJECTED" then None
    else
      var ts := ChargedTime(status, rcvTS, delayTS);
      var d := domains[domain];
      if ts.None? || d.interval.None? || d.burst.None? then None
      else Some(NextAllowed(prev, Max(ts.value, now), d.interval.value, d.burst.value))
  }

  /** An access charged at a time no later than `now` (an ACCEPTED request
      reported at once) pushes the identifier's time at least one interval past
      both its previous time and the start of the burst window. */
  lemma ChargeAdvances(domains: map<string, Domain>, domain: string, rcvTS: nat, prev: Option<int>, now: nat)
    requires domain in domains && domains[domain].interval.Some? && domains[domain].burst.Some?
    requires rcvTS <= now
    ensures var r := Charge(domains, domain, "ACCEPTED", Some(rcvTS), None, prev, now);
      var d := domains[domain];
      && r.Some?
      && r.value >= now - d.burst.value + d.interval.value
      && (prev.Some? ==> r.value >= prev.value + d.interval.value)
  {
    var d := domains[domain];
    assert Max(rcvTS, now) == now;
    if prev.Some? {
      NextAllowedGrows(prev.value, now, d.interval.value, d.burst.value);
    }
  }

  /** A DELAYED request is charged at the time it was held until, so the stored
      time counts from there rather than from its arrival. */
  lemma DelayedChargedAtDelayTime(domains: map<string, Domain>, domain: string, rcvTS: Option<nat>,
                                  delayTS: nat, now: nat)
    requires domain in domains && domains[domain].interval.Some? && domains[domain].burst.Some?
    requires delayTS >= now
    ensures var d := domains[domain];
      Charge(domains, domain, "DELAYED", rcvTS, Some(delayTS), None, now)
        == Some(delayTS - d.burst.value + d.interval.value)
  {
  }

  class Master {
    const domains: map<string, Domain>
    const store: DataStore
    /** Whether this is the older master of master/lib/index.js, whose
        `sendControl` always sends the identifier frame. */
    const legacy: bool
    /** The control messages published so far, oldest first. */
    var sent: seq<seq<string>>

    constructor(domains: map<string, Domain>, legacy: bool)
      ensures this.domains == domains && this.legacy == legacy
      ensures fresh(store) && store.values == map[] && store.expireAt == map[]
      ensures sent == []
    {
      this.domains := domains;
      this.legacy := legacy;
      store := new DataStore();
      sent := [];
    }

    /** The frames of the `DELAY_UNTIL` message for `until`. */
    function DelayFrames(domain: string, identifier: string, until: nat): seq<string> {
      if legacy then SendControlLegacy(domain, DelayUntilCommand, identifier, [NatToString(until)])
      else SendControl(domain, DelayUntilCommand, identifier, [NatToString(until)])
    }

    /** `_onAccounting` on one message, status as text. */
    method Account(domain: string, status: string, identifier: string,
                   rcvTS: Option<nat>, delayTS: Option<nat>, now: nat) returns (until: Option<int>)
      modifies this, store
      ensures until == Charge(domains, domain, status, rcvTS, delayTS, NumberOf(old(store.Get(Key(domain, identifier), now))), now)
      ensures !ScriptWrites(domains, domain, status) ==> store.values == old(store.values) && store.expireAt == old(store.expireAt)
      ensures ScriptWrites(domains, domain, status) && ChargedTime(status, rcvTS, delayTS).None? ==>
        && store.values == old(store.values)[Key(domain, identifier) := NotANumber]
        && store.expireAt == old(store.expireAt) - {Key(domain, identifier)}
      ensures until.Some? ==>
        var key := Key(domain, identifier);
        var at := Max(ChargedTime(status, rcvTS, delayTS).value, now) + domains[domain].burst.value;
        && (at > now ==> store.values == old(store.values)[key := Number(until.value)] && store.expireAt == old(store.expireAt)[key := at])
        && (at <= now ==> store.values == old(store.values) - {key} && store.expireAt == old(store.expireAt) - {key})
      ensures sent == old(sent) + (if until.Some? && until.value > now then [DelayFrames(domain, identifier, until.value)] else [])
    {
      if domain !in domains || status == "REJECTED" {
        return None;
      }
      var d := domains[domain];
      var ts := ChargedTime(status, rcvTS, delayTS);
      until := store.LogAccess(domain, identifier, ts, now, d.interval, d.burst);
      if until.Some? && until.value > now {
        sent := sent + [DelayFrames(domain, identifier, until.value)];
      }
    }

    /** `_onAccounting` on a message parsed by lib/smockron/master/server.js. */
    method OnAccounting(msg: AccountingMsg, now: nat) returns (until: Option<int>)
      modifies this, store
      ensures msg.status == REJECTED ==> until.None? && store.values == old(store.values) && sent == old(sent)
      ensures until == Charge(domains, msg.domain, StatusName(msg.status), msg.rcvTS, msg.delayTS,
        NumberOf(old(store.Get(Key(msg.domain, msg.identifier), now))), now)
      ensures !ScriptWrites(domains, msg.domain, StatusName(msg.status)) ==>
        store.values == old(store.values) && store.expireAt == old(store.expireAt)
      ensures ScriptWrites(domains, msg.domain, StatusName(msg.status)) && ChargedTime(StatusName(msg.status), msg.rcvTS, msg.delayTS).None? ==>
        && store.values == old(store.values)[Key(msg.domain, msg.identifier) := NotANumber]
        && store.expireAt == old(store.expireAt) - {Key(msg.domain, msg.identifier)}
      ensures until.Some? ==>
        var key := Key(msg.domain, msg.identifier);
        var at := Max(ChargedTime(StatusName(msg.status), msg.rcvTS, msg.delayTS).value, now) + domains[msg.domain].burst.value;
        && (at > now ==> store.values == old(store.values)[key := Number(until.value)] && store.expireAt == old(store.expireAt)[key := at])
        && (at <= now ==> store.values == old(store.values) - {key} && store.expireAt == old(store.expireAt) - {key})
      ensures sent == old(sent) + (if until.Some? && until.value > now then [DelayFrames(msg.domain, msg.identifier, until.value)] else [])
    {
      until := Account(msg.domain, StatusName(msg.status), msg.identifier, msg.rcvTS, msg.delayTS, now);
    }

    /** `_onAccounting` on a message parsed by the older master, whose status
        is any text. */
    method OnAccountingLegacy(msg: LegacyAccountingMsg, now: nat) returns (until: Option<int>)
      modifies this, store
      ensures until == Charge(domains, msg.domain, msg.status, msg.rcvTS, msg.delayTS,
        NumberOf(old(store.Get(Key(msg.domain, msg.identifier), now))), now)
      ensures !ScriptWrites(domains, msg.domain, msg.status) ==>
        store.values == old(store.values) && store.expireAt == old(store.expireAt)
      ensures ScriptWrites(domains, msg.domain, msg.status) && ChargedTime(msg.status, msg.rcvTS, msg.delayTS).None? ==>
        && store.values == old(store.values)[Key(msg.domain, msg.identifier) := NotANumber]
        && store.expireAt == old(store.expireAt) - {Key(msg.domain, msg.identifier)}
      ensures until.Some? ==>
        var key := Key(msg.domain, msg.identifier);
        var at := Max(ChargedTime(msg.status, msg.rcvTS, msg.delayTS).value, now) + domains[msg.domain].burst.value;
        && (at > now ==> store.values == old(store.values)[key := Number(until.value)] && store.expireAt == old(store.expireAt)[key := at])
        && (at <= now ==> store.values == old(store.values) - {key} && store.expireAt == old(store.expireAt) - {key})
      ensures sent == old(sent) + (if until.Some? && until.value > now then [DelayFrames(msg.domain, msg.identifier, until.value)] else [])
    {
      until := Account(msg.domain, msg.status, msg.identifier, msg.rcvTS, msg.delayTS, now);
    }
  }

  /** Every `DELAY_UNTIL` the master publishes reaches a gatekeeper as that
      command with that time, for the identifier it was charged to, provided the
      identifier frame is present (the older master always sends it, the newer
      one only for a non-empty identifier). */
  lemma {:induction false} DelayFramesReachGatekeeper(legacy: bool, domain: string, identifier: string, until: nat)
    requires legacy || identifier != ""
    ensures var frames := if legacy then SendControlLegacy(domain, DelayUntilCommand, identifier, [NatToString(until)])
                          else SendControl(domain, DelayUntilCommand, identifier, [NatToString(until)]);
      && ParseControl(frames).Success?
      && ParseControl(frames).value.domain == domain
      && ParseControl(frames).value.identifier == identifier
      && ParseControl(frames).value.command == DelayUntilCommand
      && ParseControl(frames).value.ts == Some(until)
  {
    if legacy {
      LegacyControlRoundTrip(domain, DelayUntilCommand, identifier, [NatToString(until)]);
      DecimalRoundTrip(until);
    } else {
      DelayUntilReachesGatekeeper(domain, identifier, until);
    }
  }
}
