/** The gatekeeper of lib/smockron/gatekeeper/index.js: a table of
    identifiers that must wait, raised by the master's control messages, swept
    every second, and read once per request. The clock is a parameter. */
module Gatekeeper {
  import opened Wrappers
  import opened Admission
  import opened ZmqWire

  class Gatekeeper {
    var delayed: Table

    constructor()
      ensures delayed == map[]
    {
      delayed := map[];
    }

    /** `_delayUntil`: keep the later of the stored time and `ts`. */
    method DelayUntil(identifier: string, ts: nat)
      modifies this
      ensures delayed == Raise(old(delayed), identifier, ts)
    {
      if identifier !in delayed || ts > delayed[identifier] {
        delayed := delayed[identifier := ts];
      }
    }

    /** `_onControl`: only `DELAY_UNTIL` with a readable time touches the table. */
    method OnControl(msg: ControlMsg)
      modifies this
      ensures msg.command != DelayUntilCommand || msg.ts.None? ==> delayed == old(delayed)
      ensures msg.command == DelayUntilCommand && msg.ts.Some? ==>
        delayed == Raise(old(delayed), msg.identifier, msg.ts.value)
    {
      if msg.command == DelayUntilCommand {
        if msg.ts.Some? {
          DelayUntil(msg.identifier, msg.ts.value);
        }
      }
    }

    /** `_cleanup`, run by the one-second interval timer. */
    method Cleanup(now: nat)
      modifies this
      ensures delayed == Unexpired(old(delayed), now)
    {
      delayed := SweepExpired(delayed, now);
    }

    /** The request handler built by `middleware`: it decides from the table and
      returns the accounting record it publishes; the table is not changed. */
    method Handle(identifier: string, now: nat) returns (rec: AccountingRecord)
      ensures rec == RecordFor(identifier, now, Classify(Lookup(delayed, identifier), now))
      ensures rec.status == ACCEPTED <==> Lookup(delayed, identifier) <= now
      ensures rec.status == REJECTED <==> Lookup(delayed, identifier) > now + MaxDelay
      ensures rec.status == DELAYED <==> rec.delayTS == Some(Lookup(delayed, identifier)) && Lookup(delayed, identifier) > now
    {
      var delayTS := Lookup(delayed, identifier);
      if delayTS != 0 && delayTS > now {
        if delayTS > now + MaxDelay {
          rec := AccountingRecord(identifier, now, REJECTED, None);
        } else {
          rec := AccountingRecord(identifier, now, DELAYED, Some(delayTS));
        }
      } else {
        rec := AccountingRecord(identifier, now, ACCEPTED, None);
      }
    }
  }

  /** A `DELAY_UNTIL` from the master makes the next request at an earlier time
      wait or be rejected, never pass. */
  lemma {:induction false} ControlThenRequest(m: Table, domain: string, identifier: string, until: nat, now: nat)
    requires identifier != ""
    requires now < until
    ensures var msg := ParseControl(SendControl(domain, DelayUntilCommand, identifier, [Text.NatToString(until)])).value;
      Classify(Lookup(Raise(m, msg.identifier, msg.ts.value), identifier), now) != Accepted
  {
    DelayUntilReachesGatekeeper(domain, identifier, until);
  }
}
