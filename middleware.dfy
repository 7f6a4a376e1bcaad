/** The Express middleware of gatekeeper/node-middleware/lib/index.js: the same
    delay table as the plain gatekeeper, plus a one-slot wait queue and a timer
    per identifier. A held request is represented by the handle of its `next`
    continuation; a timer firing is an explicit call of `Dequeue`. */
module Middleware {
  import opened Wrappers
  import opened Admission

  /** The `next` continuation of a held request. */
  type Callback = nat

  /** Timer wait when the identifier has no (truthy) entry. */
  const IdleWait: int := 10

  /** `ensureTimer`'s wait: time left until the entry, or 10 ms without one. */
  function TimerWait(delayed: Table, identifier: string, now: nat): (w: int)
    ensures Lookup(delayed, identifier) != 0 ==> w + now == delayed[identifier]
    ensures Lookup(delayed, identifier) == 0 ==> w == IdleWait
  {
    if Lookup(delayed, identifier) != 0 then delayed[identifier] - now else IdleWait
  }

  class Smockron {
    var delayed: Table
    var queue: map<string, seq<Callback>>
    /** The wait each identifier's armed timer was set with. */
    var timer: map<string, int>

    /** Every queued identifier holds exactly one callback and has an armed timer. */
    ghost predicate Valid()
      reads this
    {
      && queue.Keys == timer.Keys
      && forall id :: id in queue ==> |queue[id]| == 1
    }

    constructor()
      ensures Valid()
      ensures delayed == map[] && queue == map[] && timer == map[]
    {
      delayed, queue, timer := map[], map[], map[];
    }

    method DelayUntil(identifier: string, ts: nat)
      modifies this
      ensures delayed == Raise(old(delayed), identifier, ts)
      ensures queue == old(queue) && timer == old(timer)
    {
      if identifier !in delayed || ts > delayed[identifier] {
        delayed := delayed[identifier := ts];
      }
    }

    method Cleanup(now: nat)
      modifies this
      ensures delayed == Unexpired(old(delayed), now)
      ensures queue == old(queue) && timer == old(timer)
    {
      delayed := SweepExpired(delayed, now);
    }

    /** `ensureTimer`: clear the identifier's timer and arm a new one. */
    method EnsureTimer(identifier: string, now: nat)
      modifies this
      ensures timer == old(timer)[identifier := TimerWait(delayed, identifier, now)]
      ensures delayed == old(delayed) && queue == old(queue)
    {
      var wait: int;
      if identifier in delayed && delayed[identifier] != 0 {
        wait := delayed[identifier] - now;
      } else {
        wait := IdleWait;
      }
      timer := timer[identifier := wait];
    }

    /** `enqueue`: refuse when the identifier's slot is taken, otherwise hold the
      callback and (re)arm the timer. */
    method Enqueue(identifier: string, cb: Callback, now: nat) returns (ok: bool)
      requires Valid()
      modifies this
      ensures Valid()
      ensures ok <==> identifier !in old(queue)
      ensures ok ==> (queue == old(queue)[identifier := [cb]]
                   && timer == old(timer)[identifier := TimerWait(delayed, identifier, now)])
      ensures !ok ==> queue == old(queue) && timer == old(timer)
      ensures delayed == old(delayed)
    {
      var q := if identifier in queue then queue[identifier] else [];
      if |q| >= 1 {
        ok := false;
      } else {
        assert q + [cb] == [cb];
        queue := queue[identifier := q + [cb]];
        EnsureTimer(identifier, now);
        ok := true;
      }
    }

    /** `dequeue`, run when an identifier's timer fires: release at most one
      callback (the last one queued); re-arm the timer while callbacks remain,
      otherwise forget both queue and timer. With the one-slot queue of `Enqueue`
      the queue is always emptied. */
    method Dequeue(identifier: string, now: nat) returns (released: Option<Callback>)
      modifies this
      ensures old(Valid()) ==> Valid()
      ensures delayed == old(delayed)
      ensures identifier !in old(queue) ==> released == None && queue == old(queue) && timer == old(timer)
      ensures identifier in old(queue) ==>
        (released.Some? <==> |old(queue)[identifier]| > 0)
      ensures identifier in old(queue) && released.Some? ==>
        released.value == old(queue)[identifier][|old(queue)[identifier]| - 1]
      ensures identifier in old(queue) && |old(queue)[identifier]| <= 1 ==>
        (queue == old(queue) - {identifier} && timer == old(timer) - {identifier})
      ensures identifier in old(queue) && |old(queue)[identifier]| > 1 ==>
        (queue == old(queue)[identifier := old(queue)[identifier][..|old(queue)[identifier]| - 1]]
         && timer == old(timer)[identifier := TimerWait(delayed, identifier, now)])
    {
      released := None;
      if identifier in queue {
        var q := queue[identifier];
        if |q| > 0 {
          released := Some(q[|q| - 1]);
          q := q[..|q| - 1];
          queue := queue[identifier := q];
        }
        if |q| > 0 {
          EnsureTimer(identifier, now);
        } else {
          queue := queue - {identifier};
          timer := timer - {identifier};
        }
      }
    }

    /** The request handler: reject beyond the 5000 ms ceiling without touching
      the queue, otherwise hold the request in the identifier's slot or reject
      it when the slot is taken; accept when there is no later entry. */
    method Handle(identifier: string, cb: Callback, now: nat) returns (rec: AccountingRecord)
      requires Valid()
      modifies this
      ensures Valid()
      ensures delayed == old(delayed)
      ensures rec.identifier == identifier && rec.rcvTS == now
      ensures rec.status == ACCEPTED <==> Lookup(delayed, identifier) <= now
      ensures rec.status == REJECTED <==>
        (Lookup(delayed, identifier) > now + MaxDelay || (Lookup(delayed, identifier) > now && identifier in old(queue)))
      ensures rec.status == DELAYED <==> Classify(Lookup(delayed, identifier), now).Delayed? && identifier !in old(queue)
      ensures rec.delayTS == (if rec.status == DELAYED then Some(Lookup(delayed, identifier)) else None)
      ensures rec.status == DELAYED ==>
        (queue == old(queue)[identifier := [cb]] && timer == old(timer)[identifier := Lookup(delayed, identifier) - now])
      ensures rec.status != DELAYED ==> queue == old(queue) && timer == old(timer)
    {
      var delayTS := Lookup(delayed, identifier);
      if delayTS != 0 && delayTS > now {
        var rejected := delayTS > now + MaxDelay;
        if !rejected {
          var ok := Enqueue(identifier, cb, now);
          rejected := !ok;
        }
        if rejected {
          rec := AccountingRecord(identifier, now, REJECTED, None);
        } else {
          rec := AccountingRecord(identifier, now, DELAYED, Some(delayTS));
        }
      } else {
        rec := AccountingRecord(identifier, now, ACCEPTED, None);
      }
    }
  }
}
