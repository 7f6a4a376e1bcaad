/** The gatekeeper's "delayed-until" table and the per-request verdict, shared by
    lib/smockron/gatekeeper/index.js and gatekeeper/node-middleware/lib/index.js,
    which hold the same `_delayUntil`, `_cleanup` and comparison chain. */
module Admission {
  import opened Wrappers

  /** Identifier -> millisecond time before which its requests are held back. */
  type Table = map<string, nat>

  /** The delay ceiling of both gatekeepers (`now + 5000`). */
  const MaxDelay: nat := 5000

  datatype Status = ACCEPTED | DELAYED | REJECTED

  /** The accounting object a gatekeeper builds for each request. */
  datatype AccountingRecord = AccountingRecord(
    identifier: string,
    rcvTS: nat,
    status: Status,
    delayTS: Option<nat>)

  datatype Verdict = Accepted | Delayed(until: nat) | Rejected

  /** `self.delayed[identifier]`, with 0 (falsy, like `undefined`) for a missing entry. */
  function Lookup(m: Table, id: string): nat {
    if id in m then m[id] else 0
  }

  /** `_delayUntil`: store `ts` when the entry is missing or lower. The result is
      the maximum of the old entry and `ts`; every other identifier keeps its entry. */
  function Raise(m: Table, id: string, ts: nat): (r: Table)
    ensures r.Keys == m.Keys + {id}
    ensures r[id] >= ts && (id in m ==> r[id] >= m[id])
    ensures r[id] == ts || (id in m && r[id] == m[id])
    ensures forall k :: k in m && k != id ==> r[k] == m[k]
  {
    if id !in m || ts > m[id] then m[id := ts] else m
  }

  lemma RaiseIdempotent(m: Table, id: string, ts: nat)
    ensures Raise(Raise(m, id, ts), id, ts) == Raise(m, id, ts)
  {
  }

  /** Two updates commute, so the order in which the master's messages arrive
      does not matter. */
  lemma RaiseCommutes(m: Table, a: string, s: nat, b: string, t: nat)
    ensures Raise(Raise(m, a, s), b, t) == Raise(Raise(m, b, t), a, s)
  {
    var l, r := Raise(Raise(m, a, s), b, t), Raise(Raise(m, b, t), a, s);
    assert l.Keys == r.Keys;
    forall k | k in l
      ensures l[k] == r[k]
    {
    }
  }

  /** A run of control updates applied in order. */
  function RaiseAll(m: Table, updates: seq<(string, nat)>): Table
    decreases |updates|
  {
    if updates == [] then m else RaiseAll(Raise(m, updates[0].0, updates[0].1), updates[1..])
  }

  /** After any run of updates an identifier holds the largest timestamp sent for
      it (or its old entry, if that is larger); identifiers never named keep theirs. */
  lemma {:induction false} RaiseAllIsMaximum(m: Table, updates: seq<(string, nat)>, k: string)
    ensures k in RaiseAll(m, updates) <==> k in m || exists i :: 0 <= i < |updates| && updates[i].0 == k
    ensures k in RaiseAll(m, updates) && k in m ==> RaiseAll(m, updates)[k] >= m[k]
    ensures forall i :: 0 <= i < |updates| && updates[i].0 == k ==> RaiseAll(m, updates)[k] >= updates[i].1
    ensures k in RaiseAll(m, updates) ==>
      (k in m && RaiseAll(m, updates)[k] == m[k]) || exists i :: 0 <= i < |updates| && updates[i] == (k, RaiseAll(m, updates)[k])
    decreases |updates|
  {
    if updates != [] {
      var m' := Raise(m, updates[0].0, updates[0].1);
      RaiseAllIsMaximum(m', updates[1..], k);
      var r := RaiseAll(m, updates);
      assert r == RaiseAll(m', updates[1..]);
      forall i | 1 <= i < |updates|
        ensures updates[i] == updates[1..][i - 1]
      {
      }
      if k in r && k in m' && r[k] == m'[k] && !(k in m && r[k] == m[k]) {
        assert updates[0] == (k, r[k]);
      }
      if k in r {
        if k !in m && k == updates[0].0 {
          assert exists i :: 0 <= i < |updates| && updates[i].0 == k;
        }
      }
      if (exists i :: 0 <= i < |updates| && updates[i].0 == k) && !(k in m) {
        var i :| 0 <= i < |updates| && updates[i].0 == k;
        if i > 0 {
          assert updates[1..][i - 1].0 == k;
        }
      }
    }
  }

  /** The table that `_cleanup(now)` leaves: entries at or after `now`. */
  function Unexpired(m: Table, now: nat): (r: Table)
    ensures forall k :: k in r <==> k in m && m[k] >= now
    ensures forall k :: k in r ==> r[k] == m[k]
  {
    map k | k in m && m[k] >= now :: m[k]
  }

  /** The sweep loop of `_cleanup`: visit every key and delete those whose
      time is before `now`. */
  method SweepExpired(m: Table, now: nat) returns (r: Table)
    ensures r == Unexpired(m, now)
  {
    r := m;
    var todo := m.Keys;
    while todo != {}
      invariant todo <= m.Keys
      invariant forall k :: k in r <==> k in m && (k in todo || m[k] >= now)
      invariant forall k :: k in r ==> r[k] == m[k]
      decreases todo
    {
      var k :| k in todo;
      if r[k] < now {
        r := r - {k};
      }
      todo := todo - {k};
    }
  }

  /** The comparison chain of `middleware`: accept when there is no later entry,
      hold the request until the entry when it is at most 5000 ms away, reject
      beyond that. */
  function Classify(next: nat, now: nat): (v: Verdict)
    ensures v == Accepted <==> next <= now
    ensures v == Rejected <==> next > now + MaxDelay
    ensures v.Delayed? <==> now < next <= now + MaxDelay
    ensures v.Delayed? ==> v.until == next && 0 < v.until - now <= MaxDelay
  {
    if next != 0 && next > now then
      if next > now + MaxDelay then Rejected else Delayed(next)
    else
      Accepted
  }

  function StatusOf(v: Verdict): Status {
    match v
    case Accepted => ACCEPTED
    case Delayed(_) => DELAYED
    case Rejected => REJECTED
  }

  /** The accounting object sent for a verdict: the identifier, `rcvTS = now`,
      and `delayTS` only for a held request. */
  function RecordFor(id: string, now: nat, v: Verdict): (rec: AccountingRecord)
    ensures rec.identifier == id && rec.rcvTS == now
    ensures rec.delayTS.Some? <==> rec.status == DELAYED
    ensures v.Delayed? ==> rec.delayTS == Some(v.until)
    ensures (rec.status == ACCEPTED <==> v == Accepted) && (rec.status == REJECTED <==> v == Rejected)
  {
    AccountingRecord(id, now, StatusOf(v), if v.Delayed? then Some(v.until) else None)
  }
}
