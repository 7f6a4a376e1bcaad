/** The sliding-window prototype of misc/prototype/test.js: one global history
    of admitted request times (at most `Burst` of them within `Burst * Interval`
    ms), and a time `until` before which requests are held. The clock is a
    parameter, and the 200 ms timer that publishes the next `until` is an
    explicit call of `TimerFires`. */
module Prototype {
  import opened Wrappers

  const Interval: int := 1000
  const Burst: nat := 10
  /** The window the history covers. */
  const Window: int := Burst * Interval
  /** Longest hold before a request is rejected. */
  const MaxHold: int := 5000
  /** A wait of at most this many ms lets the request through at once. */
  const MinHold: int := 5

  datatype Verdict = Allow | Hold(wait: int) | Reject(retryAfter: int)

  /** The outcome of `until && until > now + 5` and what follows it. An absent
      or zero `until` is falsy. */
  function Judge(until: Option<int>, now: nat): (v: Verdict)
    ensures v.Reject? <==> until.Some? && until.value > now + MaxHold
    ensures v.Reject? ==> v.retryAfter >= 5 && v.retryAfter * 1000 <= until.value - now < v.retryAfter * 1000 + 1000
    ensures v.Hold? <==> until.Some? && until.value != 0 && now + MinHold < until.value <= now + MaxHold
    ensures v.Hold? ==> MinHold < v.wait <= MaxHold && v.wait == until.value - now
    ensures v.Allow? <==> until.None? || until.value == 0 || until.value <= now + MinHold
  {
    if until.Some? && until.value != 0 && until.value > now + MinHold then
      if until.value > now + MaxHold then Reject((until.value - now) / 1000)
      else Hold(until.value - now)
    else Allow
  }

  /** `prev.filter(tm => tm >= now - burst * interval)`. */
  function Recent(s: seq<int>, now: int): (r: seq<int>)
    ensures |r| <= |s|
    ensures forall i :: 0 <= i < |r| ==> r[i] >= now - Window
    ensures forall x :: multiset(r)[x] == if x >= now - Window then multiset(s)[x] else 0
  {
    if s == [] then []
    else
      var rest := Recent(s[1..], now);
      assert s == [s[0]] + s[1..];
      RecentCounts(s[0], s[1..], rest, now);
      if s[0] >= now - Window then [s[0]] + rest else rest
  }

  /** The filter keeps exactly the times within the window: each kept time is
      one of the history's, and each time of the history within the window is
      kept. */
  lemma RecentMembers(s: seq<int>, now: int)
    ensures forall i :: 0 <= i < |Recent(s, now)| ==> Recent(s, now)[i] in s
    ensures forall i :: 0 <= i < |s| && s[i] >= now - Window ==> s[i] in Recent(s, now)
  {
    var r := Recent(s, now);
    forall i | 0 <= i < |r| ensures r[i] in s {
      assert r[i] in multiset(r);
    }
    forall i | 0 <= i < |s| && s[i] >= now - Window ensures s[i] in r {
      assert s[i] in multiset(s);
    }
  }

  /** One step of the filter keeps the count of every time in the window and
      drops the others. */
  lemma RecentCounts(x: int, s: seq<int>, rest: seq<int>, now: int)
    requires forall y :: multiset(rest)[y] == if y >= now - Window then multiset(s)[y] else 0
    ensures var r := if x >= now - Window then [x] + rest else rest;
      forall y :: multiset(r)[y] == if y >= now - Window then multiset([x] + s)[y] else 0
  {
    assert multiset([x] + s) == multiset{x} + multiset(s);
    assert multiset([x] + rest) == multiset{x} + multiset(rest);
  }

  /** `splice(0, length - n)` when there are more than `n` elements: keep the
      last `n`. */
  function KeepLast(s: seq<int>, n: nat): (r: seq<int>)
    ensures |r| == (if |s| > n then n else |s|)
    ensures r == s[|s| - |r|..]
  {
    if |s| > n then s[|s| - n..] else s
  }

  /** The history after the two splices and the filter. */
  function Trimmed(prev: seq<int>, now: int): (r: seq<int>)
    ensures |r| <= Burst - 1
    ensures forall i :: 0 <= i < |r| ==> r[i] >= now - Window
    ensures forall i :: 0 <= i < |r| ==> r[i] in prev
    ensures r == Recent(KeepLast(prev, Burst - 1), now)
  {
    RecentMembers(KeepLast(prev, Burst - 1), now);
    KeepLast(Recent(KeepLast(prev, Burst - 1), now), Burst)
  }

  /** `compute_until`: once the history is full, the oldest of its last
      `Burst` entries plus the window; undefined before. */
  function ComputeUntil(prev: seq<int>): (r: Option<int>)
    ensures r.Some? <==> |prev| >= Burst
    ensures r.Some? ==> r.value - Window in prev[|prev| - Burst..]
    ensures r.Some? ==> |prev[|prev| - Burst..]| == Burst && prev[|prev| - Burst] == r.value - Window
  {
    if |prev| >= Burst then Some(prev[|prev| - Burst] + Window) else None
  }

  /** `a` is `b` with some elements left out, the rest in order. */
  predicate IsSubseq(a: seq<int>, b: seq<int>)
    decreases |b|
  {
    a == [] || (b != [] && ((a[0] == b[0] && IsSubseq(a[1..], b[1..])) || IsSubseq(a, b[1..])))
  }

  lemma {:induction false} RecentIsSubseq(s: seq<int>, now: int)
    ensures IsSubseq(Recent(s, now), s)
    decreases |s|
  {
    if s != [] {
      RecentIsSubseq(s[1..], now);
      if s[0] >= now - Window {
        assert Recent(s, now)[1..] == Recent(s[1..], now);
      }
    }
  }

  lemma {:induction false} SubseqOfSuffix(a: seq<int>, s: seq<int>, k: nat)
    requires k <= |s| && IsSubseq(a, s[k..])
    ensures IsSubseq(a, s)
    decreases k
  {
    if k > 0 {
      assert s[k - 1..][1..] == s[k..];
      SubseqOfSuffix(a, s, k - 1);
    }
  }

  lemma {:induction false} SubseqTrans(a: seq<int>, b: seq<int>, c: seq<int>)
    requires IsSubseq(a, b) && IsSubseq(b, c)
    ensures IsSubseq(a, c)
    decreases |c|
  {
    if a != [] {
      if b[0] == c[0] && IsSubseq(b[1..], c[1..]) {
        if a[0] == b[0] && IsSubseq(a[1..], b[1..]) {
          SubseqTrans(a[1..], b[1..], c[1..]);
        } else {
          SubseqTrans(a, b[1..], c[1..]);
          assert IsSubseq(a, c[1..]);
        }
      } else {
        SubseqTrans(a, b, c[1..]);
      }
    }
  }

  lemma SubseqOfKeepLast(s: seq<int>, n: nat)
    ensures IsSubseq(KeepLast(s, n), s)
  {
    SubseqRefl(KeepLast(s, n));
    if |s| > n {
      SubseqOfSuffix(s[|s| - n..], s, |s| - n);
    }
  }

  lemma {:induction false} SubseqRefl(s: seq<int>)
    ensures IsSubseq(s, s)
    decreases |s|
  {
    if s != [] {
      SubseqRefl(s[1..]);
    }
  }

  /** After trimming, the history holds at most `Burst - 1` times, all within
      the window, in the order they were admitted. */
  lemma TrimmedBounds(prev: seq<int>, now: int)
    ensures |Trimmed(prev, now)| <= Burst - 1
    ensures forall i :: 0 <= i < |Trimmed(prev, now)| ==> Trimmed(prev, now)[i] >= now - Window
    ensures IsSubseq(Trimmed(prev, now), prev)
  {
    var a := KeepLast(prev, Burst - 1);
    var b := Recent(a, now);
    var c := KeepLast(b, Burst);
    assert c == b;
    SubseqOfKeepLast(prev, Burst - 1);
    RecentIsSubseq(a, now);
    SubseqTrans(b, a, prev);
  }

  class Limiter {
    /** Times of the admitted requests, oldest first. */
    var prev: seq<int>
    /** The time before which requests are held; `None` is `undefined`. */
    var until: Option<int>
    /** Values of `until` waiting on their 200 ms timers, in firing order. */
    var pending: seq<Option<int>>

    constructor()
      ensures prev == [] && until == None && pending == []
    {
      prev, until, pending := [], None, [];
    }

    /** `rate_limit` at time `now`: trim the history, decide, and unless the
        request is rejected, record it (at `until` when that is later) and
        schedule the next `until`. */
    method RateLimit(now: nat) returns (v: Verdict)
      modifies this
      ensures v == Judge(old(until), now)
      ensures until == old(until)
      ensures v.Reject? ==> prev == Trimmed(old(prev), now) && pending == old(pending)
      ensures !v.Reject? ==>
        && prev == Trimmed(old(prev), now) + [if old(until).Some? && old(until).value > now then old(until).value else now]
        && pending == old(pending) + [ComputeUntil(prev)]
    {
      var p := KeepLast(prev, Burst - 1);
      p := Recent(p, now);
      p := KeepLast(p, Burst);
      prev := p;
      var u := until;
      v := Judge(u, now);
      if v.Reject? {
        return;
      }
      prev := prev + [if u.Some? && u.value > now then u.value else now];
      var foo := ComputeUntil(prev);
      pending := pending + [foo];
    }

    /** The oldest pending 200 ms timer fires and publishes its value. */
    method TimerFires()
      requires pending != []
      modifies this
      ensures until == old(pending[0]) && pending == old(pending[1..]) && prev == old(prev)
    {
      until := pending[0];
      pending := pending[1..];
    }
  }

  /** After an admitted request the history holds at most `Burst` times, the
      last of them no earlier than `now`; the next `until` is set exactly when
      it is full, to the oldest entry plus the window. */
  lemma AdmittedHistory(history: seq<int>, u: Option<int>, now: int)
    ensures var h := Trimmed(history, now) + [if u.Some? && u.value > now then u.value else now];
      && |h| <= Burst
      && h[|h| - 1] >= now
      && (ComputeUntil(h).Some? <==> |h| == Burst)
      && (ComputeUntil(h).Some? ==> ComputeUntil(h).value == h[0] + Window && h[0] >= now - Window)
  {
    TrimmedBounds(history, now);
  }
}
