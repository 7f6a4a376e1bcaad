/** The master's key-value store and the next-allowed rule it runs as a Lua
    script: lib/smockron/master/datastore.js (the same script text is in
    master/lib/index.js and master/datastore.go). The store is a map from keys
    to numbers with an expiry time per key; the Redis round trips are left out. */
module Store {
  import opened Wrappers

  const KeyPrefix := "throttle;"

  /** `_getKey`. */
  function Key(domain: string, identifier: string): (k: string)
    ensures |k| == |KeyPrefix| + |domain| + 1 + |identifier|
    ensures k[..|KeyPrefix|] == KeyPrefix && k[|KeyPrefix| + |domain|] == ';'
    ensures k[|KeyPrefix|..|KeyPrefix| + |domain|] == domain
    ensures k[|KeyPrefix| + |domain| + 1..] == identifier
  {
    KeyPrefix + domain + ";" + identifier
  }

  function Max(a: int, b: int): int {
    if a >= b then a else b
  }

  /** The Lua rule. A previous value inside the burst window (not before
      `now - burst`) is pushed back by one interval; otherwise the new value is
      one interval after the start of the window. In both cases the result is
      one interval after the later of the previous value and the window start. */
  function NextAllowed(prev: Option<int>, now: int, interval: int, burst: int): (r: int)
    ensures prev.Some? ==> r == Max(prev.value, now - burst) + interval
    ensures prev.None? ==> r == now - burst + interval
  {
    if prev.Some? && prev.value >= now - burst then prev.value + interval
    else now - burst + interval
  }

  /** With a non-negative interval the stored value never goes down, and each
      access moves it at least one interval past the previous value. */
  lemma NextAllowedGrows(prev: int, now: int, interval: int, burst: int)
    requires interval >= 0
    ensures NextAllowed(Some(prev), now, interval, burst) >= prev + interval >= prev
  {
  }

  /** The value after `k` accesses at one instant, starting from no value. */
  function AtOneInstant(k: nat, now: int, interval: int, burst: int): Option<int> {
    if k == 0 then None else Some(NextAllowed(AtOneInstant(k - 1, now, interval, burst), now, interval, burst))
  }

  /** `k` accesses at one instant leave `now - burst + k * interval`. */
  lemma {:induction false} AtOneInstantValue(k: nat, now: int, interval: int, burst: int)
    requires k >= 1 && interval >= 0
    ensures AtOneInstant(k, now, interval, burst) == Some(now - burst + k * interval)
  {
    if k > 1 {
      AtOneInstantValue(k - 1, now, interval, burst);
      assert now - burst + (k - 1) * interval >= now - burst;
    }
  }

  /** With a burst of `b` intervals, the first `b` accesses at one instant stay
      at or before `now`, and the next one is pushed past it: exactly then does
      the master send a `DELAY_UNTIL`. */
  lemma BurstAllowance(k: nat, b: nat, now: int, interval: int)
    requires k >= 1 && interval > 0
    ensures AtOneInstant(k, now, interval, b * interval).value > now <==> k > b
  {
    AtOneInstantValue(k, now, interval, b * interval);
    if k > b {
      assert k * interval - b * interval == (k - b) * interval;
    } else {
      assert b * interval - k * interval == (b - k) * interval;
    }
  }

  /** Go's integer division of a nanosecond count by 10^6: truncated toward zero. */
  function NanosToMillis(nanos: int): (ms: int)
    ensures nanos >= 0 ==> 0 <= ms * 1000000 <= nanos < ms * 1000000 + 1000000
    ensures nanos < 0 ==> ms * 1000000 - 1000000 < nanos <= ms * 1000000 <= 0
  {
    if nanos >= 0 then nanos / 1000000 else -((-nanos) / 1000000)
  }

  // ---------------------------------------------------------------------------
  // Key prefix removal in `getAllForDomain`: `key.replace(/throttle;[^;]+;/, '')`

  /** The first `;` at or after `from`. */
  function FirstSemicolon(s: string, from: nat): (r: Option<nat>)
    requires from <= |s|
    ensures r.Some? ==> from <= r.value < |s| && s[r.value] == ';'
    ensures forall i :: from <= i < |s| && (r.None? || i < r.value) ==> s[i] != ';'
    decreases |s| - from
  {
    if from == |s| then None
    else if s[from] == ';' then Some(from)
    else FirstSemicolon(s, from + 1)
  }

  /** `m` is a whole match of the expression: the prefix, a non-empty run
      without `;`, and a `;`. */
  predicate IsMatch(m: string) {
    && |m| > |KeyPrefix| + 1
    && m[..|KeyPrefix|] == KeyPrefix
    && m[|m| - 1] == ';'
    && forall k :: |KeyPrefix| <= k < |m| - 1 ==> m[k] != ';'
  }

  /** Where a match of the expression that starts at `i` ends. */
  function MatchEnd(s: string, i: nat): (r: Option<nat>)
    requires i <= |s|
    ensures r.Some? ==> i + |KeyPrefix| < r.value <= |s|
    ensures r.Some? ==> IsMatch(s[i..r.value])
  {
    if i + |KeyPrefix| <= |s| && s[i..i + |KeyPrefix|] == KeyPrefix then
      match FirstSemicolon(s, i + |KeyPrefix|)
      case Some(j) => if j > i + |KeyPrefix| then Some(j + 1) else None
      case None => None
    else None
  }

  /** The leftmost match at or after `i`, as start and end. */
  function FindMatch(s: string, i: nat): (r: Option<(nat, nat)>)
    requires i <= |s|
    ensures r.Some? ==> i <= r.value.0 <= |s| && MatchEnd(s, r.value.0) == Some(r.value.1)
    decreases |s| - i
  {
    match MatchEnd(s, i)
    case Some(e) => Some((i, e))
    case None => if i == |s| then None else FindMatch(s, i + 1)
  }

  /** The match found is the leftmost one: no match starts before it. */
  lemma {:induction false} FindMatchLeftmost(s: string, i: nat)
    requires i <= |s|
    ensures FindMatch(s, i).Some? ==> forall j :: i <= j < FindMatch(s, i).value.0 ==> MatchEnd(s, j).None?
    ensures FindMatch(s, i).None? ==> forall j :: i <= j <= |s| ==> MatchEnd(s, j).None?
    decreases |s| - i
  {
    if MatchEnd(s, i).None? && i < |s| {
      FindMatchLeftmost(s, i + 1);
    }
  }

  /** Remove the leftmost match, if any. */
  function StripKeyPrefix(s: string): (r: string)
    ensures FindMatch(s, 0).None? ==> r == s
    ensures FindMatch(s, 0).Some? ==>
      var (a, b) := FindMatch(s, 0).value;
      IsMatch(s[a..b]) && r == s[..a] + s[b..]
  {
    match FindMatch(s, 0)
    case None => s
    case Some((a, b)) => s[..a] + s[b..]
  }

  predicate PlainDomain(domain: string) {
    domain != "" && forall i :: 0 <= i < |domain| ==> domain[i] != ';'
  }

  /** For a non-empty domain without `;` the prefix removal gives back exactly
      the identifier the key was built from. */
  lemma StripRecoversIdentifier(domain: string, identifier: string)
    requires PlainDomain(domain)
    ensures StripKeyPrefix(Key(domain, identifier)) == identifier
  {
    var k := Key(domain, identifier);
    var p := |KeyPrefix|;
    assert FirstSemicolon(k, p) == Some(p + |domain|) by {
      var r := FirstSemicolon(k, p);
      forall i | p <= i < p + |domain| ensures k[i] != ';' {
        assert k[i] == domain[i - p];
      }
    }
    assert MatchEnd(k, 0) == Some(p + |domain| + 1);
    assert k[..0] + k[p + |domain| + 1..] == identifier;
  }

  /** Without those conditions the identifier is not recovered: a `;` inside
      the domain ends the match early, and an empty domain does not match. */
  lemma StripNeedsPlainDomain()
    ensures StripKeyPrefix(Key("a;b", "u")) == "b;u"
    ensures StripKeyPrefix(Key("", "u")) == "throttle;;u"
  {
    var k := Key("a;b", "u");
    assert k == "throttle;a;b;u";
    assert MatchEnd(k, 0) == Some(11) by {
      assert k[..9] == KeyPrefix;
      assert FirstSemicolon(k, 9) == Some(10) by {
        assert k[9] == 'a' && k[10] == ';';
      }
    }
    assert k[11..] == "b;u";
    var e := Key("", "u");
    assert e == "throttle;;u";
    assert FindMatch(e, 0).None? by {
      forall j | 0 <= j <= |e| ensures MatchEnd(e, j).None? {
        if j > 0 && j + 9 <= |e| {
          assert e[j..j + 9] != KeyPrefix by {
            assert j + 9 <= 11;
            assert e[j..j + 9][0] == e[j];
            if j == 1 {
              assert e[1] != 't';
            } else {
              assert e[2] != 't';
            }
          }
        }
        if j == 0 {
          assert FirstSemicolon(e, 9) == Some(9) by {
            assert e[9] == ';';
          }
        }
      }
    }
  }

  // ---------------------------------------------------------------------------
  // The store

  /** What a key holds: a number, or the NaN written by a script run whose
      time was not a number. */
  datatype Stored = Number(n: int) | NotANumber

  /** The previous value as the script's test `prev and tonumber(prev) >=
      now - burst` sees it: a NaN fails the comparison, so it takes the same
      branch as an absent key. */
  function NumberOf(v: Option<Stored>): Option<int> {
    if v.Some? && v.value.Number? then Some(v.value.n) else None
  }

  /** A NaN left in a key erases the time charged there: the next run starts
      over from the burst window, where a stored time inside the window would
      have been pushed back by one interval. */
  lemma NaNErasesCharge(prev: int, now: int, interval: int, burst: int)
    requires prev > now - burst
    ensures NextAllowed(NumberOf(Some(NotANumber)), now, interval, burst) == now - burst + interval
    ensures NextAllowed(NumberOf(Some(NotANumber)), now, interval, burst)
      < NextAllowed(NumberOf(Some(Number(prev))), now, interval, burst)
  {
  }

  class DataStore {
    /** The value stored under each key. */
    var values: map<string, Stored>
    /** The `pexpireat` time of each key. */
    var expireAt: map<string, int>

    constructor()
      ensures values == map[] && expireAt == map[]
    {
      values, expireAt := map[], map[];
    }

    /** `get` at time `clock`: a key whose expiry time has passed is gone. */
    function Get(key: string, clock: int): (r: Option<Stored>)
      reads this
      ensures r.Some? <==> key in values && (key !in expireAt || clock <= expireAt[key])
      ensures r.Some? ==> r.value == values[key]
    {
      if key in values && (key !in expireAt || clock <= expireAt[key]) then Some(values[key]) else None
    }

    /** One run of the script: read, apply the rule, store the value with its
        expiry, return it. `pexpireat` with a time not after the clock deletes
        the key at once. */
    method RunScript(key: string, now: int, interval: int, burst: int, clock: int) returns (r: int)
      modifies this
      ensures r == NextAllowed(NumberOf(old(Get(key, clock))), now, interval, burst)
      ensures now + burst > clock ==>
        values == old(values)[key := Number(r)] && expireAt == old(expireAt)[key := now + burst]
      ensures now + burst <= clock ==>
        values == old(values) - {key} && expireAt == old(expireAt) - {key}
    {
      var prev := NumberOf(Get(key, clock));
      var next: int;
      if prev.Some? && prev.value >= now - burst {
        next := prev.value + interval;
      } else {
        next := now - burst + interval;
      }
      values := values[key := Number(next)];
      if now + burst <= clock {
        values := values - {key};
        expireAt := expireAt - {key};
      } else {
        expireAt := expireAt[key := now + burst];
      }
      r := next;
    }

    /** `logAccess`/`execScript`: the script runs with `max(ts, now)` as its
        time; a promise that fails carries no value (`None`). An undefined
        interval or burst is no number to Lua: the arithmetic raises before
        anything is written. A missing or NaN time makes that time NaN: the
        arithmetic yields NaN, `set` stores it (dropping the key's expiry),
        and only then does `pexpireat` reject the NaN time; the script stops
        with the write kept. */
    method LogAccess(domain: string, identifier: string, ts: Option<nat>, now: nat,
                     interval: Option<nat>, burst: Option<nat>) returns (r: Option<int>)
      modifies this
      ensures interval.None? || burst.None? ==>
        r.None? && values == old(values) && expireAt == old(expireAt)
      ensures interval.Some? && burst.Some? && ts.None? ==>
        && r.None?
        && values == old(values)[Key(domain, identifier) := NotANumber]
        && expireAt == old(expireAt) - {Key(domain, identifier)}
      ensures ts.Some? && interval.Some? && burst.Some? ==>
        && r == Some(NextAllowed(NumberOf(old(Get(Key(domain, identifier), now))), Max(ts.value, now), interval.value, burst.value))
        && (Max(ts.value, now) + burst.value > now ==>
              && values == old(values)[Key(domain, identifier) := Number(r.value)]
              && expireAt == old(expireAt)[Key(domain, identifier) := Max(ts.value, now) + burst.value])
        && (Max(ts.value, now) + burst.value <= now ==>
              values == old(values) - {Key(domain, identifier)} && expireAt == old(expireAt) - {Key(domain, identifier)})
    {
      if interval.None? || burst.None? {
        return None;
      }
      if ts.None? {
        values := values[Key(domain, identifier) := NotANumber];
        expireAt := expireAt - {Key(domain, identifier)};
        return None;
      }
      var t := if ts.value >= now then ts.value else now;
      var next := RunScript(Key(domain, identifier), t, interval.value, burst.value, now);
      r := Some(next);
    }

    /** The Go `LogAccess`: times are nanosecond counts, the later one is kept
        and truncated to whole milliseconds before the script runs. */
    method LogAccessNanos(tsNanos: int, nowNanos: int, domain: string, identifier: string,
                          burst: nat, interval: nat) returns (r: int)
      modifies this
      ensures r == NextAllowed(NumberOf(old(Get(Key(domain, identifier), NanosToMillis(nowNanos)))),
        NanosToMillis(Max(tsNanos, nowNanos)), interval, burst)
      ensures NanosToMillis(Max(tsNanos, nowNanos)) + burst > NanosToMillis(nowNanos) ==>
        && values == old(values)[Key(domain, identifier) := Number(r)]
        && expireAt == old(expireAt)[Key(domain, identifier) := NanosToMillis(Max(tsNanos, nowNanos)) + burst]
      ensures NanosToMillis(Max(tsNanos, nowNanos)) + burst <= NanosToMillis(nowNanos) ==>
        values == old(values) - {Key(domain, identifier)} && expireAt == old(expireAt) - {Key(domain, identifier)}
    {
      var ts := tsNanos;
      if nowNanos > ts {
        ts := nowNanos;
      }
      r := RunScript(Key(domain, identifier), NanosToMillis(ts), interval, burst, NanosToMillis(nowNanos));
    }

    /** `getAllForDomain` over the keys the pattern lookup returned: each key's
        identifier (the key with its prefix removed) and its stored value. */
    method GetAllForDomain(domain: string, keys: seq<string>, clock: int) returns (ret: seq<(string, Option<Stored>)>)
      ensures |ret| == |keys|
      ensures forall i :: 0 <= i < |keys| ==> ret[i].1 == Get(keys[i], clock)
      ensures forall i :: 0 <= i < |keys| ==> ret[i].0 == StripKeyPrefix(keys[i])
    {
      ret := [];
      var i := 0;
      while i < |keys|
        invariant 0 <= i <= |keys| && |ret| == i
        invariant forall j :: 0 <= j < i ==> ret[j] == (StripKeyPrefix(keys[j]), Get(keys[j], clock))
      {
        ret := ret + [(StripKeyPrefix(keys[i]), Get(keys[i], clock))];
        i := i + 1;
      }
    }
  }

  /** Reading back every key of a domain gives the identifiers it was stored under. */
  lemma ListedIdentifiers(domain: string, identifiers: seq<string>, ret: seq<(string, Option<Stored>)>)
    requires PlainDomain(domain)
    requires |ret| == |identifiers|
    requires forall i :: 0 <= i < |ret| ==> ret[i].0 == StripKeyPrefix(Key(domain, identifiers[i]))
    ensures forall i :: 0 <= i < |ret| ==> ret[i].0 == identifiers[i]
  {
    forall i | 0 <= i < |ret| ensures ret[i].0 == identifiers[i] {
      StripRecoversIdentifier(domain, identifiers[i]);
    }
  }
}
