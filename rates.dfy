/** The master's configuration arithmetic: `parseInterval`, `parseRate` and
    `configureDomains` (lib/smockron/master/index.js, and the identical copy in
    master/lib/index.js). The two regular expressions are modelled by explicit
    scanning; the grammar lemmas state which strings they accept. */
module Rates {
  import opened Wrappers
  import opened Text
  import ZmqWire

  /** The characters of JavaScript's `\s` class. */
  predicate IsSpace(c: char) {
    var n := c as int;
    || (9 <= n <= 13) || n == 32 || n == 0xA0 || n == 0x1680 || (0x2000 <= n <= 0x200A)
    || n == 0x2028 || n == 0x2029 || n == 0x202F || n == 0x205F || n == 0x3000 || n == 0xFEFF
  }

  predicate AllSpaces(s: string) {
    forall i :: 0 <= i < |s| ==> IsSpace(s[i])
  }

  /** Length of the longest prefix of white space. */
  function LeadingSpaces(s: string): (n: nat)
    ensures n <= |s|
    ensures forall i :: 0 <= i < n ==> IsSpace(s[i])
    ensures n < |s| ==> !IsSpace(s[n])
  {
    if s != [] && IsSpace(s[0]) then 1 + LeadingSpaces(s[1..]) else 0
  }

  /** Length of the longest prefix of decimal digits. */
  function LeadingDigits(s: string): (n: nat)
    ensures n <= |s|
    ensures forall i :: 0 <= i < n ==> IsDigit(s[i])
    ensures n < |s| ==> !IsDigit(s[n])
  {
    if s != [] && IsDigit(s[0]) then 1 + LeadingDigits(s[1..]) else 0
  }

  /** Length of the longest suffix of white space. */
  function TrailingSpaces(s: string): (n: nat)
    ensures n <= |s|
    ensures forall i :: |s| - n <= i < |s| ==> IsSpace(s[i])
    ensures n < |s| ==> !IsSpace(s[|s| - n - 1])
  {
    if s != [] && IsSpace(s[|s| - 1]) then 1 + TrailingSpaces(s[..|s| - 1]) else 0
  }

  function TrimStart(s: string): string {
    s[LeadingSpaces(s)..]
  }

  function TrimEnd(s: string): string {
    s[..|s| - TrailingSpaces(s)]
  }

  /** The suffix table of `parseInterval`: milliseconds per unit name. */
  const Units: seq<(string, nat)> := [
    ("", 1), ("ms", 1), ("msec", 1),
    ("s", 1000), ("sec", 1000), ("second", 1000), ("seconds", 1000),
    ("m", 60000), ("min", 60000), ("minute", 60000), ("minutes", 60000),
    ("h", 3600000), ("hr", 3600000), ("hour", 3600000), ("hours", 3600000),
    ("d", 86400000), ("day", 86400000), ("days", 86400000)]

  /** The first entry of `table` under `key`. */
  function Find(table: seq<(string, nat)>, key: string): (r: Option<nat>)
    ensures r.Some? ==> (key, r.value) in table
    ensures r.None? ==> forall i :: 0 <= i < |table| ==> table[i].0 != key
  {
    if table == [] then None
    else if table[0].0 == key then Some(table[0].1)
    else Find(table[1..], key)
  }

  predicate IsLowerWord(s: string) {
    forall i :: 0 <= i < |s| ==> 'a' <= s[i] <= 'z'
  }

  /** The multiplier of a unit name. Every name in the table is a lower-case
      word, so the guard only makes that fact visible without unfolding the
      table. */
  function UnitMultiplier(unit: string): (r: Option<nat>)
    ensures r.Some? ==> IsLowerWord(unit)
  {
    if IsLowerWord(unit) then Find(Units, unit) else None
  }

  /** A configuration value: a JSON number or a string. */
  datatype ConfigValue = Num(n: nat) | Str(s: string)

  /** JavaScript truthiness of a configuration value. */
  predicate Truthy(v: ConfigValue) {
    match v
    case Num(n) => n != 0
    case Str(s) => s != ""
  }

  /** The count of an interval string: the digits after the leading white
      space, or `None` when there are none. */
  function IntervalCount(s: string): Option<nat> {
    var t := TrimStart(s);
    var d := LeadingDigits(t);
    if d == 0 then None else Some(DigitsValue(t[..d]))
  }

  /** The unit of an interval string: what follows the count, trimmed. */
  function IntervalUnit(s: string): string {
    var t := TrimStart(s);
    TrimEnd(TrimStart(t[LeadingDigits(t)..]))
  }

  function Scale(count: nat, multiplier: nat): nat {
    count * multiplier
  }

  /** `parseInterval` on a string: optional white space, an optional count
      (1 when omitted), optional white space, a unit from the table, optional
      white space. */
  function ParseIntervalText(s: string): (r: Result<nat>)
    ensures r.Success? <==> UnitMultiplier(IntervalUnit(s)).Some?
    ensures r.Success? ==> IsLowerWord(IntervalUnit(s))
    ensures r.Failure? ==> r.error == "bad interval"
  {
    match UnitMultiplier(IntervalUnit(s))
    case None => Failure("bad interval")
    case Some(m) => Success(Scale(IntervalCount(s).GetOr(1), m))
  }

  /** `parseInterval`: numbers are taken as milliseconds unchanged. */
  function ParseInterval(v: ConfigValue): (r: Result<nat>)
    ensures v.Num? ==> r == Success(v.n)
  {
    match v
    case Num(n) => Success(n)
    case Str(s) => ParseIntervalText(s)
  }

  /** `Math.round(a / n)`: the nearest integer, halves rounded up. */
  function RoundDiv(a: nat, n: nat): nat
    requires n > 0
  {
    (2 * a + n) / (2 * n)
  }

  /** `q` is the nearest integer to `a / n`, halves going up. */
  predicate NearestShare(q: nat, a: nat, n: nat) {
    2 * q * n <= 2 * a + n < 2 * (q + 1) * n
  }

  /** `RoundDiv(a, n)` is within half of `a / n`, halves going up. */
  lemma RoundDivNearest(a: nat, n: nat)
    requires n > 0
    ensures NearestShare(RoundDiv(a, n), a, n)
  {
    var r := RoundDiv(a, n);
    assert 2 * a + n == r * (2 * n) + (2 * a + n) % (2 * n);
  }

  /** The text after `per` or `/`, if the (trimmed) text starts with one. */
  function AfterSeparator(u: string): Option<string> {
    if |u| >= 3 && u[..3] == "per" then Some(u[3..])
    else if |u| >= 1 && u[0] == '/' then Some(u[1..])
    else None
  }

  /** The pieces of `/^\s*(\d+)\s*(per|\/)\s*(.*)$/`: the count and the
      interval text, or `None` when the expression does not match. */
  function RateParts(s: string): (r: Option<(nat, string)>)
    ensures LeadingDigits(TrimStart(s)) == 0 ==> r.None?
    ensures r.Some? ==> ZmqWire.NoLineTerminator(r.value.1)
    ensures r.Some? && r.value.1 != [] ==> !IsSpace(r.value.1[0])
  {
    var t := TrimStart(s);
    var d := LeadingDigits(t);
    if d == 0 then None
    else match AfterSeparator(TrimStart(t[d..]))
      case None => None
      case Some(rest) =>
        var x := TrimStart(rest);
        if ZmqWire.NoLineTerminator(x) then Some((DigitsValue(t[..d]), x)) else None
  }

  /** `parseRate`: a count, white space, `per` or `/`, white space, then an
      interval on the rest of the line, divided by the count and rounded. */
  function ParseRateText(s: string): (r: Result<nat>)
    ensures RateParts(s).None? ==> r == Failure("bad rate")
    ensures r.Success? ==> RateParts(s).Some? && RateParts(s).value.0 > 0 && ParseIntervalText(RateParts(s).value.1).Success?
    ensures r.Success? ==>
      var n := RateParts(s).value.0;
      var interval := ParseIntervalText(RateParts(s).value.1).value;
      NearestShare(r.value, interval, n)
    ensures RateParts(s).Some? && ParseIntervalText(RateParts(s).value.1).Success? ==>
      (r.Success? <==> RateParts(s).value.0 > 0)
  {
    RateOfParts(RateParts(s))
  }

  /** The rate read from the pieces of the rate expression: the interval's
      per-request share, rounded. */
  function RateOfParts(parts: Option<(nat, string)>): (r: Result<nat>)
    ensures parts.None? ==> r == Failure("bad rate")
    ensures r.Success? ==> parts.Some? && parts.value.0 > 0 && ParseIntervalText(parts.value.1).Success?
    ensures r.Success? ==>
      var n := parts.value.0;
      var interval := ParseIntervalText(parts.value.1).value;
      NearestShare(r.value, interval, n)
    ensures parts.Some? && ParseIntervalText(parts.value.1).Success? ==> (r.Success? <==> parts.value.0 > 0)
  {
    match parts
    case None => Failure("bad rate")
    case Some((count, x)) =>
      var interval :- ParseIntervalText(x);
      if count == 0 then Failure("zero count in rate")
      else RoundDivNearest(interval, count); Success(RoundDiv(interval, count))
  }

  // ---------------------------------------------------------------------------
  // Grammar lemmas

  lemma LeadingSpacesOfConcat(u: string, v: string)
    requires AllSpaces(u)
    requires v == [] || !IsSpace(v[0])
    ensures LeadingSpaces(u + v) == |u|
  {
    var s := u + v;
    assert forall i :: 0 <= i < |u| ==> s[i] == u[i];
    if v != [] {
      assert s[|u|] == v[0];
    }
  }

  lemma LeadingDigitsOfConcat(u: string, v: string)
    requires AllDigits(u)
    requires v == [] || !IsDigit(v[0])
    ensures LeadingDigits(u + v) == |u|
  {
    var s := u + v;
    assert forall i :: 0 <= i < |u| ==> s[i] == u[i];
    if v != [] {
      assert s[|u|] == v[0];
    }
  }

  lemma TrailingSpacesOfConcat(u: string, v: string)
    requires AllSpaces(v)
    requires u == [] || !IsSpace(u[|u| - 1])
    ensures TrailingSpaces(u + v) == |v|
  {
    var s := u + v;
    assert forall i :: |u| <= i < |s| ==> s[i] == v[i - |u|];
    if u != [] {
      assert s[|u| - 1] == u[|u| - 1];
    }
  }

  lemma AllSpacesConcat(u: string, v: string)
    requires AllSpaces(u) && AllSpaces(v)
    ensures AllSpaces(u + v)
  {
    var s := u + v;
    forall i | 0 <= i < |s| ensures IsSpace(s[i]) {
      if i < |u| {
        assert s[i] == u[i];
      } else {
        assert s[i] == v[i - |u|];
      }
    }
  }

  lemma ConcatAssoc(a: string, b: string, c: string)
    ensures a + (b + c) == (a + b) + c
  {
  }

  /** One way of reading a string as the interval expression: leading space,
      a count (possibly empty), space, a unit, trailing space. */
  predicate IntervalShape(s: string, w1: string, ds: string, w2: string, unit: string, w3: string) {
    && s == w1 + (ds + (w2 + (unit + w3)))
    && AllSpaces(w1) && AllDigits(ds) && AllSpaces(w2) && AllSpaces(w3)
    && UnitMultiplier(unit).Some?
  }

  function ShapeValue(ds: string, unit: string): nat
    requires AllDigits(ds) && UnitMultiplier(unit).Some?
  {
    Scale(if ds == "" then 1 else DigitsValue(ds), UnitMultiplier(unit).value)
  }

  /** Trimming both ends of `w + unit + w'` leaves the unit. */
  lemma TrimAroundUnit(w: string, unit: string, w': string)
    requires AllSpaces(w) && AllSpaces(w') && UnitMultiplier(unit).Some?
    ensures TrimEnd(TrimStart(w + (unit + w'))) == unit
  {
    if unit == [] {
      assert unit + w' == w';
      AllSpacesConcat(w, w');
      assert w + w' == (w + w') + [];
      LeadingSpacesOfConcat(w + w', []);
    } else {
      assert (unit + w')[0] == unit[0];
      LeadingSpacesOfConcat(w, unit + w');
      TrailingSpacesOfConcat(unit, w');
      assert (unit + w')[..|unit|] == unit;
    }
  }

  /** A count right after the leading white space is the interval's count. */
  lemma CountedPrefix(s: string, w: string, ds: string, rest: string)
    requires s == w + (ds + rest) && AllSpaces(w) && ds != [] && AllDigits(ds)
    requires rest == [] || !IsDigit(rest[0])
    ensures TrimStart(s) == ds + rest
    ensures LeadingDigits(ds + rest) == |ds|
    ensures (ds + rest)[..|ds|] == ds && (ds + rest)[|ds|..] == rest
  {
    assert (ds + rest)[0] == ds[0];
    LeadingSpacesOfConcat(w, ds + rest);
    LeadingDigitsOfConcat(ds, rest);
  }

  lemma CountedParts(s: string, w: string, ds: string, rest: string)
    requires s == w + (ds + rest) && AllSpaces(w) && ds != [] && AllDigits(ds)
    requires rest == [] || !IsDigit(rest[0])
    ensures IntervalCount(s) == Some(DigitsValue(ds))
    ensures IntervalUnit(s) == TrimEnd(TrimStart(rest))
  {
    CountedPrefix(s, w, ds, rest);
  }

  lemma UncountedParts(s: string, w: string, rest: string)
    requires s == w + rest && AllSpaces(w)
    requires rest == [] || (!IsSpace(rest[0]) && !IsDigit(rest[0]))
    ensures IntervalCount(s) == None
    ensures IntervalUnit(s) == TrimEnd(rest)
  {
    LeadingSpacesOfConcat(w, rest);
    LeadingDigitsOfConcat([], rest);
    assert [] + rest == rest;
    LeadingSpacesOfConcat([], rest);
  }

  lemma CountedShape(s: string, w1: string, ds: string, w2: string, unit: string, w3: string)
    requires IntervalShape(s, w1, ds, w2, unit, w3) && ds != []
    ensures IntervalUnit(s) == unit && IntervalCount(s) == Some(DigitsValue(ds))
  {
    var rest := w2 + (unit + w3);
    assert rest == [] || !IsDigit(rest[0]) by {
      if w2 != [] {
        assert rest[0] == w2[0];
      } else if unit != [] {
        assert rest[0] == unit[0];
      } else if w3 != [] {
        assert rest[0] == w3[0];
      }
    }
    CountedParts(s, w1, ds, rest);
    TrimAroundUnit(w2, unit, w3);
  }

  /** A lower-case letter is neither white space nor a digit. */
  lemma LetterIsNoSpaceOrDigit(c: char)
    requires 'a' <= c <= 'z'
    ensures !IsSpace(c) && !IsDigit(c)
  {
  }

  /** A unit followed by white space trims back to the unit. */
  lemma UnitThenSpaces(unit: string, w: string)
    requires unit != [] && AllSpaces(w) && IsLowerWord(unit)
    ensures (unit + w)[0] == unit[0] && TrimEnd(unit + w) == unit
  {
    LetterIsNoSpaceOrDigit(unit[|unit| - 1]);
    TrailingSpacesOfConcat(unit, w);
    assert (unit + w)[..|unit|] == unit;
  }

  lemma UncountedShape(s: string, w1: string, w2: string, unit: string, w3: string)
    requires IntervalShape(s, w1, [], w2, unit, w3) && unit != []
    ensures IntervalUnit(s) == unit && IntervalCount(s) == None
  {
    var tail := unit + w3;
    UnitThenSpaces(unit, w3);
    LetterIsNoSpaceOrDigit(unit[0]);
    AllSpacesConcat(w1, w2);
    assert s == (w1 + w2) + tail by {
      assert [] + (w2 + tail) == w2 + tail;
      ConcatAssoc(w1, w2, tail);
    }
    UncountedParts(s, w1 + w2, tail);
  }

  lemma BlankShape(s: string, w1: string, w2: string, w3: string)
    requires IntervalShape(s, w1, [], w2, [], w3)
    ensures IntervalUnit(s) == [] && IntervalCount(s) == None
  {
    assert s == w1 + (w2 + w3);
    AllSpacesConcat(w2, w3);
    AllSpacesConcat(w1, w2 + w3);
    assert s == s + [];
    UncountedParts(s, s, []);
  }

  /** Every string of the interval shape is accepted, with count times unit. */
  lemma {:induction false} IntervalGrammar(s: string, w1: string, ds: string, w2: string, unit: string, w3: string)
    requires IntervalShape(s, w1, ds, w2, unit, w3)
    ensures ParseIntervalText(s) == Success(ShapeValue(ds, unit))
  {
    if ds != [] {
      CountedShape(s, w1, ds, w2, unit, w3);
    } else if unit != [] {
      UncountedShape(s, w1, w2, unit, w3);
    } else {
      BlankShape(s, w1, w2, w3);
    }
  }

  lemma TrimStartSplit(s: string)
    ensures s == s[..LeadingSpaces(s)] + TrimStart(s) && AllSpaces(s[..LeadingSpaces(s)])
  {
    var n := LeadingSpaces(s);
    SpacesPrefix(s, n);
    assert s == s[..n] + s[n..];
  }

  lemma SpacesPrefix(s: string, k: nat)
    requires k <= |s|
    requires forall i :: 0 <= i < k ==> IsSpace(s[i])
    ensures AllSpaces(s[..k])
  {
    var w := s[..k];
    forall i | 0 <= i < |w| ensures IsSpace(w[i]) {
      assert w[i] == s[i];
    }
  }

  lemma DigitsSplit(t: string)
    ensures t == t[..LeadingDigits(t)] + t[LeadingDigits(t)..] && AllDigits(t[..LeadingDigits(t)])
  {
    var n := LeadingDigits(t);
    var w := t[..n];
    forall i | 0 <= i < |w| ensures IsDigit(w[i]) {
      assert w[i] == t[i];
    }
    assert t == t[..n] + t[n..];
  }

  lemma TrimEndSplit(s: string)
    ensures s == TrimEnd(s) + s[|s| - TrailingSpaces(s)..] && AllSpaces(s[|s| - TrailingSpaces(s)..])
  {
    var k := |s| - TrailingSpaces(s);
    SpacesSuffix(s, k);
    SplitAt(s, k);
  }

  lemma SplitAt(s: string, k: nat)
    requires k <= |s|
    ensures s == s[..k] + s[k..]
  {
  }

  lemma SpacesSuffix(s: string, k: nat)
    requires k <= |s|
    requires forall i :: k <= i < |s| ==> IsSpace(s[i])
    ensures AllSpaces(s[k..])
  {
    var w := s[k..];
    forall i | 0 <= i < |w| ensures IsSpace(w[i]) {
      assert w[i] == s[k + i];
    }
  }

  /** Any string splits into leading space, digits, space and the rest, the
      way both expressions read their count. */
  lemma LeadSplit(s: string) returns (w1: string, ds: string, w2: string, u: string)
    ensures s == w1 + (ds + (w2 + u))
    ensures AllSpaces(w1) && AllDigits(ds) && AllSpaces(w2)
    ensures ds == TrimStart(s)[..LeadingDigits(TrimStart(s))]
    ensures u == TrimStart(TrimStart(s)[LeadingDigits(TrimStart(s))..])
  {
    var t := TrimStart(s);
    w1 := s[..LeadingSpaces(s)];
    TrimStartSplit(s);
    var d := LeadingDigits(t);
    var r := t[d..];
    ds := t[..d];
    DigitsSplit(t);
    u := TrimStart(r);
    w2 := r[..LeadingSpaces(r)];
    TrimStartSplit(r);
  }

  /** Any string splits into space, digits, space, the unit and space, the
      way the interval expression reads it. */
  lemma IntervalSplit(s: string) returns (w1: string, ds: string, w2: string, unit: string, w3: string)
    ensures s == w1 + (ds + (w2 + (unit + w3)))
    ensures AllSpaces(w1) && AllDigits(ds) && AllSpaces(w2) && AllSpaces(w3)
    ensures unit == IntervalUnit(s)
    ensures IntervalCount(s) == if ds == "" then None else Some(DigitsValue(ds))
  {
    var r2;
    w1, ds, w2, r2 := LeadSplit(s);
    unit := TrimEnd(r2);
    w3 := r2[|r2| - TrailingSpaces(r2)..];
    TrimEndSplit(r2);
  }

  /** And every accepted string has the interval shape, read with the value returned. */
  lemma ParsedIntervalHasShape(s: string)
    requires ParseIntervalText(s).Success?
    ensures exists w1, ds, w2, unit, w3 ::
      (IntervalShape(s, w1, ds, w2, unit, w3) && ParseIntervalText(s).value == ShapeValue(ds, unit))
  {
    var w1, ds, w2, unit, w3 := IntervalSplit(s);
    assert IntervalShape(s, w1, ds, w2, unit, w3);
    assert ParseIntervalText(s).value == ShapeValue(ds, unit);
  }

  /** Reading a rate: one way of splitting `N per X` or `N/X`. */
  predicate RateShape(s: string, w1: string, ds: string, w2: string, sep: string, w3: string, x: string) {
    && s == w1 + (ds + (w2 + (sep + (w3 + x))))
    && AllSpaces(w1) && ds != [] && AllDigits(ds) && AllSpaces(w2) && AllSpaces(w3)
    && (sep == "per" || sep == "/")
    && (x == [] || !IsSpace(x[0]))
    && ZmqWire.NoLineTerminator(x)
  }

  lemma RatePartsFrom(s: string, ds: string, rest: string, after: string, x: string)
    requires ds != [] && TrimStart(s) == ds + rest && LeadingDigits(ds + rest) == |ds|
    requires (ds + rest)[..|ds|] == ds && (ds + rest)[|ds|..] == rest
    requires AfterSeparator(TrimStart(rest)) == Some(after) && TrimStart(after) == x
    requires ZmqWire.NoLineTerminator(x)
    ensures RateParts(s) == Some((DigitsValue(ds), x))
  {
  }

  lemma SeparatorAfterSpace(w: string, sep: string, after: string)
    requires AllSpaces(w) && (sep == "per" || sep == "/")
    ensures AfterSeparator(TrimStart(w + (sep + after))) == Some(after)
  {
    var tail := sep + after;
    assert tail[0] == sep[0];
    LeadingSpacesOfConcat(w, tail);
    assert tail[..|sep|] == sep && tail[|sep|..] == after;
  }

  lemma RatePartsOfShape(s: string, w1: string, ds: string, w2: string, sep: string, w3: string, x: string)
    requires RateShape(s, w1, ds, w2, sep, w3, x)
    ensures RateParts(s) == Some((DigitsValue(ds), x))
  {
    var rest := w2 + (sep + (w3 + x));
    assert rest[0] == if w2 != [] then w2[0] else sep[0];
    CountedPrefix(s, w1, ds, rest);
    SeparatorAfterSpace(w2, sep, w3 + x);
    LeadingSpacesOfConcat(w3, x);
    RatePartsFrom(s, ds, rest, w3 + x, x);
  }

  /** Every string of the rate shape reads as its interval divided by the
      count, rounded; the rate fails exactly when the interval does, or when
      the count is zero. */
  lemma {:induction false} RateGrammar(s: string, w1: string, ds: string, w2: string, sep: string, w3: string, x: string)
    requires RateShape(s, w1, ds, w2, sep, w3, x)
    ensures ParseRateText(s).Success? <==> ParseIntervalText(x).Success? && DigitsValue(ds) > 0
    ensures ParseRateText(s).Success? ==>
      ParseRateText(s).value == RoundDiv(ParseIntervalText(x).value, DigitsValue(ds))
  {
    RatePartsOfShape(s, w1, ds, w2, sep, w3, x);
  }

  /** The separator at the head of `u` and the text after it. */
  lemma SeparatorSplit(u: string, after: string)
    requires AfterSeparator(u) == Some(after)
    ensures exists sep :: (sep == "per" || sep == "/") && u == sep + after
  {
    if |u| >= 3 && u[..3] == "per" {
      assert u == u[..3] + after;
    } else {
      assert u == [u[0]] + after;
      assert [u[0]] == "/";
    }
  }

  /** A string whose rate expression matches has the rate shape, read with
      the count and the interval text found. */
  lemma RatePartsHaveShape(s: string)
    requires RateParts(s).Some?
    ensures exists w1, ds, w2, sep, w3, x ::
      RateShape(s, w1, ds, w2, sep, w3, x) && RateParts(s).value == (DigitsValue(ds), x)
  {
    var w1, ds, w2, u := LeadSplit(s);
    var rest := AfterSeparator(u).value;
    SeparatorSplit(u, rest);
    var sep :| (sep == "per" || sep == "/") && u == sep + rest;
    var x := TrimStart(rest);
    var w3 := rest[..LeadingSpaces(rest)];
    TrimStartSplit(rest);
    assert RateParts(s).value == (DigitsValue(ds), x);
    assert s == w1 + (ds + (w2 + (sep + (w3 + x))));
    assert RateShape(s, w1, ds, w2, sep, w3, x);
  }

  /** And every string `parseRate` accepts has the rate shape, with the value
      returned: anything else throws. */
  lemma ParsedRateHasShape(s: string)
    requires ParseRateText(s).Success?
    ensures exists w1, ds, w2, sep, w3, x ::
      && RateShape(s, w1, ds, w2, sep, w3, x)
      && ParseIntervalText(x).Success? && DigitsValue(ds) > 0
      && ParseRateText(s).value == RoundDiv(ParseIntervalText(x).value, DigitsValue(ds))
  {
    RatePartsHaveShape(s);
    var w1, ds, w2, sep, w3, x :| RateShape(s, w1, ds, w2, sep, w3, x) && RateParts(s).value == (DigitsValue(ds), x);
    RateGrammar(s, w1, ds, w2, sep, w3, x);
  }

  // ---------------------------------------------------------------------------
  // Domains

  /** A domain's configuration; `None` is an absent property. */
  datatype DomainSpec = DomainSpec(rate: Option<ConfigValue>, interval: Option<ConfigValue>, burst: Option<ConfigValue>)

  /** A configured domain; `None` stands for an `undefined` or NaN value. */
  datatype Domain = Domain(interval: Option<nat>, burst: Option<nat>)

  /** `parseRate` on a configured rate: only a string has a `match` method. */
  function RateInterval(v: ConfigValue): (r: Result<Option<nat>>)
    ensures v.Num? ==> r.Failure?
    ensures v.Str? ==> (r.Success? <==> ParseRateText(v.s).Success?)
    ensures r.Success? ==> r.value == Some(ParseRateText(v.s).value)
  {
    match v
    case Num(_) => Failure("rate.match is not a function")
    case Str(s) => var iv :- ParseRateText(s); Success(Some(iv))
  }

  /** The interval of a domain: from `rate` when truthy, else from `interval`
      when truthy, else undefined. */
  function DomainInterval(spec: DomainSpec): (r: Result<Option<nat>>)
    ensures spec.rate.Some? && Truthy(spec.rate.value) ==> r == RateInterval(spec.rate.value)
    ensures !(spec.rate.Some? && Truthy(spec.rate.value)) && spec.interval.Some? && Truthy(spec.interval.value) ==>
      && (r.Success? <==> ParseInterval(spec.interval.value).Success?)
      && (r.Success? ==> r.value == Some(ParseInterval(spec.interval.value).value))
    ensures !(spec.rate.Some? && Truthy(spec.rate.value)) && !(spec.interval.Some? && Truthy(spec.interval.value)) ==>
      r == Success(None)
  {
    if spec.rate.Some? && Truthy(spec.rate.value) then RateInterval(spec.rate.value)
    else if spec.interval.Some? && Truthy(spec.interval.value) then
      var iv :- ParseInterval(spec.interval.value); Success(Some(iv))
    else Success(None)
  }

  function Times(interval: Option<nat>, k: nat): (r: Option<nat>)
    ensures r.Some? <==> interval.Some?
    ensures r.Some? ==> r.value == interval.value * k
  {
    if interval.Some? then Some(interval.value * k) else None
  }

  /** A burst written as a count of intervals: a number, or a non-empty
      string of digits. */
  predicate IsCount(v: ConfigValue) {
    v.Num? || (|v.s| > 0 && AllDigits(v.s))
  }

  /** The count a counting burst stands for. */
  function CountOf(v: ConfigValue): nat
    requires IsCount(v)
  {
    if v.Num? then v.n else DigitsValue(v.s)
  }

  /** The burst of a domain: a numeric or all-digit burst counts intervals
      (NaN, here `None`, without an interval), any other string is itself an
      interval, and a missing burst throws. */
  function DomainBurst(interval: Option<nat>, burst: Option<ConfigValue>): (r: Result<Option<nat>>)
    ensures burst.None? ==> r.Failure?
    ensures burst.Some? && IsCount(burst.value) && interval.Some? ==>
      r == Success(Some(interval.value * CountOf(burst.value)))
    ensures burst.Some? && IsCount(burst.value) && interval.None? ==> r == Success(None)
    ensures burst.Some? && !IsCount(burst.value) ==>
      && (r.Success? <==> ParseIntervalText(burst.value.s).Success?)
      && (r.Success? ==> r.value == Some(ParseIntervalText(burst.value.s).value))
    ensures r.Success? && r.value.Some? && interval.None? ==> burst.value.Str? && ParseIntervalText(burst.value.s) == Success(r.value.value)
  {
    match burst
    case None => Failure("Cannot read property 'match' of undefined")
    case Some(Num(k)) => Success(Times(interval, k))
    case Some(Str(s)) =>
      if |s| > 0 && AllDigits(s) then Success(Times(interval, DigitsValue(s)))
      else
        var b :- ParseIntervalText(s);
        Success(Some(b))
  }

  /** One pass of the `configureDomains` loop body. */
  function ConfigureDomain(spec: DomainSpec): (r: Result<Domain>)
    ensures spec.burst.None? ==> r.Failure?
    ensures r.Success? <==> DomainInterval(spec).Success? && DomainBurst(DomainInterval(spec).value, spec.burst).Success?
    ensures r.Success? ==> DomainInterval(spec) == Success(r.value.interval)
    ensures r.Success? ==> DomainBurst(r.value.interval, spec.burst) == Success(r.value.burst)
    ensures r.Success? && spec.rate.Some? && Truthy(spec.rate.value) ==>
      spec.rate.value.Str? && r.value.interval == Some(ParseRateText(spec.rate.value.s).value)
    ensures r.Success? && !(spec.rate.Some? && Truthy(spec.rate.value)) && spec.interval.Some? && Truthy(spec.interval.value) ==>
      r.value.interval == Some(ParseInterval(spec.interval.value).value)
    ensures r.Success? && !(spec.rate.Some? && Truthy(spec.rate.value)) && !(spec.interval.Some? && Truthy(spec.interval.value)) ==>
      r.value.interval.None?
    ensures r.Success? && IsCount(spec.burst.value) && r.value.interval.Some? ==>
      r.value.burst == Some(r.value.interval.value * CountOf(spec.burst.value))
    ensures r.Success? && !IsCount(spec.burst.value) ==>
      r.value.burst == Some(ParseIntervalText(spec.burst.value.s).value)
  {
    var interval :- DomainInterval(spec);
    var burst :- DomainBurst(interval, spec.burst);
    Success(Domain(interval, burst))
  }

  /** The rest of the loop from an accumulated table: stops at the first throw. */
  function ConfigureFrom(acc: map<string, Domain>, specs: seq<(string, DomainSpec)>): (r: Result<map<string, Domain>>)
    ensures specs == [] ==> r == Success(acc)
    ensures specs != [] && ConfigureDomain(specs[0].1).Failure? ==> r.Failure?
    decreases |specs|
  {
    if specs == [] then Success(acc)
    else
      var d :- ConfigureDomain(specs[0].1);
      ConfigureFrom(acc[specs[0].0 := d], specs[1..])
  }

  /** `configureDomains`, walking the configured domains in their order. */
  method ConfigureDomains(specs: seq<(string, DomainSpec)>) returns (r: Result<map<string, Domain>>)
    ensures r == ConfigureFrom(map[], specs)
  {
    var ret: map<string, Domain> := map[];
    var i := 0;
    while i < |specs|
      invariant 0 <= i <= |specs|
      invariant ConfigureFrom(ret, specs[i..]) == ConfigureFrom(map[], specs)
    {
      var d := ConfigureDomain(specs[i].1);
      if d.Failure? {
        assert specs[i..][0] == specs[i];
        return Failure(d.error);
      }
      assert specs[i..][0] == specs[i] && specs[i..][1..] == specs[i + 1..];
      ret := ret[specs[i].0 := d.value];
      i := i + 1;
    }
    return Success(ret);
  }

  // ---------------------------------------------------------------------------
  // Properties

  /** The names of the configured domains. */
  function Names(specs: seq<(string, DomainSpec)>): (r: set<string>)
    ensures forall i :: 0 <= i < |specs| ==> specs[i].0 in r
    ensures forall k :: k in r ==> exists i :: 0 <= i < |specs| && specs[i].0 == k
  {
    if specs == [] then {} else {specs[0].0} + Names(specs[1..])
  }

  /** Configuration succeeds exactly when every domain configures. */
  lemma {:induction false} ConfigureSucceeds(acc: map<string, Domain>, specs: seq<(string, DomainSpec)>)
    ensures ConfigureFrom(acc, specs).Success? <==> forall i :: 0 <= i < |specs| ==> ConfigureDomain(specs[i].1).Success?
    decreases |specs|
  {
    if specs != [] {
      var d := ConfigureDomain(specs[0].1);
      if d.Success? {
        var acc' := acc[specs[0].0 := d.value];
        assert ConfigureFrom(acc, specs) == ConfigureFrom(acc', specs[1..]);
        ConfigureSucceeds(acc', specs[1..]);
        assert forall i :: 1 <= i < |specs| ==> specs[1..][i - 1] == specs[i];
      }
    }
  }

  /** With distinct names, a configured table holds every domain under its own
      name, and keeps what it started with under every other name. */
  lemma {:induction false} ConfigureContents(acc: map<string, Domain>, specs: seq<(string, DomainSpec)>)
    requires forall i, j :: 0 <= i < j < |specs| ==> specs[i].0 != specs[j].0
    requires ConfigureFrom(acc, specs).Success?
    ensures ConfigureFrom(acc, specs).value.Keys == acc.Keys + Names(specs)
    ensures forall i :: 0 <= i < |specs| ==>
      (ConfigureDomain(specs[i].1).Success? && ConfigureFrom(acc, specs).value[specs[i].0] == ConfigureDomain(specs[i].1).value)
    ensures forall k :: k in acc && k !in Names(specs) ==> ConfigureFrom(acc, specs).value[k] == acc[k]
    decreases |specs|
  {
    if specs != [] {
      var d := ConfigureDomain(specs[0].1);
      var acc' := acc[specs[0].0 := d.value];
      assert ConfigureFrom(acc, specs) == ConfigureFrom(acc', specs[1..]);
      ConfigureContents(acc', specs[1..]);
      var r := ConfigureFrom(acc, specs).value;
      assert specs[0].0 !in Names(specs[1..]);
      forall i | 0 <= i < |specs|
        ensures ConfigureDomain(specs[i].1).Success? && r[specs[i].0] == ConfigureDomain(specs[i].1).value
      {
        if i > 0 {
          assert specs[1..][i - 1] == specs[i];
        }
      }
    }
  }

  /** The configurations the master refuses: a numeric rate, a rate, interval
      or burst string that does not parse, and a missing burst. */
  lemma ConfigureRejects(spec: DomainSpec)
    ensures spec.rate.Some? && Truthy(spec.rate.value) && spec.rate.value.Num? ==> ConfigureDomain(spec).Failure?
    ensures spec.rate.Some? && Truthy(spec.rate.value) && spec.rate.value.Str? && ParseRateText(spec.rate.value.s).Failure? ==>
      ConfigureDomain(spec).Failure?
    ensures
      (!(spec.rate.Some? && Truthy(spec.rate.value)) && spec.interval.Some? && Truthy(spec.interval.value) &&
       ParseInterval(spec.interval.value).Failure?) ==>
      ConfigureDomain(spec).Failure?
    ensures spec.burst.Some? && !IsCount(spec.burst.value) && ParseIntervalText(spec.burst.value.s).Failure? ==>
      ConfigureDomain(spec).Failure?
    ensures spec.burst.None? ==> ConfigureDomain(spec).Failure?
  {
  }

  /** A truthy rate decides the interval whatever `interval` says. */
  lemma RateOverridesInterval(spec: DomainSpec, other: Option<ConfigValue>)
    requires spec.rate.Some? && Truthy(spec.rate.value)
    ensures ConfigureDomain(spec.(interval := other)) == ConfigureDomain(spec)
  {
  }

  lemma BurstDigitsSame(interval: Option<nat>, n: nat)
    ensures DomainBurst(interval, Some(Str(NatToString(n)))) == DomainBurst(interval, Some(Num(n)))
  {
    DigitsValueOfNatToString(n);
  }

  /** An all-digit burst string is the same as that number of intervals. */
  lemma BurstDigitsEqualsCount(spec: DomainSpec, n: nat)
    ensures ConfigureDomain(spec.(burst := Some(Str(NatToString(n))))) == ConfigureDomain(spec.(burst := Some(Num(n))))
  {
    assert DomainInterval(spec.(burst := Some(Str(NatToString(n))))) == DomainInterval(spec);
    assert DomainInterval(spec.(burst := Some(Num(n)))) == DomainInterval(spec);
    if DomainInterval(spec).Success? {
      BurstDigitsSame(DomainInterval(spec).value, n);
    }
  }

  /** Without a usable interval a burst count is NaN, but a burst given as an
      interval string still stands. */
  lemma BurstWithoutInterval(spec: DomainSpec, k: nat, s: string)
    requires spec.rate.None? && spec.interval.None?
    requires !(|s| > 0 && AllDigits(s)) && ParseIntervalText(s).Success?
    ensures ConfigureDomain(spec.(burst := Some(Num(k)))) == Success(Domain(None, None))
    ensures ConfigureDomain(spec.(burst := Some(Str(s)))) == Success(Domain(None, Some(ParseIntervalText(s).value)))
  {
  }
}
