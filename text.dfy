/** Decimal digits and the small string helpers shared by the ZeroMQ wire format
    and the master's configuration parsers. */
module Text {
  import opened Wrappers

  predicate IsDigit(c: char) {
    '0' <= c <= '9'
  }

  predicate AllDigits(s: string) {
    forall i :: 0 <= i < |s| ==> IsDigit(s[i])
  }

  function DigitValue(c: char): nat
    requires IsDigit(c)
  {
    c as int - '0' as int
  }

  /** The value of a run of decimal digits (`parseInt(s, 10)` on such a run). */
  function DigitsValue(s: string): nat
    requires AllDigits(s)
  {
    if s == [] then 0 else DigitsValue(s[..|s| - 1]) * 10 + DigitValue(s[|s| - 1])
  }

  /** `String(n)` for a natural number: its decimal digits, no leading zero. */
  function NatToString(n: nat): (r: string)
    ensures |r| > 0 && AllDigits(r)
    ensures n >= 10 ==> r[0] != '0'
    decreases n
  {
    (if n < 10 then [] else NatToString(n / 10)) + [('0' as int + n % 10) as char]
  }

  /** A decimal timestamp as read back from a frame: `None` stands for the
      NaN that `parseFloat` gives on anything but digits. */
  function ParseDecimal(s: string): (r: Option<nat>)
    ensures r.Some? <==> |s| > 0 && AllDigits(s)
    ensures r.Some? ==> r.value == DigitsValue(s)
  {
    if |s| > 0 && AllDigits(s) then Some(DigitsValue(s)) else None
  }

  lemma {:induction false} DigitsValueOfNatToString(n: nat)
    ensures DigitsValue(NatToString(n)) == n
    decreases n
  {
    var s := NatToString(n);
    if n >= 10 {
      DigitsValueOfNatToString(n / 10);
      assert s[..|s| - 1] == NatToString(n / 10);
    } else {
      assert s[..|s| - 1] == [];
    }
  }

  /** Every number the model writes into a frame reads back unchanged. */
  lemma DecimalRoundTrip(n: nat)
    ensures ParseDecimal(NatToString(n)) == Some(n)
  {
    DigitsValueOfNatToString(n);
  }

  /** `s.replace(/\0$/, '')`: drop one trailing NUL, if there is one. */
  function StripNul(s: string): (r: string)
    ensures |s| > 0 && s[|s| - 1] == '\0' ==> r + "\0" == s
    ensures !(|s| > 0 && s[|s| - 1] == '\0') ==> r == s
  {
    if |s| > 0 && s[|s| - 1] == '\0' then s[..|s| - 1] else s
  }

  lemma StripNulAfterNul(s: string)
    ensures StripNul(s + "\0") == s
  {
    assert (s + "\0")[..|s|] == s;
  }
}
