/**
 * The decimal rendering that Python's `str(int)` gives a configured pin
 * number (the identifier reported for that pin), and the reading of such a
 * numeral back into a number that a subscriber of the trap report performs.
 */
module Decimal {
  import opened Wrappers

  predicate IsDigit(c: char) {
    '0' <= c <= '9'
  }

  predicate AllDigits(s: string) {
    forall i :: 0 <= i < |s| ==> IsDigit(s[i])
  }

  function DigitChar(d: nat): (c: char)
    requires d < 10
    ensures IsDigit(c) && c as int - '0' as int == d
  {
    ('0' as int + d) as char
  }

  /** The digits of `n`, most significant first, without leading zeros. */
  function NatDigits(n: nat): (s: string)
    ensures |s| >= 1 && AllDigits(s)
    ensures |s| > 1 ==> s[0] != '0'
    ensures s == "0" <==> n == 0
    decreases n
  {
    if n < 10 then [DigitChar(n)] else NatDigits(n / 10) + [DigitChar(n % 10)]
  }

  /** `str(n)`: a minus sign before the digits of `-n` when `n` is negative. */
  function Render(n: int): (s: string)
    ensures |s| >= 1 && ',' !in s
    ensures s[0] == '-' <==> n < 0
  {
    if n < 0 then "-" + NatDigits(-n) else NatDigits(n)
  }

  /** The number a non-empty string of digits denotes. */
  function DigitsValue(s: string): nat
    requires AllDigits(s)
  {
    if s == [] then 0
    else DigitsValue(s[..|s| - 1]) * 10 + (s[|s| - 1] as int - '0' as int)
  }

  /** Reads an optionally negative decimal numeral; `None` for anything else. */
  function Parse(s: string): (r: Option<int>)
    ensures r.Some? ==> |s| >= 1
  {
    if |s| >= 2 && s[0] == '-' && AllDigits(s[1..]) then Some(-(DigitsValue(s[1..]) as int))
    else if |s| >= 1 && AllDigits(s) then Some(DigitsValue(s))
    else None
  }

  lemma {:induction false} DigitsRoundTrip(n: nat)
    ensures DigitsValue(NatDigits(n)) == n
    decreases n
  {
    if n >= 10 {
      var prefix := NatDigits(n / 10);
      var s := prefix + [DigitChar(n % 10)];
      assert s[..|s| - 1] == prefix;
      DigitsRoundTrip(n / 10);
    }
  }

  /** Every rendered pin number reads back as itself. */
  lemma RenderRoundTrip(n: int)
    ensures Parse(Render(n)) == Some(n)
  {
    var d := NatDigits(if n < 0 then -n else n);
    DigitsRoundTrip(if n < 0 then -n else n);
    if n < 0 {
      var s := "-" + d;
      assert s == Render(n) && s[1..] == d;
    } else {
      assert d == Render(n) && IsDigit(d[0]);
    }
  }

  /** Distinct pin numbers get distinct identifiers. */
  lemma RenderInjective(a: int, b: int)
    ensures Render(a) == Render(b) <==> a == b
  {
    RenderRoundTrip(a);
    RenderRoundTrip(b);
  }
}
