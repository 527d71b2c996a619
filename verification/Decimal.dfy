/** Decimal numerals, as Python's str(int) writes them and int(str) reads them. */
module Decimal {

  predicate IsDigit(c: char) {
    '0' <= c <= '9'
  }

  /** The pattern \d+ over ASCII text: one digit or more, leading zeros allowed. */
  predicate AllDigits(s: string) {
    s != "" && forall i :: 0 <= i < |s| ==> IsDigit(s[i])
  }

  function DigitChar(d: nat): (c: char)
    requires d < 10
    ensures IsDigit(c) && c as int - '0' as int == d
  {
    '0' + d as char
  }

  /** str(n). */
  function ToText(n: nat): (s: string)
    ensures AllDigits(s)
    ensures n > 0 ==> s[0] != '0'
  {
    if n < 10 then [DigitChar(n)] else ToText(n / 10) + [DigitChar(n % 10)]
  }

  /** int(s) for a string of digits. */
  function FromText(s: string): nat
    requires AllDigits(s)
  {
    var d := s[|s| - 1] as int - '0' as int;
    if |s| == 1 then d else 10 * FromText(s[..|s| - 1]) + d
  }

  lemma {:induction false} RoundTrip(n: nat)
    ensures FromText(ToText(n)) == n
  {
    if n >= 10 {
      RoundTrip(n / 10);
      assert ToText(n)[..|ToText(n)| - 1] == ToText(n / 10);
    }
  }

  lemma Injective(m: nat, n: nat)
    requires ToText(m) == ToText(n)
    ensures m == n
  {
    RoundTrip(m);
    RoundTrip(n);
  }
}
