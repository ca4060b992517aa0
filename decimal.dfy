/**
 * Decimal rendering of non-negative integers, as JavaScript's template
 * literals print a safe integer (`${n}`), and its inverse.
 */
module Decimal {
  import opened Wrappers

  predicate IsDigit(c: char) {
    '0' <= c <= '9'
  }

  predicate AllDigits(s: string) {
    forall i :: 0 <= i < |s| ==> IsDigit(s[i])
  }

  function DigitChar(d: nat): (c: char)
    requires d < 10
    ensures IsDigit(c) && c as int - '0' as int == d
  {
    ('0' as int + d) as char
  }

  function DigitValue(c: char): (d: nat)
    requires IsDigit(c)
    ensures d < 10
  {
    c as int - '0' as int
  }

  /** The shortest decimal numeral of `n`: digits only, no leading zero. */
  function NatToDecimal(n: nat): (s: string)
    ensures |s| >= 1 && AllDigits(s)
    ensures |s| > 1 ==> s[0] != '0'
  {
    if n < 10 then [DigitChar(n)] else NatToDecimal(n / 10) + [DigitChar(n % 10)]
  }

  /** The value of a string of digits, most significant first. */
  function DecimalValue(s: string): nat
    requires AllDigits(s)
  {
    if s == [] then 0 else DecimalValue(s[..|s| - 1]) * 10 + DigitValue(s[|s| - 1])
  }

  /** A numeral as the printer writes it: at least one digit, no leading zero. */
  predicate IsCanonical(s: string) {
    |s| >= 1 && AllDigits(s) && (|s| > 1 ==> s[0] != '0')
  }

  function ParseDecimal(s: string): Option<nat> {
    if IsCanonical(s) then Some(DecimalValue(s)) else None
  }

  lemma {:induction false} DecimalValueOfPrinted(n: nat)
    ensures DecimalValue(NatToDecimal(n)) == n
  {
    if n >= 10 {
      DecimalValueOfPrinted(n / 10);
      var s := NatToDecimal(n);
      assert s[..|s| - 1] == NatToDecimal(n / 10);
    }
  }

  /** Parsing what the printer wrote gives the number back. */
  lemma DecimalRoundTrip(n: nat)
    ensures ParseDecimal(NatToDecimal(n)) == Some(n)
  {
    DecimalValueOfPrinted(n);
  }

  lemma {:induction false} LeadingDigitBound(s: string)
    requires |s| >= 1 && AllDigits(s)
    ensures DecimalValue(s) >= DigitValue(s[0])
  {
    if |s| > 1 {
      LeadingDigitBound(s[..|s| - 1]);
    }
  }

  /** Conversely, a canonical numeral is exactly what the printer writes for its value. */
  lemma {:induction false} ParsedIsPrinted(s: string, n: nat)
    requires ParseDecimal(s) == Some(n)
    ensures NatToDecimal(n) == s
  {
    if |s| > 1 {
      var init := s[..|s| - 1];
      assert IsCanonical(init) by {
        assert init[0] == s[0];
        assert forall i :: 0 <= i < |init| ==> init[i] == s[i];
      }
      LeadingDigitBound(init);
      assert DecimalValue(init) >= 1 by {
        if |init| > 1 { assert init[0] != '0'; } else { assert init[0] == s[0] != '0'; }
      }
      ParsedIsPrinted(init, DecimalValue(init));
      assert s == init + [s[|s| - 1]];
    }
  }
}
