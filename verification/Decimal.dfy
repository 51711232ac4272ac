// Decimal text of integers: strconv.FormatInt and strconv.ParseInt in base 10.
module Decimal {
  import opened Wrappers

  const INT64_MAX: int := 0x7fff_ffff_ffff_ffff
  const INT64_MIN: int := -0x8000_0000_0000_0000

  predicate IsDigit(c: char) { '0' <= c <= '9' }

  predicate AllDigits(s: string) { forall i :: 0 <= i < |s| ==> IsDigit(s[i]) }

  function DigitChar(d: nat): (c: char)
    requires d < 10
    ensures IsDigit(c)
  {
    ('0' as int + d) as char
  }

  function DigitValue(c: char): (d: nat)
    requires IsDigit(c)
    ensures d < 10
  {
    c as int - '0' as int
  }

  function FormatNat(n: nat): (s: string)
    ensures s != "" && AllDigits(s)
  {
    if n < 10 then [DigitChar(n)] else FormatNat(n / 10) + [DigitChar(n % 10)]
  }

  function FormatInt(n: int): (s: string)
    ensures s != ""
  {
    if n < 0 then "-" + FormatNat(-n) else FormatNat(n)
  }

  function DigitsValue(s: string): (n: int)
    requires AllDigits(s)
  {
    if s == "" then 0 else 10 * DigitsValue(s[..|s| - 1]) + DigitValue(s[|s| - 1])
  }

  // strconv.ParseInt(s, 10, 64): an optional sign, then digits, then the range check.
  function ParseInt64(s: string): (r: Option<int>)
    ensures r.Some? ==> INT64_MIN <= r.value <= INT64_MAX
  {
    var signed := s != "" && (s[0] == '-' || s[0] == '+');
    var digits := if signed then s[1..] else s;
    if digits == "" || !AllDigits(digits) then None
    else
      var n: int := if signed && s[0] == '-' then -DigitsValue(digits) else DigitsValue(digits);
      if INT64_MIN <= n <= INT64_MAX then Some(n) else None
  }

  lemma {:induction false} FormatNatValue(n: nat)
    ensures DigitsValue(FormatNat(n)) == n
  {
    if n >= 10 {
      FormatNatValue(n / 10);
      var s := FormatNat(n);
      assert s[..|s| - 1] == FormatNat(n / 10);
    }
  }

  // Formatting and parsing are inverse on the 64-bit range.
  lemma ParseFormat(n: int)
    requires INT64_MIN <= n <= INT64_MAX
    ensures ParseInt64(FormatInt(n)) == Some(n)
  {
    if n < 0 {
      FormatNatValue(-n);
      assert FormatInt(n)[1..] == FormatNat(-n);
    } else {
      FormatNatValue(n);
      assert IsDigit(FormatInt(n)[0]);
    }
  }

  // ---------------------------------------------------------------- what a text denotes

  const DIGITS := "0123456789"

  lemma DigitAt(d: nat)
    requires d < 10
    ensures DigitChar(d) == DIGITS[d] && DigitValue(DIGITS[d]) == d
  {
  }

  // Position counts tenfold.
  lemma DigitsValueSnoc(s: string, d: nat)
    requires AllDigits(s) && d < 10
    ensures AllDigits(s + [DIGITS[d]]) && DigitsValue(s + [DIGITS[d]]) == 10 * DigitsValue(s) + d
    ensures DigitsValue("") == 0
  {
    DigitAt(d);
    var t := s + [DIGITS[d]];
    assert t[..|t| - 1] == s;
  }

  // Signs, leading zeros and the range of 64 bits.
  lemma ParseForms(digits: string)
    requires digits != "" && AllDigits(digits)
    ensures var n := DigitsValue(digits);
            && ParseInt64(digits) == ParseInt64("+" + digits) == (if n <= INT64_MAX then Some(n) else None)
            && ParseInt64("-" + digits) == (if n <= INT64_MAX + 1 then Some(-n) else None)
    ensures ParseInt64("") == ParseInt64("+") == ParseInt64("-") == None
  {
    assert ("+" + digits)[1..] == digits && ("-" + digits)[1..] == digits;
    DigitsPositive(digits);
  }

  lemma {:induction false} DigitsPositive(s: string)
    requires AllDigits(s)
    ensures DigitsValue(s) >= 0
  {
    if s != "" {
      DigitsPositive(s[..|s| - 1]);
    }
  }

  // Anything but digits after the sign is no integer.
  lemma ParseRefuses(s: string, i: nat)
    requires i < |s| && !IsDigit(s[i]) && (i == 0 ==> s[0] != '-' && s[0] != '+')
    ensures ParseInt64(s) == None
  {
    assert i > 0 ==> s[1..][i - 1] == s[i];
  }
}
