/** Decimal numerals. */
module Numerals {
  predicate IsDigit(c: char) {
    '0' <= c <= '9'
  }

  predicate AllDigits(s: string) {
    forall i :: 0 <= i < |s| ==> IsDigit(s[i])
  }

  type Numeral = s: string | AllDigits(s) witness []

  function DigitValue(c: char): nat
    requires IsDigit(c)
  {
    c as nat - '0' as nat
  }

  /** The number a run of digits denotes. */
  function Number(digits: Numeral): nat {
    if digits == [] then 0
    else Number(digits[..|digits| - 1]) * 10 + DigitValue(digits[|digits| - 1])
  }

  /** The decimal numeral of a number. */
  function Decimal(n: nat): (digits: Numeral)
    ensures |digits| > 0
  {
    var low := [('0' as int + n % 10) as char];
    if n < 10 then low else Decimal(n / 10) + low
  }

  lemma {:induction false} NumberOfDecimal(n: nat)
    ensures Number(Decimal(n)) == n
  {
    var digits := Decimal(n);
    if n < 10 {
      assert digits[..0] == [];
    } else {
      NumberOfDecimal(n / 10);
      assert digits[..|digits| - 1] == Decimal(n / 10);
    }
  }

  /** The length of the longest prefix of decimal digits. */
  function DigitRun(s: string): (n: nat)
    ensures n <= |s|
    ensures AllDigits(s[..n])
    ensures n < |s| ==> !IsDigit(s[n])
  {
    if s == [] || !IsDigit(s[0]) then 0 else 1 + DigitRun(s[1..])
  }

  lemma {:induction false} DigitRunOf(digits: Numeral, rest: string)
    requires rest == [] || !IsDigit(rest[0])
    ensures DigitRun(digits + rest) == |digits|
  {
    if digits == [] {
      assert digits + rest == rest;
    } else {
      assert (digits + rest)[1..] == digits[1..] + rest;
      DigitRunOf(digits[1..], rest);
    }
  }

  /** Written without leading zeros. */
  predicate IsShort(digits: Numeral) {
    digits != [] && (|digits| == 1 || digits[0] != '0')
  }

  lemma {:induction false} DecimalOfNumber(digits: Numeral)
    requires digits != []
    ensures Decimal(Number(digits)) == digits <==> IsShort(digits)
    ensures IsShort(digits) && |digits| > 1 ==> Number(digits) >= 10
    ensures IsShort(Decimal(Number(digits)))
  {
    var n := Number(digits);
    if |digits| == 1 {
      assert digits[..0] == [];
      assert n == DigitValue(digits[0]);
    } else {
      var front, last := digits[..|digits| - 1], digits[|digits| - 1];
      DecimalOfNumber(front);
      assert front[0] == digits[0] && n == Number(front) * 10 + DigitValue(last);
      assert n / 10 == Number(front) && n % 10 == DigitValue(last);
      assert digits == front + [last];
      if n >= 10 {
        assert Decimal(n) == Decimal(n / 10) + [last];
      } else {
        assert Number(front) == 0;
      }
    }
  }

  /** A leading zero does not change the number. */
  lemma {:induction false} LeadingZero(digits: Numeral)
    ensures AllDigits(['0'] + digits) && Number(['0'] + digits) == Number(digits)
  {
    var longer := ['0'] + digits;
    if digits == [] {
      assert longer[..0] == [];
    } else {
      LeadingZero(digits[..|digits| - 1]);
      assert longer[..|digits|] == ['0'] + digits[..|digits| - 1];
    }
  }
}
