/** Numeric owner ids: the digits a legacy id is written with and the number it is cast to. */
module Decimals {

  predicate IsDigit(c: char) {
    '0' <= c <= '9'
  }

  predicate AllDigits(s: string) {
    forall i :: 0 <= i < |s| ==> IsDigit(s[i])
  }

  /** `~ '^[0-9]{1,18}$'` */
  predicate IsNumeric(s: string) {
    1 <= |s| <= 18 && AllDigits(s)
  }

  function DigitValue(c: char): (d: nat)
    requires IsDigit(c)
    ensures d < 10
  {
    c as int - '0' as int
  }

  /** The cast to bigint. */
  function ToNumber(s: string): nat
    requires AllDigits(s)
  {
    if s == "" then 0 else 10 * ToNumber(s[..|s| - 1]) + DigitValue(s[|s| - 1])
  }

  function Digit(d: nat): (c: char)
    requires d < 10
    ensures IsDigit(c) && DigitValue(c) == d
  {
    ('0' as int + d) as char
  }

  /** The cast back to text. */
  function ToText(n: nat): (s: string)
    ensures s != "" && AllDigits(s)
  {
    if n < 10 then [Digit(n)] else ToText(n / 10) + [Digit(n % 10)]
  }

  /** No leading zero. */
  predicate Canonical(s: string) {
    |s| > 1 ==> s[0] != '0'
  }

  lemma {:induction false} NumberOfText(n: nat)
    ensures ToNumber(ToText(n)) == n && Canonical(ToText(n)) && (n > 0 ==> ToText(n)[0] != '0')
  {
    if n >= 10 {
      NumberOfText(n / 10);
      var s := ToText(n / 10);
      assert (s + [Digit(n % 10)])[..|s|] == s;
    } else {
      assert [Digit(n)][..0] == "";
      assert n > 0 ==> DigitValue(ToText(n)[0]) != DigitValue('0');
    }
  }

  lemma {:induction false} LeadingDigit(s: string)
    requires AllDigits(s) && s != ""
    ensures s[0] != '0' ==> ToNumber(s) > 0
  {
    if |s| > 1 {
      LeadingDigit(s[..|s| - 1]);
    } else {
      assert DigitValue(s[0]) == 0 ==> s[0] == '0';
    }
  }

  /** Casting to a number and back to text returns the digits exactly when there is no leading zero. */
  lemma {:induction false} TextOfNumberIff(s: string)
    requires AllDigits(s) && s != ""
    ensures ToText(ToNumber(s)) == s <==> Canonical(s)
  {
    NumberOfText(ToNumber(s));
    if Canonical(s) {
      TextOfNumber(s);
    }
  }

  lemma {:induction false} TextOfNumber(s: string)
    requires AllDigits(s) && s != "" && Canonical(s)
    ensures ToText(ToNumber(s)) == s
  {
    var init, last := s[..|s| - 1], s[|s| - 1];
    assert s == init + [last];
    assert Digit(DigitValue(last)) == last;
    if init != "" {
      LeadingDigit(init);
      TextOfNumber(init);
    } else {
      assert ToNumber(init) == 0;
    }
  }

  /** The digits without leading zeros; the last digit stays. */
  function WithoutZeros(s: string): string {
    if |s| > 1 && s[0] == '0' then WithoutZeros(s[1..]) else s
  }

  lemma {:induction false} LeadingZero(s: string)
    requires AllDigits(s) && |s| > 1 && s[0] == '0'
    ensures ToNumber(s[1..]) == ToNumber(s)
  {
    if |s| > 2 {
      LeadingZero(s[..|s| - 1]);
      assert s[1..][..|s| - 2] == s[..|s| - 1][1..];
    } else {
      assert s[..1][..0] == "" && s[1..][..0] == "";
      assert s[..1] == "0" && ToNumber("0") == 0;
    }
  }

  lemma {:induction false} WithoutZerosSame(s: string)
    requires AllDigits(s) && s != ""
    ensures AllDigits(WithoutZeros(s)) && WithoutZeros(s) != "" && Canonical(WithoutZeros(s))
    ensures ToNumber(WithoutZeros(s)) == ToNumber(s)
  {
    if |s| > 1 && s[0] == '0' {
      LeadingZero(s);
      WithoutZerosSame(s[1..]);
    }
  }

  /** Two texts are the same number exactly when they are the same digits, leading zeros aside. */
  lemma SameNumberIff(s: string, t: string)
    requires AllDigits(s) && s != "" && AllDigits(t) && t != ""
    ensures ToNumber(s) == ToNumber(t) <==> WithoutZeros(s) == WithoutZeros(t)
  {
    WithoutZerosSame(s);
    WithoutZerosSame(t);
    TextOfNumberIff(WithoutZeros(s));
    TextOfNumberIff(WithoutZeros(t));
  }

  function Power10(n: nat): nat {
    if n == 0 then 1 else 10 * Power10(n - 1)
  }

  lemma {:induction false} NumberBelowPower(s: string)
    requires AllDigits(s)
    ensures ToNumber(s) < Power10(|s|)
  {
    if s != "" {
      NumberBelowPower(s[..|s| - 1]);
    }
  }

  lemma {:induction false} Power10Monotone(m: nat, n: nat)
    requires m <= n
    ensures Power10(m) <= Power10(n)
  {
    if m < n {
      Power10Monotone(m, n - 1);
    }
  }

  /** One to eighteen digits always fit a 64-bit integer: the cast cannot overflow. */
  lemma NumericFitsBigint(s: string)
    requires IsNumeric(s)
    ensures ToNumber(s) < 0x8000_0000_0000_0000
  {
    NumberBelowPower(s);
    Power10Monotone(|s|, 18);
    assert Power10(9) == 1_000_000_000;
    assert Power10(18) == 1_000_000_000_000_000_000;
  }

  lemma {:induction false} TextIsShort(n: nat, k: nat)
    requires n < Power10(k) && k > 0
    ensures |ToText(n)| <= k
  {
    if n >= 10 {
      TextIsShort(n / 10, k - 1);
    }
  }

  /** A number read from at most eighteen digits is written with at most eighteen digits. */
  lemma NumericRoundTrip(s: string)
    requires IsNumeric(s)
    ensures IsNumeric(ToText(ToNumber(s))) && ToNumber(ToText(ToNumber(s))) == ToNumber(s)
  {
    NumberBelowPower(s);
    TextIsShort(ToNumber(s), |s|);
    NumberOfText(ToNumber(s));
  }
}
