/** Decimal numerals. */
module Decimals {

  function Digit(d: nat): char
    requires d < 10
  {
    '0' + d as char
  }

  /** The decimal numeral of n. */
  function Decimal(n: nat): (s: string)
    ensures s != [] && forall k :: 0 <= k < |s| ==> '0' <= s[k] <= '9'
  {
    if n < 10 then [Digit(n)] else Decimal(n / 10) + [Digit(n % 10)]
  }

  /** The number that a string of digits denotes; leading zeros are allowed. */
  function Parse(s: string): nat
    requires forall k :: 0 <= k < |s| ==> '0' <= s[k] <= '9'
  {
    if s == [] then 0 else 10 * Parse(s[..|s| - 1]) + (s[|s| - 1] as int - '0' as int)
  }

  lemma {:induction false} ParseDecimal(n: nat)
    ensures Parse(Decimal(n)) == n
  {
    if n >= 10 {
      ParseDecimal(n / 10);
      assert Decimal(n)[..|Decimal(n)| - 1] == Decimal(n / 10);
    } else {
      assert Decimal(n)[..0] == [];
    }
  }

  /** n in at least three digits, as the format 03d writes it. */
  function ThreeDigits(n: nat): (s: string)
    ensures forall k :: 0 <= k < |s| ==> '0' <= s[k] <= '9'
  {
    (if n < 10 then "00" else if n < 100 then "0" else "") + Decimal(n)
  }

  lemma {:induction false} ParseAfterZero(s: string)
    requires forall k :: 0 <= k < |s| ==> '0' <= s[k] <= '9'
    ensures Parse("0" + s) == Parse(s)
  {
    if s == [] {
      assert ("0" + s)[..0] == [];
    } else {
      assert ("0" + s)[..|s|] == "0" + s[..|s| - 1];
      ParseAfterZero(s[..|s| - 1]);
    }
  }

  /** The numeral has three digits, or more without a leading zero. */
  lemma {:induction false} ThreeDigitsForm(n: nat)
    ensures Parse(ThreeDigits(n)) == n && |ThreeDigits(n)| >= 3
    ensures |ThreeDigits(n)| > 3 ==> ThreeDigits(n)[0] != '0'
  {
    ParseThreeDigits(n);
    Lengths(n);
    if n >= 100 { NoLeadingZero(n); }
  }

  lemma Lengths(n: nat)
    ensures n < 10 ==> |Decimal(n)| == 1
    ensures 10 <= n < 100 ==> |Decimal(n)| == 2
    ensures n >= 100 ==> |Decimal(n)| >= 3
  {
    assert n >= 100 ==> n / 10 >= 10;
  }

  lemma {:induction false} NoLeadingZero(n: nat)
    ensures Decimal(n)[0] == '0' ==> n == 0 && Decimal(n) == "0"
  {
    if n >= 10 { NoLeadingZero(n / 10); }
  }

  lemma ThreeDigitsInjective(m: nat, n: nat)
    ensures ThreeDigits(m) == ThreeDigits(n) ==> m == n
  {
    ParseThreeDigits(m);
    ParseThreeDigits(n);
  }

  lemma ParseThreeDigits(n: nat)
    ensures Parse(ThreeDigits(n)) == n
  {
    ParseDecimal(n);
    if n < 10 {
      assert "00" + Decimal(n) == "0" + ("0" + Decimal(n));
      ParseAfterZero(Decimal(n));
      ParseAfterZero("0" + Decimal(n));
    } else if n < 100 {
      ParseAfterZero(Decimal(n));
    } else {
      assert "" + Decimal(n) == Decimal(n);
    }
  }
}
