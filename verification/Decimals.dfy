/** The decimal texts of fmt's %d, which stand for one number each: a signed one may have a minus sign in front. */
module Decimals {

  const DIGITS := "0123456789"

  predicate IsDigit(c: char) {
    '0' <= c <= '9'
  }

  predicate AllDigits(s: string) {
    forall i | 0 <= i < |s| :: IsDigit(s[i])
  }

  function Decimal(n: nat): (s: string)
    ensures s != "" && AllDigits(s)
  {
    if n < 10 then [DIGITS[n]] else Decimal(n / 10) + [DIGITS[n % 10]]
  }

  /** %d of a signed integer. */
  function SignedDecimal(n: int): string {
    if n < 0 then "-" + Decimal(-n) else Decimal(n)
  }

  /** The number a text of digits stands for. */
  function Value(s: string): nat
    requires AllDigits(s)
  {
    if s == "" then 0 else 10 * Value(s[..|s| - 1]) + (s[|s| - 1] as int - '0' as int)
  }

  lemma {:induction false} ValueOfDecimal(n: nat)
    ensures Value(Decimal(n)) == n
  {
    assert forall d | 0 <= d < 10 :: DIGITS[d] as int == '0' as int + d;
    if n >= 10 {
      ValueOfDecimal(n / 10);
      var s := Decimal(n);
      assert s[..|s| - 1] == Decimal(n / 10);
    } else {
      assert Decimal(n)[..0] == "";
    }
  }

  /** The last digit is the remainder by ten; the digits in front of it are those of the quotient, if there is one. */
  lemma DecimalDigits(n: nat)
    ensures Decimal(n) == (if n < 10 then "" else Decimal(n / 10)) + [('0' as int + n % 10) as char]
  {
    assert forall d | 0 <= d < 10 :: DIGITS[d] as int == '0' as int + d;
  }

  /** A number below zero is a minus sign and its digits. */
  lemma SignedDecimalReads(n: int)
    ensures var s := SignedDecimal(n);
      if n >= 0 then AllDigits(s) && Value(s) == n
      else s[0] == '-' && AllDigits(s[1..]) && Value(s[1..]) == -n
  {
    ValueOfDecimal(if n < 0 then -n else n);
    assert n < 0 ==> SignedDecimal(n)[1..] == Decimal(-n);
  }

  /** Different numbers have different texts. */
  lemma DecimalInjective(m: nat, n: nat)
    requires Decimal(m) == Decimal(n)
    ensures m == n
  {
    ValueOfDecimal(m);
    ValueOfDecimal(n);
  }
}
