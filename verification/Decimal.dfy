/** Numbers printed in decimal, as printf("%d") and str() do for numbers that are not negative. */
module Decimal {

  function Digit(d: nat): (c: char)
    requires d < 10
    ensures '0' <= c <= '9'
  {
    '0' + d as char
  }

  function Print(n: nat): (s: string)
    ensures s != "" && forall i | 0 <= i < |s| :: '0' <= s[i] <= '9'
  {
    if n < 10 then [Digit(n)] else Print(n / 10) + [Digit(n % 10)]
  }

  lemma FiveDigits(n: nat)
    requires n < 100000
    ensures |Print(n)| <= 5
  {
    assert n / 10 < 10000 && n / 10 / 10 < 1000 && n / 10 / 10 / 10 < 100 && n / 10 / 10 / 10 / 10 < 10;
    var _ := [Print(n), Print(n / 10), Print(n / 10 / 10), Print(n / 10 / 10 / 10), Print(n / 10 / 10 / 10 / 10)];
  }
}
