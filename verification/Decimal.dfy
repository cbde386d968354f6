/** Decimal numerals. */
module Decimal {

  function DigitChar(d: nat): (c: char)
    requires d < 10
    ensures '0' <= c <= '9' && (c as int) - ('0' as int) == d
  {
    '0' + d as char
  }

  /** The shortest decimal numeral of n. */
  function Itoa(n: nat): (s: string)
    ensures s != ""
  {
    if n < 10 then [DigitChar(n)] else Itoa(n / 10) + [DigitChar(n % 10)]
  }

  function IntText(n: int): string {
    if n < 0 then "-" + Itoa(-n) else Itoa(n)
  }

  /** Different numbers have different numerals. */
  lemma {:induction false} ItoaInjective(m: nat, n: nat)
    requires Itoa(m) == Itoa(n)
    ensures m == n
  {
    var s, t := Itoa(m), Itoa(n);
    assert s[|s| - 1] == DigitChar(m % 10) && t[|t| - 1] == DigitChar(n % 10);
    if m < 10 || n < 10 {
      assert m < 10 <==> |s| == 1;
      assert n < 10 <==> |t| == 1;
    } else {
      assert s[..|s| - 1] == Itoa(m / 10) && t[..|t| - 1] == Itoa(n / 10);
      ItoaInjective(m / 10, n / 10);
    }
  }
}
