/** Decimal numerals as printed by C's `%d` and Ruby's `to_s`, and read back by Ruby's `to_i`. */
module Decimal {

  function DigitChar(d: nat): char
    requires d < 10
  {
    '0' + d as char
  }

  predicate IsDigit(c: char) {
    '0' <= c <= '9'
  }

  function DigitValue(c: char): (d: nat)
    requires IsDigit(c)
    ensures d < 10 && DigitChar(d) == c
  {
    (c - '0') as nat
  }

  function PrintNat(n: nat): string {
    if n < 10 then [DigitChar(n)] else PrintNat(n / 10) + [DigitChar(n % 10)]
  }

  function Print(n: int): string {
    if n < 0 then "-" + PrintNat(-n) else PrintNat(n)
  }

  predicate AllDigits(s: string) {
    forall i | 0 <= i < |s| :: IsDigit(s[i])
  }

  /** The number a string of digits denotes. */
  function ParseNat(s: string): nat
    requires AllDigits(s)
  {
    if s == "" then 0 else 10 * ParseNat(s[..|s| - 1]) + DigitValue(s[|s| - 1])
  }

  lemma {:induction false} PrintParse(n: nat)
    ensures PrintNat(n) != "" && AllDigits(PrintNat(n)) && ParseNat(PrintNat(n)) == n
  {
    if n >= 10 {
      PrintParse(n / 10);
      var s := PrintNat(n);
      assert s[..|s| - 1] == PrintNat(n / 10);
    } else {
      assert PrintNat(n)[..0] == "";
    }
  }

  /** Printing loses nothing, the sign included. */
  lemma PrintIsInjective(m: int, n: int)
    requires Print(m) == Print(n)
    ensures m == n
  {
    PrintParse(if m < 0 then -m else m);
    PrintParse(if n < 0 then -n else n);
    if m < 0 {
      assert Print(m)[1..] == PrintNat(-m) && Print(m)[0] == '-';
    }
    if n < 0 {
      assert Print(n)[1..] == PrintNat(-n) && Print(n)[0] == '-';
    }
  }

  function Pow10(k: nat): nat {
    if k == 0 then 1 else 10 * Pow10(k - 1)
  }

  lemma {:induction false} PrintLength(n: nat, k: nat)
    requires k > 0 && n < Pow10(k)
    ensures |PrintNat(n)| <= k
  {
    if n >= 10 {
      PrintLength(n / 10, k - 1);
    }
  }

  /** A 32-bit number takes at most eleven characters. */
  lemma Print32Length(n: int)
    requires -0x8000_0000 <= n < 0x8000_0000
    ensures |Print(n)| <= 11
  {
    assert Pow10(10) == 10 * 10 * 10 * 10 * 10 * Pow10(5) == 10_000_000_000;
    PrintLength(if n < 0 then -n else n, 10);
  }
}
