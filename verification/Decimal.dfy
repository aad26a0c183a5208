/** Decimal numerals, as template strings print them and as `Number` reads them back. */
module Decimal {
  import opened Basics
  import opened Scanner

  predicate IsDigit(c: char) { '0' <= c <= '9' }

  function Digit(d: nat): char
    requires d < 10
  {
    d as char + '0'
  }

  function Numeral(n: nat): string {
    if n < 10 then [Digit(n)] else Numeral(n / 10) + [Digit(n % 10)]
  }

  function DigitValue(c: char): nat { if IsDigit(c) then c as int - '0' as int else 0 }

  function Value(s: string): nat {
    if s == [] then 0 else Value(s[..|s| - 1]) * 10 + DigitValue(s[|s| - 1])
  }

  /** A numeral is a non-empty run of digits that reads back as its number. */
  lemma {:induction false} NumeralReadsBack(n: nat)
    ensures Word(Numeral(n), IsDigit) && Value(Numeral(n)) == n
  {
    if n >= 10 {
      NumeralReadsBack(n / 10);
      assert Numeral(n)[..|Numeral(n)| - 1] == Numeral(n / 10);
    } else {
      assert Numeral(n)[..0] == [];
    }
  }
}
