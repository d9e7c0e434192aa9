/** Python's `str` of a natural number, and reading it back. */
module Decimals {

  function Digit(d: nat): char
    requires d < 10
  {
    "0123456789"[d]
  }

  predicate IsDigit(c: char) {
    '0' <= c <= '9'
  }

  function DigitValue(c: char): (d: nat)
    requires IsDigit(c)
    ensures d < 10
  {
    c as int - '0' as int
  }

  lemma DigitIsRead(d: nat)
    requires d < 10
    ensures IsDigit(Digit(d)) && DigitValue(Digit(d)) == d
  {
  }

  function Decimal(n: nat): (text: string)
    ensures text != ""
  {
    (if n < 10 then "" else Decimal(n / 10)) + [Digit(n % 10)]
  }

  predicate AllDigits(text: string) {
    forall i | 0 <= i < |text| :: IsDigit(text[i])
  }

  /** The number that some digits stand for. */
  function ReadDigits(text: string): nat
    requires AllDigits(text)
  {
    if text == "" then 0 else 10 * ReadDigits(text[..|text| - 1]) + DigitValue(text[|text| - 1])
  }

  /** A number is read back from its digits. */
  lemma {:induction false} DecimalIsRead(n: nat)
    ensures AllDigits(Decimal(n)) && ReadDigits(Decimal(n)) == n
  {
    var text, start := Decimal(n), if n < 10 then "" else Decimal(n / 10);
    DigitIsRead(n % 10);
    if n >= 10 {
      DecimalIsRead(n / 10);
    }
    LastDigit(start, n % 10);
  }

  lemma LastDigit(start: string, d: nat)
    requires AllDigits(start) && d < 10
    ensures AllDigits(start + [Digit(d)]) && ReadDigits(start + [Digit(d)]) == 10 * ReadDigits(start) + d
  {
    DigitIsRead(d);
    var text := start + [Digit(d)];
    assert text[..|text| - 1] == start;
  }

  lemma DecimalDiffers(m: nat, n: nat)
    requires m != n
    ensures Decimal(m) != Decimal(n)
  {
    DecimalIsRead(m);
    DecimalIsRead(n);
  }
}
