// Decimal numerals, of any kind of character.
module Numerals {
  type Numeral = d: nat | d < 10

  function DigitChar(d: Numeral): char {
    "0123456789"[d]
  }

  /** What %d prints of a number that is not negative. */
  function Decimal<T>(n: nat, digit: Numeral -> T): (s: seq<T>)
    ensures s != []
  {
    if n < 10 then [digit(n)] else Decimal(n / 10, digit) + [digit(n % 10)]
  }
}
