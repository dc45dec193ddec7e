// Pieces of the C library and of the shell that work on strings of any kind of character.
module CType {
  /** isspace in the C locale. */
  predicate IsSpace(c: int) {
    c == 32 || 9 <= c <= 13
  }

  /** Tab, LF, VT, FF, CR and space. */
  predicate IsWhite(c: int) {
    c in {9, 10, 11, 12, 13, 32}
  }

  lemma WhiteIsSpace(c: int)
    ensures IsSpace(c) <==> IsWhite(c)
  {
  }

  /** The length of a string, cut to 30 bits. */
  function StrLen30<T>(z: seq<T>): nat {
    |z| % 0x4000_0000
  }

  /** tolower in the C locale, and sqlite3UpperToLower[]. */
  function Lower(c: char): char {
    if 'A' <= c <= 'Z' then c - 'A' + 'a' else c
  }

  // ----- the letters and digits

  function Capitals(): string {
    "ABCDEFGHIJKLMNOPQRSTUVWXYZ"
  }

  function SmallLetters(): string {
    "abcdefghijklmnopqrstuvwxyz"
  }

  function DecimalDigits(): string {
    "0123456789"
  }

  lemma CapitalsAre(c: char)
    ensures c in Capitals() <==> 'A' <= c <= 'Z'
  {
    if 'A' <= c <= 'Z' {
      assert Capitals()[(c - 'A') as nat] == c;
    }
  }

  lemma SmallLettersAre(c: char)
    ensures c in SmallLetters() <==> 'a' <= c <= 'z'
  {
    if 'a' <= c <= 'z' {
      assert SmallLetters()[(c - 'a') as nat] == c;
    }
  }

  lemma DecimalDigitsAre(c: char)
    ensures c in DecimalDigits() <==> '0' <= c <= '9'
  {
    if '0' <= c <= '9' {
      assert DecimalDigits()[(c - '0') as nat] == c;
    }
  }

  /** Lower takes each capital letter to its small letter and leaves every other character. */
  lemma LowerLetters(k: nat, c: char)
    requires k < 26
    ensures Lower(Capitals()[k]) == SmallLetters()[k] && (c !in Capitals() ==> Lower(c) == c)
  {
    CapitalsAre(c);
  }
}
