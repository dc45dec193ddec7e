// The byte stream of sha3_query in the letters of its documentation.
module QueryFormat {
  import opened LaneBits
  import opened Numerals
  import opened QueryStream
  import opened Sequences
  import opened Sha3Spec

  /** The bytes of a text in ASCII. */
  function Ascii(s: string): Bytes {
    if s == "" then [] else [(s[0] as int % 256) as bv8] + Ascii(s[1..])
  }

  /** A size as an ASCII text integer. */
  function Size(n: nat): string {
    Decimal(n, DigitChar)
  }

  lemma {:induction false} AsciiConcat(s: string, t: string)
    ensures Ascii(s + t) == Ascii(s) + Ascii(t)
  {
    if s == "" {
      assert s + t == t;
    } else {
      assert (s + t)[1..] == s[1..] + t;
      AsciiConcat(s[1..], t);
    }
  }

  lemma OneAscii(c: char, b: bv8)
    requires b as int == c as int
    ensures Ascii([c]) == [b]
  {
    assert [c][1..] == "";
    SameByte(b);
  }

  lemma SameByte(b: bv8)
    ensures b as int < 256 && b as int as bv8 == b
  {
  }

  lemma DigitAscii(d: Numeral)
    ensures Ascii([DigitChar(d)]) == [Digit(d)]
  {
    hide Ascii;
    assert Digit(d) as int == DigitChar(d) as int by { SameDigit(d); }
    OneAscii(DigitChar(d), Digit(d));
  }

  lemma SameDigit(d: Numeral)
    ensures Digit(d) as int == DigitChar(d) as int
  {
  }

  lemma {:induction false} SizeAscii(n: nat)
    ensures Ascii(Size(n)) == Decimal(n, Digit)
  {
    hide Ascii, DigitChar, Digit;
    if n < 10 {
      DigitAscii(n);
    } else {
      SizeAscii(n / 10);
      AsciiConcat(Size(n / 10), [DigitChar(n % 10)]);
      DigitAscii(n % 10);
    }
  }

  lemma HeaderAscii(c: char, tag: bv8, n: nat)
    requires [tag] == Ascii([c])
    ensures Header(tag, n) == Ascii([c] + Size(n) + ":")
  {
    hide Ascii, Decimal;
    AsciiConcat([c] + Size(n), ":");
    AsciiConcat([c], Size(n));
    SizeAscii(n);
    Letters();
  }

  lemma Letters()
    ensures Ascii(":") == [COLON] && Ascii("S") == [TAG_S] && Ascii("R") == [TAG_R] && Ascii("N") == [TAG_N]
    ensures Ascii("I") == [TAG_I] && Ascii("F") == [TAG_F] && Ascii("T") == [TAG_T] && Ascii("B") == [TAG_B]
  {
    hide Ascii;
    OneAscii(':', COLON);
    OneAscii('S', TAG_S);
    OneAscii('R', TAG_R);
    OneAscii('N', TAG_N);
    OneAscii('I', TAG_I);
    OneAscii('F', TAG_F);
    OneAscii('T', TAG_T);
    OneAscii('B', TAG_B);
  }

  /** The columns: N, I and F with eight bytes, T and B with a size. */
  lemma ColumnFormat(v: Value)
    ensures EncodeValue(v) ==
      match v
      case Null => Ascii("N")
      case Integer(w) => Ascii("I") + BigEndianWord(w)
      case Float(w) => Ascii("F") + BigEndianWord(w)
      case Text(b) => Ascii("T" + Size(|b|) + ":") + b
      case Blob(b) => Ascii("B" + Size(|b|) + ":") + b
  {
    hide Ascii, Header, Decimal, BigEndianWord;
    Letters();
    if v.Text? {
      HeaderAscii('T', TAG_T, |v.bytes|);
    } else if v.Blob? {
      HeaderAscii('B', TAG_B, |v.bytes|);
    }
  }

  /** A statement: S with the size of the text, the text, and for each row R and its columns. */
  lemma StatementFormat(s: Statement, row: seq<Value>, v: Value)
    ensures EncodeStatement(Statement(s.sql, [])) == Ascii("S" + Size(|s.sql|) + ":") + s.sql
    ensures EncodeStatement(Statement(s.sql, s.rows + [[]])) == EncodeStatement(s) + Ascii("R")
    ensures EncodeStatement(Statement(s.sql, s.rows + [row + [v]]))
         == EncodeStatement(Statement(s.sql, s.rows + [row])) + EncodeValue(v)
  {
    hide Ascii, Header, Decimal, EncodeValue;
    Letters();
    HeaderAscii('S', TAG_S, |s.sql|);
    assert Header(TAG_S, |s.sql|) + s.sql + [] == Header(TAG_S, |s.sql|) + s.sql;
    LastRow(s.rows, []);
    LastRow(s.rows, row);
    LastRow(s.rows, row + [v]);
    assert (row + [v])[..|row|] == row;
  }

  lemma LastRow(rows: seq<seq<Value>>, row: seq<Value>)
    ensures EncodeRows(rows + [row]) == EncodeRows(rows) + [TAG_R] + EncodeValues(row)
  {
    hide EncodeValues;
    assert (rows + [row])[..|rows|] == rows;
  }

  /** The eight bytes of a word, the most significant first, are bits 8 * (7 - k) to 8 * (7 - k) + 7. */
  lemma WordBytes(w: bv64, k: nat)
    requires k < 8
    ensures BigEndianWord(w)[k] as bv64 == (w >> (56 - 8 * (k as bv7))) & 0xff
  {
    match k
    case 0 => case 1 => case 2 => case 3 => case 4 => case 5 => case 6 => case 7 =>
  }
}
