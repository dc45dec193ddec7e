// The CSV writer of MODE_Csv and the CSV field reader of .import.
module Csv {
  import opened ByteStrings
  import opened CStdio
  import opened Options
  import opened Quoting
  import opened Sequences

  const QUOTE: byte := 34
  const EOF: int := -1

  // ----- writing

  /** The table needCsvQuote. */
  predicate NeedCsvQuote(b: byte) {
    b <= 32 || b == 34 || b == 39 || b >= 127
  }

  /** Row r of the source's table needCsvQuote, a digit for each of 16 bytes. */
  function NeedCsvQuoteRow(r: nat): (s: string)
    requires r < 16
    ensures |s| == 16
  {
    match r
    case 0 => "1111111111111111" case 1 => "1111111111111111"
    case 2 => "1010000100000000" case 3 => "0000000000000000"
    case 4 => "0000000000000000" case 5 => "0000000000000000"
    case 6 => "0000000000000000" case 7 => "0000000000000001"
    case 8 => "1111111111111111" case 9 => "1111111111111111"
    case 10 => "1111111111111111" case 11 => "1111111111111111"
    case 12 => "1111111111111111" case 13 => "1111111111111111"
    case 14 => "1111111111111111" case 15 => "1111111111111111"
  }

  lemma NeedCsvQuoteTable(r: nat, k: nat)
    requires r < 16 && k < 16
    ensures NeedCsvQuote(16 * r + k) <==> NeedCsvQuoteRow(r)[k] == '1'
  {
  }

  predicate Special(b: byte, sep: byte) {
    NeedCsvQuote(b) || b == sep
  }

  predicate MustQuote(z: bytes, sep: byte) {
    z == [] || exists i :: 0 <= i < |z| && Special(z[i], sep)
  }

  function CsvField(z: bytes, sep: byte): bytes {
    if MustQuote(z, sep) then [QUOTE] + Doubled(z, QUOTE) + [QUOTE] else z
  }

  /** The first loop of output_csv: 0 when the field must be quoted. */
  method Scan(z: bytes, sep: byte) returns (i: nat)
    ensures i == 0 <==> MustQuote(z, sep)
  {
    i := 0;
    while i < |z|
      invariant 0 <= i <= |z|
      invariant forall k | 0 <= k < i :: !Special(z[k], sep)
    {
      if Special(z[i], sep) {
        return 0;
      }
      i := i + 1;
    }
  }

  /** The second loop of output_csv. */
  method WriteDoubled(out: OutFile, z: bytes)
    modifies out
    ensures out.text == old(out.text) + Doubled(z, QUOTE)
  {
    for i := 0 to |z|
      invariant out.text == old(out.text) + Doubled(z[..i], QUOTE)
    {
      DoubledSnoc(z[..i], z[i], QUOTE);
      assert z[..i + 1] == z[..i] + [z[i]];
      hide Doubled;
      if z[i] == QUOTE {
        out.PutChar(QUOTE);
      }
      out.PutChar(z[i]);
    }
    assert z[..|z|] == z;
  }

  /** output_csv with a separator of one byte. */
  method WriteQuoted(out: OutFile, z: bytes)
    modifies out
    ensures out.text == old(out.text) + ([QUOTE] + Doubled(z, QUOTE) + [QUOTE])
  {
    hide Doubled;
    Associative(out.text, [QUOTE], Doubled(z, QUOTE));
    Associative(out.text, [QUOTE] + Doubled(z, QUOTE), [QUOTE]);
    out.PutChar(QUOTE);
    WriteDoubled(out, z);
    out.PutChar(QUOTE);
  }

  method OutputCsv(out: OutFile, z: Option<bytes>, nullValue: bytes, sep: byte, bSep: bool)
    modifies out
    ensures
      var field := if z == None then nullValue else CsvField(z.value, sep);
      out.text == old(out.text) + field + (if bSep then [sep] else [])
  {
    hide MustQuote, Doubled;
    if z == None {
      out.PutText(nullValue);
    } else {
      var i := Scan(z.value, sep);
      if i == 0 {
        WriteQuoted(out, z.value);
      } else {
        out.PutText(z.value);
      }
    }
    if bSep {
      out.PutText([sep]);
    }
  }

  /** The fields joined by separators. */
  function CsvFields(fields: seq<bytes>, sep: byte): bytes {
    if fields == [] then []
    else CsvField(fields[0], sep) + (if |fields| > 1 then [sep] else []) + CsvFields(fields[1..], sep)
  }

  function CsvRow(fields: seq<bytes>, sep: byte, rowSeparator: bytes): bytes {
    CsvFields(fields, sep) + rowSeparator
  }

  lemma {:induction false} FieldsStep(fields: seq<bytes>, sep: byte, i: nat)
    requires i < |fields|
    ensures CsvFields(fields[i..], sep)
         == CsvField(fields[i], sep) + (if i < |fields| - 1 then [sep] else []) + CsvFields(fields[i + 1..], sep)
  {
    assert fields[i..][1..] == fields[i + 1..];
  }

  lemma Join3(a: bytes, b: bytes, c: bytes, d: bytes)
    ensures a + b + c + d == a + (b + c + d)
  {
  }

  /** The data row of MODE_Csv. */
  method WriteRow(out: OutFile, azArg: seq<bytes>, sep: byte, rowSeparator: bytes)
    requires |azArg| > 0
    modifies out
    ensures out.text == old(out.text) + CsvRow(azArg, sep, rowSeparator)
  {
    assert azArg[0..] == azArg;
    ghost var before := out.text;
    for i := 0 to |azArg|
      invariant out.text + CsvFields(azArg[i..], sep) == before + CsvFields(azArg, sep)
    {
      ghost var text, rest := out.text, CsvFields(azArg[i + 1..], sep);
      FieldsStep(azArg, sep, i);
      hide CsvFields, CsvField;
      OutputCsv(out, Some(azArg[i]), [], sep, i < |azArg| - 1);
      Join3(text, CsvField(azArg[i], sep), if i < |azArg| - 1 then [sep] else [], rest);
    }
    assert CsvFields(azArg[|azArg|..], sep) == [];
    hide CsvFields;
    assert out.text == before + CsvFields(azArg, sep);
    out.PutText(rowSeparator);
    assert out.text == before + (CsvFields(azArg, sep) + rowSeparator);
  }

  // ----- reading

  /** A field that was read, the character that ended it, the input left, and the row ends counted. */
  datatype FieldRead = FieldRead(field: bytes, term: int, rest: bytes, lines: nat)

  function BeforeLastQuote(z: bytes): bytes {
    if z == [] then [] else if z[|z| - 1] == QUOTE then z[..|z| - 1] else BeforeLastQuote(z[..|z| - 1])
  }

  predicate Closes(c: int, pc: int, ppc: int, sep: byte, rowSep: byte) {
    || (c == sep && pc == QUOTE)
    || (c == rowSep && pc == QUOTE)
    || (c == rowSep && pc == CR && ppc == QUOTE)
    || (c == EOF && pc == QUOTE)
  }

  /** A quoted field from inside, with the last two characters and the text so far. */
  function ReadQuoted(input: bytes, pc: int, ppc: int, z: bytes, lines: nat, sep: byte, rowSep: byte): FieldRead
    decreases |input|
  {
    var c: int := if input == [] then EOF else input[0];
    var rest := if input == [] then [] else input[1..];
    var n := lines + (if c == rowSep then 1 else 0);
    if c == QUOTE && pc == QUOTE then ReadQuoted(rest, 0, ppc, z, n, sep, rowSep)
    else if Closes(c, pc, ppc, sep, rowSep) then FieldRead(BeforeLastQuote(z), c, rest, n)
    else if c == EOF then FieldRead(z, EOF, [], n)
    else ReadQuoted(rest, c, pc, z + [input[0]], n, sep, rowSep)
  }

  function ReadPlain(input: bytes, z: bytes, sep: byte, rowSep: byte): FieldRead
    decreases |input|
  {
    if input != [] && input[0] != sep && input[0] != rowSep then ReadPlain(input[1..], z + [input[0]], sep, rowSep)
    else
      var atRowEnd := input != [] && input[0] == rowSep;
      FieldRead(if atRowEnd && z != [] && z[|z| - 1] == CR then z[..|z| - 1] else z,
                if input == [] then EOF else input[0],
                if input == [] then [] else input[1..],
                if atRowEnd then 1 else 0)
  }

  lemma ReadPlainStep(c: byte, rest: bytes, z: bytes, sep: byte, rowSep: byte)
    requires c != sep && c != rowSep
    ensures ReadPlain([c] + rest, z, sep, rowSep) == ReadPlain(rest, z + [c], sep, rowSep)
  {
    assert ([c] + rest)[1..] == rest;
  }

  lemma ReadPlainEnds(input: bytes, z: bytes, sep: byte, rowSep: byte)
    requires input == [] || input[0] == sep || input[0] == rowSep
    ensures
      var atRowEnd := input != [] && input[0] == rowSep;
      ReadPlain(input, z, sep, rowSep) ==
        FieldRead(if atRowEnd && z != [] && z[|z| - 1] == CR then z[..|z| - 1] else z,
          if input == [] then EOF else input[0], if input == [] then [] else input[1..], if atRowEnd then 1 else 0)
  {
  }

  /** csv_read_one_field on the unread input; None at the end of the file. */
  function ReadField(input: bytes, sep: byte, rowSep: byte): Option<FieldRead> {
    if input == [] then None
    else if input[0] == QUOTE then Some(ReadQuoted(input[1..], 0, 0, [], 0, sep, rowSep))
    else Some(ReadPlain(input, [], sep, rowSep))
  }

  lemma ReadQuotedStep(input: bytes, pc: int, ppc: int, z: bytes, lines: nat, sep: byte, rowSep: byte)
    ensures
      var c: int := if input == [] then EOF else input[0];
      var rest := if input == [] then [] else input[1..];
      var n := lines + (if c == rowSep then 1 else 0);
      ReadQuoted(input, pc, ppc, z, lines, sep, rowSep) ==
        if c == QUOTE && pc == QUOTE then ReadQuoted(rest, 0, ppc, z, n, sep, rowSep)
        else if Closes(c, pc, ppc, sep, rowSep) then FieldRead(BeforeLastQuote(z), c, rest, n)
        else if c == EOF then FieldRead(z, EOF, [], n)
        else ReadQuoted(rest, c, pc, z + [input[0]], n, sep, rowSep)
  {
    hide Closes, BeforeLastQuote;
  }

  lemma StepBack(s: bytes, n: nat)
    requires n < |s| && QUOTE in s[..n + 1]
    ensures if s[n] == QUOTE then BeforeLastQuote(s[..n + 1]) == s[..n]
      else QUOTE in s[..n] && BeforeLastQuote(s[..n + 1]) == BeforeLastQuote(s[..n])
  {
    assert s[..n + 1] == s[..n] + [s[n]];
    assert s[..n + 1][..n] == s[..n];
  }

  class ImportCtx {
    var input: bytes         // what fgetc(p->in) has still to return
    var z: array<byte>       // accumulated text; its length is nAlloc
    var n: nat
    var nLine: nat
    var cTerm: int
    const cColSep: byte
    const cRowSep: byte

    predicate Valid()
      reads this, z
    {
      n < z.Length
    }

    function Text(): bytes
      requires Valid()
      reads this, z
    {
      z[..n]
    }

    /** An import context as .import prepares it: the buffer is allocated. */
    constructor (text: bytes, colSep: byte, rowSep: byte)
      ensures Valid() && fresh(z) && input == text && nLine == 1 && cColSep == colSep && cRowSep == rowSep
    {
      input := text;
      z := new byte[100](_ => 0);
      n, nLine, cTerm := 0, 1, 0;
      cColSep, cRowSep := colSep, rowSep;
    }

    method GetChar() returns (c: int)
      modifies this`input
      ensures if old(input) == [] then c == EOF && input == [] else c == old(input)[0] && input == old(input)[1..]
    {
      if input == [] {
        return EOF;
      }
      c := input[0];
      input := input[1..];
    }

    method AppendChar(c: byte)
      requires Valid()
      modifies this`z, this`n, z
      ensures Valid() && Text() == old(Text()) + [c] && (z == old(z) || fresh(z))
    {
      if n + 1 >= z.Length {
        var bigger := new byte[2 * z.Length + 100](i => 0);
        for i := 0 to n
          invariant n == old(n) && z == old(z) && z[..] == old(z[..])
          invariant bigger[..i] == z[..i]
        {
          bigger[i] := z[i];
        }
        z := bigger;
      }
      z[n] := c;
      n := n + 1;
    }

    method ReadOneField() returns (got: bool)
      requires Valid()
      modifies this, z
      ensures Valid() && (z == old(z) || fresh(z))
      ensures got <==> old(input) != []
      ensures !got ==> cTerm == EOF && input == [] && nLine == old(nLine)
      ensures got ==>
        var r := ReadField(old(input), cColSep, cRowSep).value;
        Text() == r.field && cTerm == r.term && input == r.rest && nLine == old(nLine) + r.lines
    {
      n := 0;
      var c := GetChar();
      if c == EOF {
        cTerm := EOF;
        return false;
      }
      if c == QUOTE {
        ReadQuotedField();
      } else {
        ReadPlainField(c);
      }
      z[n] := 0;
      return true;
    }

    method ReadQuotedField()
      requires Valid() && n == 0
      modifies this, z
      ensures Valid() && (z == old(z) || fresh(z))
      ensures
        var r := ReadQuoted(old(input), 0, 0, [], 0, cColSep, cRowSep);
        Text() == r.field && cTerm == r.term && input == r.rest && nLine == old(nLine) + r.lines
    {
      hide ReadQuoted;
      var pc: int, ppc: int := 0, 0;
      while true
        invariant Valid() && (z == old(z) || fresh(z))
        invariant nLine >= old(nLine)
        invariant pc == QUOTE ==> n > 0 && z[n - 1] == QUOTE
        invariant pc == CR && ppc == QUOTE ==> n > 1 && z[n - 1] == CR && z[n - 2] == QUOTE
        invariant ReadQuoted(old(input), 0, 0, [], 0, cColSep, cRowSep)
          == ReadQuoted(input, pc, ppc, Text(), nLine - old(nLine), cColSep, cRowSep)
        decreases |input|
      {
        ReadQuotedStep(input, pc, ppc, Text(), nLine - old(nLine), cColSep, cRowSep);
        var c := GetChar();
        if c == cRowSep {
          nLine := nLine + 1;
        }
        if c == QUOTE && pc == QUOTE {
          pc := 0;
          continue;
        }
        if (c == cColSep && pc == QUOTE) || (c == cRowSep && pc == QUOTE)
          || (c == cRowSep && pc == CR && ppc == QUOTE) || (c == EOF && pc == QUOTE)
        {
          DropClosingQuote();
          cTerm := c;
          break;
        }
        if c == EOF {
          cTerm := c;
          break;
        }
        AppendChar(c);
        ppc := pc;
        pc := c;
      }
    }

    /** do{ p->n--; }while( p->z[p->n]!=cQuote ) */
    method DropClosingQuote()
      requires Valid() && QUOTE in Text()
      modifies this`n
      ensures Valid() && Text() == BeforeLastQuote(old(Text()))
    {
      hide BeforeLastQuote;
      ghost var s := z[..];
      assert z[..n] == s[..n];
      n := n - 1;
      while z[n] != QUOTE
        invariant n < old(n) && z[..] == s && QUOTE in s[..n + 1]
        invariant BeforeLastQuote(s[..n + 1]) == BeforeLastQuote(old(Text()))
        decreases n
      {
        assert z[n] == s[n];
        StepBack(s, n);
        n := n - 1;
      }
      assert z[n] == s[n];
      StepBack(s, n);
      assert z[..n] == s[..n];
    }

    method ReadPlainField(first: byte)
      requires Valid() && n == 0
      modifies this, z
      ensures Valid() && (z == old(z) || fresh(z))
      ensures
        var r := ReadPlain([first] + old(input), [], cColSep, cRowSep);
        Text() == r.field && cTerm == r.term && input == r.rest && nLine == old(nLine) + r.lines
    {
      hide ReadPlain;
      var c: int := first;
      ghost var whole := [first] + input;
      while c != EOF && c != cColSep && c != cRowSep
        invariant Valid() && (z == old(z) || fresh(z)) && nLine == old(nLine)
        invariant c == EOF || 0 <= c < 256
        invariant ReadPlain(whole, [], cColSep, cRowSep)
          == ReadPlain(if c == EOF then [] else [c as byte] + input, Text(), cColSep, cRowSep)
        invariant c == EOF ==> input == []
        decreases |input|, c
      {
        ReadPlainStep(c as byte, input, Text(), cColSep, cRowSep);
        AppendChar(c);
        ghost var rest := input;
        c := GetChar();
        assert (if c == EOF then [] else [c as byte] + input) == rest;
      }
      ReadPlainEnds(if c == EOF then [] else [c as byte] + input, Text(), cColSep, cRowSep);
      if c == cRowSep {
        nLine := nLine + 1;
        if n > 0 && z[n - 1] == CR {
          n := n - 1;
        }
      }
      cTerm := c;
    }
  }

  // ----- reading back what was written

  function CountLF(z: bytes): nat {
    if z == [] then 0 else CountLF(z[1..]) + (if z[0] == LF then 1 else 0)
  }

  lemma {:induction false} CountOfSum(a: bytes, b: bytes)
    ensures CountLF(a + b) == CountLF(a) + CountLF(b)
  {
    if a == [] {
      assert a + b == b;
    } else {
      assert (a + b)[1..] == a[1..] + b;
      CountOfSum(a[1..], b);
    }
  }

  lemma CountCRLF()
    ensures CountLF([LF]) == 1 && CountLF([CR, LF]) == 1
  {
    assert [LF][1..] == [] && [CR, LF][1..] == [LF];
  }

  /** A separator the reader can tell from the text of a field. */
  predicate PlainSeparator(sep: byte) {
    sep != QUOTE && sep != CR && sep != LF
  }

  /** What can follow a field: the separator, the end of a row, or the end of the file. */
  predicate Ends(t: bytes, rest: bytes, sep: byte) {
    t == [sep] || t == [LF] || t == [CR, LF] || (t == [] && rest == [])
  }

  /** The character that ends a field. */
  function Last(t: bytes): int {
    if t == [] then EOF else t[|t| - 1]
  }

  /** c does not complete a quote, CR and LF. */
  predicate NoRowEnd(c: byte, pc: int, ppc: int) {
    !(c == LF && pc == CR && ppc == QUOTE)
  }

  /** After the text of a quoted field, the closing quote and a terminator end it. */
  lemma ClosingQuote(t: bytes, rest: bytes, pc: int, ppc: int, z: bytes,
      lines: nat, sep: byte)
    requires PlainSeparator(sep) && Ends(t, rest, sep) && pc != QUOTE
    ensures ReadQuoted([QUOTE] + t + rest, pc, ppc, z, lines, sep, LF)
         == FieldRead(z, Last(t), rest, lines + CountLF(t))
  {
    var input := [QUOTE] + t + rest;
    var q := z + [QUOTE];
    assert input[1..] == t + rest;
    assert ReadQuoted(input, pc, ppc, z, lines, sep, LF) == ReadQuoted(t + rest, QUOTE, pc, q, lines, sep, LF);
    assert BeforeLastQuote(q) == z;
    if t == [] {
      assert t + rest == [];
    } else if |t| == 1 {
      assert (t + rest)[1..] == rest;
      assert CountLF(t) == if t[0] == LF then 1 else 0;
    } else {
      assert (t + rest)[1..] == [LF] + rest && ([LF] + rest)[1..] == rest;
      var qc := q + [CR];
      assert qc[..|qc| - 1] == q;
      assert BeforeLastQuote(qc) == z;
      CountCRLF();
    }
  }

  /** A doubled quote inside a field stands for one. */
  lemma DoubledQuote(more: bytes, pc: int, ppc: int, z: bytes, lines: nat, sep: byte)
    requires PlainSeparator(sep) && pc != QUOTE
    ensures ReadQuoted([QUOTE, QUOTE] + more, pc, ppc, z, lines, sep, LF)
         == ReadQuoted(more, 0, pc, z + [QUOTE], lines, sep, LF)
  {
    var input := [QUOTE, QUOTE] + more;
    assert input[1..] == [QUOTE] + more && ([QUOTE] + more)[1..] == more;
  }

  lemma OtherCharacter(c: byte, more: bytes, pc: int, ppc: int, z: bytes, lines: nat, sep: byte)
    requires PlainSeparator(sep) && pc != QUOTE && c != QUOTE && NoRowEnd(c, pc, ppc)
    ensures ReadQuoted([c] + more, pc, ppc, z, lines, sep, LF)
         == ReadQuoted(more, c, pc, z + [c], lines + (if c == LF then 1 else 0), sep, LF)
  {
    assert ([c] + more)[1..] == more;
  }

  lemma DoubledFirst(f: bytes, tail: bytes)
    ensures f == [] ==> Doubled(f, QUOTE) + tail == tail
    ensures f != [] ==>
      Doubled(f, QUOTE) + tail == (if f[0] == QUOTE then [QUOTE, QUOTE] else [f[0]]) + (Doubled(f[1..], QUOTE) + tail)
  {
    if f == [] {
      assert [] + tail == tail;
    } else {
      Associative(if f[0] == QUOTE then [QUOTE, QUOTE] else [f[0]], Doubled(f[1..], QUOTE), tail);
    }
  }

  /** The doubled text of a field is read back, whatever follows; the reader is then not at a quote. */
  lemma {:induction false} TextFirst(f: bytes, tail: bytes, pc: int, ppc: int, z: bytes, lines: nat, sep: byte)
      returns (pc': int, ppc': int)
    requires PlainSeparator(sep) && pc != QUOTE && (f != [] ==> NoRowEnd(f[0], pc, ppc))
    ensures pc' != QUOTE
    ensures ReadQuoted(Doubled(f, QUOTE) + tail, pc, ppc, z, lines, sep, LF)
         == ReadQuoted(tail, pc', ppc', z + f, lines + CountLF(f), sep, LF)
    decreases |f|
  {
    hide ReadQuoted, Doubled;
    DoubledFirst(f, tail);
    if f == [] {
      assert z + f == z;
      return pc, ppc;
    }
    var c, more := f[0], Doubled(f[1..], QUOTE) + tail;
    assert z + [c] + f[1..] == z + f;
    if c == QUOTE {
      DoubledQuote(more, pc, ppc, z, lines, sep);
      pc', ppc' := TextFirst(f[1..], tail, 0, pc, z + [c], lines, sep);
    } else {
      OtherCharacter(c, more, pc, ppc, z, lines, sep);
      pc', ppc' := TextFirst(f[1..], tail, c, pc, z + [c], lines + (if c == LF then 1 else 0), sep);
    }
  }

  lemma QuotedText(f: bytes, t: bytes, rest: bytes, pc: int, ppc: int, z: bytes, lines: nat, sep: byte)
    requires PlainSeparator(sep) && Ends(t, rest, sep) && pc != QUOTE
    requires f != [] ==> NoRowEnd(f[0], pc, ppc)
    ensures ReadQuoted(Doubled(f, QUOTE) + ([QUOTE] + t + rest), pc, ppc, z, lines, sep, LF)
         == FieldRead(z + f, Last(t), rest, lines + CountLF(f) + CountLF(t))
  {
    hide ReadQuoted, Doubled, Ends, Last;
    var pc', ppc' := TextFirst(f, [QUOTE] + t + rest, pc, ppc, z, lines, sep);
    ClosingQuote(t, rest, pc', ppc', z + f, lines + CountLF(f), sep);
  }

  predicate EndsInCR(z: bytes) {
    z != [] && z[|z| - 1] == CR
  }

  /** What ends a field that is not quoted. */
  lemma PlainEnd(t: bytes, rest: bytes, z: bytes, sep: byte)
    requires PlainSeparator(sep) && Ends(t, rest, sep) && (EndsInCR(z) ==> t != [LF])
    ensures ReadPlain(t + rest, z, sep, LF) == FieldRead(z, Last(t), rest, CountLF(t))
  {
    if t == [] {
      assert t + rest == [];
    } else if |t| == 1 {
      assert (t + rest)[1..] == rest;
      assert CountLF(t) == if t[0] == LF then 1 else 0;
    } else {
      assert (t + rest)[1..] == [LF] + rest && ([LF] + rest)[1..] == rest;
      var zc := z + [CR];
      assert zc[..|zc| - 1] == z;
      assert ReadPlain(t + rest, z, sep, LF) == ReadPlain([LF] + rest, zc, sep, LF);
      CountCRLF();
    }
  }

  lemma {:induction false} PlainText(f: bytes, t: bytes, rest: bytes, z: bytes, sep: byte)
    requires PlainSeparator(sep) && Ends(t, rest, sep) && (EndsInCR(z + f) ==> t != [LF])
    requires sep !in f && LF !in f
    ensures ReadPlain(f + t + rest, z, sep, LF) == FieldRead(z + f, Last(t), rest, CountLF(t))
    ensures CountLF(f) == 0
    decreases |f|
  {
    hide Ends, Last, EndsInCR;
    var input := f + t + rest;
    if f == [] {
      assert input == t + rest && z + f == z;
      PlainEnd(t, rest, z, sep);
    } else {
      assert f[0] in f;
      assert input[1..] == f[1..] + t + rest && z + [f[0]] + f[1..] == z + f;
      PlainText(f[1..], t, rest, z + [f[0]], sep);
    }
  }

  /** A field that does not start with a quote reaches to its end unchanged; a CR in front of LF is part of the end. */
  lemma AnyPlainField(f: bytes, t: bytes, rest: bytes, sep: byte)
    requires PlainSeparator(sep) && Ends(t, rest, sep) && (EndsInCR(f) ==> t != [LF])
    requires f + t != [] && (f != [] ==> f[0] != QUOTE) && sep !in f && LF !in f
    ensures ReadField(f + t + rest, sep, LF) == Some(FieldRead(f, Last(t), rest, CountLF(t)))
  {
    hide ReadPlain, CountLF;
    PlainText(f, t, rest, [], sep);
    assert [] + f == f;
    assert (f + t + rest)[0] == (f + t)[0];
  }

  lemma QuotedField(f: bytes, t: bytes, rest: bytes, sep: byte)
    requires PlainSeparator(sep) && Ends(t, rest, sep)
    ensures ReadField([QUOTE] + Doubled(f, QUOTE) + [QUOTE] + t + rest, sep, LF)
         == Some(FieldRead(f, Last(t), rest, CountLF(f) + CountLF(t)))
  {
    hide ReadField, ReadQuoted, Doubled, CountLF, PlainSeparator, Ends;
    var body := Doubled(f, QUOTE) + ([QUOTE] + t + rest);
    Regroup([QUOTE] + Doubled(f, QUOTE), [QUOTE], t, rest);
    Regroup([QUOTE], Doubled(f, QUOTE), [QUOTE] + t + rest, []);
    assert [QUOTE] + Doubled(f, QUOTE) + [QUOTE] + t + rest == [QUOTE] + body;
    ReadFieldQuoted(body, sep);
    QuotedText(f, t, rest, 0, 0, [], 0, sep);
    assert [] + f == f;
  }

  lemma ReadFieldQuoted(body: bytes, sep: byte)
    ensures ReadField([QUOTE] + body, sep, LF) == Some(ReadQuoted(body, 0, 0, [], 0, sep, LF))
  {
    hide ReadQuoted;
    PrefixAndRest([QUOTE], body);
  }

  lemma SeparatorEnds(rest: bytes, sep: byte)
    ensures Ends([sep], rest, sep) && Last([sep]) == sep
  {
  }

  lemma PlainField(f: bytes, t: bytes, rest: bytes, sep: byte)
    requires PlainSeparator(sep) && Ends(t, rest, sep) && !MustQuote(f, sep)
    ensures ReadField(f + t + rest, sep, LF) == Some(FieldRead(f, Last(t), rest, CountLF(f) + CountLF(t)))
  {
    hide ReadField, Ends, Last;
    assert forall b | b in f :: !Special(b, sep);
    AnyPlainField(f, t, rest, sep);
    SeparatorEnds([], sep);
    PlainText(f, [sep], [], [], sep);
  }

  /** One field: written, terminated, and read back with its terminator and its line ends. */
  lemma FieldRoundTrip(f: bytes, t: bytes, rest: bytes, sep: byte)
    requires PlainSeparator(sep) && Ends(t, rest, sep)
    ensures ReadField(CsvField(f, sep) + t + rest, sep, LF)
         == Some(FieldRead(f, Last(t), rest, CountLF(CsvField(f, sep) + t)))
  {
    hide ReadField, Doubled, CountLF, MustQuote;
    CountOfSum(CsvField(f, sep), t);
    if MustQuote(f, sep) {
      QuotedField(f, t, rest, sep);
      DoubledKeepsLines(f);
    } else {
      PlainField(f, t, rest, sep);
    }
  }

  /** The last field of a file that has no row end. */
  lemma LastField(f: bytes, sep: byte)
    requires PlainSeparator(sep)
    ensures ReadField(CsvField(f, sep), sep, LF) == Some(FieldRead(f, -1, [], CountLF(CsvField(f, sep))))
  {
    hide ReadField, CsvField;
    FieldRoundTrip(f, [], [], sep);
    assert CsvField(f, sep) + [] + [] == CsvField(f, sep) && CsvField(f, sep) + [] == CsvField(f, sep);
  }

  /**
   * A single quote inside a quoted field stays in it with the character x after it, unless x is a
   * quote, a separator or LF, or CR with LF after it.
   */
  lemma StrayQuote(f: bytes, x: byte, g: bytes, t: bytes, rest: bytes, sep: byte)
    requires PlainSeparator(sep) && Ends(t, rest, sep)
    requires x != 34 && x != sep && x != 10 && (x == 13 ==> g == [] || g[0] != 10)
    ensures
      var tail := Doubled(g, 34) + ([34] + t + rest);
      ReadQuoted(Doubled(f, 34) + ([34, x] + tail), 0, 0, [], 0, sep, 10)
         == FieldRead(f + [34, x] + g, Last(t), rest, CountLF(f) + CountLF(g) + CountLF(t))
  {
    hide ReadQuoted, Doubled, Ends, Last;
    var tail := Doubled(g, QUOTE) + ([QUOTE] + t + rest);
    var pc, ppc := TextFirst(f, [QUOTE, x] + tail, 0, 0, [], 0, sep);
    assert [] + f == f;
    QuoteAnd(x, tail, pc, ppc, f, CountLF(f), sep);
    QuotedText(g, t, rest, x, QUOTE, f + [QUOTE, x], CountLF(f), sep);
  }

  lemma QuoteAnd(x: byte, more: bytes, pc: int, ppc: int, z: bytes, lines: nat, sep: byte)
    requires PlainSeparator(sep) && pc != QUOTE && x != QUOTE && x != sep && x != LF
    ensures ReadQuoted([QUOTE, x] + more, pc, ppc, z, lines, sep, LF)
         == ReadQuoted(more, x, QUOTE, z + [QUOTE, x], lines, sep, LF)
  {
    assert ([QUOTE, x] + more)[1..] == [x] + more && ([x] + more)[1..] == more;
    assert z + [QUOTE] + [x] == z + [QUOTE, x];
  }

  /** A quoted field without its closing quote reaches to the end of the file, also when it ends in a quote and CR. */
  lemma Unterminated(f: bytes, sep: byte)
    requires PlainSeparator(sep)
    ensures ReadField([34] + Doubled(f, 34), sep, 10) == Some(FieldRead(f, -1, [], CountLF(f)))
    ensures ReadField([34] + (Doubled(f, 34) + [34, 13]), sep, 10) == Some(FieldRead(f + [34, 13], -1, [], CountLF(f)))
  {
    hide ReadField, Doubled;
    ReadFieldQuoted(Doubled(f, QUOTE), sep);
    ReadFieldQuoted(Doubled(f, QUOTE) + [QUOTE, CR], sep);
    assert Doubled(f, QUOTE) + [] == Doubled(f, QUOTE) && [] + f == f && [QUOTE, CR] + [] == [QUOTE, CR];
    var pc, ppc := TextFirst(f, [], 0, 0, [], 0, sep);
    var pc', ppc' := TextFirst(f, [QUOTE, CR], 0, 0, [], 0, sep);
    QuoteAnd(CR, [], pc', ppc', f, CountLF(f), sep);
  }

  lemma {:induction false} DoubledKeepsLines(f: bytes)
    ensures CountLF([QUOTE] + Doubled(f, QUOTE) + [QUOTE]) == CountLF(f)
  {
    CountOfSum([QUOTE] + Doubled(f, QUOTE), [QUOTE]);
    CountOfSum([QUOTE], Doubled(f, QUOTE));
    DoubledLines(f);
  }

  lemma {:induction false} DoubledLines(f: bytes)
    ensures CountLF(Doubled(f, QUOTE)) == CountLF(f)
  {
    if f != [] {
      DoubledLines(f[1..]);
      CountOfSum(if f[0] == QUOTE then [QUOTE, QUOTE] else [f[0]], Doubled(f[1..], QUOTE));
      assert [QUOTE, QUOTE][1..] == [QUOTE];
    }
  }

  /** What n calls of the field reader return: the fields with their terminators, the rest, and the line count. */
  datatype RowRead = RowRead(fields: seq<bytes>, terms: seq<int>, rest: bytes, lines: nat)

  function ReadFields(input: bytes, n: nat, sep: byte): Option<RowRead>
    decreases n
  {
    if n == 0 then Some(RowRead([], [], input, 0))
    else
      var r := ReadField(input, sep, LF);
      if r == None then None
      else
        var more := ReadFields(r.value.rest, n - 1, sep);
        if more == None then None
        else Some(RowRead([r.value.field] + more.value.fields, [r.value.term] + more.value.terms,
                          more.value.rest, r.value.lines + more.value.lines))
  }

  lemma OneMoreField(input: bytes, n: nat, sep: byte, r: FieldRead, m: RowRead)
    requires ReadField(input, sep, LF) == Some(r) && ReadFields(r.rest, n, sep) == Some(m)
    ensures ReadFields(input, n + 1, sep)
         == Some(RowRead([r.field] + m.fields, [r.term] + m.terms, m.rest, r.lines + m.lines))
  {
    hide ReadField;
  }

  lemma NoMoreFields(rest: bytes, sep: byte)
    ensures ReadFields(rest, 0, sep) == Some(RowRead([], [], rest, 0))
  {
  }

  lemma RowOf(fields: seq<bytes>, sep: byte, t: bytes)
    requires fields != []
    ensures CsvRow(fields, sep, t) == CsvField(fields[0], sep) +
      if |fields| == 1 then t else [sep] + CsvRow(fields[1..], sep, t)
  {
    hide CsvField;
    if |fields| == 1 {
      assert CsvFields(fields[1..], sep) == [];
      assert CsvField(fields[0], sep) + [] + [] == CsvField(fields[0], sep);
    } else {
      Join3(CsvField(fields[0], sep), [sep], CsvFields(fields[1..], sep), t);
      Associative([sep], CsvFields(fields[1..], sep), t);
    }
  }

  /** The terminators of a row of n fields that ends with t. */
  function RowTerms(n: nat, sep: byte, t: bytes): seq<int>
    requires n > 0
  {
    if n == 1 then [Last(t)] else [sep] + RowTerms(n - 1, sep, t)
  }

  /**
   * A row written with row end LF or CRLF, or the last one of a file without a row end, read with
   * row separator LF gives back every field and the right terminators, and counts exactly the LF
   * bytes it consumed.
   */
  lemma {:induction false} RowRoundTrip(fields: seq<bytes>, sep: byte, t: bytes, rest: bytes)
    requires PlainSeparator(sep) && fields != [] && Ends(t, rest, sep) && t != [sep]
    ensures
      var row := CsvRow(fields, sep, t);
      ReadFields(row + rest, |fields|, sep) == Some(RowRead(fields, RowTerms(|fields|, sep, t), rest, CountLF(row)))
    decreases |fields|
  {
    hide ReadField, ReadFields, CsvField, CsvRow, CountLF, Ends, Last;
    var f := CsvField(fields[0], sep);
    RowOf(fields, sep, t);
    if |fields| == 1 {
      FieldRoundTrip(fields[0], t, rest, sep);
      NoMoreFields(rest, sep);
      OneMoreField(f + t + rest, 0, sep, FieldRead(fields[0], Last(t), rest, CountLF(f + t)), RowRead([], [], rest, 0));
      assert [Last(t)] + [] == RowTerms(1, sep, t);
      assert [fields[0]] + [] == fields;
    } else {
      var more := CsvRow(fields[1..], sep, t);
      var after := more + rest;
      SeparatorEnds(after, sep);
      FieldRoundTrip(fields[0], [sep], after, sep);
      RowRoundTrip(fields[1..], sep, t, rest);
      Regroup(f, [sep], more, rest);
      Associative(f, [sep], after);
      Associative(f, [sep], more);
      OneMoreField(f + [sep] + after, |fields| - 1, sep, FieldRead(fields[0], sep, after, CountLF(f + [sep])),
        RowRead(fields[1..], RowTerms(|fields| - 1, sep, t), rest, CountLF(more)));
      CountOfSum(f + [sep], more);
      assert [fields[0]] + fields[1..] == fields;
    }
  }
}
