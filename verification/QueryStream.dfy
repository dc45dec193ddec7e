// The byte stream that sha3QueryFunc hashes, and the proof that it can be decoded.
module QueryStream {
  import opened LaneBits
  import opened Numerals
  import opened Options
  import opened Sequences
  import opened Sha3Spec

  /** A column value; integers and floats by their 64 bits. */
  datatype Value = Null | Integer(bits: bv64) | Float(bits: bv64) | Text(bytes: Bytes) | Blob(bytes: Bytes)

  datatype Statement = Statement(sql: Bytes, rows: seq<seq<Value>>)

  const TAG_S: bv8 := 0x53
  const TAG_R: bv8 := 0x52
  const TAG_N: bv8 := 0x4e
  const TAG_I: bv8 := 0x49
  const TAG_F: bv8 := 0x46
  const TAG_T: bv8 := 0x54
  const TAG_B: bv8 := 0x42
  const COLON: bv8 := 0x3a

  // ----- encoding

  function Digit(d: Numeral): bv8 {
    match d
    case 0 => 0x30 case 1 => 0x31 case 2 => 0x32 case 3 => 0x33 case 4 => 0x34
    case 5 => 0x35 case 6 => 0x36 case 7 => 0x37 case 8 => 0x38 case 9 => 0x39
  }

  /** A tag, a size and a colon: the output of hash_step_vformat. */
  function Header(tag: bv8, n: nat): Bytes {
    [tag] + Decimal(n, Digit) + [COLON]
  }

  /** The eight bytes of a word, most significant first. */
  function BigEndianWord(w: bv64): (b: Bytes)
    ensures |b| == 8
  {
    [Byte(w, 7), Byte(w, 6), Byte(w, 5), Byte(w, 4), Byte(w, 3), Byte(w, 2), Byte(w, 1), Byte(w, 0)]
  }

  function EncodeValue(v: Value): Bytes {
    match v
    case Null => [TAG_N]
    case Integer(w) => [TAG_I] + BigEndianWord(w)
    case Float(w) => [TAG_F] + BigEndianWord(w)
    case Text(b) => Header(TAG_T, |b|) + b
    case Blob(b) => Header(TAG_B, |b|) + b
  }

  function EncodeValues(row: seq<Value>): Bytes {
    if row == [] then [] else EncodeValues(row[..|row| - 1]) + EncodeValue(row[|row| - 1])
  }

  function EncodeRows(rows: seq<seq<Value>>): Bytes {
    if rows == [] then [] else EncodeRows(rows[..|rows| - 1]) + [TAG_R] + EncodeValues(rows[|rows| - 1])
  }

  function EncodeStatement(s: Statement): Bytes {
    Header(TAG_S, |s.sql|) + s.sql + EncodeRows(s.rows)
  }

  function Encode(stmts: seq<Statement>): Bytes {
    if stmts == [] then [] else Encode(stmts[..|stmts| - 1]) + EncodeStatement(stmts[|stmts| - 1])
  }

  // ----- decoding, from the first byte on

  /** A segment of the stream. */
  datatype Segment = Sql(text: Bytes) | Row | Column(value: Value)

  function DigitValue(b: bv8): Option<nat> {
    if b == 0x30 then Some(0) else if b == 0x31 then Some(1) else if b == 0x32 then Some(2)
    else if b == 0x33 then Some(3) else if b == 0x34 then Some(4) else if b == 0x35 then Some(5)
    else if b == 0x36 then Some(6) else if b == 0x37 then Some(7) else if b == 0x38 then Some(8)
    else if b == 0x39 then Some(9) else None
  }

  /** Reads digits up to a colon: the number and what follows. */
  function ReadCount(s: Bytes, n: nat): (r: Option<(nat, Bytes)>)
    ensures r.Some? ==> |r.value.1| < |s|
  {
    if s == [] then None
    else if s[0] == COLON then Some((n, s[1..]))
    else
      var d := DigitValue(s[0]);
      if d == None then None else ReadCount(s[1..], 10 * n + d.value)
  }

  /** Reads a count and as many bytes. */
  function ReadSized(s: Bytes): (r: Option<(Bytes, Bytes)>)
    ensures r.Some? ==> |r.value.1| < |s|
  {
    var r := ReadCount(s, 0);
    if r == None || |r.value.1| < r.value.0 then None
    else Some((r.value.1[..r.value.0], r.value.1[r.value.0..]))
  }

  function ReadWord(s: Bytes): (r: Option<(bv64, Bytes)>)
    ensures r.Some? ==> |r.value.1| < |s|
  {
    if |s| < 8 then None else Some((OrOfBytes(s[7], s[6], s[5], s[4], s[3], s[2], s[1], s[0]), s[8..]))
  }

  function ReadSegment(s: Bytes): (r: Option<(Segment, Bytes)>)
    ensures r.Some? ==> |r.value.1| < |s|
  {
    if s == [] then None
    else if s[0] == TAG_R then Some((Row, s[1..]))
    else if s[0] == TAG_N then Some((Column(Null), s[1..]))
    else if s[0] == TAG_I || s[0] == TAG_F then
      var w := ReadWord(s[1..]);
      if w == None then None
      else Some((Column(if s[0] == TAG_I then Integer(w.value.0) else Float(w.value.0)), w.value.1))
    else if s[0] == TAG_S || s[0] == TAG_T || s[0] == TAG_B then
      var b := ReadSized(s[1..]);
      if b == None then None
      else if s[0] == TAG_S then Some((Sql(b.value.0), b.value.1))
      else Some((Column(if s[0] == TAG_T then Text(b.value.0) else Blob(b.value.0)), b.value.1))
    else None
  }

  /** Adds a segment to the statements decoded so far. */
  function Append(stmts: seq<Statement>, g: Segment): Option<seq<Statement>> {
    if g.Sql? then Some(stmts + [Statement(g.text, [])])
    else if stmts == [] then None
    else
      var front, last := stmts[..|stmts| - 1], stmts[|stmts| - 1];
      if g.Row? then Some(front + [last.(rows := last.rows + [[]])])
      else if last.rows == [] then None
      else
        var m := |last.rows| - 1;
        Some(front + [last.(rows := last.rows[..m] + [last.rows[m] + [g.value]])])
  }

  /** Decodes s after the statements decoded so far. */
  function DecodeFrom(s: Bytes, stmts: seq<Statement>): Option<seq<Statement>>
    decreases |s|
  {
    if s == [] then Some(stmts)
    else
      var r := ReadSegment(s);
      if r == None then None
      else
        var next := Append(stmts, r.value.0);
        if next == None then None else DecodeFrom(r.value.1, next.value)
  }

  function Decode(s: Bytes): Option<seq<Statement>> {
    DecodeFrom(s, [])
  }

  // ----- decoding what was encoded

  lemma DigitRoundTrip(d: Numeral)
    ensures DigitValue(Digit(d)) == Some(d) && Digit(d) != COLON
  {
  }

  lemma {:induction false} CountRoundTrip(n: nat, t: Bytes)
    ensures ReadCount(Decimal(n, Digit) + t, 0) == ReadCount(t, n)
  {
    hide Digit, DigitValue;
    if n < 10 {
      DigitRoundTrip(n);
      assert ([Digit(n)] + t)[1..] == t;
    } else {
      var u := [Digit(n % 10)] + t;
      assert Decimal(n, Digit) + t == Decimal(n / 10, Digit) + u;
      CountRoundTrip(n / 10, u);
      DigitRoundTrip(n % 10);
      assert u[1..] == t;
    }
  }

  lemma SizedRoundTrip(b: Bytes, t: Bytes)
    ensures ReadSized(Decimal(|b|, Digit) + [COLON] + b + t) == Some((b, t))
  {
    hide Decimal, ReadCount;
    Regroup(Decimal(|b|, Digit), [COLON], b, t);
    CountRoundTrip(|b|, [COLON] + (b + t));
    CountEnds(|b|, b + t);
    PrefixAndRest(b, t);
  }

  lemma CountEnds(n: nat, t: Bytes)
    ensures ReadCount([COLON] + t, n) == Some((n, t))
  {
    assert ([COLON] + t)[1..] == t;
  }

  lemma WordRoundTrip(w: bv64)
    ensures OrOfBytes(Byte(w, 0), Byte(w, 1), Byte(w, 2), Byte(w, 3),
      Byte(w, 4), Byte(w, 5), Byte(w, 6), Byte(w, 7)) == w
  {
  }

  lemma ReadWordRoundTrip(w: bv64, t: Bytes)
    ensures ReadWord(BigEndianWord(w) + t) == Some((w, t))
  {
    WordRoundTrip(w);
    hide OrOfBytes, Byte;
    var s := BigEndianWord(w) + t;
    assert s[8..] == t;
    assert s[0] == Byte(w, 7) && s[1] == Byte(w, 6) && s[2] == Byte(w, 5) && s[3] == Byte(w, 4);
    assert s[4] == Byte(w, 3) && s[5] == Byte(w, 2) && s[6] == Byte(w, 1) && s[7] == Byte(w, 0);
  }

  lemma WordColumn(v: Value, w: bv64, t: Bytes)
    requires v == Integer(w) || v == Float(w)
    ensures EncodeValue(v) + t != [] && ReadSegment(EncodeValue(v) + t) == Some((Column(v), t))
  {
    hide ReadWord, ReadSized, BigEndianWord;
    ReadWordRoundTrip(w, t);
    assert (EncodeValue(v) + t)[1..] == BigEndianWord(w) + t;
  }

  lemma SizedColumn(v: Value, b: Bytes, t: Bytes)
    requires v == Text(b) || v == Blob(b)
    ensures EncodeValue(v) + t != [] && ReadSegment(EncodeValue(v) + t) == Some((Column(v), t))
  {
    hide ReadWord, ReadSized, Decimal, ReadSegment;
    SizedRoundTrip(b, t);
    var r := Decimal(|b|, Digit) + [COLON] + b + t;
    assert EncodeValue(v) + t == [if v.Text? then TAG_T else TAG_B] + r;
    hide EncodeValue;
    SizedSegment(v, r, b, t);
  }

  lemma SizedSegment(v: Value, r: Bytes, b: Bytes, t: Bytes)
    requires (v == Text(b) || v == Blob(b)) && ReadSized(r) == Some((b, t))
    ensures ReadSegment([if v.Text? then TAG_T else TAG_B] + r) == Some((Column(v), t))
  {
    hide ReadWord, ReadSized;
    assert ([if v.Text? then TAG_T else TAG_B] + r)[1..] == r;
  }

  lemma ColumnRoundTrip(v: Value, t: Bytes)
    ensures EncodeValue(v) + t != [] && ReadSegment(EncodeValue(v) + t) == Some((Column(v), t))
  {
    match v
    case Null => assert ([TAG_N] + t)[1..] == t;
    case Integer(w) => hide ReadSegment, EncodeValue; WordColumn(v, w, t);
    case Float(w) => hide ReadSegment, EncodeValue; WordColumn(v, w, t);
    case Text(b) => hide ReadSegment, EncodeValue; SizedColumn(v, b, t);
    case Blob(b) => hide ReadSegment, EncodeValue; SizedColumn(v, b, t);
  }

  lemma SqlRoundTrip(sql: Bytes, t: Bytes)
    ensures ReadSegment(Header(TAG_S, |sql|) + sql + t) == Some((Sql(sql), t))
  {
    hide ReadSized, Decimal;
    SizedRoundTrip(sql, t);
    assert (Header(TAG_S, |sql|) + sql + t)[1..] == Decimal(|sql|, Digit) + [COLON] + sql + t;
  }

  lemma RowRoundTrip(t: Bytes)
    ensures ReadSegment([TAG_R] + t) == Some((Row, t))
  {
    assert ([TAG_R] + t)[1..] == t;
  }

  lemma {:induction false} ValuesRoundTrip(row: seq<Value>, t: Bytes, done: seq<Statement>, sql: Bytes,
      rows: seq<seq<Value>>)
    ensures DecodeFrom(EncodeValues(row) + t, done + [Statement(sql, rows + [[]])])
         == DecodeFrom(t, done + [Statement(sql, rows + [row])])
    decreases |row|
  {
    hide ReadSegment, EncodeValue, Append;
    if row == [] {
      assert EncodeValues(row) + t == t;
    } else {
      var front, v := row[..|row| - 1], row[|row| - 1];
      assert EncodeValues(row) + t == EncodeValues(front) + (EncodeValue(v) + t);
      ValuesRoundTrip(front, EncodeValue(v) + t, done, sql, rows);
      ColumnRoundTrip(v, t);
      AppendColumn(done, sql, rows, front, v);
      assert front + [v] == row;
    }
  }

  lemma AppendColumn(done: seq<Statement>, sql: Bytes, rows: seq<seq<Value>>, row: seq<Value>, v: Value)
    ensures Append(done + [Statement(sql, rows + [row])], Column(v)) ==
      Some(done + [Statement(sql, rows + [row + [v]])])
  {
    var acc := done + [Statement(sql, rows + [row])];
    assert acc[..|acc| - 1] == done;
    assert (rows + [row])[..|rows|] == rows;
  }

  lemma {:induction false} RowsRoundTrip(rows: seq<seq<Value>>, t: Bytes, done: seq<Statement>, sql: Bytes)
    ensures DecodeFrom(EncodeRows(rows) + t, done + [Statement(sql, [])])
         == DecodeFrom(t, done + [Statement(sql, rows)])
    decreases |rows|
  {
    hide ReadSegment, EncodeValues;
    if rows == [] {
      assert EncodeRows(rows) + t == t;
    } else {
      var front, row := rows[..|rows| - 1], rows[|rows| - 1];
      var u := EncodeValues(row) + t;
      assert EncodeRows(rows) + t == EncodeRows(front) + ([TAG_R] + u);
      RowsRoundTrip(front, [TAG_R] + u, done, sql);
      RowRoundTrip(u);
      var acc := done + [Statement(sql, front)];
      assert acc[..|acc| - 1] == done;
      assert Append(acc, Row) == Some(done + [Statement(sql, front + [[]])]);
      ValuesRoundTrip(row, t, done, sql, front);
      assert front + [row] == rows;
    }
  }

  lemma {:induction false} StreamRoundTrip(stmts: seq<Statement>, t: Bytes, done: seq<Statement>)
    ensures DecodeFrom(Encode(stmts) + t, done) == DecodeFrom(t, done + stmts)
    decreases |stmts|
  {
    hide ReadSegment, EncodeRows, Header;
    if stmts == [] {
      assert Encode(stmts) + t == t && done + stmts == done;
    } else {
      var front, last := stmts[..|stmts| - 1], stmts[|stmts| - 1];
      assert Encode(stmts) + t == Encode(front) + (EncodeStatement(last) + t);
      StreamRoundTrip(front, EncodeStatement(last) + t, done);
      var u := EncodeRows(last.rows) + t;
      assert EncodeStatement(last) + t == Header(TAG_S, |last.sql|) + last.sql + u;
      SqlRoundTrip(last.sql, u);
      HeaderNotEmpty(last.sql, u);
      RowsRoundTrip(last.rows, t, done + front, last.sql);
      assert done + front + [last] == done + stmts;
    }
  }

  lemma HeaderNotEmpty(sql: Bytes, u: Bytes)
    ensures Header(TAG_S, |sql|) + sql + u != []
  {
  }

  /** Every sequence of statements, rows and typed values is recovered from its stream. */
  lemma DecodeEncode(stmts: seq<Statement>)
    ensures Decode(Encode(stmts)) == Some(stmts)
  {
    StreamRoundTrip(stmts, [], []);
    assert Encode(stmts) + [] == Encode(stmts) && [] + stmts == stmts;
  }

  /** Different results never give the same stream. */
  lemma DistinctStreams(a: seq<Statement>, b: seq<Statement>)
    requires a != b
    ensures Encode(a) != Encode(b)
  {
    DecodeEncode(a);
    DecodeEncode(b);
  }
}
