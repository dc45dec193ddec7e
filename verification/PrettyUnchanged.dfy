// What the schema pretty-printer leaves as it is, and what it does to quoted text.
module PrettyUnchanged {
  import opened ByteStrings
  import opened CType
  import opened Pretty
  import opened Sequences

  /** The first pass leaves a text as it is exactly when it is tidy. */
  lemma CompactUnchangedIff(s: bytes)
    ensures Compact(s) == s <==> Tidy(s)
  {
    CompactIsTidy(s);
    if Tidy(s) {
      TidyStays(s, |s|);
      assert s[..|s|] == s;
    }
  }

  // ----- statements that stay on one line

  /** A (, a comma or a line end is read inside exactly one open parenthesis, starting at a depth. */
  predicate Breaks(t: bytes, depth: int) {
    t != [] && (BreaksAfter(t[0], depth + Depth([t[0]])) || Breaks(t[1..], depth + Depth([t[0]])))
  }

  predicate OneLine(t: bytes) {
    StrLen30(t) < 79 || !Breaks(t, 0)
  }

  lemma {:induction false} SplitOnce(rest: bytes, cur: bytes, depth: int)
    ensures var chunks := Split(rest, cur, depth, false);
      if Breaks(rest, depth) then |chunks| > 1 && chunks[0].tail == LF_INDENT
      else chunks == [Chunk(cur + rest, SEMI_LF)]
    decreases |rest|
  {
    hide Depth, TrimStart;
    if rest == [] {
      assert cur + rest == cur;
    } else {
      var c := rest[0];
      var d := depth + Depth([c]);
      if BreaksAfter(c, d) {
        SplitTails(TrimStart(rest[1..]), [], d, true);
      } else {
        SplitOnce(rest[1..], cur + [c], d);
        assert cur + [c] + rest[1..] == cur + rest;
      }
    }
  }

  lemma OneChunkIff(s: bytes)
    ensures var t := Compact(s);
      if OneLine(t) then Chunks(s) == [Chunk(t, SEMI_LF)] else |Chunks(s)| > 1 && Chunks(s)[0].tail == LF_INDENT
  {
    hide Compact, Breaks, Split, StrLen30;
    var t := Compact(s);
    SplitOnce(t, [], 0);
    assert [] + t == t;
  }

  lemma OneLineText(t: bytes)
    ensures Printed([Chunk(t, SEMI_LF)]) == SchemaLine(t) + SEMI_LF
  {
    hide SchemaLine;
    PrintedCons(Chunk(t, SEMI_LF), []);
    assert [Chunk(t, SEMI_LF)] + [] == [Chunk(t, SEMI_LF)];
  }

  /** A line break puts whitespace next to whitespace, which a tidy text does not have. */
  lemma BrokenIsNotTidy(s: bytes, chunks: seq<Chunk>)
    requires TailsOf(chunks) && |chunks| > 1 && chunks[0].tail == LF_INDENT && Printed(chunks) == s + SEMI_LF
    ensures !TidyInside(s)
  {
    hide SchemaLine;
    var line, rest := SchemaLine(chunks[0].text), Printed(chunks[1..]);
    EndsInSemicolon(chunks[1..]);
    assert s + SEMI_LF == line + LF_INDENT + rest;
    hide *;
    BreakInside(s, line, rest);
  }

  lemma BreakInside(s: bytes, line: bytes, rest: bytes)
    requires s + SEMI_LF == line + LF_INDENT + rest && |rest| >= 2
    ensures !TidyInside(s)
  {
    var k, p := |line|, s + SEMI_LF;
    assert |SEMI_LF| == 2 && k + 3 <= |s|;
    assert s[k] == p[k] == (line + LF_INDENT + rest)[k] == 10;
    assert s[k + 1] == p[k + 1] == (line + LF_INDENT + rest)[k + 1] == 32;
    assert !TidyAt(s, k);
  }

  lemma {:induction false} EndsInSemicolon(chunks: seq<Chunk>)
    requires TailsOf(chunks)
    ensures |Printed(chunks)| >= 2
  {
    hide SchemaLine;
    if |chunks| > 1 {
      EndsInSemicolon(chunks[1..]);
    }
  }

  /**
   * When the output is the statement itself and ";": for a tidy statement, and for one that
   * stays on one line, exactly when it is both and gets no IF NOT EXISTS.
   */
  lemma UnchangedIff(s: bytes)
    ensures Tidy(s) || OneLine(Compact(s)) ==>
      (PrettyText(s) == s + SEMI_LF <==> Tidy(s) && OneLine(s) && !QuotedTable(s))
  {
    hide Compact, Breaks, Split, StrLen30, Tidy, TidyInside, Chunks, Printed, OneLine, SchemaLine, QuotedTable;
    var t := Compact(s);
    CompactUnchangedIff(s);
    OneChunkIff(s);
    OneLineText(t);
    SqueezedInsertion(t);
    CompactKeepsText(s);
    if OneLine(t) {
      if PrettyText(s) == s + SEMI_LF {
        SameFront(SchemaLine(t), s, SEMI_LF);
      }
    } else if Tidy(s) {
      ChunksHaveTails(s);
      if PrettyText(s) == s + SEMI_LF {
        BrokenIsNotTidy(s, Chunks(s));
        TidyIsInside(s);
      }
    }
  }

  lemma TidyIsInside(s: bytes)
    requires Tidy(s)
    ensures TidyInside(s)
  {
  }

  lemma ChunksHaveTails(s: bytes)
    ensures TailsOf(Chunks(s))
  {
    hide Compact, Split;
    SplitTails(Compact(s), [], 0, false);
  }

  // ----- what becomes of quoted text

  /** Characters at which no line is broken and no parenthesis counted. */
  predicate Ordinary(w: bytes) {
    forall k | 0 <= k < |w| :: !IsParen(w[k]) && w[k] != COMMA && w[k] != LF
  }

  lemma {:induction false} SplitRun(w: bytes, rest: bytes, cur: bytes, depth: int, broken: bool)
    requires Ordinary(w)
    ensures Split(w + rest, cur, depth, broken) == Split(rest, cur + w, depth, broken)
    decreases |w|
  {
    hide Depth, TrimStart;
    if w == [] {
      assert w + rest == rest && cur + w == cur;
    } else {
      DepthOne(w[0]);
      assert (w + rest)[1..] == w[1..] + rest && cur + [w[0]] + w[1..] == cur + w;
      SplitRun(w[1..], rest, cur + [w[0]], depth, broken);
    }
  }

  /** A break character at depth one, before a character that is not whitespace. */
  lemma SplitAtBreak(c: byte, rest: bytes, cur: bytes, depth: int, broken: bool)
    requires (c == LP && depth == 0) || (c == COMMA && depth == 1)
    requires rest != [] && !IsSpace(rest[0])
    ensures Split([c] + rest, cur, depth, broken) == [Chunk(cur + [c], LF_INDENT)] + Split(rest, [], 1, true)
  {
    DepthOne(c);
    hide Depth, Split;
    SplitFirst([c] + rest, cur, depth, broken);
    assert ([c] + rest)[1..] == rest;
  }

  lemma SplitFirst(rest: bytes, cur: bytes, depth: int, broken: bool)
    requires rest != [] && BreaksAfter(rest[0], depth + Depth([rest[0]])) && rest[0] != LF
    ensures Split(rest, cur, depth, broken) ==
      [Chunk(cur + [rest[0]], LF_INDENT)] + Split(TrimStart(rest[1..]), [], depth + Depth([rest[0]]), true)
  {
    hide Depth, TrimStart;
  }

  lemma SplitAtEnd(cur: bytes)
    requires cur != []
    ensures Split([RP], cur, 1, true) == [Chunk(cur, LF_ONLY), Chunk([RP], SEMI_LF)]
  {
    DepthOne(RP);
    assert [RP][1..] == [];
    assert Split([], [RP], 0, true) == [Chunk([RP], SEMI_LF)];
  }

  lemma TidyConcat(a: bytes, b: bytes)
    requires TidyInside(a) && TidyInside(b) && a != [] && b != [] && !IsSpace(a[|a| - 1]) && !IsSpace(b[0])
    ensures TidyInside(a + b)
  {
    var t := a + b;
    forall k: nat | k + 1 < |t| ensures TidyAt(t, k) {
      if k + 1 < |a| {
        assert TidyAt(a, k);
      } else if k >= |a| {
        assert TidyAt(b, k - |a|);
      }
    }
  }

  lemma WordIsTidy(w: bytes)
    requires forall k | 0 <= k < |w| :: !IsSpace(w[k])
    ensures TidyInside(w)
  {
  }

  lemma NotQuotedTable(text: bytes)
    requires |text| <= 13 || text[0] != 67 || (text[13] != 39 && text[13] != 34)
    ensures SchemaLine(text) == text
  {
  }

  const TABLE_T: bytes := [67, 82, 69, 65, 84, 69, 32, 84, 65, 66, 76, 69, 32, 116]    // "CREATE TABLE t"
  const DEFAULT_X: bytes := [97, 32, 68, 69, 70, 65, 85, 76, 84, 32, 39, 120]          // "a DEFAULT 'x"
  const A_DEFAULT: bytes := [97, 32, 68, 69, 70, 65, 85, 76, 84, 32, 39]               // "a DEFAULT '"
  const Y: bytes := [121, 39]                                                          // "y'"

  /** A column name of n letters. */
  function Name(n: nat): bytes {
    Repeat(120, n)
  }

  lemma TidyWords(w: bytes, b: bytes)
    requires (forall k | 0 <= k < |w| :: !IsSpace(w[k]) && !IsParen(w[k]))
    requires TidyInside(b) && b != [] && !IsSpace(b[0]) && !IsParen(b[0])
    ensures TidyInside(w + [32] + b)
  {
    var t := w + [32] + b;
    forall k: nat | k + 1 < |t| ensures TidyAt(t, k) {
      if k > |w| {
        assert TidyAt(b, k - |w| - 1);
      }
    }
  }

  lemma TableTIsTidy()
    ensures TidyInside(TABLE_T + [LP])
  {
    var a: bytes, b: bytes, c: bytes := [67, 82, 69, 65, 84, 69], [84, 65, 66, 76, 69], [116, 40];
    assert TABLE_T + [LP] == a + [32] + (b + [32] + c);
    TidyWords(b, c);
    TidyWords(a, b + [32] + c);
  }

  lemma DefaultIsTidy(f: bytes)
    requires TidyInside(f) && f != [] && f[0] == 39
    ensures TidyInside(A_DEFAULT + f[1..])
  {
    var d: bytes, e: bytes := [97], [68, 69, 70, 65, 85, 76, 84];
    assert A_DEFAULT + f[1..] == d + [32] + (e + [32] + f);
    TidyWords(e, f);
    TidyWords(d, e + [32] + f);
  }

  lemma ConstantsAreTidy()
    ensures TidyInside(TABLE_T + [LP]) && TidyInside(DEFAULT_X + [COMMA]) && TidyInside(Y + [COMMA])
  {
    TableTIsTidy();
    var f: bytes := [39, 120, 44];
    DefaultIsTidy(f);
    assert DEFAULT_X + [COMMA] == A_DEFAULT + f[1..];
  }

  lemma ConstantsAreOrdinary()
    ensures Ordinary(TABLE_T) && Ordinary(DEFAULT_X) && Ordinary(Y)
  {
  }

  /** CREATE TABLE t(a DEFAULT 'x,y',xx...x) */
  function TableWithComma(n: nat): bytes {
    TABLE_T + [LP] + (DEFAULT_X + [COMMA] + (Y + [COMMA] + (Name(n) + [RP])))
  }

  lemma TableIsTidy(n: nat)
    requires n > 0
    ensures Tidy(TableWithComma(n))
  {
    ConstantsAreTidy();
    WordIsTidy(Name(n) + [RP]);
    hide TidyInside, Repeat;
    var u := Name(n) + [RP];
    var v := Y + [COMMA] + u;
    var w := DEFAULT_X + [COMMA] + v;
    TidyConcat(Y + [COMMA], u);
    TidyConcat(DEFAULT_X + [COMMA], v);
    TidyConcat(TABLE_T + [LP], w);
  }

  /** A list of three items in parentheses. */
  function ListText(h: bytes, x: bytes, y: bytes, z: bytes): bytes {
    var u: bytes := z + [RP];
    var v: bytes := y + ([COMMA] + u);
    var w: bytes := x + ([COMMA] + v);
    h + ([LP] + w)
  }

  function ListChunks(h: bytes, x: bytes, y: bytes, z: bytes): seq<Chunk> {
    var c: seq<Chunk> := [Chunk(y + [COMMA], LF_INDENT)] + [Chunk(z, LF_ONLY), Chunk([RP], SEMI_LF)];
    var b: seq<Chunk> := [Chunk(x + [COMMA], LF_INDENT)] + c;
    [Chunk(h + [LP], LF_INDENT)] + b
  }

  lemma SplitList(h: bytes, x: bytes, y: bytes, z: bytes)
    requires Ordinary(h) && Ordinary(x) && Ordinary(y) && Ordinary(z)
    requires x != [] && y != [] && z != [] && !IsSpace(x[0]) && !IsSpace(y[0]) && !IsSpace(z[0])
    ensures Split(ListText(h, x, y, z), [], 0, false) == ListChunks(h, x, y, z)
  {
    hide Split, Ordinary;
    var u: bytes := z + [RP];
    var v: bytes := y + ([COMMA] + u);
    var w: bytes := x + ([COMMA] + v);
    assert [] + h == h && [] + x == x && [] + y == y && [] + z == z;
    SplitRun(h, [LP] + w, [], 0, false);
    SplitAtBreak(LP, w, h, 0, false);
    SplitRun(x, [COMMA] + v, [], 1, true);
    SplitAtBreak(COMMA, v, x, 1, true);
    SplitRun(y, [COMMA] + u, [], 1, true);
    SplitAtBreak(COMMA, u, y, 1, true);
    SplitRun(z, [RP], [], 1, true);
    SplitAtEnd(z);
  }

  lemma TableChunks(n: nat)
    requires 47 <= n < 0x1000_0000
    ensures Chunks(TableWithComma(n)) == Split(TableWithComma(n), [], 0, false)
    ensures TableWithComma(n) == ListText(TABLE_T, DEFAULT_X, Y, Name(n))
  {
    hide Split, Compact, Tidy;
    TableIsTidy(n);
    CompactUnchangedIff(TableWithComma(n));
    assert |TableWithComma(n)| == n + 32;
  }

  /** The comma inside the quotes ends a line: the text in quotes is changed. */
  lemma QuotedCommaBreaks(n: nat)
    requires 47 <= n < 0x1000_0000
    ensures PrettyText(TableWithComma(n)) ==
      TABLE_T + [LP] + LF_INDENT + (DEFAULT_X + [COMMA] + LF_INDENT + (Y + [COMMA] + LF_INDENT
        + (Name(n) + LF_ONLY + ([RP] + SEMI_LF))))
  {
    assert Name(n)[0] == 120;
    ConstantsAreOrdinary();
    hide Split, Chunks, Printed, Ordinary, TableWithComma, ListText, ListChunks;
    TableChunks(n);
    SplitList(TABLE_T, DEFAULT_X, Y, Name(n));
    PrintTable(n);
  }

  lemma PrintTable(n: nat)
    requires n > 0
    ensures Printed(ListChunks(TABLE_T, DEFAULT_X, Y, Name(n))) ==
      TABLE_T + [LP] + LF_INDENT + (DEFAULT_X + [COMMA] + LF_INDENT + (Y + [COMMA] + LF_INDENT
        + (Name(n) + LF_ONLY + ([RP] + SEMI_LF))))
  {
    NotQuotedTable(TABLE_T + [LP]);
    NotQuotedTable(DEFAULT_X + [COMMA]);
    NotQuotedTable(Y + [COMMA]);
    NotQuotedTable(Name(n));
    NotQuotedTable([RP]);
    hide SchemaLine, Printed;
    var e := [Chunk([RP], SEMI_LF)];
    OneLineText([RP]);
    assert [Chunk(Name(n), LF_ONLY), Chunk([RP], SEMI_LF)] == [Chunk(Name(n), LF_ONLY)] + e;
    PrintedCons(Chunk(Name(n), LF_ONLY), e);
    var d := [Chunk(Name(n), LF_ONLY)] + e;
    PrintedCons(Chunk(Y + [COMMA], LF_INDENT), d);
    var c := [Chunk(Y + [COMMA], LF_INDENT)] + d;
    PrintedCons(Chunk(DEFAULT_X + [COMMA], LF_INDENT), c);
    PrintedCons(Chunk(TABLE_T + [LP], LF_INDENT), [Chunk(DEFAULT_X + [COMMA], LF_INDENT)] + c);
  }

  /** CREATE TABLE t(a DEFAULT ' with n blanks and ') after it */
  function TableWithBlanks(n: nat): bytes {
    TABLE_T + [LP] + A_DEFAULT + Repeat(32, n) + [39, RP]
  }

  /** The second of two whitespace characters is dropped. */
  lemma CompactTwoBlanks(a: bytes)
    requires TidyInside(a + [32]) && a != [] && !IsSpace(a[0])
    ensures Compact(a + [32] + [32] + [39] + [RP]) == a + [32] + [39] + [RP]
  {
    hide PutAll, TrimEnd, TidyInside;
    var b: bytes := a + [32];
    var s: bytes := b + [32] + [39] + [RP];
    TidyStays(b, |b|);
    assert b[..|b|] == b;
    PutAllSnoc(b, 32);
    PutAllSnoc(b + [32], 39);
    PutAllSnoc(b + [32] + [39], RP);
    assert s[0] == a[0] && TrimStart(s) == s;
    TrimEndStep(PutAll(s));
  }

  lemma CompactBlanks()
    ensures Compact(TableWithBlanks(2)) == TableWithBlanks(1)
  {
    var a: bytes := TABLE_T + [LP] + A_DEFAULT;
    assert TableWithBlanks(2) == a + [32] + [32] + [39] + [RP];
    assert TableWithBlanks(1) == a + [32] + [39] + [RP];
    assert a != [] && a[0] == 67;
    hide Compact, TidyInside, TableWithBlanks;
    BlankDefaultIsTidy();
    CompactTwoBlanks(a);
  }

  lemma BlankDefaultIsTidy()
    ensures TidyInside(TABLE_T + [LP] + A_DEFAULT + [32])
  {
    TableTIsTidy();
    DefaultIsTidy([39, 32]);
    TidyConcat(TABLE_T + [LP], A_DEFAULT + [32]);
    assert TABLE_T + [LP] + A_DEFAULT + [32] == TABLE_T + [LP] + (A_DEFAULT + [32]);
  }

  lemma BlankChunks()
    ensures Chunks(TableWithBlanks(2)) == [Chunk(TableWithBlanks(1), SEMI_LF)]
  {
    hide Compact, Split;
    CompactBlanks();
    assert |TableWithBlanks(1)| == 29;
  }

  lemma BlanksAreNoTable()
    ensures SchemaLine(TableWithBlanks(1)) == TableWithBlanks(1)
  {
    assert TableWithBlanks(1)[13] == 116;
    NotQuotedTable(TableWithBlanks(1));
  }

  /** Two blanks inside the quotes become one. */
  lemma BlanksInQuotes()
    ensures PrettyText(TableWithBlanks(2)) == TableWithBlanks(1) + SEMI_LF
  {
    assert PrettyText(TableWithBlanks(2)) == Printed(Chunks(TableWithBlanks(2)));
    hide *;
    BlankChunks();
    BlanksAreNoTable();
    OneLineText(TableWithBlanks(1));
  }

  // ----- a statement that is not tidy may be laid out already

  lemma {:induction false} PutAllRun(a: bytes, w: bytes)
    requires forall k | 0 <= k < |w| :: !IsSpace(w[k]) && !IsParen(w[k])
    ensures PutAll(a + w) == PutAll(a) + w
    decreases |w|
  {
    if w == [] {
      assert a + w == a;
    } else {
      var front, c := w[..|w| - 1], w[|w| - 1];
      PutAllRun(a, front);
      assert a + w == a + front + [c];
      PutAllSnoc(a + front, c);
    }
  }

  /** Whitespace after a parenthesis is left out. */
  lemma PutAllIndent(a: bytes)
    requires PutAll(a) != [] && PutAll(a)[|PutAll(a)| - 1] == LP
    ensures PutAll(a + LF_INDENT) == PutAll(a)
  {
    hide PutAll;
    PutAllSnoc(a, 10);
    PutAllSnoc(a + [10], 32);
    PutAllSnoc(a + [10] + [32], 32);
    assert a + LF_INDENT == a + [10] + [32] + [32];
  }

  /** CREATE TABLE t(xx...x) on three lines. */
  function ThreeLines(n: nat): bytes {
    TABLE_T + [LP] + LF_INDENT + Name(n) + LF_ONLY + [RP]
  }

  lemma ThreeLinesCompact(n: nat)
    requires n > 0
    ensures Compact(ThreeLines(n)) == TABLE_T + [LP] + Name(n) + [RP]
  {
    hide PutAll, TrimEnd;
    var a, s := TABLE_T + [LP], ThreeLines(n);
    TableTIsTidy();
    TidyStays(a, |a|);
    assert a[..|a|] == a;
    PutAllIndent(a);
    PutAllRun(a + LF_INDENT, Name(n));
    var b := a + LF_INDENT + Name(n);
    assert PutAll(b) == a + Name(n);
    PutAllSnoc(b, 10);
    PutAllSnoc(b + [10], RP);
    assert s == b + [10] + [RP];
    assert PutAll(s) == a + Name(n) + [RP];
    assert s[0] == 67 && TrimStart(s) == s;
    TrimEndStep(PutAll(s));
  }

  lemma SplitOneItem(h: bytes, x: bytes)
    requires Ordinary(h) && Ordinary(x) && x != [] && !IsSpace(x[0])
    ensures Split(h + ([LP] + (x + [RP])), [], 0, false) ==
      [Chunk(h + [LP], LF_INDENT)] + ([Chunk(x, LF_ONLY)] + [Chunk([RP], SEMI_LF)])
  {
    hide Split, Ordinary;
    var u := x + [RP];
    SplitRun(h, [LP] + u, [], 0, false);
    assert [] + h == h;
    SplitAtBreak(LP, u, h, 0, false);
    SplitRun(x, [RP], [], 1, true);
    assert [] + x == x;
    SplitAtEnd(x);
    assert [Chunk(x, LF_ONLY), Chunk([RP], SEMI_LF)] == [Chunk(x, LF_ONLY)] + [Chunk([RP], SEMI_LF)];
  }

  lemma ThreeLineChunks(n: nat)
    requires 63 <= n < 0x1000_0000
    ensures Chunks(ThreeLines(n)) ==
      [Chunk(TABLE_T + [LP], LF_INDENT)] + ([Chunk(Name(n), LF_ONLY)] + [Chunk([RP], SEMI_LF)])
  {
    hide Split, Compact, Breaks;
    ThreeLinesCompact(n);
    ConstantsAreOrdinary();
    SplitOneItem(TABLE_T, Name(n));
    var t := TABLE_T + ([LP] + (Name(n) + [RP]));
    assert TABLE_T + [LP] + Name(n) + [RP] == t;
    assert |t| == n + 16 && StrLen30(t) == n + 16;
  }

  lemma ThreeLinesNotTidy(n: nat)
    ensures !Tidy(ThreeLines(n))
  {
    var s := ThreeLines(n);
    assert s[15] == 10 && s[16] == 32 && !TidyAt(s, 15);
  }

  lemma PrintThreeLines(a: bytes, x: bytes, e: bytes)
    requires SchemaLine(a) == a && SchemaLine(x) == x && SchemaLine(e) == e
    ensures Printed([Chunk(a, LF_INDENT)] + ([Chunk(x, LF_ONLY)] + [Chunk(e, SEMI_LF)])) ==
      a + LF_INDENT + x + LF_ONLY + e + SEMI_LF
  {
    hide *;
    OneLineText(e);
    PrintedCons(Chunk(x, LF_ONLY), [Chunk(e, SEMI_LF)]);
    PrintedCons(Chunk(a, LF_INDENT), [Chunk(x, LF_ONLY)] + [Chunk(e, SEMI_LF)]);
    var p := a + LF_INDENT;
    Associative(x, LF_ONLY, e + SEMI_LF);
    Associative(p, x, LF_ONLY + (e + SEMI_LF));
    Associative(p + x, LF_ONLY, e + SEMI_LF);
    Associative(p + x + LF_ONLY, e, SEMI_LF);
  }

  lemma NamesAreNotTables(n: nat)
    ensures SchemaLine(TABLE_T + [LP]) == TABLE_T + [LP] && SchemaLine(Name(n)) == Name(n) && SchemaLine([RP]) == [RP]
  {
    NotQuotedTable(TABLE_T + [LP]);
    NotQuotedTable(Name(n));
    NotQuotedTable([RP]);
  }

  /** It is printed as it is, although it has whitespace next to whitespace. */
  lemma ThreeLinesStay(n: nat)
    requires 63 <= n < 0x1000_0000
    ensures !Tidy(ThreeLines(n)) && PrettyText(ThreeLines(n)) == ThreeLines(n) + SEMI_LF
  {
    assert PrettyText(ThreeLines(n)) == Printed(Chunks(ThreeLines(n)));
    assert ThreeLines(n) == TABLE_T + [LP] + LF_INDENT + Name(n) + LF_ONLY + [RP];
    hide *;
    ThreeLinesNotTidy(n);
    ThreeLineChunks(n);
    NamesAreNotTables(n);
    PrintThreeLines(TABLE_T + [LP], Name(n), [RP]);
  }
}
