// What becomes of the quoted parts of a statement, and which statements are printed as they are.
module PrettyQuotes {
  import opened ByteStrings
  import opened CType
  import opened Pretty
  import opened PrettyLayout
  import opened PrettyUnchanged
  import opened Sequences

  // ----- the quoted characters of an SQL text

  /** The character that ends the quoted part being read, or 0 outside of quotes. */
  type Mark = q: byte | q == 0 || IsMark(q)

  predicate IsMark(c: byte) {
    c == 34 || c == 39 || c == 93 || c == 96
  }

  function NextMark(q: Mark, c: byte): Mark {
    if q != 0 then (if c == q then 0 else q)
    else if c == 34 || c == 39 || c == 96 then c
    else if c == 91 then 93
    else 0
  }

  function MarkAfter(s: bytes, q: Mark): Mark {
    if s == [] then q else MarkAfter(s[1..], NextMark(q, s[0]))
  }

  /** The characters of s inside quotes, and the quotes. */
  function InQuotes(s: bytes, q: Mark): bytes {
    if s == [] then []
    else
      var n := NextMark(q, s[0]);
      (if q != 0 || n != 0 then [s[0]] else []) + InQuotes(s[1..], n)
  }

  lemma {:induction false} InQuotesConcat(a: bytes, b: bytes, q: Mark)
    ensures InQuotes(a + b, q) == InQuotes(a, q) + InQuotes(b, MarkAfter(a, q))
    ensures MarkAfter(a + b, q) == MarkAfter(b, MarkAfter(a, q))
  {
    if a == [] {
      assert a + b == b;
    } else {
      assert (a + b)[1..] == a[1..] + b;
      InQuotesConcat(a[1..], b, NextMark(q, a[0]));
    }
  }

  /** No character of w opens or ends a quoted part. */
  predicate NoMarks(w: bytes) {
    forall k | 0 <= k < |w| :: !IsMark(w[k]) && w[k] != 91
  }

  lemma {:induction false} InQuotesOf(w: bytes, q: Mark)
    requires NoMarks(w)
    ensures MarkAfter(w, q) == q && InQuotes(w, q) == if q == 0 then [] else w
  {
    if w != [] {
      InQuotesOf(w[1..], q);
    }
  }

  lemma QuotesOne(c: byte, q: Mark)
    ensures MarkAfter([c], q) == NextMark(q, c)
    ensures InQuotes([c], q) == if q != 0 || NextMark(q, c) != 0 then [c] else []
  {
    assert [c][1..] == [];
  }

  /** A character, the whitespace after it, and the rest. */
  lemma QuotesOfUnit(c: byte, w: bytes, r: bytes, q: Mark)
    requires AllSpaces(w)
    ensures var n := NextMark(q, c);
      && InQuotes([c] + w + r, q) == InQuotes([c], q) + (if n == 0 then [] else w) + InQuotes(r, n)
      && MarkAfter([c] + w + r, q) == MarkAfter(r, n)
  {
    hide InQuotes, MarkAfter, NextMark;
    InQuotesConcat([c] + w, r, q);
    InQuotesConcat([c], w, q);
    QuotesOne(c, q);
    InQuotesOf(w, NextMark(q, c));
  }

  lemma QuotesStart(r: bytes, q: Mark)
    requires StartsWithText(r) && q != 0
    ensures StartsWithText(InQuotes(r, q))
  {
  }

  /** Squeezing does not move quotes. */
  lemma {:induction false} SqueezeQuotes(s: bytes, q: Mark)
    ensures Squeeze(InQuotes(s, q)) == InQuotes(Squeeze(s), q)
    ensures MarkAfter(Squeeze(s), q) == MarkAfter(s, q)
  {
    hide InQuotes, MarkAfter, NextMark;
    if s == [] {
      QuotesOfNothing(q);
    } else {
      var c, rest := s[0], s[1..];
      var n := NextMark(q, c);
      assert s == [c] + rest;
      SqueezeQuotes(rest, n);
      InQuotesConcat([c], rest, q);
      QuotesOne(c, q);
      SqueezeConcat(InQuotes([c], q), InQuotes(rest, n));
      SqueezeOne(c);
      if IsSpace(c) {
        SpacesHaveNoMarks([c]);
        assert [] + Squeeze(rest) == Squeeze(rest);
        InQuotesOf([c], q);
      } else {
        InQuotesConcat([c], Squeeze(rest), q);
      }
      NoTexts();
    }
  }

  lemma SpacesHaveNoMarks(w: bytes)
    requires AllSpaces(w)
    ensures NoMarks(w)
  {
  }

  lemma QuotesOfNothing(q: Mark)
    ensures InQuotes([], q) == [] && MarkAfter([], q) == q && Squeeze([]) == []
  {
  }

  // ----- the whitespace in quotes

  /** What is printed between c and the rest: lines says whether the text is cut into lines. */
  function GapPrinted(c: byte, w: bytes, rest: bytes, depth: int, broken: bool, lines: bool): bytes {
    if lines then OutGap(c, w, rest, depth, broken) else Gap(c, w, rest)
  }

  function Filled(s: bytes, depth: int, broken: bool, lines: bool): bytes {
    if lines then Rebuilt(s, depth, broken) else CompactFrom(s)
  }

  /** Every stretch of whitespace in quotes is the one that the printer puts there. */
  predicate QuotedGapsKept(s: bytes, depth: int, broken: bool, lines: bool, q: Mark)
    decreases |s|
  {
    s == [] ||
    (var c, w, r, n := s[0], White(s), Tail(s), NextMark(q, s[0]);
     var d := depth + Depth([c]);
     && (n != 0 ==> w == GapPrinted(c, w, r, d, broken, lines))
     && QuotedGapsKept(r, d, broken || EndsLine(c, Gap(c, w, r), d), lines, n))
  }

  lemma FilledStep(s: bytes, depth: int, broken: bool, lines: bool)
    requires s != [] && StartsWithText(s)
    ensures
      var c, w, r := s[0], White(s), Tail(s);
      var d := depth + Depth([c]);
      var b := broken || EndsLine(c, Gap(c, w, r), d);
      var o, x := GapPrinted(c, w, r, d, broken, lines), Filled(r, d, b, lines);
      && Filled(s, depth, broken, lines) == [c] + o + x && AllSpaces(o) && StartsWithText(x)
  {
    hide Depth, White, Tail, EndsLine;
    var c, w, r := s[0], White(s), Tail(s);
    var d := depth + Depth([c]);
    Parts(s);
    OutGapIsSpaces(c, w, r, d, broken);
    RebuiltStarts(r, d, broken || EndsLine(c, Gap(c, w, r), d));
    CompactFromStarts(r);
  }

  /** The quoted text is the same exactly when the whitespace in it is. */
  lemma {:induction false} QuotesKeptIff(s: bytes, depth: int, broken: bool, lines: bool, q: Mark)
    requires StartsWithText(s)
    ensures InQuotes(Filled(s, depth, broken, lines), q) == InQuotes(s, q) <==>
      QuotedGapsKept(s, depth, broken, lines, q)
    decreases |s|
  {
    hide InQuotes, Depth, White, Tail, EndsLine, Gap, GapPrinted, Filled, AllSpaces, NextMark;
    if s == [] {
      FilledNothing(depth, broken, lines);
    } else {
      var c, w, r, n := s[0], White(s), Tail(s), NextMark(q, s[0]);
      var d := depth + Depth([c]);
      var b := broken || EndsLine(c, Gap(c, w, r), d);
      var o, x := GapPrinted(c, w, r, d, broken, lines), Filled(r, d, b, lines);
      Parts(s);
      FilledStep(s, depth, broken, lines);
      QuotesKeptIff(r, d, b, lines, n);
      QuotesOfUnit(c, w, r, q);
      QuotesOfUnit(c, o, x, q);
      UnitKeptIff(InQuotes([c], q), o, w, x, r, n);
    }
  }

  lemma FilledNothing(depth: int, broken: bool, lines: bool)
    ensures Filled([], depth, broken, lines) == []
  {
  }

  lemma UnitKeptIff(front: bytes, v: bytes, w: bytes, x: bytes, r: bytes, n: Mark)
    requires AllSpaces(v) && AllSpaces(w) && StartsWithText(x) && StartsWithText(r)
    ensures
      front + (if n == 0 then [] else v) + InQuotes(x, n) == front + (if n == 0 then [] else w) + InQuotes(r, n) <==>
      (n != 0 ==> v == w) && InQuotes(x, n) == InQuotes(r, n)
  {
    hide InQuotes, AllSpaces, StartsWithText;
    var a, b := (if n == 0 then [] else v) + InQuotes(x, n), (if n == 0 then [] else w) + InQuotes(r, n);
    assert front + (if n == 0 then [] else v) + InQuotes(x, n) == front + a;
    assert front + (if n == 0 then [] else w) + InQuotes(r, n) == front + b;
    if front + a == front + b {
      PrefixAndRest(front, a);
      PrefixAndRest(front, b);
      assert a == b;
      if n != 0 {
        QuotesStart(x, n);
        QuotesStart(r, n);
        GapsAgree(v, w, InQuotes(x, n), InQuotes(r, n));
      } else {
        assert a == InQuotes(x, n) && b == InQuotes(r, n);
      }
    }
  }

  lemma {:induction false} FilledKeepsText(s: bytes, depth: int, broken: bool, lines: bool)
    requires StartsWithText(s)
    ensures Squeeze(Filled(s, depth, broken, lines)) == Squeeze(s)
    decreases |s|
  {
    hide Depth, White, Tail, EndsLine, Gap, GapPrinted, Filled, Squeeze, AllSpaces, StartsWithText;
    if s == [] {
      FilledNothing(depth, broken, lines);
    } else {
      var c, w, r := s[0], White(s), Tail(s);
      var d := depth + Depth([c]);
      var b := broken || EndsLine(c, Gap(c, w, r), d);
      var o, x := GapPrinted(c, w, r, d, broken, lines), Filled(r, d, b, lines);
      Parts(s);
      FilledStep(s, depth, broken, lines);
      FilledKeepsText(r, d, b, lines);
      SqueezeUnit(c, w, r);
      SqueezeUnit(c, o, x);
    }
  }

  lemma SqueezeUnit(c: byte, w: bytes, r: bytes)
    requires AllSpaces(w)
    ensures Squeeze([c] + w + r) == Squeeze([c]) + Squeeze(r)
  {
    hide Squeeze;
    SqueezeConcat([c] + w, r);
    SqueezeConcat([c], w);
    SqueezeSpaces(w);
  }

  lemma {:induction false} SqueezeSpaces(w: bytes)
    requires AllSpaces(w)
    ensures Squeeze(w) == []
  {
    if w != [] {
      SqueezeSpaces(w[1..]);
    }
  }

  // ----- the lines that get IF NOT EXISTS

  /** The marks at the starts of the chunks that get it. */
  function InsertedAt(chunks: seq<Chunk>, q: Mark): seq<Mark> {
    if chunks == [] then []
    else (if QuotedTable(chunks[0].text) then [q] else []) + InsertedAt(chunks[1..], MarkAfter(chunks[0].text, q))
  }

  /** The text, its whitespace compacted, starts with CREATE TABLE and a quote. */
  predicate StartsTable(s: bytes) {
    QuotedTable(CompactFrom(s))
  }

  /** The marks where a line ends and what follows starts with CREATE TABLE and a quote. */
  function TableLines(s: bytes, depth: int, q: Mark): seq<Mark>
    decreases |s|
  {
    if s == [] then []
    else
      var c, w, r, n := s[0], White(s), Tail(s), NextMark(q, s[0]);
      var d := depth + Depth([c]);
      (if EndsLine(c, Gap(c, w, r), d) && StartsTable(r) then [n] else []) + TableLines(r, d, n)
  }

  /** The same for a text as the first pass leaves it. */
  function CompactLines(t: bytes, depth: int, q: Mark): seq<Mark>
    decreases |t|
  {
    if t == [] then []
    else
      var d, n, r := depth + Depth([t[0]]), NextMark(q, t[0]), TrimStart(t[1..]);
      if BreaksAfter(t[0], d) then (if QuotedTable(r) then [n] else []) + CompactLines(r, d, n)
      else CompactLines(t[1..], d, n)
  }

  lemma CompactLinesStep(c: byte, rest: bytes, depth: int, q: Mark)
    ensures
      var d, n, r := depth + Depth([c]), NextMark(q, c), TrimStart(rest);
      CompactLines([c] + rest, depth, q) ==
        if BreaksAfter(c, d) then (if QuotedTable(r) then [n] else []) + CompactLines(r, d, n)
        else CompactLines(rest, d, n)
  {
    hide Depth, TrimStart, QuotedTable, BreaksAfter, NextMark;
    assert ([c] + rest)[1..] == rest;
  }

  lemma {:induction false} CompactLinesAre(s: bytes, depth: int, q: Mark)
    requires StartsWithText(s)
    ensures CompactLines(CompactFrom(s), depth, q) == TableLines(s, depth, q)
    decreases |s|
  {
    hide Depth, White, Tail, EndsLine, Gap, CompactFrom, CompactLines, NextMark, QuotedTable, BreaksAfter, TrimStart;
    if s == [] {
      NothingLeft();
      NoLines(depth, q);
    } else {
      var c, w, r, n := s[0], White(s), Tail(s), NextMark(q, s[0]);
      var d, g := depth + Depth([c]), Gap(c, w, r);
      Parts(s);
      CompactFromStep(s);
      CompactLinesStep(c, g + CompactFrom(r), depth, q);
      CompactLinesAre(r, d, n);
      AfterUnit(c, w, r, d, n);
    }
  }

  lemma NoLines(depth: int, q: Mark)
    ensures CompactLines([], depth, q) == []
  {
  }

  /** What follows a character and the gap after it, where the line ends or not. */
  lemma AfterUnit(c: byte, w: bytes, r: bytes, depth: int, q: Mark)
    requires !IsSpace(c) && AllSpaces(w) && StartsWithText(r)
    ensures
      var g := Gap(c, w, r);
      var rest := g + CompactFrom(r);
      (if BreaksAfter(c, depth) then
        (if QuotedTable(TrimStart(rest)) then [q] else []) + CompactLines(TrimStart(rest), depth, q)
       else CompactLines(rest, depth, q)) ==
      (if EndsLine(c, g, depth) && StartsTable(r) then [q] else []) + CompactLines(CompactFrom(r), depth, q)
  {
    hide CompactFrom, CompactLines, QuotedTable, TrimStart, Gap, AllSpaces, StartsWithText;
    if BreaksAfter(c, depth) {
      GapIsTrimmed(c, w, r);
      BrokenGap(c, w, r, depth, false);
    } else {
      NoBreak(c, depth);
      AfterGap(c, w, r, depth, q);
    }
  }

  lemma AfterGap(c: byte, w: bytes, r: bytes, depth: int, q: Mark)
    requires AllSpaces(w) && StartsWithText(r) && !(depth == 1 && (c == LP || c == COMMA))
    ensures
      var g := Gap(c, w, r);
      CompactLines(g + CompactFrom(r), depth, q) ==
        (if EndsLine(c, g, depth) && StartsTable(r) then [q] else []) + CompactLines(CompactFrom(r), depth, q)
  {
    hide CompactFrom, CompactLines, QuotedTable, TrimStart, NextMark, Depth, BreaksAfter, OutGap, Opening, AllSpaces;
    var g, t := Gap(c, w, r), CompactFrom(r);
    assert [] + CompactLines(t, depth, q) == CompactLines(t, depth, q);
    if g == [] {
      assert g + t == t;
    } else {
      GapOfSpace(c, w, r, [c], depth, false);
      hide Gap, EndsLine;
      assert g == [g[0]];
      SpaceHasNoDepth(g[0]);
      SpaceKeepsMark(g[0], q);
      TextIsTrimmed(r);
      CompactLinesStep(g[0], t, depth, q);
    }
  }

  lemma SpaceKeepsMark(x: byte, q: Mark)
    requires IsSpace(x)
    ensures NextMark(q, x) == q
  {
    assert q == 0 || IsMark(q);
  }

  /** A parenthesis, comma or line end cannot be among the first characters of CREATE TABLE and a quote. */
  lemma BreakEndsPattern(cur: bytes, c: byte, rest: bytes)
    requires IsParen(c) || c == COMMA || c == LF
    ensures QuotedTable(cur + ([c] + rest)) <==> QuotedTable(cur)
    ensures QuotedTable(cur + [c]) <==> QuotedTable(cur)
    ensures !QuotedTable([c] + rest)
  {
    var x := cur + ([c] + rest);
    if |cur| <= 13 {
      assert x[|cur|] == c && (cur + [c])[|cur|] == c;
      assert forall k | 0 <= k < 13 :: CREATE_TABLE[k] != c;
    } else {
      assert x[..13] == cur[..13] == (cur + [c])[..13] && x[13] == cur[13];
    }
    assert ([c] + rest)[0] != CREATE_TABLE[0];
  }

  lemma AtClosing(c: byte, cur: bytes, rest: bytes, depth: int, broken: bool)
    requires ClosesList(c, cur, depth, broken)
    ensures QuotedTable(cur + ([c] + rest)) <==> QuotedTable(cur)
    ensures !QuotedTable([c] + rest) && !BreaksAfter(c, depth)
  {
    hide QuotedTable;
    BreakEndsPattern(cur, c, rest);
  }

  lemma AtBreak(c: byte, cur: bytes, rest: bytes, depth: int, q: Mark)
    requires BreaksAfter(c, depth)
    ensures
      var line := if c == LF then cur else cur + [c];
      && (QuotedTable(cur + ([c] + rest)) <==> QuotedTable(line))
      && MarkAfter(line, q) == MarkAfter(cur, q) == NextMark(MarkAfter(cur, q), c)
  {
    hide QuotedTable, MarkAfter, NextMark;
    BreakEndsPattern(cur, c, rest);
    InQuotesConcat(cur, [c], q);
    QuotesOne(c, MarkAfter(cur, q));
    BreakKeepsMark(c, MarkAfter(cur, q));
  }

  /** The lines of the second pass. */
  lemma {:induction false} InsertedInSplit(rest: bytes, cur: bytes, depth: int, broken: bool, q: Mark)
    ensures InsertedAt(Split(rest, cur, depth, broken), q) ==
      (if QuotedTable(cur + rest) then [q] else []) + CompactLines(rest, depth, MarkAfter(cur, q))
    decreases |rest|
  {
    hide Depth, TrimStart, QuotedTable, Split, MarkAfter, NextMark, CompactLines, InsertedAt, ClosesList, BreaksAfter;
    var m := MarkAfter(cur, q);
    if rest == [] {
      NoLines(depth, m);
      SplitOfNothing(cur, depth, broken);
      InsertedStep(Chunk(cur, SEMI_LF), [], q);
      assert cur + [] == cur;
      assert (if QuotedTable(cur) then [q] else []) + [] == if QuotedTable(cur) then [q] else [];
    } else {
      var c, r := rest[0], rest[1..];
      var d, n := depth + Depth([c]), NextMark(m, c);
      assert rest == [c] + r;
      SplitNext(c, r, cur, depth, broken);
      CompactLinesStep(c, r, depth, m);
      if ClosesList(c, cur, d, broken) {
        AtClosing(c, cur, r, d, broken);
        QuotesOne(c, m);
        InsertedInSplit(r, [c], d, broken, m);
        InsertedStep(Chunk(cur, LF_ONLY), Split(r, [c], d, broken), q);
        assert [] + CompactLines(r, d, n) == CompactLines(r, d, n);
      } else if BreaksAfter(c, d) {
        var t := TrimStart(r);
        AtBreak(c, cur, r, d, q);
        InsertedInSplit(t, [], d, true, n);
        InsertedStep(Chunk(if c == LF then cur else cur + [c], LF_INDENT), Split(t, [], d, true), q);
        QuotesOfNothing(n);
        assert [] + t == t;
      } else {
        InsertedInSplit(r, cur + [c], d, broken, q);
        InQuotesConcat(cur, [c], q);
        QuotesOne(c, m);
        assert cur + [c] + r == cur + rest;
      }
    }
  }

  lemma InsertedStep(c: Chunk, chunks: seq<Chunk>, q: Mark)
    ensures InsertedAt([c] + chunks, q) ==
      (if QuotedTable(c.text) then [q] else []) + InsertedAt(chunks, MarkAfter(c.text, q))
    ensures chunks == [] ==> InsertedAt([c], q) == if QuotedTable(c.text) then [q] else []
  {
    hide QuotedTable, MarkAfter;
    assert ([c] + chunks)[1..] == chunks;
    assert chunks == [] ==> [c] + chunks == [c] && InsertedAt(chunks, MarkAfter(c.text, q)) == [];
  }

  lemma BreakKeepsMark(c: byte, q: Mark)
    requires c == LP || c == COMMA || c == LF
    ensures NextMark(q, c) == q
  {
    assert q == 0 || IsMark(q);
  }

  /** Where a statement of several lines gets IF NOT EXISTS. */
  lemma InsertedIs(s: bytes)
    requires !OneLine(Compact(s))
    ensures
      var t := TrimStart(s);
      InsertedAt(Chunks(s), 0) == (if StartsTable(t) then [0] else []) + TableLines(t, 0, 0)
  {
    hide TrimStart, CompactFrom, Compact, Split, QuotedTable, Chunks, OneLine, CompactLines, InsertedAt, TableLines;
    var t := TrimStart(s);
    CompactIs(s);
    StartsTrimmed(s);
    ChunksAreSplit(s);
    InsertedInSplit(Compact(s), [], 0, false, 0);
    CompactLinesAre(t, 0, 0);
    QuotesOfNothing(0);
    assert [] + Compact(s) == Compact(s);
  }

  lemma {:induction false} NoneInserted(chunks: seq<Chunk>, q: Mark)
    ensures InsertedAt(chunks, q) == [] <==> forall c | c in chunks :: !QuotedTable(c.text)
  {
    hide QuotedTable, MarkAfter;
    if chunks != [] {
      NoneInserted(chunks[1..], MarkAfter(chunks[0].text, q));
      assert chunks == [chunks[0]] + chunks[1..];
    }
  }

  /**
   * When the output is the statement itself and ";", for every statement: if it stays on one
   * line, when it is tidy and does not start with CREATE TABLE and a quote; otherwise, when
   * it is laid out as it would be and no line of it starts that way.
   */
  lemma PrintedAsItIs(s: bytes)
    ensures PrettyText(s) == s + SEMI_LF <==>
      if OneLine(Compact(s)) then Tidy(s) && !QuotedTable(s)
      else LaidOut(s) && !StartsTable(s) && TableLines(s, 0, 0) == []
  {
    hide PrettyText, Chunks, Compact, OneLine, Tidy, LaidOutFrom, QuotedTable, Insertions, StartsTable;
    hide TableLines, TrimStart, InsertedAt;
    if OneLine(Compact(s)) {
      UnchangedIff(s);
      CompactUnchangedIff(s);
    } else {
      NoInsertions(Chunks(s));
      NoneInserted(Chunks(s), 0);
      InsertedIs(s);
      StartsTrimmed(s);
      if PrettyText(s) == s + SEMI_LF {
        InsertionChanges(s);
      }
      BodyIff(s);
    }
  }

  // ----- the theorem about quoted text

  lemma LineQuotes(z: bytes, q: Mark)
    ensures MarkAfter(SchemaLine(z), q) == MarkAfter(z, q)
    ensures !QuotedTable(z) || q == 0 ==> InQuotes(SchemaLine(z), q) == InQuotes(z, q)
    ensures QuotedTable(z) && q != 0 ==> |Squeeze(InQuotes(SchemaLine(z), q))| == |Squeeze(InQuotes(z, q))| + 11
  {
    hide InQuotes, MarkAfter, Squeeze;
    if QuotedTable(z) {
      var ct, ine, r := CREATE_TABLE, IF_NOT_EXISTS, z[13..];
      assert z == ct + r;
      NoMarksInInsertion();
      InQuotesOf(ct, q);
      InQuotesOf(ine, q);
      InQuotesConcat(ct, r, q);
      InQuotesConcat(ct + ine, r, q);
      InQuotesConcat(ct, ine, q);
      if q != 0 {
        SqueezeConcat(ct, InQuotes(r, q));
        SqueezeConcat(ct + ine, InQuotes(r, q));
        SqueezeConcat(ct, ine);
        SqueezedIfNotExists();
      } else {
        assert [] + [] + InQuotes(r, q) == [] + InQuotes(r, q);
      }
    }
  }

  lemma NoMarksInInsertion()
    ensures NoMarks(CREATE_TABLE) && NoMarks(IF_NOT_EXISTS)
    ensures NoMarks(SEMI_LF) && NoMarks(LF_ONLY) && NoMarks(LF_INDENT)
  {
  }

  /** All insertions are outside of quotes. */
  predicate AllOutside(marks: seq<Mark>) {
    forall k | 0 <= k < |marks| :: marks[k] == 0
  }

  /** The quoted text of p is that of b if all insertions are outside of quotes, and longer if not. */
  ghost predicate QuotesComeTo(p: bytes, b: bytes, marks: seq<Mark>, q: Mark) {
    && MarkAfter(p, q) == MarkAfter(b, q)
    && (AllOutside(marks) ==> InQuotes(p, q) == InQuotes(b, q))
    && |Squeeze(InQuotes(p, q))| >= |Squeeze(InQuotes(b, q))| + if AllOutside(marks) then 0 else 1
  }

  /** Insertions outside of quotes leave the quoted text as it is; others make it longer. */
  lemma {:induction false} PrintedQuotes(chunks: seq<Chunk>, q: Mark)
    requires TailsOf(chunks)
    ensures QuotesComeTo(Printed(chunks), Body(chunks) + SEMI_LF, InsertedAt(chunks, q), q)
  {
    hide SchemaLine, QuotedTable, QuotesComeTo, MarkAfter;
    var c, rest := chunks[0], chunks[1..];
    var line, n := SchemaLine(c.text), MarkAfter(c.text, q);
    NoMarksInInsertion();
    if rest == [] {
      NothingPrinted(n);
      ChunkQuotes(c.text, c.tail, [], [], [], q);
      LastLine(c);
      assert chunks == [c];
    } else {
      PrintedQuotes(rest, n);
      ChunkQuotes(c.text, c.tail, Printed(rest), Body(rest) + SEMI_LF, InsertedAt(rest, n), q);
      assert c.text + c.tail + Body(rest) + SEMI_LF == c.text + c.tail + (Body(rest) + SEMI_LF);
    }
  }

  lemma LastLine(c: Chunk)
    ensures Printed([c]) == SchemaLine(c.text) + c.tail + [] && Body([c]) + c.tail == c.text + c.tail + []
  {
    hide SchemaLine;
    assert [c][1..] == [];
  }

  lemma NothingPrinted(q: Mark)
    ensures QuotesComeTo([], [], [], q)
  {
  }

  lemma AllOutsideSum(a: seq<Mark>, b: seq<Mark>)
    ensures AllOutside(a + b) <==> AllOutside(a) && AllOutside(b)
    ensures AllOutside([]) && forall q: Mark :: AllOutside([q]) <==> q == 0
  {
    forall q: Mark ensures AllOutside([q]) <==> q == 0 {
      assert [q][0] == q;
    }
    if AllOutside(a + b) {
      assert forall k | 0 <= k < |a| :: a[k] == (a + b)[k];
      assert forall k | 0 <= k < |b| :: b[k] == (a + b)[|a| + k];
    }
  }

  /** A line with its tail, before lines of which it is known. */
  lemma ChunkQuotes(text: bytes, tail: bytes, p: bytes, b: bytes, marks: seq<Mark>, q: Mark)
    requires NoMarks(tail) && QuotesComeTo(p, b, marks, MarkAfter(text, q))
    ensures QuotesComeTo(SchemaLine(text) + tail + p, text + tail + b,
      (if QuotedTable(text) then [q] else []) + marks, q)
  {
    hide InQuotes, MarkAfter, Squeeze, NoMarks, SchemaLine, QuotedTable, AllOutside;
    LineQuotes(text, q);
    PieceQuotes(SchemaLine(text), tail, p, q);
    PieceQuotes(text, tail, b, q);
    AllOutsideSum(if QuotedTable(text) then [q] else [], marks);
  }

  lemma PieceQuotes(line: bytes, tail: bytes, p: bytes, q: Mark)
    requires NoMarks(tail)
    ensures var n := MarkAfter(line, q);
      && MarkAfter(line + tail + p, q) == MarkAfter(p, n)
      && InQuotes(line + tail + p, q) == InQuotes(line, q) + InQuotes(tail, n) + InQuotes(p, n)
      && |Squeeze(InQuotes(line + tail + p, q))| ==
         |Squeeze(InQuotes(line, q))| + |Squeeze(InQuotes(tail, n))| + |Squeeze(InQuotes(p, n))|
  {
    hide InQuotes, MarkAfter, Squeeze, NoMarks;
    var n := MarkAfter(line, q);
    InQuotesConcat(line + tail, p, q);
    InQuotesConcat(line, tail, q);
    InQuotesOf(tail, n);
    SqueezeConcat(InQuotes(line, q) + InQuotes(tail, n), InQuotes(p, n));
    SqueezeConcat(InQuotes(line, q), InQuotes(tail, n));
  }

  lemma BodyIsFilled(s: bytes)
    ensures Body(Chunks(s)) == Filled(TrimStart(s), 0, false, !OneLine(Compact(s)))
  {
    hide Chunks, Compact, OneLine, Rebuilt, CompactFrom, TrimStart;
    if OneLine(Compact(s)) {
      OneChunkIff(s);
      CompactIs(s);
    } else {
      BodyIsRebuilt(s);
    }
  }

  /** A statement that stays on one line gets it at its start only. */
  lemma InsertedOutside(s: bytes)
    ensures AllOutside(InsertedAt(Chunks(s), 0)) <==>
      OneLine(Compact(s)) || AllOutside(TableLines(TrimStart(s), 0, 0))
  {
    hide Chunks, Compact, OneLine, TrimStart, QuotedTable, TableLines, StartsTable, AllOutside, MarkAfter;
    if OneLine(Compact(s)) {
      OneChunkIff(s);
      InsertedStep(Chunk(Compact(s), SEMI_LF), [], 0);
      AllOutsideSum([], []);
      assert Chunks(s) == [Chunk(Compact(s), SEMI_LF)];
    } else {
      InsertedIs(s);
      AllOutsideSum(if StartsTable(TrimStart(s)) then [0] else [], TableLines(TrimStart(s), 0, 0));
    }
  }

  lemma QuotesOfTrimmed(s: bytes)
    ensures InQuotes(s, 0) == InQuotes(TrimStart(s), 0) && MarkAfter(s, 0) == MarkAfter(TrimStart(s), 0)
  {
    hide *;
    var t := TrimStart(s);
    var w := s[..|s| - |t|];
    Trimmed(s);
    SpacesHaveNoMarks(w);
    InQuotesOf(w, 0);
    InQuotesConcat(w, t, 0);
    assert s == w + t && [] + InQuotes(t, 0) == InQuotes(t, 0);
  }

  /** The text without its insertions, up to its end. */
  lemma QuotesOfBody(t: bytes, b: bytes)
    requires Squeeze(b) == Squeeze(t)
    ensures var m := MarkAfter(t, 0);
      && |Squeeze(InQuotes(b, 0))| == |Squeeze(InQuotes(t, 0))|
      && (m == 0 ==> InQuotes(b + SEMI_LF, 0) == InQuotes(b, 0))
      && (m != 0 ==> |Squeeze(InQuotes(b + SEMI_LF, 0))| == |Squeeze(InQuotes(t, 0))| + 1)
  {
    hide InQuotes, MarkAfter, Squeeze;
    var m := MarkAfter(t, 0);
    SqueezeQuotes(b, 0);
    SqueezeQuotes(t, 0);
    InQuotesConcat(b, SEMI_LF, 0);
    NoMarksInInsertion();
    InQuotesOf(SEMI_LF, m);
    SqueezeConcat(InQuotes(b, 0), SEMI_LF);
    SqueezeTails();
    assert InQuotes(b, 0) + [] == InQuotes(b, 0);
  }

  /** The quoted text of the output: that of the text with its gaps filled, or more than that of t. */
  lemma QuotesOfChunks(chunks: seq<Chunk>, t: bytes)
    requires TailsOf(chunks) && Squeeze(Body(chunks)) == Squeeze(t)
    ensures if MarkAfter(t, 0) == 0 && AllOutside(InsertedAt(chunks, 0))
      then InQuotes(Printed(chunks), 0) == InQuotes(Body(chunks), 0)
      else InQuotes(Printed(chunks), 0) != InQuotes(t, 0)
  {
    hide InQuotes, MarkAfter, Printed, Body, Squeeze, AllOutside, InsertedAt;
    PrintedQuotes(chunks, 0);
    QuotesOfBody(t, Body(chunks));
  }

  lemma QuotesOfOutput(s: bytes)
    ensures
      var t := TrimStart(s);
      var b := Filled(t, 0, false, !OneLine(Compact(s)));
      if MarkAfter(t, 0) == 0 && AllOutside(InsertedAt(Chunks(s), 0))
      then InQuotes(PrettyText(s), 0) == InQuotes(b, 0)
      else InQuotes(PrettyText(s), 0) != InQuotes(t, 0)
  {
    assert PrettyText(s) == Printed(Chunks(s));
    hide *;
    StartsTrimmed(s);
    ChunksHaveTails(s);
    BodyIsFilled(s);
    FilledKeepsText(TrimStart(s), 0, false, !OneLine(Compact(s)));
    QuotesOfChunks(Chunks(s), TrimStart(s));
  }

  /**
   * When the quoted parts of a statement are printed as they are, for every statement: all
   * quotes are closed, every stretch of whitespace in them is the one that the printer puts
   * there, and no line that starts inside quotes gets IF NOT EXISTS.
   */
  lemma QuotedTextKept(s: bytes)
    ensures
      var t, lines := TrimStart(s), !OneLine(Compact(s));
      InQuotes(PrettyText(s), 0) == InQuotes(s, 0) <==>
        && MarkAfter(s, 0) == 0
        && QuotedGapsKept(t, 0, false, lines, 0)
        && (lines ==> AllOutside(TableLines(t, 0, 0)))
  {
    hide Chunks, Compact, OneLine, TrimStart, InQuotes, MarkAfter, QuotedGapsKept, TableLines, PrettyText;
    hide Filled, AllOutside, InsertedAt;
    StartsTrimmed(s);
    InsertedOutside(s);
    QuotesOfTrimmed(s);
    QuotesOfOutput(s);
    QuotesKeptIff(TrimStart(s), 0, false, !OneLine(Compact(s)), 0);
  }
}
