// MODE_Pretty of shell_callback: a schema statement re-indented in its own buffer.
module Pretty {
  import opened ByteStrings
  import opened CStdio
  import opened CType
  import opened Options
  import opened Sequences

  const LP: byte := 40
  const RP: byte := 41
  const COMMA: byte := 44
  const SEMI_LF: bytes := [59, 10]      // ";\n"
  const LF_ONLY: bytes := [10]          // "\n"
  const LF_INDENT: bytes := [10, 32, 32] // "\n  "

  // ----- text without its whitespace

  function Squeeze(s: bytes): bytes {
    if s == [] then [] else (if IsSpace(s[0]) then [] else [s[0]]) + Squeeze(s[1..])
  }

  lemma {:induction false} SqueezeConcat(s: bytes, t: bytes)
    ensures Squeeze(s + t) == Squeeze(s) + Squeeze(t)
  {
    if s == [] {
      assert s + t == t;
    } else {
      assert (s + t)[1..] == s[1..] + t;
      SqueezeConcat(s[1..], t);
    }
  }

  lemma SqueezeOne(c: byte)
    ensures Squeeze([c]) == if IsSpace(c) then [] else [c]
  {
    assert [c][1..] == [];
  }

  lemma SqueezeSnoc(s: bytes, c: byte)
    ensures Squeeze(s + [c]) == Squeeze(s) + if IsSpace(c) then [] else [c]
  {
    hide Squeeze;
    SqueezeConcat(s, [c]);
    SqueezeOne(c);
  }

  // ----- first pass: runs of whitespace become one character, or none beside parentheses

  predicate IsParen(c: byte) {
    c == LP || c == RP
  }

  predicate EndsInSpace(s: bytes) {
    s != [] && IsSpace(s[|s| - 1])
  }

  /** The text written so far after one more character is read. */
  function Put(out: bytes, c: byte): bytes {
    if IsSpace(c) && out != [] && (EndsInSpace(out) || out[|out| - 1] == LP) then out
    else if IsParen(c) && EndsInSpace(out) then out[..|out| - 1] + [c]
    else out + [c]
  }

  function PutAll(s: bytes): bytes {
    if s == [] then [] else Put(PutAll(s[..|s| - 1]), s[|s| - 1])
  }

  function TrimStart(s: bytes): (r: bytes)
    ensures |r| <= |s| && r == s[|s| - |r|..] && (r == [] || !IsSpace(r[0]))
  {
    if s != [] && IsSpace(s[0]) then TrimStart(s[1..]) else s
  }

  function TrimEnd(s: bytes): (r: bytes)
    ensures r <= s && !EndsInSpace(r)
  {
    if EndsInSpace(s) then TrimEnd(s[..|s| - 1]) else s
  }

  function Compact(s: bytes): bytes {
    TrimEnd(PutAll(TrimStart(s)))
  }

  lemma PutKeepsText(out: bytes, c: byte)
    ensures Squeeze(Put(out, c)) == Squeeze(out) + Squeeze([c])
  {
    hide Squeeze;
    SqueezeOne(c);
    SqueezeSnoc(out, c);
    if IsParen(c) && EndsInSpace(out) {
      var front := out[..|out| - 1];
      assert out == front + [out[|out| - 1]];
      SqueezeSnoc(front, out[|out| - 1]);
      SqueezeSnoc(front, c);
    }
  }

  lemma {:induction false} PutAllKeepsText(s: bytes)
    ensures Squeeze(PutAll(s)) == Squeeze(s)
  {
    hide Put, Squeeze;
    if s == [] {
    } else {
      var front, c := s[..|s| - 1], s[|s| - 1];
      PutAllKeepsText(front);
      PutKeepsText(PutAll(front), c);
      assert s == front + [c];
      SqueezeConcat(front, [c]);
    }
  }

  lemma {:induction false} TrimStartKeepsText(s: bytes)
    ensures Squeeze(TrimStart(s)) == Squeeze(s)
  {
    if s != [] && IsSpace(s[0]) {
      TrimStartKeepsText(s[1..]);
    }
  }

  lemma {:induction false} TrimEndKeepsText(s: bytes)
    ensures Squeeze(TrimEnd(s)) == Squeeze(s)
  {
    hide Squeeze;
    if EndsInSpace(s) {
      var front := s[..|s| - 1];
      TrimEndKeepsText(front);
      assert s == front + [s[|s| - 1]];
      SqueezeSnoc(front, s[|s| - 1]);
    }
  }

  /** The first pass changes only whitespace. */
  lemma CompactKeepsText(s: bytes)
    ensures Squeeze(Compact(s)) == Squeeze(s)
  {
    hide Squeeze, PutAll, TrimStart, TrimEnd;
    TrimStartKeepsText(s);
    PutAllKeepsText(TrimStart(s));
    TrimEndKeepsText(PutAll(TrimStart(s)));
  }

  /** Whitespace stands alone, not after ( and not before a parenthesis. */
  predicate TidyAt(t: bytes, k: nat)
    requires k + 1 < |t|
  {
    && (IsSpace(t[k]) ==> !IsSpace(t[k + 1]) && !IsParen(t[k + 1]))
    && (t[k] == LP ==> !IsSpace(t[k + 1]))
  }

  predicate TidyInside(t: bytes) {
    forall k: nat | k + 1 < |t| :: TidyAt(t, k)
  }

  predicate Tidy(t: bytes) {
    TidyInside(t) && !EndsInSpace(t) && (t == [] || !IsSpace(t[0]))
  }

  lemma PutIsTidy(out: bytes, c: byte)
    requires TidyInside(out) && out != [] && !IsSpace(out[0])
    ensures TidyInside(Put(out, c)) && Put(out, c) != [] && !IsSpace(Put(out, c)[0])
  {
    var t := Put(out, c);
    forall k: nat | k + 1 < |t| ensures TidyAt(t, k) {
      if k + 1 < |out| {
        assert TidyAt(out, k);
      }
      if |out| >= 2 {
        assert TidyAt(out, |out| - 2);
      }
    }
  }

  lemma {:induction false} PutAllIsTidy(s: bytes)
    requires s == [] || !IsSpace(s[0])
    ensures TidyInside(PutAll(s)) && (s == [] <==> PutAll(s) == []) && (s != [] ==> !IsSpace(PutAll(s)[0]))
  {
    hide TidyInside;
    if s == [] {
      NothingIsTidy();
    } else if |s| == 1 {
      assert PutAll(s[..0]) == [] && [] + [s[0]] == [s[0]];
      NothingIsTidy();
      OneIsTidy(s[0]);
    } else {
      PutAllIsTidy(s[..|s| - 1]);
      PutIsTidy(PutAll(s[..|s| - 1]), s[|s| - 1]);
    }
  }

  lemma NothingIsTidy()
    ensures TidyInside([])
  {
  }

  lemma OneIsTidy(c: byte)
    ensures TidyInside([c])
  {
  }

  /** What the first pass leaves is tidy. */
  lemma CompactIsTidy(s: bytes)
    ensures Tidy(Compact(s))
  {
    var p := PutAll(TrimStart(s));
    PutAllIsTidy(TrimStart(s));
    var t := TrimEnd(p);
    forall k: nat | k + 1 < |t| ensures TidyAt(t, k) {
      assert TidyAt(p, k);
    }
  }

  lemma {:induction false} TidyStays(t: bytes, n: nat)
    requires TidyInside(t) && n <= |t|
    ensures PutAll(t[..n]) == t[..n]
  {
    if n > 0 {
      TidyStays(t, n - 1);
      assert t[..n][..n - 1] == t[..n - 1];
      assert t[..n] == t[..n - 1] + [t[n - 1]];
      if n > 1 {
        assert TidyAt(t, n - 2);
      }
    }
  }

  /** A second run of the first pass changes nothing. */
  lemma CompactTwice(s: bytes)
    ensures Compact(Compact(s)) == Compact(s)
  {
    var t := Compact(s);
    CompactIsTidy(s);
    TidyStays(t, |t|);
    assert t[..|t|] == t;
    assert TrimStart(t) == t;
  }

  // ----- second pass: the lines of a long statement

  datatype Chunk = Chunk(text: bytes, tail: bytes)

  function Depth(s: bytes): int {
    if s == [] then 0
    else Depth(s[..|s| - 1]) + (if s[|s| - 1] == LP then 1 else if s[|s| - 1] == RP then -1 else 0)
  }

  /** Whether c, read after cur, starts the line that closes the outermost parentheses. */
  predicate ClosesList(c: byte, cur: bytes, depth: int, broken: bool) {
    c == RP && broken && depth == 0 && cur != []
  }

  predicate BreaksAfter(c: byte, depth: int) {
    depth == 1 && (c == LP || c == COMMA || c == LF)
  }

  /**
   * The chunks of cur + rest, where cur is read already, depth counts the parentheses
   * open before rest and broken says whether a line was broken directly inside the
   * outermost parentheses. Quotes play no part.
   */
  function Split(rest: bytes, cur: bytes, depth: int, broken: bool): seq<Chunk>
    decreases |rest|
  {
    if rest == [] then [Chunk(cur, SEMI_LF)]
    else
      var c := rest[0];
      var d := depth + Depth([c]);
      if ClosesList(c, cur, d, broken) then
        [Chunk(cur, LF_ONLY)] + Split(rest[1..], [c], d, broken)
      else if BreaksAfter(c, d) then
        [Chunk(if c == LF then cur else cur + [c], LF_INDENT)] + Split(TrimStart(rest[1..]), [], d, true)
      else
        Split(rest[1..], cur + [c], d, broken)
  }

  function Chunks(s: bytes): seq<Chunk> {
    var t := Compact(s);
    if StrLen30(t) >= 79 then Split(t, [], 0, false) else [Chunk(t, SEMI_LF)]
  }

  /** The texts of the chunks, one after the other. */
  function Texts(chunks: seq<Chunk>): bytes {
    if chunks == [] then [] else chunks[0].text + Texts(chunks[1..])
  }

  lemma TextsCons(c: Chunk, chunks: seq<Chunk>)
    ensures Texts([c] + chunks) == c.text + Texts(chunks)
  {
    assert ([c] + chunks)[1..] == chunks;
  }

  lemma SqueezedLine(c: byte, cur: bytes)
    ensures Squeeze(if c == LF then cur else cur + [c]) == Squeeze(cur) + Squeeze([c])
  {
    hide Squeeze;
    SqueezeConcat(cur, [c]);
    SqueezeOne(c);
  }

  /** No text is lost, added or moved when a statement is cut into chunks. */
  lemma {:induction false} SplitKeepsText(rest: bytes, cur: bytes, depth: int, broken: bool)
    ensures Squeeze(Texts(Split(rest, cur, depth, broken))) == Squeeze(cur) + Squeeze(rest)
    decreases |rest|
  {
    hide Squeeze, Texts, Depth, TrimStart, ClosesList, BreaksAfter;
    if rest == [] {
      TextsCons(Chunk(cur, SEMI_LF), []);
      NoTexts();
      assert cur + [] == cur && [Chunk(cur, SEMI_LF)] + [] == [Chunk(cur, SEMI_LF)];
    } else {
      var c := rest[0];
      var d := depth + Depth([c]);
      assert rest == [c] + rest[1..];
      SqueezeConcat([c], rest[1..]);
      if ClosesList(c, cur, d, broken) {
        var after := Split(rest[1..], [c], d, broken);
        SplitKeepsText(rest[1..], [c], d, broken);
        TextsCons(Chunk(cur, LF_ONLY), after);
        SqueezeConcat(cur, Texts(after));
      } else if BreaksAfter(c, d) {
        var next := Chunk(if c == LF then cur else cur + [c], LF_INDENT);
        var after := Split(TrimStart(rest[1..]), [], d, true);
        SplitKeepsText(TrimStart(rest[1..]), [], d, true);
        TrimStartKeepsText(rest[1..]);
        TextsCons(next, after);
        SqueezeConcat(next.text, Texts(after));
        SqueezedLine(c, cur);
        NoTexts();
      } else {
        SplitKeepsText(rest[1..], cur + [c], d, broken);
        SqueezeConcat(cur, [c]);
      }
    }
  }

  lemma NoTexts()
    ensures Texts([]) == [] && Squeeze([]) == []
  {
  }

  /** Every line but the last ends directly inside the outermost parentheses. */
  lemma {:induction false} SplitAtDepthOne(rest: bytes, cur: bytes, depth: int, broken: bool, k: nat)
    requires k + 1 < |Split(rest, cur, depth, broken)|
    ensures depth - Depth(cur) + Depth(Texts(Split(rest, cur, depth, broken)[..k + 1])) == 1
    decreases |rest|
  {
    hide Depth, TrimStart, Texts;
    var all := Split(rest, cur, depth, broken);
    var c := rest[0];
    var d := depth + Depth([c]);
    DepthOne(c);
    DepthSnoc(cur, c);
    if ClosesList(c, cur, d, broken) {
      var after := Split(rest[1..], [c], d, broken);
      FirstOf(all, after, k);
      if k > 0 {
        SplitAtDepthOne(rest[1..], [c], d, broken, k - 1);
        DepthConcat(cur, Texts(after[..k]));
      }
    } else if BreaksAfter(c, d) {
      var after := Split(TrimStart(rest[1..]), [], d, true);
      FirstOf(all, after, k);
      DepthOfNothing();
      if k > 0 {
        SplitAtDepthOne(TrimStart(rest[1..]), [], d, true, k - 1);
        DepthConcat(all[0].text, Texts(after[..k]));
      }
    } else {
      SplitAtDepthOne(rest[1..], cur + [c], d, broken, k);
    }
  }

  lemma FirstOf(all: seq<Chunk>, after: seq<Chunk>, k: nat)
    requires k < |all| && all == [all[0]] + after
    ensures Texts(all[..k + 1]) == all[0].text + Texts(after[..k])
    ensures k == 0 ==> Texts(all[..k + 1]) == all[0].text
  {
    assert all[..k + 1] == [all[0]] + after[..k];
    TextsCons(all[0], after[..k]);
  }

  lemma DepthOfNothing()
    ensures Depth([]) == 0
  {
  }

  lemma DepthOne(c: byte)
    ensures Depth([c]) == if c == LP then 1 else if c == RP then -1 else 0
  {
    assert [c][..0] == [];
  }

  lemma DepthSnoc(s: bytes, c: byte)
    ensures Depth(s + [c]) == Depth(s) + Depth([c])
  {
    assert (s + [c])[..|s|] == s;
    DepthOne(c);
  }

  lemma {:induction false} DepthConcat(s: bytes, t: bytes)
    ensures Depth(s + t) == Depth(s) + Depth(t)
    decreases |t|
  {
    if t == [] {
      assert s + t == s;
    } else {
      assert (s + t)[..|s + t| - 1] == s + t[..|t| - 1];
      DepthConcat(s, t[..|t| - 1]);
    }
  }

  /** In the output of a statement, every line but the last ends inside exactly one open parenthesis. */
  lemma LinesBreakAtDepthOne(s: bytes, k: nat)
    requires k + 1 < |Chunks(s)|
    ensures Depth(Texts(Chunks(s)[..k + 1])) == 1
  {
    hide Compact;
    SplitAtDepthOne(Compact(s), [], 0, false, k);
  }

  // ----- printing

  const CREATE_TABLE: bytes := [67, 82, 69, 65, 84, 69, 32, 84, 65, 66, 76, 69, 32]    // "CREATE TABLE "
  const IF_NOT_EXISTS: bytes := [73, 70, 32, 78, 79, 84, 32, 69, 88, 73, 83, 84, 83, 32]  // "IF NOT EXISTS "

  /** The GLOB pattern CREATE TABLE ['"]*. */
  predicate QuotedTable(z: bytes) {
    CREATE_TABLE <= z && |z| > 13 && (z[13] == 39 || z[13] == 34)
  }

  function SchemaLine(z: bytes): bytes {
    if QuotedTable(z) then CREATE_TABLE + IF_NOT_EXISTS + z[13..] else z
  }

  function Printed(chunks: seq<Chunk>): bytes {
    if chunks == [] then [] else SchemaLine(chunks[0].text) + chunks[0].tail + Printed(chunks[1..])
  }

  lemma PrintedCons(c: Chunk, chunks: seq<Chunk>)
    ensures Printed([c] + chunks) == SchemaLine(c.text) + c.tail + Printed(chunks)
  {
    assert ([c] + chunks)[1..] == chunks;
  }

  /** The tails: a line end, perhaps an indent, and ";" at the very end. */
  predicate TailsOf(chunks: seq<Chunk>) {
    && chunks != []
    && chunks[|chunks| - 1].tail == SEMI_LF
    && forall k | 0 <= k < |chunks| - 1 :: chunks[k].tail == LF_ONLY || chunks[k].tail == LF_INDENT
  }

  lemma LastTail(text: bytes)
    ensures TailsOf([Chunk(text, SEMI_LF)])
  {
  }

  lemma TailsCons(c: Chunk, chunks: seq<Chunk>)
    requires TailsOf(chunks) && (c.tail == LF_ONLY || c.tail == LF_INDENT)
    ensures TailsOf([c] + chunks)
  {
  }

  lemma {:induction false} SplitTails(rest: bytes, cur: bytes, depth: int, broken: bool)
    ensures TailsOf(Split(rest, cur, depth, broken))
    decreases |rest|
  {
    hide Depth, TrimStart, TailsOf, ClosesList, BreaksAfter;
    LastTail(cur);
    if rest != [] {
      var c := rest[0];
      var d := depth + Depth([c]);
      if ClosesList(c, cur, d, broken) {
        SplitTails(rest[1..], [c], d, broken);
        TailsCons(Chunk(cur, LF_ONLY), Split(rest[1..], [c], d, broken));
      } else if BreaksAfter(c, d) {
        SplitTails(TrimStart(rest[1..]), [], d, true);
        TailsCons(Chunk(if c == LF then cur else cur + [c], LF_INDENT), Split(TrimStart(rest[1..]), [], d, true));
      } else {
        SplitTails(rest[1..], cur + [c], d, broken);
      }
    }
  }

  lemma SqueezeTails()
    ensures Squeeze(LF_ONLY) == [] && Squeeze(LF_INDENT) == [] && Squeeze(SEMI_LF) == [59]
  {
    assert LF_INDENT[1..][1..] == [32];
  }

  /** The lines as they are printed, one after the other, without their tails. */
  function Lines(chunks: seq<Chunk>): bytes {
    if chunks == [] then [] else SchemaLine(chunks[0].text) + Lines(chunks[1..])
  }

  /** How many chunks get IF NOT EXISTS. */
  function Insertions(chunks: seq<Chunk>): nat {
    if chunks == [] then 0 else (if QuotedTable(chunks[0].text) then 1 else 0) + Insertions(chunks[1..])
  }

  lemma SqueezedInsertion(z: bytes)
    ensures QuotedTable(z) ==> |Squeeze(SchemaLine(z))| == |Squeeze(z)| + 11
    ensures !QuotedTable(z) ==> SchemaLine(z) == z
  {
    if QuotedTable(z) {
      var ct, ine := CREATE_TABLE, IF_NOT_EXISTS;
      assert z == ct + z[13..];
      SqueezeConcat(ct, z[13..]);
      SqueezeConcat(ct + ine, z[13..]);
      SqueezeConcat(ct, ine);
      SqueezedIfNotExists();
    }
  }

  lemma {:induction false} NothingToSqueeze(w: bytes)
    requires forall k | 0 <= k < |w| :: !IsSpace(w[k])
    ensures Squeeze(w) == w
  {
    if w != [] {
      NothingToSqueeze(w[1..]);
    }
  }

  lemma SqueezedWord(w: bytes)
    requires forall k | 0 <= k < |w| :: !IsSpace(w[k])
    ensures |Squeeze(w + [32])| == |w|
  {
    NothingToSqueeze(w);
    SqueezeSnoc(w, 32);
  }

  lemma SqueezedIfNotExists()
    ensures |Squeeze(IF_NOT_EXISTS)| == 11
  {
    hide Squeeze;
    var a: bytes, b: bytes, c: bytes := [73, 70], [78, 79, 84], [69, 88, 73, 83, 84, 83];
    assert IF_NOT_EXISTS == (a + [32]) + (b + [32]) + (c + [32]);
    SqueezedWord(a);
    SqueezedWord(b);
    SqueezedWord(c);
    SqueezeConcat((a + [32]) + (b + [32]), c + [32]);
    SqueezeConcat(a + [32], b + [32]);
  }

  lemma {:induction false} PrintedIsLines(chunks: seq<Chunk>)
    requires TailsOf(chunks)
    ensures Squeeze(Printed(chunks)) == Squeeze(Lines(chunks)) + [59]
  {
    hide Squeeze, SchemaLine;
    var c, rest := chunks[0], chunks[1..];
    var line := SchemaLine(c.text);
    SqueezeTails();
    SqueezeConcat(line, c.tail);
    SqueezeConcat(line + c.tail, Printed(rest));
    SqueezeConcat(line, Lines(rest));
    NoTexts();
    if rest != [] {
      PrintedIsLines(rest);
    }
  }

  lemma {:induction false} LinesLength(chunks: seq<Chunk>)
    ensures |Squeeze(Lines(chunks))| == |Squeeze(Texts(chunks))| + 11 * Insertions(chunks)
  {
    hide Squeeze, SchemaLine, QuotedTable;
    if chunks != [] {
      var c, rest := chunks[0], chunks[1..];
      LinesLength(rest);
      SqueezedInsertion(c.text);
      SqueezeConcat(c.text, Texts(rest));
      SqueezeConcat(SchemaLine(c.text), Lines(rest));
    }
  }

  lemma {:induction false} LinesAreTexts(chunks: seq<Chunk>)
    requires Insertions(chunks) == 0
    ensures Lines(chunks) == Texts(chunks)
  {
    if chunks != [] {
      LinesAreTexts(chunks[1..]);
    }
  }

  /** The output of .schema --indent for a statement that is not a view or a trigger. */
  function PrettyText(s: bytes): bytes {
    Printed(Chunks(s))
  }

  /**
   * Apart from whitespace the lines are the statement, and what is printed is the lines,
   * each with its IF NOT EXISTS, and a semicolon; that is the statement and a semicolon
   * exactly when no line starts with CREATE TABLE and a quoted name.
   */
  lemma PrettyKeepsText(s: bytes)
    ensures Squeeze(Texts(Chunks(s))) == Squeeze(s)
    ensures Squeeze(PrettyText(s)) == Squeeze(Lines(Chunks(s))) + [59]
    ensures Squeeze(PrettyText(s)) == Squeeze(s) + [59] <==> forall c | c in Chunks(s) :: !QuotedTable(c.text)
    ensures |Squeeze(PrettyText(s))| == |Squeeze(s)| + 1 + 11 * Insertions(Chunks(s))
  {
    hide Squeeze, Compact, Split, Texts, Printed, QuotedTable, StrLen30;
    var t := Compact(s);
    CompactKeepsText(s);
    SplitKeepsText(t, [], 0, false);
    SplitTails(t, [], 0, false);
    NoTexts();
    TextsCons(Chunk(t, SEMI_LF), []);
    assert [Chunk(t, SEMI_LF)] + [] == [Chunk(t, SEMI_LF)] && t + [] == t;
    PrintedIsLines(Chunks(s));
    LinesLength(Chunks(s));
    if Insertions(Chunks(s)) == 0 {
      LinesAreTexts(Chunks(s));
    }
    NoInsertions(Chunks(s));
  }

  lemma {:induction false} NoInsertions(chunks: seq<Chunk>)
    ensures Insertions(chunks) == 0 <==> forall c | c in chunks :: !QuotedTable(c.text)
  {
    hide QuotedTable;
    if chunks != [] {
      NoInsertions(chunks[1..]);
      assert chunks == [chunks[0]] + chunks[1..];
    }
  }

  // ----- the code

  method PrintSchemaLine(out: OutFile, z: bytes, zTail: bytes)
    modifies out
    ensures out.text == old(out.text) + SchemaLine(z) + zTail
  {
    ghost var before := out.text;
    if QuotedTable(z) {
      Regroup(before, CREATE_TABLE, IF_NOT_EXISTS, z[13..]);
      out.PutText(CREATE_TABLE);
      out.PutText(IF_NOT_EXISTS);
      out.PutText(z[13..]);
      out.PutText(zTail);
    } else {
      out.PutText(z);
      out.PutText(zTail);
    }
  }

  /** Ends the text at n for the time of the call; s is what the buffer holds. */
  method PrintSchemaLineN(out: OutFile, z: array<byte>, n: nat, zTail: bytes, ghost s: bytes)
    requires z[..] == s && n < |s| && 0 !in s[..n]
    modifies out, z
    ensures z[..] == s && out.text == old(out.text) + SchemaLine(s[..n]) + zTail
  {
    hide SchemaLine;
    var c := z[n];
    z[n] := 0;
    assert z[..] == s[n := 0];
    assert s[n := 0][..n] == s[..n];
    CStringIs(z[..], 0, s[..n]);
    PrintSchemaLine(out, CString(z[..], 0), zTail);
    z[n] := c;
    assert z[..] == s;
  }

  /** Steps over whitespace of the buffer, which holds s and has a NUL at e. */
  method SkipSpaces(z: array<byte>, start: nat, ghost s: bytes, ghost e: nat) returns (i: nat)
    requires z[..] == s && start <= e < |s| && s[e] == 0
    ensures start <= i <= e && s[i..e] == TrimStart(s[start..e])
  {
    hide TrimStart;
    i := start;
    while IsSpace(z[i])
      invariant start <= i <= e && TrimStart(s[i..e]) == TrimStart(s[start..e])
      decreases e - i
    {
      assert z[i] == z[..][i];
      TrimAt(s, i, e);
      i := i + 1;
    }
    assert z[i] == z[..][i];
    TrimAt(s, i, e);
  }

  lemma TrimAt(s: bytes, i: nat, e: nat)
    requires i <= e < |s| && s[e] == 0
    ensures IsSpace(s[i]) ==> i < e && TrimStart(s[i..e]) == TrimStart(s[i + 1..e])
    ensures !IsSpace(s[i]) ==> TrimStart(s[i..e]) == s[i..e]
  {
    hide TrimStart;
    TrimStartStep(s[i..e]);
    if i < e {
      assert s[i..e][1..] == s[i + 1..e];
    }
  }

  lemma TrimStartStep(s: bytes)
    ensures TrimStart(s) == if s != [] && IsSpace(s[0]) then TrimStart(s[1..]) else s
  {
  }

  /** The body of the loop of the first pass, where the text written so far ends at j. */
  method WriteTidy(z: array<byte>, at: nat, c: byte) returns (j: nat)
    requires at < z.Length && (IsSpace(c) ==> at > 0)
    modifies z
    ensures 0 < j <= at + 1 && z[..j] == Put(old(z[..at]), c)
    ensures forall k | at < k < z.Length :: z[k] == old(z[k])
  {
    j := at;
    ghost var p := z[..j];
    if IsSpace(c) && (IsSpace(z[j - 1]) || z[j - 1] == LP) {
      assert p[|p| - 1] == z[j - 1];
      return;
    }
    if IsParen(c) && j > 0 && IsSpace(z[j - 1]) {
      j := j - 1;
    }
    ghost var q := z[..j];
    z[j] := c;
    j := j + 1;
    assert z[..j] == q + [c];
  }

  method TrimTrailing(z: array<byte>, at: nat) returns (j: nat)
    requires at < z.Length
    modifies z
    ensures j <= at && z[j] == 0 && z[..j] == TrimEnd(old(z[..at]))
  {
    hide TrimEnd;
    j := at;
    while j > 0 && IsSpace(z[j - 1])
      invariant j <= at && z[..] == old(z[..]) && TrimEnd(z[..j]) == TrimEnd(old(z[..at]))
    {
      TrimEndStep(z[..j]);
      assert z[..j][..j - 1] == z[..j - 1];
      j := j - 1;
    }
    TrimEndStep(z[..j]);
    ghost var r := z[..j];
    z[j] := 0;
    assert z[..j] == r;
  }

  /** The first pass. */
  method CompactInPlace(z: array<byte>) returns (j: nat)
    requires z.Length > 0 && z[z.Length - 1] == 0 && 0 !in z[..z.Length - 1]
    modifies z
    ensures j < z.Length && z[j] == 0 && 0 !in z[..j] && z[..j] == Compact(old(z[..z.Length - 1]))
  {
    hide PutAll, TrimEnd, TrimStart;
    ghost var s := z[..z.Length - 1];
    var i := SkipSpaces(z, 0, z[..], z.Length - 1);
    assert z[..][0..z.Length - 1] == s && z[..][i..z.Length - 1] == z[i..z.Length - 1];
    j := FillFrom(z, i);
    j := TrimTrailing(z, j);
    CompactHasNoNul(s);
  }

  /** The loop of the first pass. */
  method FillFrom(z: array<byte>, from: nat) returns (j: nat)
    requires from < z.Length && z[z.Length - 1] == 0 && 0 !in z[from..z.Length - 1] && !IsSpace(z[from])
    modifies z
    ensures j < z.Length && z[..j] == PutAll(old(z[from..z.Length - 1]))
  {
    hide PutAll, Put;
    ghost var t := z[from..z.Length - 1];
    assert forall k | from <= k < z.Length - 1 :: z[k] == t[k - from] && z[k] != 0;
    var i := from;
    j := 0;
    PutAllNothing();
    while z[i] != 0
      invariant from <= i < z.Length && j <= i && (i > from ==> j > 0)
      invariant z[..j] == PutAll(t[..i - from])
      invariant forall k | i <= k < z.Length :: z[k] == old(z[k])
      decreases z.Length - i
    {
      PutAllSnoc(t[..i - from], z[i]);
      assert t[..i + 1 - from] == t[..i - from] + [z[i]];
      var c := z[i];
      j := WriteTidy(z, j, c);
      i := i + 1;
    }
    assert t[..i - from] == t;
  }

  lemma {:induction false} PutAllHasNoNul(s: bytes)
    requires 0 !in s
    ensures 0 !in PutAll(s)
  {
    if s != [] {
      assert s == s[..|s| - 1] + [s[|s| - 1]];
      PutAllHasNoNul(s[..|s| - 1]);
    }
  }

  lemma CompactHasNoNul(s: bytes)
    requires 0 !in s
    ensures 0 !in Compact(s)
  {
    PutAllHasNoNul(TrimStart(s));
  }

  lemma PutAllNothing()
    ensures PutAll([]) == []
  {
  }

  lemma PutAllSnoc(s: bytes, c: byte)
    ensures PutAll(s + [c]) == Put(PutAll(s), c)
  {
    assert (s + [c])[..|s|] == s;
  }

  lemma TrimEndStep(s: bytes)
    ensures TrimEnd(s) == if EndsInSpace(s) then TrimEnd(s[..|s| - 1]) else s
  {
  }

  // ----- the second pass

  /** The text that is left in the buffer with c written to it. */
  function WithChar(c: byte, cur: bytes, depth: int, broken: bool): (r: bytes)
    ensures r != []
  {
    if ClosesList(c, cur, depth, broken) then [c] else cur + [c]
  }

  function LineText(c: byte, cur: bytes): bytes
    requires cur != []
  {
    if c == LF then cur[..|cur| - 1] else cur
  }

  /** What is printed for the next character, and what is left to print. */
  lemma SplitStep(rest: bytes, cur: bytes, depth: int, broken: bool)
    requires rest != []
    ensures
      var c := rest[0];
      var d := depth + Depth([c]);
      var head := if ClosesList(c, cur, d, broken) then SchemaLine(cur) + LF_ONLY else [];
      var w := WithChar(c, cur, d, broken);
      Printed(Split(rest, cur, depth, broken)) ==
        if BreaksAfter(c, d) then
          head + (SchemaLine(LineText(c, w)) + LF_INDENT + Printed(Split(TrimStart(rest[1..]), [], d, true)))
        else head + Printed(Split(rest[1..], w, d, broken))
  {
    hide SchemaLine, Depth, TrimStart, Printed;
    var c := rest[0];
    var d := depth + Depth([c]);
    if ClosesList(c, cur, d, broken) {
      PrintedCons(Chunk(cur, LF_ONLY), Split(rest[1..], [c], d, broken));
    } else if BreaksAfter(c, d) {
      var line := if c == LF then cur else cur + [c];
      PrintedCons(Chunk(line, LF_INDENT), Split(TrimStart(rest[1..]), [], d, true));
      assert LineText(c, cur + [c]) == line;
    }
  }

  /** What is printed before the character c is written. */
  function Before(c: byte, cur: bytes, depth: int, broken: bool): bytes {
    if ClosesList(c, cur, depth, broken) then SchemaLine(cur) + LF_ONLY else []
  }

  /** What is printed after it is written at the end of w. */
  function After(c: byte, w: bytes, depth: int): bytes
    requires w != []
  {
    if BreaksAfter(c, depth) then SchemaLine(LineText(c, w)) + LF_INDENT else []
  }

  function Left(c: byte, w: bytes, depth: int): bytes {
    if BreaksAfter(c, depth) then [] else w
  }

  function Unread(c: byte, s: bytes, depth: int): bytes {
    if BreaksAfter(c, depth) then TrimStart(s) else s
  }

  /** What one step prints and what it leaves to print. */
  lemma StepText(rest: bytes, cur: bytes, depth: int, broken: bool)
    requires rest != []
    ensures
      var c := rest[0];
      var d := depth + Depth([c]);
      var w := WithChar(c, cur, d, broken);
      Printed(Split(rest, cur, depth, broken)) == Before(c, cur, d, broken) + After(c, w, d)
        + Printed(Split(Unread(c, rest[1..], d), Left(c, w, d), d, broken || BreaksAfter(c, d)))
  {
    hide SchemaLine, Split, Depth, TrimStart, Printed, ClosesList, BreaksAfter, WithChar, LineText;
    SplitStep(rest, cur, depth, broken);
  }

  // In the methods below the buffer z holds s, and the text that is split ends at e.

  /** The tests on quotes and parentheses before a character is written. */
  method BeforeChar(out: OutFile, z: array<byte>, c: byte, at: nat, quote: byte, depth: int, nLine: nat, ghost s: bytes)
    returns (j: nat, cEnd: byte, nParen: int)
    requires z[..] == s && at < |s| && 0 !in s[..at] && quote in {0, 34, 39, 96, 93}
    modifies out, z
    ensures z[..] == s && cEnd in {0, 34, 39, 96, 93} && nParen == depth + Depth([c])
    ensures j == if ClosesList(c, s[..at], nParen, nLine > 0) then 0 else at
    ensures out.text == old(out.text) + Before(c, s[..at], nParen, nLine > 0)
  {
    hide SchemaLine, Depth;
    DepthOne(c);
    j, cEnd, nParen := at, quote, depth;
    if c == cEnd {
      cEnd := 0;
    } else if c == 34 || c == 39 || c == 96 {
      cEnd := c;
    } else if c == 91 {
      cEnd := 93;
    } else if c == LP {
      nParen := nParen + 1;
    } else if c == RP {
      nParen := nParen - 1;
      if nLine > 0 && nParen == 0 && j > 0 {
        PrintSchemaLineN(out, z, j, LF_ONLY, s);
        j := 0;
      }
    }
  }

  /** The first half of the step: everything up to z[j++] = c. */
  method WriteChar(out: OutFile, z: array<byte>, c: byte, at: nat, quote: byte, depth: int, nLine: nat, ghost s: bytes)
    returns (j: nat, cEnd: byte, nParen: int)
    requires z[..] == s && at < |s| && c != 0 && 0 !in s[..at] && quote in {0, 34, 39, 96, 93}
    modifies out, z
    ensures 0 < j <= at + 1 && cEnd in {0, 34, 39, 96, 93} && nParen == depth + Depth([c])
    ensures z[..] == s[j - 1 := c] && s[j - 1 := c][..j] == WithChar(c, s[..at], nParen, nLine > 0)
    ensures out.text == old(out.text) + Before(c, s[..at], nParen, nLine > 0)
  {
    hide *;
    j, cEnd, nParen := BeforeChar(out, z, c, at, quote, depth, nLine, s);
    WithCharIs(c, s[..at], nParen, nLine > 0, j);
    z[j] := c;
    assert z[..] == s[j := c];
    assert s[j := c][..j + 1] == s[..at][..j] + [c];
    j := j + 1;
  }

  lemma WithCharIs(c: byte, cur: bytes, depth: int, broken: bool, j: nat)
    requires j == if ClosesList(c, cur, depth, broken) then 0 else |cur|
    ensures cur[..j] + [c] == WithChar(c, cur, depth, broken)
  {
  }

  lemma AfterCases(c: byte, w: bytes, s: bytes, depth: int)
    requires w != []
    ensures BreaksAfter(c, depth) <==> depth == 1 && (c == LP || c == COMMA || c == LF)
    ensures BreaksAfter(c, depth) ==>
      && After(c, w, depth) == SchemaLine(LineText(c, w)) + LF_INDENT
      && Left(c, w, depth) == [] && Unread(c, s, depth) == TrimStart(s)
    ensures !BreaksAfter(c, depth) ==> After(c, w, depth) == [] && Left(c, w, depth) == w && Unread(c, s, depth) == s
  {
    hide SchemaLine, LineText, TrimStart;
  }

  /** Prints the text up to at, without a line end that it ends in. */
  method BreakLine(out: OutFile, z: array<byte>, c: byte, at: nat, ghost s: bytes)
    requires z[..] == s && 0 < at < |s| && 0 !in s[..at]
    modifies out, z
    ensures z[..] == s && out.text == old(out.text) + (SchemaLine(LineText(c, s[..at])) + LF_INDENT)
  {
    hide SchemaLine;
    Associative(out.text, SchemaLine(LineText(c, s[..at])), LF_INDENT);
    var j := at;
    if c == LF {
      j := j - 1;
    }
    assert s[..j] == LineText(c, s[..at]);
    PrintSchemaLineN(out, z, j, LF_INDENT, s);
  }

  /** A line break after c, which stands at at - 1; goes on before the next character that is not whitespace. */
  method BreakAndSkip(out: OutFile, z: array<byte>, c: byte, start: nat, at: nat, ghost s: bytes, ghost e: nat)
    returns (i: nat)
    requires z[..] == s && 0 < at <= start + 1 <= e < |s| && 0 !in s[..at] && s[e] == 0
    modifies out, z
    ensures z[..] == s && start <= i < e && s[i + 1..e] == TrimStart(s[start + 1..e])
    ensures out.text == old(out.text) + (SchemaLine(LineText(c, s[..at])) + LF_INDENT)
  {
    hide *;
    BreakLine(out, z, c, at, s);
    var next := SkipSpaces(z, start + 1, s, e);
    i := next - 1;
    assert i + 1 == next;
  }

  /** The second half of the step: a line break after c at at - 1, the character at start of the input. */
  method AfterChar(out: OutFile, z: array<byte>, c: byte, start: nat, at: nat, nParen: int, nLine: nat,
      ghost s: bytes, ghost e: nat)
    returns (i: nat, j: nat, n: nat)
    requires z[..] == s && 0 < at <= start + 1 <= e < |s| && 0 !in s[..at] && s[e] == 0
    modifies out, z
    ensures z[..] == s && start <= i < e && j <= at
    ensures out.text == old(out.text) + After(c, s[..at], nParen)
    ensures s[..j] == Left(c, s[..at], nParen) && s[i + 1..e] == Unread(c, s[start + 1..e], nParen)
    ensures n > 0 <==> nLine > 0 || BreaksAfter(c, nParen)
  {
    hide *;
    AfterCases(c, s[..at], s[start + 1..e], nParen);
    i, j, n := start, at, nLine;
    if nParen == 1 && (c == LP || c == COMMA || c == LF) {
      i := BreakAndSkip(out, z, c, start, at, s, e);
      j := 0;
      n := n + 1;
    }
  }

  /** The second pass: prints all lines but the last, which it leaves in z[..j]. */
  method SplitLines(out: OutFile, z: array<byte>, ghost e: nat) returns (j: nat)
    requires e < z.Length && z[e] == 0 && 0 !in z[..e]
    modifies out, z
    ensures j < z.Length && z[j] == 0 && 0 !in z[..j]
    ensures out.text + SchemaLine(z[..j]) + SEMI_LF == old(out.text + Printed(Split(z[..e], [], 0, false)))
  {
    hide SchemaLine, Split, Depth, TrimStart, Printed, ClosesList, BreaksAfter;
    ghost var s := z[..];
    ghost var all := out.text + Printed(Split(z[..e], [], 0, false));
    assert s[0..e] == z[..e] && s[..0] == [];
    var cEnd: byte, nParen, nLine: nat, i: nat := 0, 0, 0, 0;
    j := 0;
    while z[i] != 0
      invariant z[..] == s && j <= i <= e && cEnd in {0, 34, 39, 96, 93}
      invariant s[e] == 0 && 0 !in s[i..e] && 0 !in s[..j]
      invariant all == out.text + Printed(Split(s[i..e], s[..j], nParen, nLine > 0))
      decreases e - i
    {
      assert s[i] == z[i];
      j, cEnd, nParen, i, nLine, s := SplitChar(out, z, j, cEnd, nParen, i, nLine, s, e);
    }
    assert s[i] == z[i];
    NulOrEnd(s, i, e);
    assert s[i..e] == [];
    SplitEnd(s[..j], nParen, nLine > 0);
    z[j] := 0;
    assert z[..j] == s[..j];
  }

  lemma SplitEnd(cur: bytes, depth: int, broken: bool)
    ensures Printed(Split([], cur, depth, broken)) == SchemaLine(cur) + SEMI_LF
  {
    var chunks := [Chunk(cur, SEMI_LF)];
    assert chunks[1..] == [];
  }

  lemma NoNulWithChar(c: byte, cur: bytes, depth: int, broken: bool)
    requires c != 0 && 0 !in cur
    ensures 0 !in WithChar(c, cur, depth, broken)
  {
  }

  /** The body of the loop of the second pass: the character at start, with s[..at] not printed yet. */
  method SplitChar(out: OutFile, z: array<byte>, at: nat, quote: byte, depth: int, start: nat, lines: nat,
      ghost s: bytes, ghost e: nat)
    returns (j: nat, cEnd: byte, nParen: int, i: nat, nLine: nat, ghost s': bytes)
    requires z[..] == s && at <= start < e < |s| && quote in {0, 34, 39, 96, 93}
    requires s[e] == 0 && s[start] != 0 && 0 !in s[start..e] && 0 !in s[..at]
    modifies out, z
    ensures z[..] == s' && |s'| == |s| && j <= i <= e && start < i && cEnd in {0, 34, 39, 96, 93}
    ensures s'[e] == 0 && 0 !in s'[i..e] && 0 !in s'[..j]
    ensures out.text + Printed(Split(s'[i..e], s'[..j], nParen, nLine > 0))
         == old(out.text) + Printed(Split(s[start..e], s[..at], depth, lines > 0))
  {
    hide *;
    ghost var cur, rest := s[..at], s[start..e];
    var c := z[start];
    assert c == s[start] == rest[0];
    StepText(rest, cur, depth, lines > 0);
    j, cEnd, nParen := WriteChar(out, z, c, at, quote, depth, lines, s);
    NoNulWithChar(c, cur, nParen, lines > 0);
    s' := s[j - 1 := c];
    assert s'[start + 1..e] == rest[1..];
    i, j, nLine := AfterChar(out, z, c, start, j, nParen, lines, s', e);
    i := i + 1;
    assert s'[i..e] == rest[i - start..];
    NoNulLater(rest, i - start);
    ghost var b, w := lines > 0, WithChar(c, cur, nParen, lines > 0);
    Regroup(old(out.text), Before(c, cur, nParen, b), After(c, w, nParen),
      Printed(Split(Unread(c, rest[1..], nParen), Left(c, w, nParen), nParen, b || BreaksAfter(c, nParen))));
  }

  // ----- the whole of MODE_Pretty

  function ToUpper(c: byte): byte {
    if 97 <= c <= 122 then c - 32 else c
  }

  /** The LIKE pattern p%, which ignores the case of ASCII letters; p is in upper case. */
  predicate StartsLike(s: bytes, p: bytes) {
    |p| <= |s| && forall k | 0 <= k < |p| :: ToUpper(s[k]) == p[k]
  }

  const CREATE_VIEW: bytes := [67, 82, 69, 65, 84, 69, 32, 86, 73, 69, 87]
  const CREATE_TRIG: bytes := [67, 82, 69, 65, 84, 69, 32, 84, 82, 73, 71]

  predicate IsViewOrTrigger(s: bytes) {
    StartsLike(s, CREATE_VIEW) || StartsLike(s, CREATE_TRIG)
  }

  /** The output for a row of MODE_Pretty; a NULL prints nothing. */
  function PrettyRow(arg: Option<bytes>): bytes {
    if arg == None then []
    else if IsViewOrTrigger(arg.value) then arg.value + SEMI_LF
    else PrettyText(arg.value)
  }

  method ShowPretty(out: OutFile, arg: Option<bytes>)
    requires arg.Some? ==> 0 !in arg.value
    modifies out
    ensures out.text == old(out.text) + PrettyRow(arg)
  {
    hide IsViewOrTrigger, Compact, SchemaLine, Printed, Split;
    if arg == None {
      return;
    }
    var s := arg.value;
    if IsViewOrTrigger(s) {
      out.PutText(s);
      out.PutText(SEMI_LF);
      return;
    }
    var z := new byte[|s| + 1](k => if 0 <= k < |s| then s[k] else 0);
    assert z[..z.Length - 1] == s;
    var j := CompactInPlace(z);
    var t := z[..j];
    if StrLen30(t) >= 79 {
      j := SplitLines(out, z, j);
    }
    OneChunk(t);
    assert z[..][..j] == z[..j];
    CStringIs(z[..], 0, z[..j]);
    PrintSchemaLine(out, CString(z[..], 0), SEMI_LF);
  }

  lemma OneChunk(t: bytes)
    ensures Printed([Chunk(t, SEMI_LF)]) == SchemaLine(t) + SEMI_LF
  {
    PrintedCons(Chunk(t, SEMI_LF), []);
    assert [Chunk(t, SEMI_LF)] + [] == [Chunk(t, SEMI_LF)];
  }
}
