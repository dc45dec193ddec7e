// What the schema pretty-printer puts between the characters of a statement.
module PrettyLayout {
  import opened ByteStrings
  import opened CType
  import opened Pretty
  import opened PrettyUnchanged
  import opened Sequences

  // ----- the first pass, reading ahead: a character, the whitespace after it, and the rest

  predicate StartsWithText(s: bytes) {
    s == [] || !IsSpace(s[0])
  }

  predicate AllSpaces(w: bytes) {
    forall k | 0 <= k < |w| :: IsSpace(w[k])
  }

  /** What follows the first character and its whitespace. */
  function Tail(s: bytes): (r: bytes)
    requires s != []
    ensures |r| < |s| && StartsWithText(r)
  {
    TrimStart(s[1..])
  }

  /** The whitespace after the first character. */
  function White(s: bytes): bytes
    requires s != []
  {
    s[1..|s| - |Tail(s)|]
  }

  lemma {:induction false} Trimmed(s: bytes)
    ensures AllSpaces(s[..|s| - |TrimStart(s)|])
  {
    if s != [] && IsSpace(s[0]) {
      Trimmed(s[1..]);
      var n := |s| - |TrimStart(s)|;
      assert forall k | 0 < k < n :: s[..n][k] == s[1..][..n - 1][k - 1];
    }
  }

  lemma Parts(s: bytes)
    requires s != []
    ensures s == [s[0]] + White(s) + Tail(s) && AllSpaces(White(s))
  {
    Trimmed(s[1..]);
    var n := |s[1..]| - |Tail(s)|;
    assert s[1..][..n] == White(s) && s[1..] == White(s) + Tail(s);
  }

  /** What the first pass leaves of the whitespace w between c and the rest. */
  function Gap(c: byte, w: bytes, rest: bytes): bytes {
    if w == [] || c == LP || rest == [] || IsParen(rest[0]) then [] else [w[0]]
  }

  function CompactFrom(s: bytes): bytes
    decreases |s|
  {
    if s == [] then [] else [s[0]] + Gap(s[0], White(s), Tail(s)) + CompactFrom(Tail(s))
  }

  function Fold(out: bytes, s: bytes): bytes
    decreases |s|
  {
    if s == [] then out else Fold(Put(out, s[0]), s[1..])
  }

  lemma {:induction false} FoldIsPutAll(a: bytes, s: bytes)
    ensures Fold(PutAll(a), s) == PutAll(a + s)
    decreases |s|
  {
    hide Put, PutAll;
    if s == [] {
      assert a + s == a;
    } else {
      PutAllSnoc(a, s[0]);
      assert a + s == a + [s[0]] + s[1..];
      FoldIsPutAll(a + [s[0]], s[1..]);
    }
  }

  lemma {:induction false} FoldConcat(out: bytes, a: bytes, b: bytes)
    ensures Fold(out, a + b) == Fold(Fold(out, a), b)
    decreases |a|
  {
    hide Put;
    if a == [] {
      assert a + b == b;
    } else {
      assert (a + b)[1..] == a[1..] + b;
      FoldConcat(Put(out, a[0]), a[1..], b);
    }
  }

  /** Whitespace after whitespace or after ( is dropped. */
  lemma {:induction false} FoldDrops(out: bytes, w: bytes)
    requires AllSpaces(w) && out != [] && (EndsInSpace(out) || out[|out| - 1] == LP)
    ensures Fold(out, w) == out
    decreases |w|
  {
    if w != [] {
      FoldDrops(out, w[1..]);
    }
  }

  lemma FoldSpaces(out: bytes, w: bytes)
    requires AllSpaces(w) && out != [] && !EndsInSpace(out)
    ensures Fold(out, w) == out + if w == [] || out[|out| - 1] == LP then [] else [w[0]]
  {
    if w != [] {
      if out[|out| - 1] == LP {
        FoldDrops(out, w);
      } else {
        FoldDrops(out + [w[0]], w[1..]);
      }
    }
  }

  /** What is kept of whitespace until the next character is seen. */
  function Pending(c: byte, w: bytes): bytes {
    if w == [] || c == LP then [] else [w[0]]
  }

  /** A character and the whitespace after it. */
  lemma FoldUnit(out: bytes, c: byte, w: bytes, rest: bytes)
    requires !IsSpace(c) && AllSpaces(w) && (!EndsInSpace(out) || !IsParen(c))
    ensures Fold(out, [c] + w + rest) == Fold(out + [c] + Pending(c, w), rest)
  {
    hide Fold, Put;
    FoldConcat(out, [c] + w, rest);
    FoldConcat(out, [c], w);
    FoldOne(out, c);
    FoldSpaces(out + [c], w);
  }

  lemma TrimPending(out: bytes, p: bytes)
    requires !EndsInSpace(out) && (p == [] || (|p| == 1 && IsSpace(p[0])))
    ensures TrimEnd(out + p) == out
  {
    hide TrimEnd;
    TrimEndStep(out);
    TrimEndStep(out + p);
    assert p == [] ==> out + p == out;
    assert p != [] ==> (out + p)[..|out + p| - 1] == out;
  }

  lemma {:induction false} FoldIsCompactFrom(out: bytes, s: bytes)
    requires StartsWithText(s) && (!EndsInSpace(out) || (s != [] && !IsParen(s[0])))
    ensures TrimEnd(Fold(out, s)) == out + CompactFrom(s)
    decreases |s|
  {
    hide Fold, TrimEnd, White, Tail;
    if s == [] {
      FoldNothing(out);
      TrimEndStep(out);
    } else {
      var c, w, r := s[0], White(s), Tail(s);
      var o, p := out + [c], Pending(c, w);
      Parts(s);
      FoldUnit(out, c, w, r);
      if r == [] {
        FoldNothing(o + p);
        TrimPending(o, p);
        NothingLeft();
      } else if IsParen(r[0]) {
        FoldParen(o, p, r);
        FoldIsCompactFrom(o, r);
      } else {
        FoldIsCompactFrom(o + p, r);
      }
      Joined(out, c, Gap(c, w, r), CompactFrom(r));
    }
  }

  lemma NothingLeft()
    ensures CompactFrom([]) == []
  {
  }

  lemma Joined(out: bytes, c: byte, g: bytes, rest: bytes)
    ensures out + ([c] + g + rest) == out + [c] + g + rest
    ensures out + [c] + [] == out + [c] && [] + rest == rest
  {
  }

  lemma FoldNothing(out: bytes)
    ensures Fold(out, []) == out
  {
  }

  lemma FoldOne(out: bytes, c: byte)
    requires !IsSpace(c) && (!EndsInSpace(out) || !IsParen(c))
    ensures Fold(out, [c]) == out + [c]
  {
    assert [c][1..] == [];
    FoldNothing(out + [c]);
  }

  /** A parenthesis takes the place of a whitespace character before it. */
  lemma FoldParen(out: bytes, p: bytes, r: bytes)
    requires !EndsInSpace(out) && r != [] && IsParen(r[0]) && (p == [] || (|p| == 1 && IsSpace(p[0])))
    ensures Fold(out + p, r) == Fold(out, r)
  {
    assert p != [] ==> (out + p)[..|out + p| - 1] == out;
    assert p == [] ==> out + p == out;
  }

  lemma CompactIs(s: bytes)
    ensures Compact(s) == CompactFrom(TrimStart(s))
  {
    hide PutAll, TrimEnd, CompactFrom, Fold;
    var t := TrimStart(s);
    FoldIsCompactFrom([], t);
    FoldIsPutAll([], t);
    PutAllNothing();
    assert [] + t == t && [] + CompactFrom(t) == CompactFrom(t);
  }

  // ----- the second pass: what is printed between a character and the rest

  /** Whether a line ends after c, given the depth after it and the whitespace kept after it. */
  predicate EndsLine(c: byte, g: bytes, depth: int) {
    depth == 1 && (c == LP || c == COMMA || g == [LF])
  }

  function OutGap(c: byte, w: bytes, rest: bytes, depth: int, broken: bool): bytes {
    var g := Gap(c, w, rest);
    if EndsLine(c, g, depth) then LF_INDENT
    else if depth == 1 && broken && rest != [] && rest[0] == RP then LF_ONLY
    else g
  }

  /** The lines and their tails, but for the last tail. */
  function Body(chunks: seq<Chunk>): bytes {
    if chunks == [] then []
    else if |chunks| == 1 then chunks[0].text else chunks[0].text + chunks[0].tail + Body(chunks[1..])
  }

  function Rebuilt(s: bytes, depth: int, broken: bool): bytes
    decreases |s|
  {
    if s == [] then []
    else
      var c, w, r := s[0], White(s), Tail(s);
      var d := depth + Depth([c]);
      [c] + OutGap(c, w, r, d, broken) + Rebuilt(r, d, broken || EndsLine(c, Gap(c, w, r), d))
  }

  lemma BodyCons(c: Chunk, chunks: seq<Chunk>)
    requires chunks != []
    ensures Body([c] + chunks) == c.text + c.tail + Body(chunks)
  {
    assert ([c] + chunks)[1..] == chunks;
  }

  /** The line end before a closing parenthesis, which the text before it leaves to it. */
  function Opening(s: bytes, cur: bytes, depth: int, broken: bool): bytes {
    if s != [] && ClosesList(s[0], cur, depth + Depth([s[0]]), broken) then LF_ONLY else []
  }

  lemma CompactFromStarts(s: bytes)
    requires StartsWithText(s)
    ensures StartsWithText(CompactFrom(s)) && (s != [] ==> CompactFrom(s) != [] && CompactFrom(s)[0] == s[0])
  {
  }

  /** The next character of the second pass, without a line end in the same place. */
  lemma SplitNext(c: byte, rest: bytes, cur: bytes, depth: int, broken: bool)
    ensures
      var d := depth + Depth([c]);
      Split([c] + rest, cur, depth, broken) ==
        if ClosesList(c, cur, d, broken) then [Chunk(cur, LF_ONLY)] + Split(rest, [c], d, broken)
        else if BreaksAfter(c, d) then
          [Chunk(if c == LF then cur else cur + [c], LF_INDENT)] + Split(TrimStart(rest), [], d, true)
        else Split(rest, cur + [c], d, broken)
  {
    hide Depth, TrimStart, ClosesList, BreaksAfter;
    assert ([c] + rest)[1..] == rest;
  }

  lemma TrimKeepsText(rest: bytes)
    requires StartsWithText(rest)
    ensures TrimStart(rest) == rest && forall x: byte | IsSpace(x) :: TrimStart([x] + rest) == rest
  {
    forall x: byte | IsSpace(x) ensures TrimStart([x] + rest) == rest {
      assert ([x] + rest)[1..] == rest;
    }
  }

  lemma SpaceHasNoDepth(x: byte)
    requires IsSpace(x)
    ensures Depth([x]) == 0
  {
    DepthOne(x);
  }

  lemma SplitNotEmpty(rest: bytes, cur: bytes, depth: int, broken: bool)
    ensures Split(rest, cur, depth, broken) != []
  {
    hide Split;
    SplitTails(rest, cur, depth, broken);
  }

  /** The second pass over a compacted text gives the characters with what is printed between them. */
  lemma {:induction false} SplitBody(s: bytes, cur: bytes, depth: int, broken: bool)
    requires StartsWithText(s)
    ensures Body(Split(CompactFrom(s), cur, depth, broken)) ==
      cur + Opening(s, cur, depth, broken) + Rebuilt(s, depth, broken)
    decreases |s|, 0
  {
    hide Split, Depth, TrimStart, Tail, White, Gap, ClosesList, BreaksAfter, CompactFrom, Body, Opening;
    hide OutGap, EndsLine;
    if s == [] {
      SplitOfNothing(cur, depth, broken);
      assert cur + [] + [] == cur;
    } else {
      var c, w, r := s[0], White(s), Tail(s);
      var d, g, rest := depth + Depth([c]), Gap(c, w, r), CompactFrom(r);
      var o, b := OutGap(c, w, r, d, broken), broken || EndsLine(c, g, d);
      Parts(s);
      CompactFromStep(s);
      SplitNext(c, g + rest, cur, depth, broken);
      OpeningIs(s, cur, depth, broken);
      if ClosesList(c, cur, d, broken) {
        ClosedAtZero(c, cur, d, broken);
        AfterText(c, w, r, [c], d, broken);
        SplitNotEmpty(g + rest, [c], d, broken);
        BodyCons(Chunk(cur, LF_ONLY), Split(g + rest, [c], d, broken));
        Regroup(cur + LF_ONLY, [c], o, Rebuilt(r, d, b));
      } else if BreaksAfter(c, d) {
        GapIsTrimmed(c, w, r);
        SplitBody(r, [], d, true);
        SplitNotEmpty(rest, [], d, true);
        BodyCons(Chunk(cur + [c], LF_INDENT), Split(rest, [], d, true));
        BrokenGap(c, w, r, d, broken);
        NoOpening(r, d, true);
        Regroup(cur, [c], o, Rebuilt(r, d, b));
        assert [] + [] + Rebuilt(r, d, true) == Rebuilt(r, d, true) && cur + [] == cur;
      } else {
        NoBreak(c, d);
        AfterText(c, w, r, cur + [c], d, broken);
        Regroup(cur, [c], o, Rebuilt(r, d, b));
        assert cur + [] == cur;
      }
    }
  }

  lemma CompactFromStep(s: bytes)
    requires s != []
    ensures CompactFrom(s) == [s[0]] + (Gap(s[0], White(s), Tail(s)) + CompactFrom(Tail(s)))
  {
    hide Gap, White, Tail;
  }

  lemma OpeningIs(s: bytes, cur: bytes, depth: int, broken: bool)
    requires s != []
    ensures Opening(s, cur, depth, broken) ==
      if ClosesList(s[0], cur, depth + Depth([s[0]]), broken) then LF_ONLY else []
  {
    hide ClosesList, Depth;
  }

  lemma ClosedAtZero(c: byte, cur: bytes, depth: int, broken: bool)
    requires ClosesList(c, cur, depth, broken)
    ensures depth == 0
  {
  }

  lemma NoBreak(c: byte, depth: int)
    requires !BreaksAfter(c, depth)
    ensures !(depth == 1 && (c == LP || c == COMMA))
  {
  }

  lemma NoOpening(s: bytes, depth: int, broken: bool)
    ensures Opening(s, [], depth, broken) == []
  {
  }

  lemma BrokenGap(c: byte, w: bytes, r: bytes, depth: int, broken: bool)
    requires BreaksAfter(c, depth) && !IsSpace(c)
    ensures OutGap(c, w, r, depth, broken) == LF_INDENT && EndsLine(c, Gap(c, w, r), depth) && c != LF
  {
  }

  lemma SplitOfNothing(cur: bytes, depth: int, broken: bool)
    ensures CompactFrom([]) == [] && Split([], cur, depth, broken) == [Chunk(cur, SEMI_LF)]
    ensures Body([Chunk(cur, SEMI_LF)]) == cur && Opening([], cur, depth, broken) == []
  {
  }

  lemma GapIsTrimmed(c: byte, w: bytes, r: bytes)
    requires AllSpaces(w) && StartsWithText(r)
    ensures TrimStart(Gap(c, w, r) + CompactFrom(r)) == CompactFrom(r)
  {
    hide TrimStart, CompactFrom;
    CompactFromStarts(r);
    TrimKeepsText(CompactFrom(r));
    assert [] + CompactFrom(r) == CompactFrom(r);
  }

  lemma GapOfNothing(c: byte, w: bytes, r: bytes, cur: bytes, depth: int, broken: bool)
    requires Gap(c, w, r) == [] && cur != [] && !(depth == 1 && (c == LP || c == COMMA))
    ensures OutGap(c, w, r, depth, broken) == Opening(r, cur, depth, broken) && !EndsLine(c, Gap(c, w, r), depth)
  {
    DepthOne(RP);
    hide Depth;
  }

  lemma GapOfSpace(c: byte, w: bytes, r: bytes, cur: bytes, depth: int, broken: bool)
    requires Gap(c, w, r) != [] && AllSpaces(w) && !(depth == 1 && (c == LP || c == COMMA))
    ensures
      var g := Gap(c, w, r);
      && |g| == 1 && IsSpace(g[0]) && Opening(r, cur, depth, broken) == []
      && EndsLine(c, g, depth) == (depth == 1 && g[0] == LF) && BreaksAfter(g[0], depth) == EndsLine(c, g, depth)
      && OutGap(c, w, r, depth, broken) == if EndsLine(c, g, depth) then LF_INDENT else g
  {
    hide Depth;
  }

  /** After a character at which no line ends. */
  lemma {:induction false} AfterText(c: byte, w: bytes, r: bytes, cur: bytes, depth: int, broken: bool)
    requires AllSpaces(w) && StartsWithText(r) && cur != [] && !(depth == 1 && (c == LP || c == COMMA))
    ensures Body(Split(Gap(c, w, r) + CompactFrom(r), cur, depth, broken)) ==
      cur + OutGap(c, w, r, depth, broken) + Rebuilt(r, depth, broken || EndsLine(c, Gap(c, w, r), depth))
    decreases |r|, 1
  {
    hide Split, Depth, TrimStart, CompactFrom, Rebuilt, Gap, OutGap, Opening, EndsLine, ClosesList, BreaksAfter, Body;
    var g, rest := Gap(c, w, r), CompactFrom(r);
    if g == [] {
      assert g + rest == rest;
      SplitBody(r, cur, depth, broken);
      GapOfNothing(c, w, r, cur, depth, broken);
    } else {
      GapOfSpace(c, w, r, cur + g, depth, broken);
      var x := g[0];
      assert g == [x];
      SpaceHasNoDepth(x);
      SplitNext(x, rest, cur, depth, broken);
      NotClosing(x, cur, depth, broken);
      if EndsLine(c, g, depth) {
        TextIsTrimmed(r);
        SplitBody(r, [], depth, true);
        SplitNotEmpty(rest, [], depth, true);
        BodyCons(Chunk(cur, LF_INDENT), Split(rest, [], depth, true));
        NoOpening(r, depth, true);
        assert [] + [] + Rebuilt(r, depth, true) == Rebuilt(r, depth, true);
      } else {
        SplitBody(r, cur + g, depth, broken);
        assert cur + g + [] == cur + g;
      }
    }
  }

  lemma NotClosing(x: byte, cur: bytes, depth: int, broken: bool)
    requires IsSpace(x)
    ensures !ClosesList(x, cur, depth, broken)
  {
  }

  lemma TextIsTrimmed(r: bytes)
    requires StartsWithText(r)
    ensures TrimStart(CompactFrom(r)) == CompactFrom(r)
  {
    hide TrimStart, CompactFrom;
    CompactFromStarts(r);
    TrimKeepsText(CompactFrom(r));
  }

  // ----- the theorem

  /** Every stretch of whitespace is the one that the printer puts there. */
  predicate LaidOutFrom(s: bytes, depth: int, broken: bool)
    decreases |s|
  {
    s == [] ||
    (var c, w, r := s[0], White(s), Tail(s);
     var d := depth + Depth([c]);
     w == OutGap(c, w, r, d, broken) && LaidOutFrom(r, d, broken || EndsLine(c, Gap(c, w, r), d)))
  }

  predicate LaidOut(s: bytes) {
    StartsWithText(s) && LaidOutFrom(s, 0, false)
  }

  lemma OutGapIsSpaces(c: byte, w: bytes, r: bytes, depth: int, broken: bool)
    requires AllSpaces(w)
    ensures AllSpaces(OutGap(c, w, r, depth, broken))
  {
  }

  lemma {:induction false} TrimGap(w: bytes, r: bytes)
    requires AllSpaces(w) && StartsWithText(r)
    ensures TrimStart(w + r) == r
  {
    if w == [] {
      assert w + r == r;
    } else {
      assert (w + r)[1..] == w[1..] + r;
      TrimGap(w[1..], r);
    }
  }

  lemma GapsAgree(v: bytes, w: bytes, q: bytes, r: bytes)
    requires AllSpaces(v) && AllSpaces(w) && StartsWithText(q) && StartsWithText(r) && v + q == w + r
    ensures v == w && q == r
  {
    TrimGap(v, q);
    TrimGap(w, r);
    SameFront(v, w, r);
  }

  lemma UnitsAgree(c: byte, v: bytes, w: bytes, q: bytes, r: bytes)
    requires AllSpaces(v) && AllSpaces(w) && StartsWithText(q) && StartsWithText(r)
    requires [c] + v + q == [c] + w + r
    ensures v == w && q == r
  {
    assert v + q == ([c] + v + q)[1..] == ([c] + w + r)[1..] == w + r;
    GapsAgree(v, w, q, r);
  }

  lemma RebuiltStarts(s: bytes, depth: int, broken: bool)
    requires StartsWithText(s)
    ensures StartsWithText(Rebuilt(s, depth, broken))
  {
  }

  lemma {:induction false} RebuiltIff(s: bytes, depth: int, broken: bool)
    requires StartsWithText(s)
    ensures Rebuilt(s, depth, broken) == s <==> LaidOutFrom(s, depth, broken)
    decreases |s|
  {
    hide Depth, Tail, White, OutGap, Gap, EndsLine, AllSpaces, StartsWithText;
    if s != [] {
      var c, w, r := s[0], White(s), Tail(s);
      var d := depth + Depth([c]);
      var b := broken || EndsLine(c, Gap(c, w, r), d);
      var o, q := OutGap(c, w, r, d, broken), Rebuilt(r, d, b);
      Parts(s);
      RebuiltIff(r, d, b);
      OutGapIsSpaces(c, w, r, d, broken);
      RebuiltStarts(r, d, b);
      if Rebuilt(s, depth, broken) == s {
        UnitsAgree(c, o, w, q, r);
      }
    }
  }

  lemma {:induction false} PrintedIsBody(chunks: seq<Chunk>)
    requires TailsOf(chunks) && Insertions(chunks) == 0
    ensures Printed(chunks) == Body(chunks) + SEMI_LF
  {
    hide SchemaLine, QuotedTable;
    var c, rest := chunks[0], chunks[1..];
    SqueezedInsertion(c.text);
    if rest == [] {
      assert Printed([]) == [];
    } else {
      PrintedIsBody(rest);
      assert c.text + c.tail + (Body(rest) + SEMI_LF) == c.text + c.tail + Body(rest) + SEMI_LF;
    }
  }

  /** A line with IF NOT EXISTS is never what was there. */
  lemma InsertionChanges(s: bytes)
    requires PrettyText(s) == s + SEMI_LF
    ensures Insertions(Chunks(s)) == 0
  {
    hide PrettyText, Chunks, Squeeze;
    PrettyKeepsText(s);
    SqueezeConcat(s, SEMI_LF);
    SqueezeTails();
  }

  lemma PrintedIsRebuilt(s: bytes)
    ensures Insertions(Chunks(s)) == 0 && !OneLine(Compact(s)) ==>
      PrettyText(s) == Rebuilt(TrimStart(s), 0, false) + SEMI_LF
  {
    hide Chunks, Compact, Printed, Body, Insertions, Rebuilt, TrimStart, OneLine, TailsOf;
    if Insertions(Chunks(s)) == 0 && !OneLine(Compact(s)) {
      ChunksHaveTails(s);
      BodyIsRebuilt(s);
      PrintedIsBody(Chunks(s));
    }
  }

  lemma BodyIsRebuilt(s: bytes)
    requires !OneLine(Compact(s))
    ensures Body(Chunks(s)) == Rebuilt(TrimStart(s), 0, false)
  {
    hide Chunks, Split, Compact, Body, Rebuilt, TrimStart, OneLine, CompactFrom, Opening;
    var t := TrimStart(s);
    CompactIs(s);
    ChunksAreSplit(s);
    StartsTrimmed(s);
    SplitBody(t, [], 0, false);
    NoOpening(t, 0, false);
    assert [] + [] + Rebuilt(t, 0, false) == Rebuilt(t, 0, false);
  }

  lemma StartsTrimmed(s: bytes)
    ensures StartsWithText(TrimStart(s)) && (StartsWithText(s) ==> TrimStart(s) == s)
  {
  }

  lemma RebuiltAsItIs(s: bytes)
    ensures Rebuilt(TrimStart(s), 0, false) == s <==> LaidOut(s)
  {
    hide LaidOutFrom, Rebuilt, TrimStart;
    var t := TrimStart(s);
    StartsTrimmed(s);
    RebuiltStarts(t, 0, false);
    RebuiltIff(t, 0, false);
  }

  /** A statement that takes several lines is printed as it is exactly when it is laid out that way. */
  lemma BodyIff(s: bytes)
    ensures Insertions(Chunks(s)) == 0 && !OneLine(Compact(s)) ==> (PrettyText(s) == s + SEMI_LF <==> LaidOut(s))
  {
    hide *;
    if Insertions(Chunks(s)) == 0 && !OneLine(Compact(s)) {
      PrintedIsRebuilt(s);
      RebuiltAsItIs(s);
      if PrettyText(s) == s + SEMI_LF {
        SameFront(Rebuilt(TrimStart(s), 0, false), s, SEMI_LF);
      }
    }
  }

  lemma ChunksAreSplit(s: bytes)
    requires !OneLine(Compact(s))
    ensures Chunks(s) == Split(Compact(s), [], 0, false)
  {
    hide Split, Compact, Breaks;
  }
}
