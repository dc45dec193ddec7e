// output_quoted_string: a string as an SQL expression, with line ends as char(10) and
// char(13), and the evaluation of such expressions.
module SqlQuote {
  import opened ByteStrings
  import opened CStdio
  import opened Options
  import opened Sequences

  const Q: byte := 39

  const CONCAT: bytes := [124, 124]    // ||

  /** char(10) or char(13). */
  function CharCall(c: byte): bytes
    requires c == LF || c == CR
  {
    [99, 104, 97, 114, 40, 49] + [if c == LF then 48 else 51] + [41]
  }

  predicate IsLineEnd(c: byte) {
    c == LF || c == CR
  }

  // ----- evaluation of literals and char() calls joined by ||

  /** At the start of a term, with the value of the terms before it. */
  function EvalTerm(s: bytes, acc: bytes): Option<bytes>
    decreases |s|
  {
    if s != [] && s[0] == '\'' as int then EvalLiteral(s[1..], acc)
    else if IsCall(s) then EvalNumber(s[5..], 0, false, acc)
    else None
  }

  /** The text "char(". */
  predicate IsCall(s: bytes) {
    && |s| >= 5 && s[0] == 'c' as int && s[1] == 'h' as int && s[2] == 'a' as int && s[3] == 'r' as int
    && s[4] == '(' as int
  }

  /** Inside the parentheses of char(), after digits of value n: the number of one ASCII character. */
  function EvalNumber(s: bytes, n: nat, anyDigit: bool, acc: bytes): Option<bytes>
    decreases |s|
  {
    if s == [] then None
    else if '0' as int <= s[0] <= '9' as int then EvalNumber(s[1..], 10 * n + (s[0] - '0' as int), true, acc)
    else if s[0] == ')' as int && anyDigit && n < 128 then EvalRest(s[1..], acc + [n])
    else None
  }

  /** Inside a literal: two quotes stand for one, a single quote ends it. */
  function EvalLiteral(s: bytes, acc: bytes): Option<bytes>
    decreases |s|
  {
    if s == [] then None
    else if s[0] != '\'' as int then EvalLiteral(s[1..], acc + [s[0]])
    else if |s| > 1 && s[1] == '\'' as int then EvalLiteral(s[2..], acc + ['\'' as int])
    else EvalRest(s[1..], acc)
  }

  /** After a term. */
  function EvalRest(s: bytes, acc: bytes): Option<bytes>
    decreases |s|
  {
    if s == [] then Some(acc)
    else if |s| > 1 && s[0] == '|' as int && s[1] == '|' as int then EvalTerm(s[2..], acc)
    else None
  }

  function Eval(s: bytes): Option<bytes> {
    EvalTerm(s, [])
  }

  // ----- what is printed

  /** What comes before a character: the end of a literal, ||, or the start of a literal. */
  function Lead(c: byte, inQuote: bool, bStarted: bool): bytes {
    if IsLineEnd(c) then (if inQuote then [Q] else []) + (if bStarted then CONCAT else [])
    else Opening(inQuote, bStarted)
  }

  function Opening(inQuote: bool, bStarted: bool): bytes {
    if inQuote then [] else (if bStarted then CONCAT else []) + [Q]
  }

  function Piece(c: byte): bytes {
    if IsLineEnd(c) then CharCall(c) else if c == Q then [Q, Q] else [c]
  }

  /** The output for the rest z of the string, given whether a literal is open and whether a term was printed. */
  function Emit(z: bytes, inQuote: bool, bStarted: bool): bytes {
    if z == [] then (if inQuote then [Q] else [])
    else Lead(z[0], inQuote, bStarted) + Piece(z[0]) + Emit(z[1..], !IsLineEnd(z[0]), true)
  }

  function QuotedSql(z: bytes): bytes {
    if z == [] then [Q, Q] else Emit(z, false, false)
  }

  // ----- evaluating what is printed

  lemma ConcatStep(s: bytes, acc: bytes)
    ensures EvalRest(CONCAT + s, acc) == EvalTerm(s, acc)
  {
    assert (CONCAT + s)[2..] == s;
  }

  lemma CharStep(c: byte, s: bytes, acc: bytes)
    requires IsLineEnd(c)
    ensures EvalTerm(CharCall(c) + s, acc) == EvalRest(s, acc + [c])
  {
    var t := CharCall(c) + s;
    var d := t[6];
    assert t[5..] == [49, d, 41] + s;
    NumberStep(d, s, acc);
  }

  lemma NumberStep(d: byte, s: bytes, acc: bytes)
    requires 48 <= d <= 57
    ensures EvalNumber([49, d, 41] + s, 0, false, acc) == EvalRest(s, acc + [d - 38])
  {
    hide EvalNumber;
    assert [49, d, 41] + s == [49] + ([d] + ([41] + s));
    DigitStep(49, [d] + ([41] + s), 0, false, acc);
    DigitStep(d, [41] + s, 1, true, acc);
    CallEnds(s, d - 38, acc);
  }

  lemma DigitStep(d: byte, s: bytes, n: nat, anyDigit: bool, acc: bytes)
    requires 48 <= d <= 57
    ensures EvalNumber([d] + s, n, anyDigit, acc) == EvalNumber(s, 10 * n + (d - 48), true, acc)
  {
    assert ([d] + s)[1..] == s;
  }

  lemma CallEnds(s: bytes, n: byte, acc: bytes)
    requires n < 128
    ensures EvalNumber([41] + s, n, true, acc) == EvalRest(s, acc + [n])
  {
    assert ([41] + s)[1..] == s;
  }

  lemma LiteralCharacter(c: byte, s: bytes, acc: bytes)
    ensures EvalLiteral((if c == Q then [Q, Q] else [c]) + s, acc) == EvalLiteral(s, acc + [c])
  {
    if c == Q {
      assert ([Q, Q] + s)[2..] == s;
    } else {
      assert ([c] + s)[1..] == s;
    }
  }

  lemma OpenLiteral(s: bytes, acc: bytes)
    ensures EvalTerm([Q] + s, acc) == EvalLiteral(s, acc)
  {
    assert ([Q] + s)[1..] == s;
  }

  lemma CloseAndContinue(s: bytes, acc: bytes)
    ensures EvalLiteral([Q] + (CONCAT + s), acc) == EvalTerm(s, acc)
  {
    var t := [Q] + (CONCAT + s);
    assert t[1..] == CONCAT + s && t[1] == CONCAT[0];
    ConcatStep(s, acc);
  }

  lemma EndOfExpression(acc: bytes)
    ensures EvalLiteral([Q], acc) == Some(acc) && EvalRest([], acc) == Some(acc)
  {
    assert [Q][1..] == [];
  }

  lemma LeadIs(c: byte)
    ensures Lead(c, false, true) == if IsLineEnd(c) then CONCAT else CONCAT + [Q]
    ensures Lead(c, true, true) == if IsLineEnd(c) then [Q] + CONCAT else []
    ensures Lead(c, false, false) == if IsLineEnd(c) then [] else [Q]
  {
    assert [] + CONCAT == CONCAT && [] + [Q] == [Q];
  }

  /** A character emitted inside a literal, after one, and as the first. */
  lemma EmitFirst(c: byte, more: bytes)
    ensures var tail := Piece(c) + Emit(more, !IsLineEnd(c), true);
      if IsLineEnd(c) then
        && Emit([c] + more, true, true) == [Q] + (CONCAT + tail)
        && Emit([c] + more, false, true) == CONCAT + tail
        && Emit([c] + more, false, false) == tail
      else
        && Emit([c] + more, true, true) == tail
        && Emit([c] + more, false, true) == CONCAT + ([Q] + tail)
        && Emit([c] + more, false, false) == [Q] + tail
  {
    hide *;
    LeadIs(c);
    EmitStep(c, more, true, true);
    EmitStep(c, more, false, true);
    EmitStep(c, more, false, false);
    var a, rest := Piece(c), Emit(more, !IsLineEnd(c), true);
    NothingBefore(a);
    Associative([Q] + CONCAT, a, rest);
    Associative([Q], CONCAT, a + rest);
    Associative(CONCAT, a, rest);
    Associative(CONCAT + [Q], a, rest);
    Associative(CONCAT, [Q], a + rest);
    Associative([Q], a, rest);
  }

  lemma EmitStep(c: byte, more: bytes, inQuote: bool, bStarted: bool)
    ensures Emit([c] + more, inQuote, bStarted) ==
      Lead(c, inQuote, bStarted) + Piece(c) + Emit(more, !IsLineEnd(c), true)
  {
    hide Lead, Piece, IsLineEnd;
    assert ([c] + more)[1..] == more;
  }

  lemma NothingBefore(a: bytes)
    ensures [] + a == a
  {
  }

  /** After a line end, and inside or before a literal, what is emitted for z evaluates to z. */
  lemma {:induction false} EvalEmitted(z: bytes, acc: bytes)
    ensures EvalLiteral(Emit(z, true, true), acc) == Some(acc + z)
    ensures EvalRest(Emit(z, false, true), acc) == Some(acc + z)
    decreases |z|
  {
    hide EvalTerm, EvalLiteral, EvalRest, CharCall, Emit;
    if z == [] {
      EmitEnd();
      assert acc + z == acc;
      EndOfExpression(acc);
    } else {
      var c, more := z[0], z[1..];
      assert acc + [c] + more == acc + z && z == [c] + more;
      EvalEmitted(more, acc + [c]);
      EmitFirst(c, more);
      var tail := Piece(c) + Emit(more, !IsLineEnd(c), true);
      if IsLineEnd(c) {
        CharStep(c, Emit(more, false, true), acc);
        ConcatStep(tail, acc);
        CloseAndContinue(tail, acc);
      } else {
        LiteralCharacter(c, Emit(more, true, true), acc);
        ConcatStep([Q] + tail, acc);
        OpenLiteral(tail, acc);
      }
    }
  }

  /** The printed expression is well formed and its value is the string. */
  lemma QuotedEvaluatesToItself(z: bytes)
    ensures Eval(QuotedSql(z)) == Some(z)
  {
    hide EvalTerm, EvalLiteral, EvalRest, CharCall, Emit;
    if z == [] {
      OpenLiteral([Q], []);
      EndOfExpression([]);
      assert [Q] + [Q] == [Q, Q];
    } else {
      var c, more := z[0], z[1..];
      EvalEmitted(more, [c]);
      assert [] + [c] == [c] && [c] + more == z;
      EmitFirst(c, more);
      if IsLineEnd(c) {
        CharStep(c, Emit(more, false, true), []);
      } else {
        LiteralCharacter(c, Emit(more, true, true), []);
        OpenLiteral(Piece(c) + Emit(more, true, true), []);
      }
    }
  }

  /** No line end is printed as it is. */
  lemma {:induction false} NoLineEnds(z: bytes, inQuote: bool, bStarted: bool)
    ensures 10 !in Emit(z, inQuote, bStarted) && 13 !in Emit(z, inQuote, bStarted)
    decreases |z|
  {
    if z != [] {
      NoLineEnds(z[1..], !IsLineEnd(z[0]), true);
      CleanPiece(z[0], inQuote, bStarted);
      hide Lead, Piece, IsLineEnd;
    }
  }

  lemma CleanPiece(c: byte, inQuote: bool, bStarted: bool)
    ensures 10 !in Lead(c, inQuote, bStarted) && 13 !in Lead(c, inQuote, bStarted)
    ensures 10 !in Piece(c) && 13 !in Piece(c)
  {
  }

  /** The output is one line, and a string without quotes and line ends is printed between quotes. */
  lemma PrintedOnOneLine(z: bytes)
    ensures 10 !in QuotedSql(z) && 13 !in QuotedSql(z)
    ensures 10 !in z && 13 !in z && 39 !in z ==> QuotedSql(z) == [39] + z + [39]
  {
    hide Emit;
    NoLineEnds(z, false, false);
    if z != [] && 10 !in z && 13 !in z && 39 !in z {
      EmitRun(z, []);
      EmitEnd();
      EmitOpens(z, false);
      assert z + [] == z;
    }
  }

  // ----- the printer

  /** A run of characters other than quotes and line ends. */
  predicate PlainRun(z: bytes) {
    forall c | c in z :: c != Q && !IsLineEnd(c)
  }

  lemma {:induction false} EmitRun(p: bytes, z: bytes)
    requires PlainRun(p)
    ensures Emit(p + z, true, true) == p + Emit(z, true, true)
  {
    hide Emit, Piece;
    if p == [] {
      assert p + z == z;
    } else {
      assert p[0] in p && forall c | c in p[1..] :: c in p;
      assert p + z == [p[0]] + (p[1..] + z);
      EmitRun(p[1..], z);
      EmitFirst(p[0], p[1..] + z);
      PlainPiece(p[0]);
    }
  }

  lemma PlainPiece(c: byte)
    requires c != Q && !IsLineEnd(c)
    ensures Piece(c) == [c]
  {
  }

  /** Opening a literal before a character that is not a line end. */
  lemma EmitOpens(z: bytes, bStarted: bool)
    requires z != [] && !IsLineEnd(z[0])
    ensures Emit(z, false, bStarted) == Opening(false, bStarted) + Emit(z, true, true)
  {
    hide Emit, Piece, IsLineEnd;
    assert z == [z[0]] + z[1..];
    EmitFirst(z[0], z[1..]);
    assert [] + [Q] == [Q];
    Associative(CONCAT, [Q], Emit(z, true, true));
  }

  /** The loop that looks for a quote, a line end or the end. */
  method Scan(z: bytes, start: nat) returns (i: nat)
    requires start <= |z|
    ensures start <= i <= |z| && PlainRun(z[start..i])
    ensures i < |z| ==> z[i] == Q || IsLineEnd(z[i])
  {
    i := start;
    while i < |z| && z[i] != Q && z[i] != LF && z[i] != CR
      invariant start <= i <= |z| && forall k | start <= k < i :: z[k] != Q && !IsLineEnd(z[k])
    {
      i := i + 1;
    }
  }

  lemma QuoteIsNoLineEnd()
    ensures !IsLineEnd(Q)
  {
  }

  lemma OpenRun(z: bytes, start: nat, i: nat, inQuote: bool, bStarted: bool)
    requires start <= i <= |z| && PlainRun(z[start..i]) && (inQuote ==> bStarted)
    requires start < i || (i < |z| && z[i] == Q)
    ensures Emit(z[start..], inQuote, bStarted) == Opening(inQuote, bStarted) + z[start..i] + Emit(z[i..], true, true)
  {
    hide Emit, IsLineEnd;
    var run, rest := z[start..i], z[i..];
    assert z[start..] == run + rest;
    EmitRun(run, rest);
    assert start < i ==> z[start] in run;
    if inQuote {
      assert [] + run + Emit(rest, true, true) == run + Emit(rest, true, true);
    } else {
      QuoteIsNoLineEnd();
      EmitOpens(z[start..], bStarted);
      assert Opening(false, bStarted) + (run + Emit(rest, true, true)) ==
        Opening(false, bStarted) + run + Emit(rest, true, true);
    }
  }

  lemma AtQuote(z: bytes, i: nat)
    requires i < |z| && z[i] == Q
    ensures Emit(z[i..], true, true) == [Q] + [Q] + Emit(z[i + 1..], true, true)
  {
    hide Emit;
    assert z[i..] == [Q] + z[i + 1..] && [Q] + [Q] == [Q, Q];
    EmitFirst(Q, z[i + 1..]);
  }

  lemma AtLineEnd(z: bytes, i: nat, bStarted: bool)
    requires i < |z| && IsLineEnd(z[i])
    ensures Emit(z[i..], true, true) == [Q] + Emit(z[i..], false, true)
    ensures Emit(z[i..], false, bStarted) ==
      (if bStarted then CONCAT else []) + CharCall(z[i]) + Emit(z[i + 1..], false, true)
  {
    hide Emit, CharCall;
    var rest := Emit(z[i + 1..], false, true);
    assert z[i..] == [z[i]] + z[i + 1..];
    EmitFirst(z[i], z[i + 1..]);
    Associative(CONCAT, CharCall(z[i]), rest);
    assert [] + CharCall(z[i]) == CharCall(z[i]);
  }

  method OutputQuotedString(out: OutFile, z: bytes)
    requires 0 !in z
    modifies out
    ensures out.text == old(out.text) + QuotedSql(z)
  {
    var i := Scan(z, 0);
    assert z[0..] == z;
    if i == |z| {
      out.PutText([Q]);
      out.PutText(z);
      out.PutText([Q]);
      if z != [] {
        OpenRun(z, 0, |z|, false, false);
        assert z[|z|..] == [] && z[0..|z|] == z;
      }
    } else {
      var inQuote, bStarted, p := false, false, 0;
      while p < |z|
        invariant 0 <= p <= |z|
        invariant out.text + Emit(z[p..], inQuote, bStarted) == old(out.text) + Emit(z, false, false)
        invariant inQuote ==> bStarted
      {
        p, inQuote, bStarted := WritePart(out, z, p, inQuote, bStarted);
      }
      if inQuote {
        out.PutText([Q]);
      }
    }
  }

  /** One iteration of the outer loop. */
  method WritePart(out: OutFile, z: bytes, start: nat, wasIn: bool, wasStarted: bool)
    returns (p: nat, inQuote: bool, bStarted: bool)
    requires start < |z| && (wasIn ==> wasStarted) && 0 !in z
    modifies out
    ensures start < p <= |z| && (inQuote ==> bStarted)
    ensures out.text + Emit(z[p..], inQuote, bStarted) == old(out.text) + Emit(z[start..], wasIn, wasStarted)
  {
    hide Emit, Lead, Piece, Opening, CharCall, PlainRun;
    p, inQuote, bStarted := start, wasIn, wasStarted;
    var i := Scan(z, p);
    var c := if i < |z| then z[i] else 0;
    assert i < |z| ==> z[i] in z;
    ghost var before := out.text;
    if i > p || c == Q {
      OpenRun(z, start, i, wasIn, wasStarted);
    }
    var stop := if c == Q then i + 1 else i;
    if stop > p {
      WriteText(out, z[p..stop], inQuote, bStarted);
      inQuote, bStarted, p := true, true, stop;
    }
    if c == Q {
      AtQuote(z, i);
      out.PutText([Q]);
      JoinQuote(before, Opening(wasIn, wasStarted), z[start..i], Emit(z[i + 1..], true, true));
      assert z[start..stop] == z[start..i] + [Q];
      return;
    }
    if i < |z| {
      AtLineEnd(z, i, bStarted);
    } else {
      assert z[i..] == [];
      EmitEnd();
    }
    assert out.text + Emit(z[p..], inQuote, bStarted) == before + Emit(z[start..], wasIn, wasStarted);
    if inQuote {
      out.PutText([Q]);
      inQuote := false;
    }
    if c == 0 {
      return;
    }
    p, bStarted := WriteLineEnds(out, z, p, bStarted);
  }

  lemma JoinQuote(before: bytes, o: bytes, run: bytes, rest: bytes)
    ensures before + (o + (run + [Q])) + [Q] + rest == before + (o + run + ([Q] + [Q] + rest))
  {
  }

  /** Opens a literal if none is open, and prints the text. */
  method WriteText(out: OutFile, text: bytes, inQuote: bool, bStarted: bool)
    modifies out
    ensures out.text == old(out.text) + (Opening(inQuote, bStarted) + text)
  {
    if !inQuote {
      if bStarted {
        out.PutText(CONCAT);
      }
      out.PutText([Q]);
    }
    out.PutText(text);
  }

  lemma EmitEnd()
    ensures Emit([], true, true) == [Q] && forall b :: Emit([], false, b) == []
  {
  }

  /** The inner loop over line ends. */
  method WriteLineEnds(out: OutFile, z: bytes, start: nat, wasStarted: bool) returns (p: nat, bStarted: bool)
    requires start < |z| && IsLineEnd(z[start])
    modifies out
    ensures start < p <= |z| && bStarted
    ensures out.text + Emit(z[p..], false, true) == old(out.text) + Emit(z[start..], false, wasStarted)
  {
    hide Emit, CharCall;
    p, bStarted := start, wasStarted;
    while p < |z| && IsLineEnd(z[p])
      invariant start <= p <= |z| && (p > start ==> bStarted)
      invariant p == start ==> IsLineEnd(z[p]) && p < |z|
      invariant out.text + Emit(z[p..], false, bStarted) == old(out.text) + Emit(z[start..], false, wasStarted)
    {
      AtLineEnd(z, p, bStarted);
      if bStarted {
        out.PutText(CONCAT);
      }
      out.PutText(CharCall(z[p]));
      bStarted := true;
      p := p + 1;
    }
  }
}
