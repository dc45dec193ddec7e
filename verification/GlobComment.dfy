// What the comment of testcase_glob says a pattern matches, and for which patterns the code does that.
module GlobComment {
  import opened CType
  import opened Glob
  import opened Options

  // ----- the documented meaning

  /** An optional sign and one or more digits. */
  predicate Number(z: seq<Char>) {
    var d := if z != [] && (z[0] == 45 || z[0] == 43) then z[1..] else z;
    d != [] && forall k | 0 <= k < |d| :: IsDigit(d[k])
  }

  /** One or more whitespace characters. */
  predicate Spaces(z: seq<Char>) {
    z != [] && forall k | 0 <= k < |z| :: IsSpace(z[k])
  }

  /** As the comment of testcase_glob has it: # takes any number and whitespace any span, not the longest. */
  ghost predicate Documented(p: seq<Token>, z: seq<Char>)
    decreases |p|
  {
    if p == [] then SkipSpaces(z) == []
    else
      match p[0]
      case Literal(c) => z != [] && z[0] == c && Documented(p[1..], z[1..])
      case AnyOne => z != [] && Documented(p[1..], z[1..])
      case Star => exists k :: 0 <= k <= |z| && Documented(p[1..], z[k..])
      case OneOf(invert, items) => z != [] && SomeItemHas(items, z[0]) != invert && Documented(p[1..], z[1..])
      case Digits => exists k :: 0 <= k <= |z| && Number(z[..k]) && Documented(p[1..], z[k..])
      case Space => exists k :: 0 <= k <= |z| && Spaces(z[..k]) && Documented(p[1..], z[k..])
      case Malformed => false
  }

  ghost predicate DocumentedPattern(g: seq<Char>, z: seq<Char>) {
    Documented(Parse(g, false, true), z)
  }

  // ----- where the code differs

  /** A # or a whitespace character directly after a run of * and ? with a * in it, outside a class. */
  predicate OddAfterStar(g: seq<Char>, afterStar: bool)
    decreases |g|
  {
    if g == [] then false
    else if g[0] == STAR then OddAfterStar(g[1..], true)
    else if g[0] == QUESTION then OddAfterStar(g[1..], afterStar)
    else if g[0] == OPEN then OddAfterStar(ClassToken(g[1..]).1, false)
    else if IsSpace(g[0]) then afterStar || OddAfterStar(SkipSpaces(g[1..]), false)
    else (afterStar && g[0] == HASH) || OddAfterStar(g[1..], false)
  }

  /** The token takes the single character c. */
  predicate Takes(t: Token, c: Char) {
    match t
    case Literal(d) => c == d
    case AnyOne => true
    case OneOf(invert, items) => SomeItemHas(items, c) != invert
    case Digits => IsDigit(c)
    case Space => IsSpace(c)
    case Star => false
    case Malformed => false
  }

  predicate TakesDigit(t: Token) {
    exists c: Char :: 48 <= c <= 57 && Takes(t, c)
  }

  predicate TakesSpace(t: Token) {
    exists c: Char :: 9 <= c <= 32 && IsSpace(c) && Takes(t, c)
  }

  /** The first token that is not a star. */
  function Next(p: seq<Token>): Option<Token> {
    if p == [] then None else if p[0] == Star then Next(p[1..]) else Some(p[0])
  }

  /** Up to stars, a # before a token that may take a digit, or whitespace before one that may take whitespace. */
  predicate Greedy(p: seq<Token>) {
    p != [] &&
    (|| (p[0] == Digits && Next(p[1..]).Some? && TakesDigit(Next(p[1..]).value))
     || (p[0] == Space && Next(p[1..]).Some? && TakesSpace(Next(p[1..]).value))
     || Greedy(p[1..]))
  }

  /** Every class is closed and has a character. */
  predicate CanMatch(p: seq<Token>) {
    forall t | t in p && t != Star :: exists c: Char :: -128 <= c < 128 && Takes(t, c)
  }

  // ----- texts of one character for every token but the stars

  function MinLength(p: seq<Token>): nat {
    if p == [] then 0 else (if p[0] == Star then 0 else 1) + MinLength(p[1..])
  }

  predicate Fits(p: seq<Token>, z: seq<Char>)
    decreases |p|
  {
    if p == [] then z == []
    else if p[0] == Star then Fits(p[1..], z)
    else z != [] && Takes(p[0], z[0]) && Fits(p[1..], z[1..])
  }

  lemma {:induction false} FitsLength(p: seq<Token>, z: seq<Char>)
    requires Fits(p, z)
    ensures |z| == MinLength(p)
    decreases |p|
  {
    hide Takes;
    if p != [] {
      FitsLength(p[1..], if p[0] == Star then z else z[1..]);
    }
  }

  lemma {:induction false} FitsIsDocumented(p: seq<Token>, z: seq<Char>)
    requires Fits(p, z)
    ensures Documented(p, z)
    decreases |p|
  {
    hide SomeItemHas;
    if p != [] {
      if p[0] == Star {
        FitsIsDocumented(p[1..], z);
        assert z[0..] == z;
      } else {
        FitsIsDocumented(p[1..], z[1..]);
        assert z[..1] == [z[0]];
      }
    }
  }

  /** What the code leaves of the text after the token p[0], when it is not a star. */
  function Rest(t: Token, z: seq<Char>): seq<Char>
    requires z != []
  {
    if t == Digits then SkipDigits(SkipSign(z)) else if t == Space then SkipSpaces(z) else z[1..]
  }

  lemma {:induction false} SkipDigitsIsSuffix(z: seq<Char>)
    ensures SkipDigits(z) == z[|z| - |SkipDigits(z)|..]
  {
    if z != [] && IsDigit(z[0]) {
      SkipDigitsIsSuffix(z[1..]);
    }
  }

  lemma {:induction false} SkipSpacesIsSuffix(z: seq<Char>)
    ensures SkipSpaces(z) == z[|z| - |SkipSpaces(z)|..]
  {
    if z != [] && IsSpace(z[0]) {
      SkipSpacesIsSuffix(z[1..]);
    }
  }

  /** A token takes at least one character. */
  lemma MatchesRest(p: seq<Token>, z: seq<Char>)
    requires p != [] && p[0] != Star && Matches(p, z)
    ensures z != [] && |Rest(p[0], z)| < |z| && Matches(p[1..], Rest(p[0], z))
    ensures Rest(p[0], z) == z[|z| - |Rest(p[0], z)|..]
  {
    hide SomeItemHas;
    SkipSpacesIsSuffix(z);
    SkipDigitsIsSuffix(SkipSign(z));
  }

  lemma {:induction false} MatchesLength(p: seq<Token>, z: seq<Char>)
    requires Matches(p, z)
    ensures |z| >= MinLength(p)
    decreases |p|
  {
    hide SomeItemHas, Rest;
    if p != [] {
      if p[0] == Star {
        var k :| 0 <= k <= |z| && Matches(p[1..], z[k..]);
        MatchesLength(p[1..], z[k..]);
      } else {
        MatchesRest(p, z);
        MatchesLength(p[1..], Rest(p[0], z));
      }
    }
  }

  // ----- patterns that can match, and texts for them

  lemma CanMatchCons(t: Token, p: seq<Token>)
    ensures CanMatch([t] + p) <==> (t == Star || exists c :: Takes(t, c)) && CanMatch(p)
  {
    hide Takes;
    assert t in [t] + p;
    assert forall u | u in p :: u in [t] + p;
  }

  lemma {:induction false} MatchesCanMatch(p: seq<Token>, z: seq<Char>)
    requires Matches(p, z)
    ensures CanMatch(p)
    decreases |p|
  {
    hide SomeItemHas, Rest;
    if p != [] {
      assert p == [p[0]] + p[1..];
      CanMatchCons(p[0], p[1..]);
      if p[0] == Star {
        var k :| 0 <= k <= |z| && Matches(p[1..], z[k..]);
        MatchesCanMatch(p[1..], z[k..]);
      } else {
        MatchesRest(p, z);
        MatchesCanMatch(p[1..], Rest(p[0], z));
        SomeCharacter(p[0], z[0]);
      }
    }
  }

  /** Only a number and a class of their own need a character of a certain kind. */
  lemma SomeCharacter(t: Token, c: Char)
    requires t != Star && t != Malformed && (t.OneOf? ==> Takes(t, c))
    ensures exists d :: Takes(t, d)
  {
    hide SomeItemHas;
    match t
    case Literal(d) => assert Takes(t, d);
    case AnyOne => assert Takes(t, c);
    case OneOf(_, _) =>
    case Digits => assert Takes(t, 55);
    case Space => assert Takes(t, 32);
  }

  lemma {:induction false} DocumentedCanMatch(p: seq<Token>, z: seq<Char>)
    requires Documented(p, z)
    ensures CanMatch(p)
    decreases |p|
  {
    hide SomeItemHas, Number, Spaces, CanMatch;
    if p == [] {
      NothingCanMatch();
    } else {
      assert p == [p[0]] + p[1..];
      CanMatchCons(p[0], p[1..]);
      if p[0] == Star || p[0] == Digits || p[0] == Space {
        var k :| 0 <= k <= |z| && Documented(p[1..], z[k..]);
        DocumentedCanMatch(p[1..], z[k..]);
        if p[0] != Star {
          SomeCharacter(p[0], 32);
        }
      } else {
        DocumentedCanMatch(p[1..], z[1..]);
        SomeCharacter(p[0], z[0]);
      }
    }
  }

  lemma NothingCanMatch()
    ensures CanMatch([])
  {
  }

  lemma {:induction false} Sample(p: seq<Token>) returns (z: seq<Char>)
    requires CanMatch(p)
    ensures Fits(p, z)
  {
    hide Takes, CanMatch;
    z := [];
    if p != [] {
      assert p == [p[0]] + p[1..];
      CanMatchCons(p[0], p[1..]);
      z := Sample(p[1..]);
      if p[0] != Star {
        var c :| Takes(p[0], c);
        z := [c] + z;
      }
    }
  }

  lemma {:induction false} SampleFrom(p: seq<Token>, c: Char) returns (z: seq<Char>)
    requires CanMatch(p) && Next(p).Some? && Takes(Next(p).value, c)
    ensures Fits(p, z) && z != [] && z[0] == c
  {
    hide Takes, CanMatch;
    assert p == [p[0]] + p[1..];
    CanMatchCons(p[0], p[1..]);
    if p[0] == Star {
      z := SampleFrom(p[1..], c);
    } else {
      z := Sample(p[1..]);
      z := [c] + z;
    }
  }

  /** One more token and one character for it: the code cannot use that character for more. */
  lemma FitsOneMore(t: Token, p: seq<Token>, c: Char, z: seq<Char>)
    requires t != Star && MinLength(p) >= |z| && Matches([t] + p, [c] + z)
    ensures Matches(p, z)
  {
    hide SomeItemHas, Rest, Matches;
    var q, y := [t] + p, [c] + z;
    assert q[1..] == p;
    MatchesRest(q, y);
    var r := Rest(t, y);
    MatchesLength(p, r);
    assert |r| == |z| && r == y[1..] == z;
  }

  lemma FitsStar(p: seq<Token>, z: seq<Char>)
    requires MinLength(p) >= |z| && Matches([Star] + p, z)
    ensures Matches(p, z)
  {
    assert ([Star] + p)[1..] == p;
    var k :| 0 <= k <= |z| && Matches(p, z[k..]);
    MatchesLength(p, z[k..]);
    assert z[k..] == z;
  }

  /** Two characters that a greedy token takes at once are missing further on. */
  lemma GreedyTakesTwo(t: Token, p: seq<Token>, c: Char, z: seq<Char>)
    requires z != []
    requires (t == Digits && IsDigit(c) && IsDigit(z[0])) || (t == Space && IsSpace(c) && IsSpace(z[0]))
    requires MinLength(p) >= |z|
    ensures !Matches([t] + p, [c] + z)
  {
    hide SomeItemHas, Matches;
    var q, y := [t] + p, [c] + z;
    assert q[1..] == p && y[1..] == z;
    if t == Digits {
      assert SkipSign(y) == y && SkipDigits(y) == SkipDigits(y[1..]) == SkipDigits(z[1..]);
    } else {
      assert SkipSpaces(y) == SkipSpaces(y[1..]) == SkipSpaces(z[1..]);
    }
    if Matches(q, y) {
      MatchesRest(q, y);
      MatchesLength(p, Rest(t, y));
    }
  }

  /** A pattern in which the longest run is too long: a text that its documentation accepts and the code does not. */
  lemma {:induction false} GreedyWitness(p: seq<Token>) returns (z: seq<Char>)
    requires CanMatch(p) && Greedy(p)
    ensures Fits(p, z) && !Matches(p, z)
    decreases |p|
  {
    hide Takes, Matches, Fits, SomeItemHas, CanMatch;
    var t, rest := p[0], p[1..];
    assert p == [t] + rest;
    CanMatchCons(t, rest);
    if Greedy(rest) {
      z := GreedyWitness(rest);
      FitsLength(rest, z);
      if t == Star {
        if Matches(p, z) {
          FitsStar(rest, z);
        }
        FitsCons(t, rest, 55, z);
      } else {
        var c :| Takes(t, c);
        if Matches(p, [c] + z) {
          FitsOneMore(t, rest, c, z);
        }
        FitsCons(t, rest, c, z);
        z := [c] + z;
      }
    } else if t == Digits {
      var d :| IsDigit(d) && Takes(Next(rest).value, d);
      z := SampleFrom(rest, d);
      FitsLength(rest, z);
      GreedyTakesTwo(t, rest, 55, z);
      FitsCons(t, rest, 55, z);
      z := [55] + z;
    } else {
      var d: Char :| IsSpace(d) && Takes(Next(rest).value, d);
      z := SampleFrom(rest, d);
      FitsLength(rest, z);
      GreedyTakesTwo(t, rest, 32, z);
      FitsCons(t, rest, 32, z);
      z := [32] + z;
    }
  }

  lemma FitsCons(t: Token, p: seq<Token>, c: Char, z: seq<Char>)
    requires Fits(p, z)
    ensures t == Star ==> Fits([t] + p, z)
    ensures t != Star && Takes(t, c) ==> Fits([t] + p, [c] + z)
    ensures (t == Digits && IsDigit(c)) || (t == Space && IsSpace(c)) ==> Fits([t] + p, [c] + z)
  {
    assert ([t] + p)[1..] == p && ([c] + z)[1..] == z;
  }

  // ----- patterns in which the longest run is as good as any

  lemma FirstTaken(p: seq<Token>, z: seq<Char>)
    requires p != [] && p[0] != Star && Matches(p, z) && z[0] != 45 && z[0] != 43
    ensures Takes(p[0], z[0])
  {
  }

  lemma {:induction false} SkipAllSpaces(z: seq<Char>, k: nat)
    requires k <= |z| && SkipSpaces(z) == []
    ensures SkipSpaces(z[k..]) == []
  {
    if k > 0 {
      SkipAllSpaces(z[1..], k - 1);
      assert z[1..][k - 1..] == z[k..];
    } else {
      assert z[0..] == z;
    }
  }

  /** Characters that the next token does not take can be left to what comes before. */
  lemma {:induction false} MoveOn(p: seq<Token>, z: seq<Char>, k: nat, m: nat)
    requires k <= m <= |z| && Matches(p, z[k..])
    requires forall i | k <= i < m :: z[i] != 45 && z[i] != 43 && (Next(p).Some? ==> !Takes(Next(p).value, z[i]))
    ensures Matches(p, z[m..])
    decreases |p|
  {
    hide Takes;
    if p == [] {
      SkipAllSpaces(z[k..], m - k);
      assert z[k..][m - k..] == z[m..];
    } else if p[0] == Star {
      var j :| 0 <= j <= |z[k..]| && Matches(p[1..], z[k..][j..]);
      assert z[k..][j..] == z[k + j..];
      if k + j < m {
        MoveOn(p[1..], z, k + j, m);
        assert z[m..][0..] == z[m..];
      } else {
        assert z[m..][k + j - m..] == z[k + j..];
      }
    } else if k < m {
      assert z[k..][0] == z[k];
      FirstTaken(p, z[k..]);
    }
  }

  lemma {:induction false} SkippedDigits(z: seq<Char>, i: nat)
    requires i < |z| - |SkipDigits(z)|
    ensures IsDigit(z[i])
    decreases |z|
  {
    if i > 0 {
      SkippedDigits(z[1..], i - 1);
    }
  }

  lemma {:induction false} SkippedSpaces(z: seq<Char>, i: nat)
    requires i < |z| - |SkipSpaces(z)|
    ensures IsSpace(z[i])
    decreases |z|
  {
    if i > 0 {
      SkippedSpaces(z[1..], i - 1);
    }
  }

  lemma {:induction false} SkipsAllDigits(z: seq<Char>, k: nat)
    requires k <= |z| && forall i | 0 <= i < k :: IsDigit(z[i])
    ensures |SkipDigits(z)| <= |z| - k
  {
    if k > 0 {
      SkipsAllDigits(z[1..], k - 1);
    }
  }

  lemma {:induction false} SkipsAllSpaces(z: seq<Char>, k: nat)
    requires k <= |z| && forall i | 0 <= i < k :: IsSpace(z[i])
    ensures |SkipSpaces(z)| <= |z| - k
  {
    if k > 0 {
      SkipsAllSpaces(z[1..], k - 1);
    }
  }

  /** The run that the code takes is a number, and no number at the start of the text is longer. */
  lemma LongestNumber(z: seq<Char>)
    ensures var d := SkipSign(z);
      d != [] && IsDigit(d[0]) ==>
        var m := |z| - |SkipDigits(d)|; 0 < m <= |z| && Number(z[..m]) && z[m..] == SkipDigits(d)
  {
    var d := SkipSign(z);
    if d != [] && IsDigit(d[0]) {
      var m := |z| - |SkipDigits(d)|;
      SkipDigitsIsSuffix(d);
      forall i: nat | i < |d| - |SkipDigits(d)| ensures IsDigit(d[i]) {
        SkippedDigits(d, i);
      }
    }
  }

  lemma NoLongerNumber(z: seq<Char>, k: nat)
    requires k <= |z| && Number(z[..k])
    ensures var d := SkipSign(z);
      && d != [] && IsDigit(d[0]) && k <= |z| - |SkipDigits(d)|
      && forall i | k <= i < |z| - |SkipDigits(d)| :: IsDigit(z[i])
  {
    var d := SkipSign(z);
    var y := z[..k];
    var signed := y[0] == 45 || y[0] == 43;
    assert y[0] == z[0] && (signed ==> y[1..][0] == z[1]);
    assert d == if signed then z[1..] else z;
    var n := if signed then k - 1 else k;
    forall i | 0 <= i < n ensures IsDigit(d[i]) {
      assert d[i] == if signed then y[1..][i] else y[i];
    }
    SkipsAllDigits(d, n);
    forall i | k <= i < |z| - |SkipDigits(d)| ensures IsDigit(z[i]) {
      SkippedDigits(d, if signed then i - 1 else i);
    }
  }

  lemma LongestSpaces(z: seq<Char>)
    ensures z != [] && IsSpace(z[0]) ==>
      var m := |z| - |SkipSpaces(z)|; 0 < m <= |z| && Spaces(z[..m]) && z[m..] == SkipSpaces(z)
  {
    SkipSpacesIsSuffix(z);
    forall i: nat | i < |z| - |SkipSpaces(z)| ensures IsSpace(z[i]) {
      SkippedSpaces(z, i);
    }
  }

  lemma NoLongerSpaces(z: seq<Char>, k: nat)
    requires k <= |z| && Spaces(z[..k])
    ensures z != [] && IsSpace(z[0]) && k <= |z| - |SkipSpaces(z)|
    ensures forall i | k <= i < |z| - |SkipSpaces(z)| :: IsSpace(z[i])
  {
    assert forall i | 0 <= i < k :: z[i] == z[..k][i];
    SkipsAllSpaces(z, k);
    forall i | k <= i < |z| - |SkipSpaces(z)| ensures IsSpace(z[i]) {
      SkippedSpaces(z, i);
    }
  }

  lemma LongestNumberIsAny(p: seq<Token>, z: seq<Char>)
    requires Next(p).Some? ==> !TakesDigit(Next(p).value)
    ensures var d := SkipSign(z);
      (d != [] && IsDigit(d[0]) && Matches(p, SkipDigits(d)))
      <==> exists k :: 0 <= k <= |z| && Number(z[..k]) && Matches(p, z[k..])
  {
    hide Number, Matches, Takes;
    var d := SkipSign(z);
    var m := |z| - |SkipDigits(d)|;
    LongestNumber(z);
    if k :| 0 <= k <= |z| && Number(z[..k]) && Matches(p, z[k..]) {
      NoLongerNumber(z, k);
      MoveOn(p, z, k, m);
    }
  }

  lemma LongestSpaceIsAny(p: seq<Token>, z: seq<Char>)
    requires Next(p).Some? ==> !TakesSpace(Next(p).value)
    ensures (z != [] && IsSpace(z[0]) && Matches(p, SkipSpaces(z)))
      <==> exists k :: 0 <= k <= |z| && Spaces(z[..k]) && Matches(p, z[k..])
  {
    hide Spaces, Matches, Takes;
    var m := |z| - |SkipSpaces(z)|;
    LongestSpaces(z);
    if k :| 0 <= k <= |z| && Spaces(z[..k]) && Matches(p, z[k..]) {
      NoLongerSpaces(z, k);
      MoveOn(p, z, k, m);
    }
  }

  lemma {:induction false} LongestIsAny(p: seq<Token>, z: seq<Char>)
    requires !Greedy(p)
    ensures Matches(p, z) <==> Documented(p, z)
    decreases |p|
  {
    hide SomeItemHas, Number, Spaces, TakesDigit, TakesSpace;
    if p != [] {
      forall y: seq<Char> ensures Matches(p[1..], y) <==> Documented(p[1..], y) {
        LongestIsAny(p[1..], y);
      }
      if p[0] == Digits {
        LongestNumberIsAny(p[1..], z);
      } else if p[0] == Space {
        LongestSpaceIsAny(p[1..], z);
      }
    }
  }

  // ----- patterns with a # or whitespace after a star

  lemma {:induction false} ParsesAlike(g: seq<Char>, afterStar: bool)
    requires !OddAfterStar(g, afterStar)
    ensures Parse(g, afterStar, false) == Parse(g, afterStar, true)
    decreases |g|
  {
    hide ClassToken;
    if g != [] {
      if g[0] == STAR {
        ParsesAlike(g[1..], true);
      } else if g[0] == QUESTION {
        ParsesAlike(g[1..], afterStar);
      } else if g[0] == OPEN {
        ParsesAlike(ClassToken(g[1..]).1, false);
      } else if IsSpace(g[0]) {
        ParsesAlike(SkipSpaces(g[1..]), false);
      } else {
        ParsesAlike(g[1..], false);
      }
    }
  }

  lemma MinLengthCons(t: Token, p: seq<Token>)
    ensures MinLength([t] + p) == (if t == Star then 0 else 1) + MinLength(p)
  {
    assert ([t] + p)[1..] == p;
  }

  /** The code asks for at least as many characters, and for the same classes. */
  lemma {:induction false} CodeAsksForMore(g: seq<Char>, afterStar: bool)
    ensures MinLength(Parse(g, afterStar, false)) >= MinLength(Parse(g, afterStar, true))
    ensures CanMatch(Parse(g, afterStar, false)) <==> CanMatch(Parse(g, afterStar, true))
    decreases |g|
  {
    hide ClassToken, CanMatch, MinLength;
    if g != [] {
      var c, d := Parse(g, afterStar, false), Parse(g, afterStar, true);
      SimpleTokens(g[0]);
      MinLengthCons(c[0], c[1..]);
      MinLengthCons(d[0], d[1..]);
      CanMatchCons(c[0], c[1..]);
      CanMatchCons(d[0], d[1..]);
      assert c == [c[0]] + c[1..] && d == [d[0]] + d[1..];
      if g[0] == STAR {
        CodeAsksForMore(g[1..], true);
      } else if g[0] == QUESTION {
        CodeAsksForMore(g[1..], afterStar);
      } else if g[0] == OPEN {
        CodeAsksForMore(ClassToken(g[1..]).1, false);
      } else if IsSpace(g[0]) {
        CodeAsksForMore(SkipSpaces(g[1..]), false);
        LiteralSpace(g, afterStar);
      } else {
        CodeAsksForMore(g[1..], false);
      }
    }
  }

  lemma SimpleTokens(c: Char)
    ensures Takes(Literal(c), c) && Takes(Space, 32) && Takes(Digits, 55)
  {
  }

  lemma LiteralSpace(g: seq<Char>, afterStar: bool)
    requires g != [] && IsSpace(g[0])
    ensures
      var c, rest := Parse(g, afterStar, false), Parse(SkipSpaces(g[1..]), false, false);
      MinLength(c) >= 1 + MinLength(rest) && (CanMatch(c) <==> CanMatch(rest))
  {
    hide CanMatch, MinLength;
    var c, rest := Parse(g, afterStar, false), Parse(SkipSpaces(g[1..]), false, false);
    SimpleTokens(g[0]);
    MinLengthCons(Space, rest);
    CanMatchCons(Space, rest);
    if afterStar {
      MinLengthCons(Literal(g[0]), Parse(g[1..], false, false));
      CanMatchCons(Literal(g[0]), Parse(g[1..], false, false));
      if g[1..] != [] && IsSpace(g[1]) {
        assert SkipSpaces(g[1..]) == SkipSpaces(g[1..][1..]);
        assert Parse(g[1..], false, false) == [Space] + rest;
      }
    }
  }

  /** A # or whitespace after a star: a text that the documentation accepts and the code does not. */
  lemma {:induction false} OddWitness(g: seq<Char>, afterStar: bool) returns (z: seq<Char>)
    requires OddAfterStar(g, afterStar) && CanMatch(Parse(g, afterStar, true))
    ensures Fits(Parse(g, afterStar, true), z) && !Matches(Parse(g, afterStar, false), z)
    decreases |g|
  {
    hide ClassToken, CanMatch, MinLength, Fits, Matches, Takes;
    var c, d := Parse(g, afterStar, false), Parse(g, afterStar, true);
    assert c == [c[0]] + c[1..] && d == [d[0]] + d[1..];
    CanMatchCons(d[0], d[1..]);
    if g[0] == STAR {
      z := OddWitness(g[1..], true);
      Shorter(g[1..], true, z);
      FitsCons(Star, d[1..], 55, z);
      if Matches(c, z) {
        FitsStar(c[1..], z);
      }
      return;
    }
    if afterStar && (IsSpace(g[0]) || g[0] == HASH) {
      z := Sample(d[1..]);
      var x := OtherCharacter(g[0]);
      FitsCons(d[0], d[1..], x, z);
      z := [x] + z;
      LiteralFirst(c, z);
      return;
    }
    var x :| Takes(d[0], x);
    if g[0] == QUESTION {
      z := OddWitness(g[1..], afterStar);
      Shorter(g[1..], afterStar, z);
    } else if g[0] == OPEN {
      z := OddWitness(ClassToken(g[1..]).1, false);
      Shorter(ClassToken(g[1..]).1, false, z);
    } else if IsSpace(g[0]) {
      z := OddWitness(SkipSpaces(g[1..]), false);
      Shorter(SkipSpaces(g[1..]), false, z);
    } else {
      z := OddWitness(g[1..], false);
      Shorter(g[1..], false, z);
    }
    FitsCons(d[0], d[1..], x, z);
    if Matches(c, [x] + z) {
      FitsOneMore(c[0], c[1..], x, z);
    }
    z := [x] + z;
  }

  lemma Shorter(g: seq<Char>, afterStar: bool, z: seq<Char>)
    requires Fits(Parse(g, afterStar, true), z)
    ensures MinLength(Parse(g, afterStar, false)) >= |z|
  {
    FitsLength(Parse(g, afterStar, true), z);
    CodeAsksForMore(g, afterStar);
  }

  /** A digit in the place of #, and another whitespace character in the place of one. */
  lemma OtherCharacter(c: Char) returns (x: Char)
    requires IsSpace(c) || c == HASH
    ensures x != c && if c == HASH then IsDigit(x) else IsSpace(x)
  {
    x := if c == HASH then 55 else if c == 32 then 9 else 32;
  }

  lemma LiteralFirst(p: seq<Token>, z: seq<Char>)
    requires p != [] && p[0].Literal? && z != [] && z[0] != p[0].c
    ensures !Matches(p, z)
  {
  }

  // ----- the comment of testcase_glob, exactly

  /**
   * What a pattern must be for the code to do what the comment says: no # and no whitespace
   * directly after a star, and after # or whitespace nothing, up to stars, that could take
   * one more digit or whitespace character; or a class that nothing is in.
   */
  predicate AsDocumented(g: seq<Char>) {
    || !CanMatch(Parse(g, false, true))
    || (!OddAfterStar(g, false) && !Greedy(Parse(g, false, true)))
  }

  /** The code matches the same texts as the comment says if and only if the pattern is of that kind. */
  lemma ReadAsDocumented(g: seq<Char>)
    ensures (forall z :: MatchesPattern(g, z) <==> DocumentedPattern(g, z)) <==> AsDocumented(g)
  {
    hide Greedy, OddAfterStar, Parse, Matches, Documented, CanMatch, Fits;
    var c, d := Parse(g, false, false), Parse(g, false, true);
    CodeAsksForMore(g, false);
    if !CanMatch(d) {
      forall z ensures !Matches(c, z) && !Documented(d, z) {
        if Matches(c, z) { MatchesCanMatch(c, z); }
        if Documented(d, z) { DocumentedCanMatch(d, z); }
      }
    } else if OddAfterStar(g, false) {
      var z := OddWitness(g, false);
      FitsIsDocumented(d, z);
      assert !MatchesPattern(g, z);
    } else {
      ParsesAlike(g, false);
      if Greedy(d) {
        var z := GreedyWitness(d);
        FitsIsDocumented(d, z);
        assert !MatchesPattern(g, z);
      } else {
        forall z ensures Matches(c, z) <==> Documented(d, z) {
          LongestIsAny(d, z);
        }
      }
    }
  }

  /** Literals, ?, * and classes only. */
  predicate Plain(g: seq<Char>)
    decreases |g|
  {
    if g == [] then true
    else if g[0] == OPEN then Plain(ClassToken(g[1..]).1)
    else !IsSpace(g[0]) && g[0] != HASH && Plain(g[1..])
  }

  lemma {:induction false} PlainHasNoRuns(g: seq<Char>, afterStar: bool)
    requires Plain(g)
    ensures !OddAfterStar(g, afterStar) && !Greedy(Parse(g, afterStar, true))
    decreases |g|
  {
    hide ClassToken, TakesDigit, TakesSpace;
    if g != [] {
      var p := Parse(g, afterStar, true);
      assert p == [p[0]] + p[1..];
      if g[0] == OPEN {
        PlainHasNoRuns(ClassToken(g[1..]).1, false);
      } else {
        PlainHasNoRuns(g[1..], if g[0] == STAR then true else if g[0] == QUESTION then afterStar else false);
      }
    }
  }

  /** Without # and whitespace outside classes the code does what the comment says, on every text. */
  lemma PlainIsDocumented(g: seq<Char>, z: seq<Char>)
    requires Plain(g)
    ensures MatchesPattern(g, z) <==> DocumentedPattern(g, z)
  {
    hide MatchesPattern, DocumentedPattern;
    PlainHasNoRuns(g, false);
    ReadAsDocumented(g);
  }

  lemma ParseOne(c: Char)
    requires c != STAR && c != QUESTION && c != OPEN && !IsSpace(c)
    ensures Parse([c], true, false) == [Literal(c)]
    ensures Parse([c], true, true) == Parse([c], false, false) == Parse([c], false, true)
      == [if c == HASH then Digits else Literal(c)]
  {
    assert [c][1..] == [];
  }

  /** The pattern *# matches the text 7 by the comment, and not in the code. */
  lemma StarHashDiffers()
    ensures !MatchesPattern([STAR, HASH], [55]) && DocumentedPattern([STAR, HASH], [55])
  {
    var z: seq<Char> := [55];
    assert [STAR, HASH][1..] == [HASH];
    ParseOne(HASH);
    var code, doc := [Literal(HASH)], [Digits];
    assert doc[1..] == [] && z[1..] == [] && Fits(doc, z);
    FitsCons(Star, doc, 55, z);
    FitsIsDocumented([Star] + doc, z);
    LiteralFirst(code, z);
    if Matches([Star] + code, z) {
      FitsStar(code, z);
    }
  }

  /** The pattern #5 matches the text 75 by the comment; in the code # takes the 5 as well. */
  lemma HashFiveDiffers()
    ensures !MatchesPattern([HASH, 53], [55, 53]) && DocumentedPattern([HASH, 53], [55, 53])
  {
    var p: seq<Token>, z: seq<Char> := [Literal(53)], [53];
    assert [HASH, 53][1..] == [53];
    ParseOne(53);
    assert Parse([HASH, 53], false, false) == [Digits] + p == Parse([HASH, 53], false, true);
    assert p[1..] == [] && z[1..] == [] && Fits(p, z) && [55] + z == [55, 53];
    FitsCons(Digits, p, 55, z);
    FitsIsDocumented([Digits] + p, [55] + z);
    GreedyTakesTwo(Digits, p, 55, z);
  }
}
