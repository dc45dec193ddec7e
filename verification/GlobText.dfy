// The patterns of testcase_glob by their characters: what each piece of a pattern matches.
module GlobText {
  import opened CType
  import opened Glob
  import opened Options

  // ----- classes

  /** A piece of a class: a character, or two with a dash between them. */
  datatype Part = One(x: Char) | Span(a: Char, b: Char)

  function Written(parts: seq<Part>): seq<Char> {
    if parts == [] then []
    else (match parts[0] case One(x) => [x] case Span(a, b) => [a, 45, b]) + Written(parts[1..])
  }

  /** The first of a span is in the class even when the span runs backwards. */
  predicate InParts(parts: seq<Part>, c: Char) {
    parts != [] &&
    (InParts(parts[1..], c) || match parts[0] case One(x) => c == x case Span(a, b) => c == a || a <= c <= b)
  }

  /**
   * The parts are what their text is read as: a bracket stands only in front of a class, a span
   * starts at a positive char, and a dash is a character of its own only at the end or where
   * no span can be in progress (free).
   */
  predicate Readable(parts: seq<Part>, free: bool) {
    parts == [] ||
    match parts[0]
    case One(x) => x != 93 && (x == 45 ==> free || |parts| == 1) && Readable(parts[1..], x < 0)
    case Span(a, b) => 0 < a && a != 93 && b != 93 && (a == 45 ==> free) && Readable(parts[1..], true)
  }

  lemma {:induction false} ItemsOfParts(parts: seq<Part>, prior: Prior, g: seq<Char>, c: Char)
    requires Readable(parts, prior <= 0)
    ensures
      var r := Items(Written(parts) + [93] + g, prior);
      r.Some? && r.value.1 == g && SomeItemHas(r.value.0, c) == InParts(parts, c)
    decreases |parts|
  {
    hide SomeItemHas, ItemHas, Items;
    var s := Written(parts) + [93] + g;
    if parts == [] {
      assert s == [93] + g && s[1..] == g;
      ItemsEnd(s, prior);
      NoItemHas(c);
    } else {
      var t := Written(parts[1..]) + [93] + g;
      match parts[0] {
        case One(x) =>
          assert s == [x] + t && s[1..] == t;
          if |parts| == 1 {
            assert t[0] == 93;
          }
          ItemsStep(s, prior);
          ItemsOfParts(parts[1..], x, g, c);
          ItemsHave(Single(x), Items(t, x).value.0, c);
          SingleHas(x, c);
        case Span(a, b) =>
          assert s == [a, 45, b] + t && s[1..] == [45, b] + t && s[1..][2..] == t;
          ItemsStep(s, prior);
          ItemsStep(s[1..], a);
          ItemsOfParts(parts[1..], 0, g, c);
          ItemsHave(Range(a, b), Items(t, 0).value.0, c);
          ItemsHave(Single(a), Items(s[1..], a).value.0, c);
          SingleHas(a, c);
          RangeHas(a, b, c);
      }
    }
  }

  /** What stands after [ and ^: a bracket if that is the first character, the parts, ] and the rest. */
  function Body(bracket: bool, parts: seq<Part>, g: seq<Char>): seq<Char> {
    (if bracket then [93] else []) + (Written(parts) + ([93] + g))
  }

  function ClassText(invert: bool, bracket: bool, parts: seq<Part>, g: seq<Char>): seq<Char> {
    [91] + ((if invert then [94] else []) + Body(bracket, parts, g))
  }

  lemma BodyItems(bracket: bool, parts: seq<Part>, g: seq<Char>, c: Char)
    requires Readable(parts, true) && (bracket || parts != [])
    ensures
      var r := FirstItems(Body(bracket, parts, g));
      r.Some? && r.value.1 == g && SomeItemHas(r.value.0, c) == (InParts(parts, c) || (bracket && c == 93))
  {
    hide SomeItemHas, ItemHas, Items;
    var t := Written(parts) + ([93] + g);
    assert t == Written(parts) + [93] + g;
    ItemsOfParts(parts, 0, g, c);
    if bracket {
      assert ([93] + t)[1..] == t;
      ItemsHave(Single(93), Items(t, 0).value.0, c);
      SingleHas(93, c);
    } else {
      assert [] + t == t;
      assert t[0] == Written(parts)[0] != 93;
    }
  }

  lemma BodyStarts(bracket: bool, parts: seq<Part>, g: seq<Char>)
    requires bracket || (parts != [] && Written(parts)[..1] != [94])
    ensures Body(bracket, parts, g) != [] && Body(bracket, parts, g)[0] != 94
  {
    if !bracket {
      assert Written(parts)[..1] == [Written(parts)[0]];
    }
  }

  lemma TokenOf(invert: bool, body: seq<Char>)
    requires (invert || (body != [] && body[0] != 94)) && FirstItems(body).Some?
    ensures
      var r := FirstItems(body).value;
      ClassToken((if invert then [94] else []) + body) == (OneOf(invert, r.0), r.1)
  {
    hide FirstItems;
    assert ([94] + body)[1..] == body && [] + body == body;
  }

  /** A class takes one character: one of those written, or with ^ any other. */
  lemma ClassTakes(invert: bool, bracket: bool, parts: seq<Part>, g: seq<Char>, z: seq<Char>)
    requires Readable(parts, true) && (bracket || parts != []) && (invert || bracket || Written(parts)[..1] != [94])
    ensures MatchesPattern(ClassText(invert, bracket, parts, g), z)
       <==> z != [] && ((InParts(parts, z[0]) || (bracket && z[0] == 93)) != invert) && MatchesPattern(g, z[1..])
  {
    hide SomeItemHas, InParts, Readable, ClassToken, FirstItems, Body;
    var body := Body(bracket, parts, g);
    BodyItems(bracket, parts, g, if z == [] then 1 else z[0]);
    if !invert {
      BodyStarts(bracket, parts, g);
    }
    TokenOf(invert, body);
    var s := (if invert then [94] else []) + body;
    Cons(ClassToken(s).0, Parse(g, false, false));
    assert ([91] + s)[1..] == s;
  }

  lemma Cons(t: Token, p: seq<Token>)
    ensures ([t] + p)[0] == t && ([t] + p)[1..] == p
  {
  }

  /** The smallest classes: [x], [^x] and [a-b]. */
  lemma SmallClasses(x: Char, a: Char, b: Char, g: seq<Char>, z: seq<Char>)
    requires x != 93 && x != 94 && x != 45 && 0 < a <= b && a !in {45, 93, 94} && b != 93
    ensures MatchesPattern([91, x, 93] + g, z) <==> z != [] && z[0] == x && MatchesPattern(g, z[1..])
    ensures MatchesPattern([91, 94, x, 93] + g, z) <==> z != [] && z[0] != x && MatchesPattern(g, z[1..])
    ensures MatchesPattern([91, a, 45, b, 93] + g, z) <==> z != [] && a <= z[0] <= b && MatchesPattern(g, z[1..])
  {
    hide MatchesPattern;
    assert [One(x)][1..] == [] && [Span(a, b)][1..] == [];
    assert Written([One(x)]) == [x] && Written([Span(a, b)]) == [a, 45, b];
    assert ClassText(false, false, [One(x)], g) == [91, x, 93] + g;
    assert ClassText(true, false, [One(x)], g) == [91, 94, x, 93] + g;
    assert ClassText(false, false, [Span(a, b)], g) == [91, a, 45, b, 93] + g;
    ClassTakes(false, false, [One(x)], g, z);
    ClassTakes(true, false, [One(x)], g, z);
    ClassTakes(false, false, [Span(a, b)], g, z);
  }

  lemma {:induction false} NoClosingBracket(g: seq<Char>, prior: Prior)
    requires 93 !in g
    ensures Items(g, prior) == None
    decreases |g|
  {
    if g != [] {
      ItemsStep(g, prior);
      NoClosingBracket(g[1..], g[0]);
      if |g| > 1 {
        NoClosingBracket(g[2..], 0);
      }
    }
  }

  /** A class that is not closed matches nothing. */
  lemma UnclosedClass(g: seq<Char>, z: seq<Char>)
    requires 93 !in g
    ensures !MatchesPattern([91] + g, z)
  {
    hide Items;
    NoClosingBracket(g, 0);
    if g != [] {
      NoClosingBracket(g[1..], 0);
    }
    assert ([91] + g)[1..] == g;
    Cons(Malformed, Parse([], false, false));
  }

  // ----- the other pieces

  predicate Digit(c: Char) {
    '0' as int <= c <= '9' as int
  }

  /** A character that means nothing else takes itself, and ? takes any one character. */
  lemma LiteralTakes(x: Char, g: seq<Char>, z: seq<Char>)
    requires x !in {'*' as int, '?' as int, '[' as int, '#' as int} && !IsWhite(x)
    ensures MatchesPattern([x] + g, z) <==> z != [] && z[0] == x && MatchesPattern(g, z[1..])
    ensures MatchesPattern(['?' as int] + g, z) <==> z != [] && MatchesPattern(g, z[1..])
  {
    assert ([x] + g)[1..] == g && (['?' as int] + g)[1..] == g;
    Cons(Literal(x), Parse(g, false, false));
    Cons(AnyOne, Parse(g, false, false));
  }

  /** A star takes any text, in front of a pattern that is read as it would be without the star. */
  lemma StarTakes(g: seq<Char>, z: seq<Char>)
    requires g == [] || (g[0] !in {'*' as int, '?' as int, '#' as int} && !IsWhite(g[0]))
    ensures MatchesPattern(['*' as int] + g, z) <==> exists k :: 0 <= k <= |z| && MatchesPattern(g, z[k..])
  {
    assert (['*' as int] + g)[1..] == g;
    assert Parse(g, true, false) == Parse(g, false, false);
    StarTries(Parse(g, false, false), z);
  }

  lemma {:induction false} AllWhite(w: seq<Char>, y: seq<Char>)
    requires forall k | 0 <= k < |w| :: IsWhite(w[k])
    requires y == [] || !IsWhite(y[0])
    ensures SkipSpaces(w + y) == y
  {
    if w == [] {
      assert w + y == y;
    } else {
      assert (w + y)[1..] == w[1..] + y;
      AllWhite(w[1..], y);
    }
  }

  lemma {:induction false} AllDigits(d: seq<Char>, y: seq<Char>)
    requires forall k | 0 <= k < |d| :: Digit(d[k])
    requires y == [] || !Digit(y[0])
    ensures SkipDigits(d + y) == y
  {
    if d == [] {
      assert d + y == y;
    } else {
      assert (d + y)[1..] == d[1..] + y;
      AllDigits(d[1..], y);
    }
  }

  /** Whitespace takes a whole run of whitespace, and at the end of a pattern any is ignored. */
  lemma SpaceTakes(v: seq<Char>, g: seq<Char>, w: seq<Char>, y: seq<Char>)
    requires v != [] && forall k | 0 <= k < |v| :: IsWhite(v[k])
    requires forall k | 0 <= k < |w| :: IsWhite(w[k])
    requires (g == [] || !IsWhite(g[0])) && (y == [] || !IsWhite(y[0]))
    ensures MatchesPattern(v + g, w + y) <==> w != [] && MatchesPattern(g, y)
    ensures MatchesPattern([], w + y) <==> y == []
  {
    AllWhite(v[1..], g);
    assert (v + g)[1..] == v[1..] + g;
    AllWhite(w, y);
    Cons(Space, Parse(g, false, false));
  }

  /** # takes an optional sign and a whole run of digits, of which there must be one. */
  lemma HashTakes(sign: seq<Char>, d: seq<Char>, y: seq<Char>, g: seq<Char>)
    requires sign in {[], ['+' as int], ['-' as int]} && forall k | 0 <= k < |d| :: Digit(d[k])
    requires y == [] || !Digit(y[0])
    requires d == [] && sign == [] ==> |y| < 2 || y[0] !in {'+' as int, '-' as int} || !Digit(y[1])
    ensures MatchesPattern(['#' as int] + g, sign + d + y) <==> d != [] && MatchesPattern(g, y)
  {
    assert (['#' as int] + g)[1..] == g;
    Cons(Digits, Parse(g, false, false));
    AllDigits(d, y);
    if sign != [] {
      assert sign + d + y == sign + (d + y) && (sign + (d + y))[1..] == d + y;
    } else {
      assert sign + d + y == d + y;
    }
  }
}
