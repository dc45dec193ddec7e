// testcase_glob: a backtracking matcher, against the meaning of its patterns.
module Glob {
  import opened CType
  import opened Options

  /** A char of a string: char is signed, and a string holds no NUL. */
  type Char = x: int | -128 <= x < 128 && x != 0 witness 1

  /** The variable prior_c, which is 0 when no range can start. */
  type Prior = x: int | -128 <= x < 128

  const STAR: Char := 42
  const QUESTION: Char := 63
  const OPEN: Char := 91
  const CLOSE: Char := 93
  const CARET: Char := 94
  const DASH: Char := 45
  const HASH: Char := 35

  predicate IsDigit(c: Char) {
    48 <= c <= 57
  }

  // ----- patterns

  datatype Item = Single(c: Char) | Range(low: Char, high: Char)

  datatype Token =
    | Literal(c: Char)
    | AnyOne
    | Star
    | OneOf(invert: bool, items: seq<Item>)
    | Digits       // an optional sign and a whole run of digits
    | Space        // a whole run of whitespace
    | Malformed    // a [ without its ]

  function SkipSpaces(z: seq<Char>): (r: seq<Char>)
    ensures |r| <= |z|
  {
    if z != [] && IsSpace(z[0]) then SkipSpaces(z[1..]) else z
  }

  function SkipDigits(z: seq<Char>): (r: seq<Char>)
    ensures |r| <= |z|
  {
    if z != [] && IsDigit(z[0]) then SkipDigits(z[1..]) else z
  }

  /** The items up to the closing bracket, and what follows it. */
  function Items(g: seq<Char>, prior: Prior): (r: Option<(seq<Item>, seq<Char>)>)
    ensures r.Some? ==> |r.value.1| < |g|
    decreases |g|
  {
    if g == [] then None
    else if g[0] == CLOSE then Some(([], g[1..]))
    else if g[0] == DASH && |g| > 1 && g[1] != CLOSE && prior > 0 then Prepend(Range(prior, g[1]), Items(g[2..], 0))
    else Prepend(Single(g[0]), Items(g[1..], g[0]))
  }

  function Prepend(i: Item, r: Option<(seq<Item>, seq<Char>)>): Option<(seq<Item>, seq<Char>)> {
    if r == None then None else Some(([i] + r.value.0, r.value.1))
  }

  /** The items after [ or [^, where a bracket that comes first is an item. */
  function FirstItems(g: seq<Char>): (r: Option<(seq<Item>, seq<Char>)>)
    ensures r.Some? ==> |r.value.1| < |g|
  {
    if g != [] && g[0] == CLOSE then Prepend(Single(CLOSE), Items(g[1..], 0)) else Items(g, 0)
  }

  /** The token for a class, given what follows its opening bracket. */
  function ClassToken(g: seq<Char>): (r: (Token, seq<Char>))
    ensures |r.1| <= |g| && (r.0 == Malformed || r.0.OneOf?)
  {
    var invert := g != [] && g[0] == CARET;
    var r := FirstItems(if invert then g[1..] else g);
    if r == None then (Malformed, []) else (OneOf(invert, r.value.0), r.value.1)
  }

  /**
   * The tokens of a pattern. Directly after a run of * and ? with a * in it, afterStar is
   * set; there the code takes # and whitespace for themselves, while by its documentation
   * (documented) they keep their meaning.
   */
  function Parse(g: seq<Char>, afterStar: bool, documented: bool): seq<Token>
    decreases |g|
  {
    if g == [] then []
    else if g[0] == STAR then [Star] + Parse(g[1..], true, documented)
    else if g[0] == QUESTION then [AnyOne] + Parse(g[1..], afterStar, documented)
    else if g[0] == OPEN then
      var r := ClassToken(g[1..]);
      [r.0] + Parse(r.1, false, documented)
    else if afterStar && !documented then [Literal(g[0])] + Parse(g[1..], false, documented)
    else if IsSpace(g[0]) then [Space] + Parse(SkipSpaces(g[1..]), false, documented)
    else if g[0] == HASH then [Digits] + Parse(g[1..], false, documented)
    else [Literal(g[0])] + Parse(g[1..], false, documented)
  }

  // ----- their meaning

  predicate ItemHas(i: Item, c: Char) {
    match i
    case Single(d) => c == d
    case Range(low, high) => low <= c <= high
  }

  predicate SomeItemHas(items: seq<Item>, c: Char) {
    exists i :: 0 <= i < |items| && ItemHas(items[i], c)
  }

  /** What is left after the sign of a number, if a digit follows it. */
  function SkipSign(z: seq<Char>): seq<Char> {
    if |z| > 1 && (z[0] == 45 || z[0] == 43) && IsDigit(z[1]) then z[1..] else z
  }

  /** A star matches any text: every suffix is tried. At the end, whitespace is ignored. */
  predicate Matches(p: seq<Token>, z: seq<Char>)
    decreases |p|
  {
    if p == [] then SkipSpaces(z) == []
    else
      match p[0]
      case Literal(c) => z != [] && z[0] == c && Matches(p[1..], z[1..])
      case AnyOne => z != [] && Matches(p[1..], z[1..])
      case Star => exists k :: 0 <= k <= |z| && Matches(p[1..], z[k..])
      case OneOf(invert, items) => z != [] && SomeItemHas(items, z[0]) != invert && Matches(p[1..], z[1..])
      case Digits =>
        var d := SkipSign(z);
        d != [] && IsDigit(d[0]) && Matches(p[1..], SkipDigits(d))
      case Space => z != [] && IsSpace(z[0]) && Matches(p[1..], SkipSpaces(z))
      case Malformed => false
  }

  predicate MatchesPattern(g: seq<Char>, z: seq<Char>) {
    Matches(Parse(g, false, false), z)
  }

  // ----- runs of * and ?

  lemma StarThenStar(p: seq<Token>, z: seq<Char>)
    ensures Matches([Star] + ([Star] + p), z) == Matches([Star] + p, z)
  {
    var q := [Star] + p;
    assert q[1..] == p && ([Star] + q)[1..] == q;
    if Matches([Star] + q, z) {
      var k :| 0 <= k <= |z| && Matches(q, z[k..]);
      var l :| 0 <= l <= |z[k..]| && Matches(p, z[k..][l..]);
      assert z[k..][l..] == z[k + l..];
    }
    if Matches(q, z) {
      assert z[0..] == z;
    }
  }

  lemma StarThenOne(p: seq<Token>, z: seq<Char>)
    ensures Matches([Star] + ([AnyOne] + p), z) == (z != [] && Matches([Star] + p, z[1..]))
  {
    var q := [AnyOne] + p;
    assert q[1..] == p && ([Star] + q)[1..] == q && ([Star] + p)[1..] == p;
    if Matches([Star] + q, z) {
      var k :| 0 <= k <= |z| && Matches(q, z[k..]);
      assert z[k..][1..] == z[1..][k..];
    }
    if z != [] && Matches([Star] + p, z[1..]) {
      var k :| 0 <= k <= |z[1..]| && Matches(p, z[1..][k..]);
      assert z[k..][1..] == z[1..][k..];
      assert Matches(q, z[k..]);
    }
  }

  lemma StarAtEnd(z: seq<Char>)
    ensures Matches([Star], z)
  {
    assert z[|z|..] == [] && [Star][1..] == [];
    assert Matches([], z[|z|..]);
  }

  // ----- the matcher

  method EatSpaces(z: seq<Char>) returns (r: seq<Char>)
    ensures r == SkipSpaces(z)
  {
    r := z;
    while r != [] && IsSpace(r[0])
      invariant SkipSpaces(r) == SkipSpaces(z)
      decreases |r|
    {
      r := r[1..];
    }
  }

  lemma NoItemHas(c: Char)
    ensures !SomeItemHas([], c)
  {
  }

  lemma ItemsHave(i: Item, items: seq<Item>, c: Char)
    ensures SomeItemHas([i] + items, c) == (ItemHas(i, c) || SomeItemHas(items, c))
  {
    var all := [i] + items;
    if SomeItemHas(items, c) {
      var k :| 0 <= k < |items| && ItemHas(items[k], c);
      assert all[k + 1] == items[k];
    }
    if ItemHas(i, c) {
      assert ItemHas(all[0], c);
    }
    if SomeItemHas(all, c) {
      var k :| 0 <= k < |all| && ItemHas(all[k], c);
      assert k > 0 ==> items[k - 1] == all[k];
    }
  }

  /** Whether reading the items r, with what was seen before, comes to the same as reading f. */
  predicate SameClass(f: Option<(seq<Item>, seq<Char>)>, seen: bool, r: Option<(seq<Item>, seq<Char>)>, c: Char) {
    && (f == None <==> r == None)
    && (f.Some? ==> f.value.1 == r.value.1 && SomeItemHas(f.value.0, c) == (seen || SomeItemHas(r.value.0, c)))
  }

  lemma OneMoreItem(f: Option<(seq<Item>, seq<Char>)>, seen: bool, i: Item, r: Option<(seq<Item>, seq<Char>)>, c: Char)
    requires SameClass(f, seen, Prepend(i, r), c)
    ensures SameClass(f, seen || ItemHas(i, c), r, c)
  {
    if r.Some? {
      ItemsHave(i, r.value.0, c);
    }
  }

  /** The class branch: whether character c is in the class that g starts, and where the pattern goes on. */
  method MatchClass(g: seq<Char>, c: Char) returns (ok: bool, rest: seq<Char>)
    ensures
      var r := ClassToken(g);
      && ok == (r.0.OneOf? && SomeItemHas(r.0.items, c) != r.0.invert)
      && (ok ==> rest == r.1)
  {
    hide ItemHas, SomeItemHas, Items;
    var invert, seen := false, false;
    rest := g;
    if rest != [] && rest[0] == CARET {
      invert := true;
      rest := rest[1..];
    }
    ghost var f := FirstItems(rest);
    assert forall r :: SameClass(r, false, r, c);
    if rest != [] && rest[0] == CLOSE {
      OneMoreItem(f, false, Single(CLOSE), Items(rest[1..], 0), c);
      assert ItemHas(Single(CLOSE), c) == (c == CLOSE) by { SingleHas(CLOSE, c); }
      if c == CLOSE { seen := true; }
      rest := rest[1..];
    }
    var prior: Prior := 0;
    while rest != [] && rest[0] != CLOSE
      invariant SameClass(f, seen, Items(rest, prior), c)
      decreases |rest|
    {
      ItemsStep(rest, prior);
      if rest[0] == DASH && |rest| > 1 && rest[1] != CLOSE && prior > 0 {
        OneMoreItem(f, seen, Range(prior, rest[1]), Items(rest[2..], 0), c);
        RangeHas(prior, rest[1], c);
        if prior <= c <= rest[1] { seen := true; }
        rest := rest[2..];
        prior := 0;
      } else {
        OneMoreItem(f, seen, Single(rest[0]), Items(rest[1..], rest[0]), c);
        SingleHas(rest[0], c);
        if c == rest[0] { seen := true; }
        prior := rest[0];
        rest := rest[1..];
      }
    }
    ItemsEnd(rest, prior);
    NoItemHas(c);
    if rest == [] || seen == invert {
      return false, rest;
    }
    return true, rest[1..];
  }

  lemma SingleHas(d: Char, c: Char)
    ensures ItemHas(Single(d), c) == (c == d)
  {
  }

  lemma RangeHas(low: Char, high: Char, c: Char)
    ensures ItemHas(Range(low, high), c) == (low <= c <= high)
  {
  }

  lemma ItemsStep(g: seq<Char>, prior: Prior)
    requires g != [] && g[0] != CLOSE
    ensures Items(g, prior) ==
      if g[0] == DASH && |g| > 1 && g[1] != CLOSE && prior > 0 then Prepend(Range(prior, g[1]), Items(g[2..], 0))
      else Prepend(Single(g[0]), Items(g[1..], g[0]))
  {
  }

  lemma ItemsEnd(g: seq<Char>, prior: Prior)
    requires g == [] || g[0] == CLOSE
    ensures Items(g, prior) == if g == [] then None else Some(([], g[1..]))
  {
  }

  /** What follows a run with a star in it, when it is a class: the tokens begin with one that needs a character. */
  lemma ClassNeedsCharacter(g: seq<Char>)
    requires g != [] && g[0] == OPEN
    ensures Parse(g, true, false) == Parse(g, false, false) && !MatchesPattern(g, [])
  {
  }

  /** The star branch: the pattern after the star against the text. */
  method MatchStar(glob: seq<Char>, text: seq<Char>) returns (matched: bool)
    ensures matched == Matches([Star] + Parse(glob, true, false), text)
    decreases |glob|, 2
  {
    var zGlob, z := glob, text;
    while zGlob != [] && (zGlob[0] == STAR || zGlob[0] == QUESTION)
      invariant |zGlob| <= |glob|
      invariant Matches([Star] + Parse(zGlob, true, false), z) == Matches([Star] + Parse(glob, true, false), text)
      decreases |zGlob|
    {
      if zGlob[0] == QUESTION {
        StarThenOne(Parse(zGlob[1..], true, false), z);
        if z == [] { return false; }
        z := z[1..];
      } else {
        StarThenStar(Parse(zGlob[1..], true, false), z);
      }
      zGlob := zGlob[1..];
    }
    if zGlob == [] {
      StarAtEnd(z);
      assert [Star] + [] == [Star];
      return true;
    }
    if zGlob[0] == OPEN {
      matched := SearchClass(zGlob, z);
    } else {
      matched := SearchLiteral(zGlob[0], zGlob[1..], z);
    }
  }

  /** while( *z && testcase_glob(zGlob-1,z)==0 ) z++ */
  lemma StarTries(p: seq<Token>, z: seq<Char>)
    ensures Matches([Star] + p, z) <==> exists k :: 0 <= k <= |z| && Matches(p, z[k..])
  {
    assert ([Star] + p)[1..] == p;
  }

  method SearchClass(glob: seq<Char>, text: seq<Char>) returns (matched: bool)
    requires glob != [] && glob[0] == OPEN
    ensures matched == Matches([Star] + Parse(glob, true, false), text)
    decreases |glob|, 1
  {
    ClassNeedsCharacter(glob);
    ghost var p := Parse(glob, true, false);
    StarTries(p, text);
    hide Matches, Parse;
    var i := 0;
    while i < |text|
      invariant 0 <= i <= |text|
      invariant forall k | 0 <= k < i :: !Matches(p, text[k..])
    {
      var found := TestcaseGlob(glob, text[i..]);
      if found { return true; }
      i := i + 1;
    }
    assert text[|text|..] == [];
    return false;
  }

  /** The loop that jumps to the next occurrence of c and tries the rest of the pattern there. */
  method SearchLiteral(c: Char, glob: seq<Char>, text: seq<Char>) returns (matched: bool)
    ensures matched == Matches([Star] + ([Literal(c)] + Parse(glob, false, false)), text)
    decreases |glob| + 1, 1
  {
    ghost var p := Parse(glob, false, false);
    ghost var q := [Literal(c)] + p;
    assert q[1..] == p && ([Star] + q)[1..] == q;
    var i := 0;
    while i < |text|
      invariant 0 <= i <= |text|
      invariant forall k | 0 <= k < i :: !Matches(q, text[k..])
      decreases |text| - i
    {
      while text[i] != c
        invariant 0 <= i < |text|
        invariant forall k | 0 <= k < i :: !Matches(q, text[k..])
        decreases |text| - i
      {
        i := i + 1;
        if i == |text| {
          assert text[|text|..] == [];
          return false;
        }
      }
      assert text[i..][1..] == text[i + 1..];
      var found := TestcaseGlob(glob, text[i + 1..]);
      if found { return true; }
      i := i + 1;
    }
    assert text[|text|..] == [];
    return false;
  }

  method EatDigits(z: seq<Char>) returns (r: seq<Char>)
    ensures r == SkipDigits(z)
  {
    r := z;
    while r != [] && IsDigit(r[0])
      invariant SkipDigits(r) == SkipDigits(z)
      decreases |r|
    {
      r := r[1..];
    }
  }

  method TestcaseGlob(glob: seq<Char>, text: seq<Char>) returns (matched: bool)
    ensures matched == MatchesPattern(glob, text)
    decreases |glob|, 0
  {
    var zGlob, z := glob, text;
    while zGlob != []
      invariant |zGlob| <= |glob|
      invariant MatchesPattern(zGlob, z) == MatchesPattern(glob, text)
      decreases |zGlob|
    {
      var c := zGlob[0];
      var p := zGlob[1..];
      if IsSpace(c) {
        if z == [] || !IsSpace(z[0]) { return false; }
        zGlob := EatSpaces(p);
        z := EatSpaces(z);
      } else if c == STAR {
        matched := MatchStar(p, z);
        return;
      } else if c == QUESTION {
        if z == [] { return false; }
        zGlob, z := p, z[1..];
      } else if c == OPEN {
        if z == [] { return false; }
        var ok, rest := MatchClass(p, z[0]);
        if !ok { return false; }
        zGlob, z := rest, z[1..];
      } else if c == HASH {
        if |z| > 1 && (z[0] == 45 || z[0] == 43) && IsDigit(z[1]) { z := z[1..]; }
        if z == [] || !IsDigit(z[0]) { return false; }
        z := EatDigits(z[1..]);
        zGlob := p;
      } else {
        if z == [] || z[0] != c { return false; }
        zGlob, z := p, z[1..];
      }
    }
    z := EatSpaces(z);
    return z == [];
  }
}
