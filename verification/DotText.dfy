// What stands in a dot-command line, by its characters: escapes, and arguments written in
// each of the three ways.
module DotText {
  import opened ByteStrings
  import opened CType
  import opened DotCommand
  import opened Sequences

  // ----- escapes

  /** Letter k of the table in the comment of resolve_backslashes, without s. */
  function EscapeLetter(k: nat): (c: char)
    requires k < 10
    ensures c as int < 128
  {
    "abtnvfr\"'\\"[k]
  }

  function Meaning(k: nat): byte
    requires k < 10
  {
    match k
    case 0 => 7 case 1 => 8 case 2 => 9 case 3 => 10 case 4 => 11 case 5 => 12 case 6 => 13
    case 7 => 34 case 8 => 39 case 9 => 92
  }

  lemma Unit(u: bytes, rest: bytes)
    requires u != [] && UnitLength(u + rest) == |u|
    ensures Resolve(u + rest) == [UnitValue(u + rest)] + Resolve(rest)
  {
    hide Resolve, UnitLength, UnitValue;
    NextUnit(u + rest);
    PrefixAndRest(u, rest);
  }

  lemma LetterUnit(k: nat, rest: bytes)
    requires k < 10
    ensures
      var s := [92, EscapeLetter(k) as int] + rest;
      UnitLength(s) == 2 && UnitValue(s) == Meaning(k)
  {
    var s := [92, EscapeLetter(k) as int] + rest;
    assert s[0] == 92 && s[1] == EscapeLetter(k) as int;
  }

  /** The escapes of the table. */
  lemma LetterEscape(k: nat, rest: bytes)
    requires k < 10
    ensures Resolve([92, EscapeLetter(k) as int] + rest) == [Meaning(k)] + Resolve(rest)
  {
    hide EscapeLetter, Meaning, Resolve, UnitLength, UnitValue;
    LetterUnit(k, rest);
    Unit([92, EscapeLetter(k) as int], rest);
  }

  predicate OctalDigit(c: byte) {
    '0' as int <= c <= '7' as int
  }

  /** A backslash before any other character is dropped; at the end it stays. */
  lemma OtherEscape(x: byte, rest: bytes)
    requires !OctalDigit(x) && x !in {'a' as int, 'b' as int, 't' as int, 'n' as int}
    requires x !in {'v' as int, 'f' as int, 'r' as int}
    ensures Resolve([92, x] + rest) == [x] + Resolve(rest)
    ensures Resolve([92]) == [92]
  {
    var s := [92, x] + rest;
    assert s[0] == 92 && s[1] == x;
    Unit([92, x], rest);
    assert [92][1..] == [];
  }

  lemma OneDigit(a: byte, rest: bytes)
    requires OctalDigit(a) && (rest == [] || !OctalDigit(rest[0]))
    ensures UnitLength([92, a] + rest) == 2 && UnitValue([92, a] + rest) == a as int - 48
  {
    var s := [92, a] + rest;
    assert s[0] == 92 && s[1] == a && (rest != [] ==> s[2] == rest[0]);
  }

  lemma TwoDigits(a: byte, b: byte, rest: bytes)
    requires OctalDigit(a) && OctalDigit(b) && (rest == [] || !OctalDigit(rest[0]))
    ensures UnitLength([92, a, b] + rest) == 3
    ensures UnitValue([92, a, b] + rest) == 8 * (a as int - 48) + (b as int - 48)
  {
    var s := [92, a, b] + rest;
    assert s[0] == 92 && s[1] == a && s[2] == b && (rest != [] ==> s[3] == rest[0]);
  }

  lemma ThreeDigits(a: byte, b: byte, c: byte, rest: bytes)
    requires OctalDigit(a) && OctalDigit(b) && OctalDigit(c)
    ensures UnitLength([92, a, b, c] + rest) == 4
    ensures UnitValue([92, a, b, c] + rest) == (64 * (a as int - 48) + 8 * (b as int - 48) + (c as int - 48)) % 256
  {
    var s := [92, a, b, c] + rest;
    assert s[0] == 92 && s[1] == a && s[2] == b && s[3] == c;
  }

  /** One to three octal digits, as many as there are, give their value modulo 256. */
  lemma OctalEscape(a: byte, b: byte, c: byte, rest: bytes)
    requires OctalDigit(a) && OctalDigit(b) && OctalDigit(c)
    ensures rest == [] || !OctalDigit(rest[0]) ==>
      && Resolve([92, a] + rest) == [a as int - 48] + Resolve(rest)
      && Resolve([92, a, b] + rest) == [8 * (a as int - 48) + (b as int - 48)] + Resolve(rest)
    ensures Resolve([92, a, b, c] + rest)
         == [(64 * (a as int - 48) + 8 * (b as int - 48) + (c as int - 48)) % 256] + Resolve(rest)
  {
    hide Resolve, UnitLength, UnitValue;
    if rest == [] || !OctalDigit(rest[0]) {
      OneDigit(a, rest);
      Unit([92, a], rest);
      TwoDigits(a, b, rest);
      Unit([92, a, b], rest);
    }
    ThreeDigits(a, b, c, rest);
    Unit([92, a, b, c], rest);
  }

  // ----- what is printed

  predicate Printable(c: byte) {
    ' ' as int <= c <= '~' as int
  }

  lemma PrintableEscape(c: byte)
    ensures forall b | b in Escape(c) :: Printable(b)
    ensures Printable(c) && c != 34 && c != 92 ==> Escape(c) == [c]
  {
  }

  lemma {:induction false} PrintedBody(z: bytes)
    ensures forall b | b in EscapeAll(z) :: Printable(b)
    ensures (forall c | c in z :: Printable(c) && c != 34 && c != 92) ==> EscapeAll(z) == z
  {
    hide Escape;
    if z != [] {
      PrintableEscape(z[0]);
      assert z == [z[0]] + z[1..] && z[0] in z && forall c | c in z[1..] :: c in z;
      PrintedBody(z[1..]);
    }
  }

  /** The output is printable, and printable text without quotes and backslashes stands in it as it is. */
  lemma PrintedText(z: bytes)
    ensures forall b | b in Quoted(z) :: Printable(b)
    ensures (forall c | c in z :: Printable(c) && c != 34 && c != 92) ==> Quoted(z) == [34] + z + [34]
  {
    hide EscapeAll;
    PrintedBody(z);
  }

  // ----- arguments

  /** An argument as it is written: a word, a text between single quotes, or a string as output_c_string prints it. */
  datatype Argument = Word(raw: bytes) | Single(text: bytes) | Double(text: bytes)

  predicate Writable(a: Argument) {
    match a
    case Word(raw) => raw != [] && raw[0] !in {'\'' as int, '"' as int} && forall c | c in raw :: !IsWhite(c)
    case Single(text) => '\'' as int !in text
    case Double(_) => true
  }

  function Written(a: Argument): bytes {
    match a
    case Word(raw) => raw
    case Single(text) => ['\'' as int] + text + ['\'' as int]
    case Double(text) => Quoted(text)
  }

  /** What the argument is: escapes have no meaning between single quotes. */
  function Value(a: Argument): bytes {
    match a
    case Word(raw) => Resolve(raw)
    case Single(text) => text
    case Double(text) => text
  }

  /** One or more whitespace characters. */
  predicate Gap(g: bytes) {
    g != [] && forall c | c in g :: IsWhite(c)
  }

  function Line(gaps: seq<bytes>, args: seq<Argument>): bytes
    requires |gaps| == |args|
  {
    if args == [] then [] else gaps[0] + (Written(args[0]) + Line(gaps[1..], args[1..]))
  }

  lemma {:induction false} GapCount(g: bytes, t: bytes)
    requires (forall c | c in g :: IsWhite(c)) && (t == [] || !IsWhite(t[0]))
    ensures SpaceCount(g + t) == |g|
  {
    if g == [] {
      assert g + t == t;
    } else {
      assert g[0] in g && (g + t)[1..] == g[1..] + t;
      GapCount(g[1..], t);
    }
  }

  lemma DropSpace(s: bytes, n: nat)
    requires s != [] && IsWhite(s[0])
    ensures TokensOf(s[1..], n) == TokensOf(s, n)
  {
    hide FirstToken, TokenText;
    assert SpaceCount(s) == 1 + SpaceCount(s[1..]);
    assert s[1..][SpaceCount(s[1..])..] == s[SpaceCount(s)..];
  }

  lemma {:induction false} SingleEnds(text: bytes, rest: bytes)
    requires 39 !in text
    ensures BodyEnd(text + ([39] + rest), 39) == |text|
  {
    var tail := [39] + rest;
    if text == [] {
      assert text + tail == tail;
    } else {
      assert text[0] in text && (text + tail)[1..] == text[1..] + tail;
      SingleEnds(text[1..], rest);
    }
  }

  /** s starts with the argument a, whose token ends before position next. */
  predicate StartsWith(s: bytes, a: Argument, next: nat) {
    s != [] && !IsWhite(s[0]) && !IsSpace(s[0]) && TokenText(s) == Value(a) && FirstToken(s).next == next
  }

  lemma WordIs(raw: bytes, rest: bytes)
    requires Writable(Word(raw)) && (rest == [] || IsWhite(rest[0]))
    ensures StartsWith(raw + rest, Word(raw), if rest == [] then |raw| else |raw| + 1)
  {
    hide Resolve, WordEnd, BodyEnd;
    var s := raw + rest;
    assert raw[0] in raw && s[0] == raw[0];
    WordStops(raw, rest);
    assert s[0..0 + |raw|] == raw;
  }

  lemma SingleIs(text: bytes, rest: bytes)
    requires Writable(Single(text))
    ensures StartsWith(Written(Single(text)) + rest, Single(text), |text| + 2)
  {
    hide Resolve, WordEnd, BodyEnd;
    var s := Written(Single(text)) + rest;
    SingleEnds(text, rest);
    assert s[1..] == text + ([39] + rest);
    assert s[1..1 + |text|] == text;
  }

  lemma DoubleIs(text: bytes, rest: bytes)
    ensures StartsWith(Written(Double(text)) + rest, Double(text), |Quoted(text)|)
  {
    hide Quoted, TokenText, FirstToken;
    QuotedIsToken(text, rest);
    QuotedStarts(text, rest);
  }

  lemma FirstIs(a: Argument, rest: bytes)
    requires Writable(a) && (rest == [] || IsWhite(rest[0]))
    ensures StartsWith(Written(a) + rest, a, |Written(a)| + if a.Word? && rest != [] then 1 else 0)
  {
    hide StartsWith, Quoted;
    match a
    case Word(raw) => WordIs(raw, rest);
    case Single(text) => SingleIs(text, rest);
    case Double(text) => DoubleIs(text, rest);
  }

  lemma QuotedStarts(text: bytes, rest: bytes)
    ensures Quoted(text) != [] && (Quoted(text) + rest)[0] == 34
  {
  }

  function Values(args: seq<Argument>): seq<bytes> {
    if args == [] then [] else [Value(args[0])] + Values(args[1..])
  }

  lemma TakeFirst(g: bytes, s: bytes, a: Argument, next: nat, n: nat)
    requires Gap(g) && StartsWith(s, a, next) && next <= |s| && n > 0
    ensures TokensOf(g + s, n) == [Value(a)] + TokensOf(s[next..], n - 1)
  {
    hide *;
    StartedWith(s, a, next);
    GapIs(g, s);
    NextToken(g + s, s, s[next..], n);
  }

  /** One argument is taken from the line, and the rest of the line stays. */
  lemma TakeOne(g: bytes, a: Argument, rest: bytes, n: nat)
    requires Gap(g) && Writable(a) && (rest == [] || IsWhite(rest[0])) && n > 0
    ensures TokensOf(g + (Written(a) + rest), n) == [Value(a)] + TokensOf(rest, n - 1)
  {
    hide *;
    var w := Written(a);
    var next := |w| + if a.Word? && rest != [] then 1 else 0;
    FirstIs(a, rest);
    AfterWritten(w, rest, next, n - 1);
    TakeFirst(g, w + rest, a, next, n);
  }

  lemma AfterWritten(w: bytes, rest: bytes, next: nat, n: nat)
    requires next == |w| || (rest != [] && IsWhite(rest[0]) && next == |w| + 1)
    ensures next <= |w + rest| && TokensOf((w + rest)[next..], n) == TokensOf(rest, n)
  {
    hide TokensOf;
    PrefixAndRest(w, rest);
    if next > |w| {
      DropSpace(rest, n);
      assert (w + rest)[next..] == rest[1..];
    }
  }

  lemma StartedWith(s: bytes, a: Argument, next: nat)
    requires StartsWith(s, a, next)
    ensures s != [] && !IsWhite(s[0]) && !IsSpace(s[0]) && TokenText(s) == Value(a) && FirstToken(s).next == next
  {
    hide TokenText, FirstToken, Value;
  }

  /** Arguments written in any of the three ways, with whitespace in front of each, are read as they are meant. */
  lemma {:induction false} ArgumentsAreRead(gaps: seq<bytes>, args: seq<Argument>, n: nat)
    requires |gaps| == |args| <= n && (forall g | g in gaps :: Gap(g)) && (forall a | a in args :: Writable(a))
    ensures TokensOf(Line(gaps, args), n) == Values(args)
    decreases n
  {
    hide TokensOf, Written, Value, Gap, Writable;
    if args == [] {
      NoTokens(n);
    } else {
      assert gaps[0] in gaps && args[0] in args;
      LineStarts(gaps[1..], args[1..]);
      TakeOne(gaps[0], args[0], Line(gaps[1..], args[1..]), n);
      ArgumentsAreRead(gaps[1..], args[1..], n - 1);
    }
  }

  lemma GapIs(g: bytes, t: bytes)
    requires Gap(g) && t != [] && !IsWhite(t[0])
    ensures SpaceCount(g + t) == |g| && (g + t)[|g|..] == t
  {
    GapCount(g, t);
  }

  lemma LineStarts(gaps: seq<bytes>, args: seq<Argument>)
    requires |gaps| == |args| && forall g | g in gaps :: Gap(g)
    ensures Line(gaps, args) == [] || IsWhite(Line(gaps, args)[0])
  {
    hide Written, IsWhite;
    if args != [] {
      assert gaps[0] in gaps && gaps[0][0] in gaps[0];
    }
  }
}
