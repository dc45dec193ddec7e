// ResponseImplementation::cacheControl: the directives of a Cache-Control header.
module CacheControl {
  import opened CType
  import opened Numerals
  import opened Options

  const INT_MAX: int := 0x7fff_ffff

  // ----- the pieces of the standard library that the code uses

  /** The position of c, or the length of the text. */
  function Find(s: string, c: char): (n: nat)
    ensures n <= |s| && (n < |s| ==> s[n] == c) && c !in s[..n]
  {
    if s == "" || s[0] == c then 0 else
      var n := 1 + Find(s[1..], c);
      assert s[..n] == [s[0]] + s[1..][..n - 1];
      n
  }

  /** What std::getline with ',' yields in turn; nothing after a comma at the very end. */
  function Tokens(s: string): seq<string>
    decreases |s|
  {
    if s == "" then []
    else
      var n := Find(s, ',');
      if n == |s| then [s] else [s[..n]] + Tokens(s[n + 1..])
  }

  /** A token without its whitespace. */
  function Strip(s: string): string {
    if s == "" then "" else (if IsSpace(s[0] as int) then "" else [s[0]]) + Strip(s[1..])
  }

  datatype Number = Value(n: int) | InvalidArgument | OutOfRange

  /** The digits at the start of s, after digits with the value n. */
  function Digits(s: string, n: nat): nat {
    if s == "" || !('0' <= s[0] <= '9') then n else Digits(s[1..], 10 * n + (s[0] - '0') as nat)
  }

  /** std::stoi of a text without whitespace. */
  function Stoi(s: string): Number {
    var signed := s != "" && (s[0] == '-' || s[0] == '+');
    var digits := if signed then s[1..] else s;
    if digits == "" || !('0' <= digits[0] <= '9') then InvalidArgument
    else
      var n: int := Digits(digits, 0);
      var v := if signed && s[0] == '-' then -n else n;
      if -INT_MAX - 1 <= v <= INT_MAX then Value(v) else OutOfRange
  }

  // ----- the code

  datatype Directive = Directive(name: string, value: string)

  /** How a stripped token is taken apart. */
  function ReadDirective(token: string): Directive {
    var n := Find(token, '=');
    if n == |token| || n == |token| - 1 then Directive(token, "") else Directive(token[..n], token[n + 1..])
  }

  datatype Control = Control(mustRevalidate: bool, noCache: bool, noStore: bool, noTransform: bool,
    isPublic: bool, isPrivate: bool, proxyRevalidate: bool, maxAge: int, sMaxage: int)

  /** The result, or the exception of std::stoi. */
  datatype Outcome = Parsed(control: Control) | Throws(number: Number)

  function Age(m: map<string, string>, k: string): Number {
    if k in m then Stoi(m[k]) else Value(0)
  }

  /** The outcome for the directives found. */
  function OutcomeOf(m: map<string, string>): Outcome {
    var a := Age(m, "max-age");
    var s := Age(m, "s-maxage");
    if !a.Value? then Throws(a)
    else if !s.Value? then Throws(s)
    else Parsed(Control("must-revalidate" in m, "no-cache" in m, "no-store" in m, "no-transform" in m,
      "public" in m, "private" in m, "proxy-revalidate" in m, a.n, s.n))
  }

  /** The last value given to each name. */
  function MapOf(ds: seq<Directive>): map<string, string> {
    if ds == [] then map[] else MapOf(ds[..|ds| - 1])[ds[|ds| - 1].name := ds[|ds| - 1].value]
  }

  function ReadAll(tokens: seq<string>): seq<Directive> {
    if tokens == [] then [] else [ReadDirective(Strip(tokens[0]))] + ReadAll(tokens[1..])
  }

  function Directives(header: string): seq<Directive> {
    ReadAll(Tokens(header))
  }

  lemma DirectivesStep(s: string)
    ensures s == "" ==> Directives(s) == []
    ensures s != "" ==>
      var n := Find(s, ',');
      Directives(s) == [ReadDirective(Strip(s[..n]))] + Directives(if n == |s| then "" else s[n + 1..])
  {
    hide Strip, ReadDirective, Find;
    if s != "" {
      var n := Find(s, ',');
      assert n == |s| ==> s[..n] == s;
      var rest := Tokens(if n == |s| then "" else s[n + 1..]);
      assert Tokens(s) == [s[..n]] + rest;
      assert ([s[..n]] + rest)[1..] == rest;
    }
  }

  method ParseHeader(header: Option<string>) returns (r: Outcome)
    ensures r == OutcomeOf(if header == None then map[] else MapOf(Directives(header.value)))
  {
    hide Strip, ReadDirective, Stoi, Directives, Find;
    if header == None {
      return Parsed(Control(false, false, false, false, false, false, false, 0, 0));
    }
    var m := ReadTokens(header.value);
    var maxAge := 0;
    if "max-age" in m {
      var n := Stoi(m["max-age"]);
      if !n.Value? {
        return Throws(n);
      }
      maxAge := n.n;
    }
    var sMaxage := 0;
    if "s-maxage" in m {
      var n := Stoi(m["s-maxage"]);
      if !n.Value? {
        return Throws(n);
      }
      sMaxage := n.n;
    }
    r := Parsed(Control("must-revalidate" in m, "no-cache" in m, "no-store" in m, "no-transform" in m,
      "public" in m, "private" in m, "proxy-revalidate" in m, maxAge, sMaxage));
  }

  /** The loop over the tokens. */
  method ReadTokens(header: string) returns (directives: map<string, string>)
    ensures directives == MapOf(Directives(header))
  {
    hide Strip, ReadDirective, Directives;
    directives := map[];
    var ss := header;
    ghost var ds: seq<Directive> := [];
    while ss != ""
      invariant ds + Directives(ss) == Directives(header)
      invariant directives == MapOf(ds)
      decreases |ss|
    {
      DirectivesStep(ss);
      var n := Find(ss, ',');
      var token := Strip(ss[..n]);
      ss := if n == |ss| then "" else ss[n + 1..];
      var d := ReadDirective(token);
      directives := directives[d.name := d.value];
      assert (ds + [d])[..|ds|] == ds;
      ds := ds + [d];
    }
    DirectivesStep(ss);
    assert ds + [] == ds;
  }

  // ----- printing directives

  predicate IsText(s: string) {
    forall c | c in s :: !IsSpace(c as int) && c != ','
  }

  /** A name, and perhaps a value; "" stands for no value. */
  predicate WellFormed(d: Directive) {
    d.name != "" && IsText(d.name) && '=' !in d.name && IsText(d.value)
  }

  function Print(d: Directive): string {
    if d.value == "" then d.name else d.name + "=" + d.value
  }

  function PrintAll(ds: seq<Directive>): string {
    if ds == [] then "" else if |ds| == 1 then Print(ds[0]) else Print(ds[0]) + "," + PrintAll(ds[1..])
  }

  lemma {:induction false} FindIn(s: string, c: char, n: nat)
    requires n <= |s| && c !in s[..n] && (n < |s| ==> s[n] == c)
    ensures Find(s, c) == n
  {
    if n > 0 {
      assert s[..n][0] == s[0];
      assert s[1..][..n - 1] == s[..n][1..];
      FindIn(s[1..], c, n - 1);
    }
  }

  lemma {:induction false} FindMember(s: string, c: char)
    ensures Find(s, c) < |s| <==> c in s
  {
    if s != "" && s[0] != c {
      assert s == [s[0]] + s[1..];
      FindMember(s[1..], c);
    }
  }

  lemma ReadPrinted(d: Directive)
    requires WellFormed(d)
    ensures ReadDirective(Print(d)) == d
  {
    hide Find, IsText;
    FindIn(Print(d), '=', |d.name|);
    if d.value != "" {
      var t := d.name + "=" + d.value;
      assert t[..|d.name|] == d.name && t[|d.name| + 1..] == d.value;
    } else {
      assert d.name[..|d.name|] == d.name;
    }
  }

  /** An equals sign at the end belongs to the name, and one at the start leaves the name empty. */
  lemma EqualsAtTheEdge(name: string, value: string)
    requires '=' !in name && value != ""
    ensures ReadDirective(name + "=") == Directive(name + "=", "")
    ensures ReadDirective("=" + value) == Directive("", value)
  {
    hide Find;
    var t, u := name + "=", "=" + value;
    assert t[..|name|] == name && u[1..] == value && u[..0] == "";
    FindIn(t, '=', |name|);
    FindIn(u, '=', 0);
  }

  // ----- reading what was printed, with whitespace anywhere

  lemma {:induction false} StripConcat(s: string, t: string)
    ensures Strip(s + t) == Strip(s) + Strip(t)
  {
    if s == "" {
      assert s + t == t;
    } else {
      assert (s + t)[1..] == s[1..] + t;
      StripConcat(s[1..], t);
    }
  }

  /** h is t with whitespace anywhere. */
  predicate WithSpaces(h: string, t: string) {
    if h == "" then t == ""
    else if IsWhite(h[0] as int) then WithSpaces(h[1..], t)
    else t != "" && h[0] == t[0] && WithSpaces(h[1..], t[1..])
  }

  lemma {:induction false} StripIs(h: string, t: string)
    ensures Strip(h) == t <==> WithSpaces(h, t)
  {
    if h != "" {
      if IsWhite(h[0] as int) {
        assert "" + Strip(h[1..]) == Strip(h[1..]);
        StripIs(h[1..], t);
      } else if t != "" {
        assert [t[0]] + t[1..] == t;
        assert ([h[0]] + Strip(h[1..]))[1..] == Strip(h[1..]);
        StripIs(h[1..], t[1..]);
      }
    }
  }

  lemma {:induction false} StripKeeps(s: string, c: char)
    requires !IsSpace(c as int)
    ensures c in s <==> c in Strip(s)
  {
    if s != "" {
      assert s == [s[0]] + s[1..];
      StripKeeps(s[1..], c);
    }
  }

  /** The first comma of a text is found wherever whitespace stands. */
  lemma StripAtComma(h: string, a: string, r: string)
    requires Strip(h) == a + "," + r && ',' !in a
    ensures var n := Find(h, ','); n < |h| && Strip(h[..n]) == a && Strip(h[n + 1..]) == r
  {
    hide Strip, Find, IsSpace;
    var n := Find(h, ',');
    CommaIsNoSpace();
    StripKeeps(h, ',');
    assert (a + "," + r)[|a|] == ',';
    FindMember(h, ',');
    assert h == h[..n] + ([','] + h[n + 1..]);
    StripAround(h[..n], h[n + 1..]);
    StripKeeps(h[..n], ',');
    FirstCommaIsUnique(Strip(h[..n]), Strip(h[n + 1..]), a, r);
  }

  lemma CommaIsNoSpace()
    ensures !IsSpace(',' as int)
  {
  }

  lemma StripAround(front: string, back: string)
    ensures Strip(front + ([','] + back)) == Strip(front) + "," + Strip(back)
  {
    hide Strip;
    StripConcat(front, [','] + back);
    StripConcat([','], back);
    StripComma();
  }

  lemma StripComma()
    ensures Strip(",") == ","
  {
    assert ","[1..] == "";
  }

  lemma FirstCommaIsUnique(a: string, r: string, b: string, q: string)
    requires a + "," + r == b + "," + q && ',' !in a && ',' !in b
    ensures a == b && r == q
  {
    var s := a + "," + r;
    assert s[|a|] == ',' && s[|b|] == ',';
    assert s[..|a|] == a && s[..|b|] == b && s[|a| + 1..] == r && s[|b| + 1..] == q;
    FindIn(s, ',', |a|);
    FindIn(s, ',', |b|);
  }

  lemma PrintIsText(d: Directive)
    requires WellFormed(d)
    ensures ',' !in Print(d) && Print(d) != ""
  {
  }

  /** Directives separated by commas, with whitespace anywhere, are read back in order. */
  lemma {:induction false} DirectivesRoundTrip(h: string, ds: seq<Directive>)
    requires ds != [] && (forall d | d in ds :: WellFormed(d)) && Strip(h) == PrintAll(ds)
    ensures Directives(h) == ds
    decreases |ds|
  {
    hide Strip, Find, WellFormed, Print, Directives, ReadDirective;
    var d := ds[0];
    ReadPrinted(d);
    PrintIsText(d);
    DirectivesStep(h);
    StripNothing();
    if |ds| == 1 {
      StripKeeps(h, ',');
      var n := Find(h, ',');
      FindMember(h, ',');
      assert h[..n] == h;
      DirectivesStep("");
      assert [d] + [] == ds;
    } else {
      StripAtComma(h, Print(d), PrintAll(ds[1..]));
      DirectivesRoundTrip(h[Find(h, ',') + 1..], ds[1..]);
      assert ds == [d] + ds[1..];
    }
  }

  lemma StripNothing()
    ensures Strip("") == ""
  {
  }

  /** A header of whitespace alone gives what a missing header gives. */
  lemma BlankHeader(h: string)
    requires Strip(h) == ""
    ensures OutcomeOf(MapOf(Directives(h))) == OutcomeOf(map[])
  {
    hide Find, Strip, Stoi;
    StripKeeps(h, ',');
    var n := Find(h, ',');
    FindMember(h, ',');
    assert h[..n] == h;
    DirectivesStep(h);
    DirectivesStep("");
    assert Directives(h) == [] || Directives(h) == [ReadDirective("")];
    FindNothing();
    assert [ReadDirective("")][..0] == [];
    assert MapOf([]) == map[];
  }

  lemma FindNothing()
    ensures Find("", '=') == 0
  {
  }

  // ----- what the result says of the directives

  predicate Names(ds: seq<Directive>, k: string) {
    exists d | d in ds :: d.name == k
  }

  /** Position i holds the last directive with the name k. */
  predicate IsLast(ds: seq<Directive>, k: string, i: nat) {
    i < |ds| && ds[i].name == k && forall j | i < j < |ds| :: ds[j].name != k
  }

  lemma {:induction false} MapHasNames(ds: seq<Directive>, k: string)
    ensures k in MapOf(ds) <==> Names(ds, k)
  {
    if ds != [] {
      var front, last := ds[..|ds| - 1], ds[|ds| - 1];
      assert ds == front + [last];
      MapHasNames(front, k);
      if Names(front, k) {
        var d :| d in front && d.name == k;
        assert d in ds;
      }
    }
  }

  lemma {:induction false} MapHasLast(ds: seq<Directive>, k: string, i: nat)
    requires IsLast(ds, k, i)
    ensures k in MapOf(ds) && MapOf(ds)[k] == ds[i].value
  {
    var front, last := ds[..|ds| - 1], ds[|ds| - 1];
    if last.name != k {
      assert IsLast(front, k, i);
      MapHasLast(front, k, i);
    }
  }

  lemma {:induction false} SomeLast(ds: seq<Directive>, k: string) returns (i: nat)
    requires Names(ds, k)
    ensures IsLast(ds, k, i)
  {
    i := |ds| - 1;
    if ds[i].name != k {
      var front := ds[..i];
      assert ds == front + [ds[i]];
      i := SomeLast(front, k);
    }
  }

  predicate DistinctNames(ds: seq<Directive>) {
    forall i, j | 0 <= i < j < |ds| :: ds[i].name != ds[j].name
  }

  lemma MapOfDistinct(ds: seq<Directive>, d: Directive)
    requires DistinctNames(ds) && d in ds
    ensures d.name in MapOf(ds) && MapOf(ds)[d.name] == d.value
  {
    var i :| 0 <= i < |ds| && ds[i] == d;
    MapHasLast(ds, d.name, i);
  }

  /** The order of directives with different names does not matter. */
  lemma OrderDoesNotMatter(ds: seq<Directive>, es: seq<Directive>)
    requires DistinctNames(ds) && DistinctNames(es) && multiset(ds) == multiset(es)
    ensures OutcomeOf(MapOf(ds)) == OutcomeOf(MapOf(es))
  {
    hide OutcomeOf, MapOf;
    assert forall d :: d in ds <==> d in multiset(ds);
    assert forall d :: d in es <==> d in multiset(es);
    forall k: string ensures (k in MapOf(ds) <==> k in MapOf(es)) && (k in MapOf(ds) ==> MapOf(ds)[k] == MapOf(es)[k]) {
      MapHasNames(ds, k);
      MapHasNames(es, k);
      if Names(ds, k) {
        var d :| d in ds && d.name == k;
        MapOfDistinct(ds, d);
        MapOfDistinct(es, d);
      }
    }
    assert MapOf(ds) == MapOf(es);
  }

  // ----- numbers

  predicate AllDigits(s: string) {
    forall k | 0 <= k < |s| :: '0' <= s[k] <= '9'
  }

  lemma {:induction false} DecimalDigits(n: nat)
    ensures AllDigits(Decimal(n, DigitChar))
  {
    if n >= 10 {
      DecimalDigits(n / 10);
    }
  }

  lemma {:induction false} DigitsSnoc(s: string, c: char, n: nat)
    requires AllDigits(s) && '0' <= c <= '9'
    ensures Digits(s + [c], n) == 10 * Digits(s, n) + (c - '0') as nat
  {
    if s == "" {
      assert ("" + [c])[1..] == "";
    } else {
      assert (s + [c])[1..] == s[1..] + [c];
      DigitsSnoc(s[1..], c, 10 * n + (s[0] - '0') as nat);
    }
  }

  lemma {:induction false} DigitsOfDecimal(n: nat)
    ensures Digits(Decimal(n, DigitChar), 0) == n
  {
    if n < 10 {
      assert Decimal(n, DigitChar)[1..] == "";
    } else {
      DecimalDigits(n / 10);
      DigitsOfDecimal(n / 10);
      DigitsSnoc(Decimal(n / 10, DigitChar), DigitChar(n % 10), 0);
    }
  }

  lemma {:induction false} DigitsStop(d: string, rest: string, n: nat)
    requires AllDigits(d) && (rest == "" || !('0' <= rest[0] <= '9'))
    ensures Digits(d + rest, n) == Digits(d, n)
  {
    if d == "" {
      assert d + rest == rest;
    } else {
      assert (d + rest)[1..] == d[1..] + rest;
      DigitsStop(d[1..], rest, 10 * n + (d[0] - '0') as nat);
    }
  }

  lemma {:induction false} LeadingZeros(zeros: string, d: string)
    requires forall k | 0 <= k < |zeros| :: zeros[k] == '0'
    ensures Digits(zeros + d, 0) == Digits(d, 0)
  {
    if zeros == "" {
      assert zeros + d == d;
    } else {
      assert (zeros + d)[1..] == zeros[1..] + d;
      LeadingZeros(zeros[1..], d);
    }
  }

  /** A numeral with a sign or none and any leading zeros, whatever stands after it, is read within int. */
  lemma StoiOfDecimal(sign: string, zeros: string, n: nat, rest: string)
    requires sign in {"", "+", "-"} && forall k | 0 <= k < |zeros| :: zeros[k] == '0'
    requires rest == "" || !('0' <= rest[0] <= '9')
    ensures
      var v := (if sign == "-" then -1 else 1) * n;
      Stoi(sign + (zeros + Decimal(n, DigitChar) + rest)) ==
        if -0x8000_0000 <= v <= 0x7fff_ffff then Value(v) else OutOfRange
  {
    var d := zeros + Decimal(n, DigitChar);
    DecimalDigits(n);
    DigitsOfDecimal(n);
    LeadingZeros(zeros, Decimal(n, DigitChar));
    assert AllDigits(d);
    hide Decimal, Digits;
    DigitsStop(d, rest, 0);
    StoiIs(sign, d + rest);
  }

  lemma StoiIs(sign: string, digits: string)
    requires sign in {"", "+", "-"} && digits != "" && '0' <= digits[0] <= '9'
    ensures
      var v := (if sign == "-" then -1 else 1) * Digits(digits, 0);
      Stoi(sign + digits) == if -0x8000_0000 <= v <= 0x7fff_ffff then Value(v) else OutOfRange
  {
    hide Digits;
    if sign == "" {
      assert sign + digits == digits;
    } else {
      assert (sign + digits)[1..] == digits;
    }
  }

  /** std::stoi finds no number exactly when no digit is first, or second after a sign. */
  lemma NoNumberIff(s: string)
    ensures Stoi(s) == InvalidArgument <==>
      !(s != "" && '0' <= s[0] <= '9') && !(|s| > 1 && (s[0] == '+' || s[0] == '-') && '0' <= s[1] <= '9')
  {
    hide Digits;
  }

  // ----- the whole header

  /** The age a name is given last, or 0. */
  ghost predicate AgeIs(ds: seq<Directive>, k: string, age: int) {
    if Names(ds, k) then exists i: nat :: IsLast(ds, k, i) && Stoi(ds[i].value) == Value(age) else age == 0
  }

  /** A header with well-formed directives gives each flag and the last ages, whatever whitespace it has. */
  lemma HeaderMeaning(h: string, ds: seq<Directive>, age: nat, shared: nat)
    requires (forall d | d in ds :: WellFormed(d)) && Strip(h) == PrintAll(ds)
    requires AgeIs(ds, "max-age", age) && AgeIs(ds, "s-maxage", shared)
    ensures OutcomeOf(MapOf(Directives(h))) == Parsed(Control(
      Names(ds, "must-revalidate"), Names(ds, "no-cache"), Names(ds, "no-store"), Names(ds, "no-transform"),
      Names(ds, "public"), Names(ds, "private"), Names(ds, "proxy-revalidate"), age, shared))
  {
    hide Stoi, Strip, Directives, WellFormed, PrintAll, MapOf;
    ReadHeader(h, ds);
    AgeInMap(ds, "max-age", age);
    AgeInMap(ds, "s-maxage", shared);
    MapHasNames(ds, "must-revalidate");
    MapHasNames(ds, "no-cache");
    MapHasNames(ds, "no-store");
    MapHasNames(ds, "no-transform");
    MapHasNames(ds, "public");
    MapHasNames(ds, "private");
    MapHasNames(ds, "proxy-revalidate");
  }

  lemma ReadHeader(h: string, ds: seq<Directive>)
    requires (forall d | d in ds :: WellFormed(d)) && Strip(h) == PrintAll(ds)
    ensures OutcomeOf(MapOf(Directives(h))) == OutcomeOf(MapOf(ds))
  {
    hide Strip, Directives, WellFormed, OutcomeOf;
    if ds == [] {
      BlankHeader(h);
    } else {
      DirectivesRoundTrip(h, ds);
    }
  }

  lemma AgeInMap(ds: seq<Directive>, k: string, age: int)
    requires AgeIs(ds, k, age)
    ensures (if k in MapOf(ds) then Stoi(MapOf(ds)[k]) else Value(0)) == Value(age)
  {
    hide Stoi, MapOf;
    MapHasNames(ds, k);
    if Names(ds, k) {
      var i: nat :| IsLast(ds, k, i) && Stoi(ds[i].value) == Value(age);
      MapHasLast(ds, k, i);
    }
  }

  /** std::stoi throws exactly when the last value of max-age or s-maxage is not a number within int. */
  lemma ThrowsIff(ds: seq<Directive>)
    ensures OutcomeOf(MapOf(ds)).Throws? <==>
      exists i: nat, k | k in {"max-age", "s-maxage"} :: IsLast(ds, k, i) && !Stoi(ds[i].value).Value?
  {
    hide Stoi, MapOf;
    forall k | k in {"max-age", "s-maxage"}
      ensures (k in MapOf(ds) && !Stoi(MapOf(ds)[k]).Value?) <==>
        exists i: nat :: IsLast(ds, k, i) && !Stoi(ds[i].value).Value?
    {
      MapHasNames(ds, k);
      if Names(ds, k) {
        var i := SomeLast(ds, k);
        MapHasLast(ds, k, i);
      }
      forall j: nat | IsLast(ds, k, j) ensures k in MapOf(ds) && MapOf(ds)[k] == ds[j].value {
        MapHasLast(ds, k, j);
      }
    }
  }

  lemma {:induction false} StripText(s: string)
    requires IsText(s)
    ensures Strip(s) == s
  {
    if s != "" {
      assert s[0] in s && forall c | c in s[1..] :: c in s;
      StripText(s[1..]);
      assert [s[0]] + s[1..] == s;
    }
  }

  /** Names are compared letter by letter: the header No-Store sets no flag. */
  lemma NamesAreCaseSensitive()
    ensures OutcomeOf(MapOf(Directives("No-Store"))) ==
      Parsed(Control(false, false, false, false, false, false, false, 0, 0))
  {
    hide Strip, Directives, MapOf, OutcomeOf;
    var h := "No-Store";
    var ds := [Directive(h, "")];
    PrintIsText(ds[0]);
    StripText(h);
    assert h[0] == 'N' && "no-store"[0] == 'n';
    HeaderMeaning(h, ds, 0, 0);
  }

  // ----- names in any case, as section 5.2 of RFC 7234 has them

  function LowerName(s: string): (r: string)
    ensures |r| == |s|
  {
    if s == "" then "" else [Lower(s[0])] + LowerName(s[1..])
  }

  /** The directives with their names in lower case. */
  function Folded(ds: seq<Directive>): (r: seq<Directive>)
    ensures |r| == |ds|
    ensures forall i | 0 <= i < |ds| :: r[i] == Directive(LowerName(ds[i].name), ds[i].value)
  {
    seq(|ds|, i requires 0 <= i < |ds| => Directive(LowerName(ds[i].name), ds[i].value))
  }

  const FLAGS: set<string> := {
    "must-revalidate", "no-cache", "no-store", "no-transform", "public", "private", "proxy-revalidate"
  }

  /** The directive is missing in every case of letters, or is there in lower case. */
  predicate FlagSpelled(ds: seq<Directive>, k: string) {
    Names(ds, k) || forall d | d in ds :: LowerName(d.name) != k
  }

  /** The last directive with the name in any case has the age of the last in lower case, or is 0 when there is none. */
  ghost predicate AgeSpelled(ds: seq<Directive>, k: string) {
    forall i: nat | IsLast(Folded(ds), k, i) ::
      if Names(ds, k) then exists j: nat :: IsLast(ds, k, j) && Stoi(ds[j].value) == Stoi(ds[i].value)
      else Stoi(ds[i].value) == Value(0)
  }

  lemma FoldedNames(ds: seq<Directive>, k: string)
    ensures Names(Folded(ds), k) <==> exists d | d in ds :: LowerName(d.name) == k
  {
    hide LowerName;
    var fs := Folded(ds);
    if d :| d in ds && LowerName(d.name) == k {
      var i :| 0 <= i < |ds| && ds[i] == d;
      assert fs[i] in fs && fs[i].name == k;
    }
    if f :| f in fs && f.name == k {
      var i :| 0 <= i < |fs| && fs[i] == f;
      assert ds[i] in ds && LowerName(ds[i].name) == k;
    }
  }

  /** A flag is read as in any case of letters exactly when it is so spelled. */
  lemma FlagInAnyCase(ds: seq<Directive>, k: string)
    requires LowerName(k) == k
    ensures (k in MapOf(ds) <==> k in MapOf(Folded(ds))) <==> FlagSpelled(ds, k)
  {
    hide LowerName, MapOf;
    MapHasNames(ds, k);
    MapHasNames(Folded(ds), k);
    FoldedNames(ds, k);
    if Names(ds, k) {
      var d :| d in ds && d.name == k;
      assert LowerName(d.name) == k;
    }
  }

  /** The same for an age. */
  lemma AgeInAnyCase(ds: seq<Directive>, k: string)
    requires LowerName(k) == k
    ensures Age(MapOf(ds), k) == Age(MapOf(Folded(ds)), k) <==> AgeSpelled(ds, k)
  {
    hide LowerName, MapOf, Stoi;
    var fs := Folded(ds);
    MapHasNames(ds, k);
    MapHasNames(fs, k);
    FoldedNames(ds, k);
    forall j: nat | IsLast(ds, k, j) ensures MapOf(ds)[k] == ds[j].value {
      MapHasLast(ds, k, j);
    }
    forall i: nat | IsLast(fs, k, i) ensures MapOf(fs)[k] == ds[i].value {
      MapHasLast(fs, k, i);
    }
    if Names(ds, k) {
      var j := SomeLast(ds, k);
      assert LowerName(ds[j].name) == k;
    }
    if Names(fs, k) {
      var i := SomeLast(fs, k);
    }
  }

  lemma {:induction false} LowerStays(s: string)
    requires forall c | c in s :: !('A' <= c <= 'Z')
    ensures LowerName(s) == s
  {
    if s != "" {
      assert s[0] in s && forall c | c in s[1..] :: c in s;
      LowerStays(s[1..]);
      assert [s[0]] + s[1..] == s;
    }
  }

  /** Both ages and the seven flags are read as in any case of letters. */
  ghost predicate AllSpelled(ds: seq<Directive>) {
    AgeSpelled(ds, "max-age") && AgeSpelled(ds, "s-maxage") && forall k | k in FLAGS :: FlagSpelled(ds, k)
  }

  lemma FlagsAgree(m: map<string, string>, n: map<string, string>)
    requires Age(m, "max-age").Value? && Age(m, "s-maxage").Value?
    requires Age(m, "max-age") == Age(n, "max-age") && Age(m, "s-maxage") == Age(n, "s-maxage")
    ensures OutcomeOf(m) == OutcomeOf(n) <==> forall k | k in FLAGS :: k in m <==> k in n
  {
    hide Age;
    assert FLAGS == {
      "must-revalidate", "no-cache", "no-store", "no-transform", "public", "private", "proxy-revalidate"
    };
  }

  /**
   * A header is read as if names were compared in any case of letters when all are so
   * spelled; without an exception in either reading, only then.
   */
  lemma ReadInAnyCase(ds: seq<Directive>)
    ensures
      var code, inAnyCase := OutcomeOf(MapOf(ds)), OutcomeOf(MapOf(Folded(ds)));
      && (AllSpelled(ds) ==> code == inAnyCase)
      && (code.Parsed? && inAnyCase.Parsed? && code == inAnyCase ==> AllSpelled(ds))
  {
    hide MapOf, Folded, Age, AgeSpelled, FlagSpelled, LowerName;
    var m, n := MapOf(ds), MapOf(Folded(ds));
    forall k | k in FLAGS + {"max-age", "s-maxage"} ensures LowerName(k) == k {
      LowerStays(k);
    }
    AgeInAnyCase(ds, "max-age");
    AgeInAnyCase(ds, "s-maxage");
    forall k | k in FLAGS ensures (k in m <==> k in n) <==> FlagSpelled(ds, k) {
      FlagInAnyCase(ds, k);
    }
    var a, s := Age(m, "max-age"), Age(m, "s-maxage");
    if a.Value? && s.Value? && a == Age(n, "max-age") && s == Age(n, "s-maxage") {
      FlagsAgree(m, n);
    }
  }
}
