// C-string output, the tokenizer of do_meta_command, and the in-place resolver of
// backslash escapes that it applies to the tokens.
module DotCommand {
  import opened ByteStrings
  import opened CStdio
  import opened CType
  import opened Sequences

  const BACKSLASH: byte := 92
  const DQUOTE: byte := 34
  const SQUOTE: byte := 39
  const SPACE: byte := 32
  const MAX_ARGS: nat := 50

  predicate IsPrint(c: byte) {
    32 <= c <= 126
  }

  predicate IsOctal(c: byte) {
    48 <= c <= 55
  }

  // ----- output_c_string

  /** One character between the quotes. */
  function Escape(c: byte): (e: bytes)
    ensures e != []
  {
    if c == BACKSLASH then [92, 92]
    else if c == DQUOTE then [92, 34]
    else if c == 9 then [92, 116]
    else if c == 10 then [92, 110]
    else if c == 13 then [92, 114]
    else if !IsPrint(c) then [92, 48 + c / 64, 48 + c / 8 % 8, 48 + c % 8]
    else [c]
  }

  function EscapeAll(z: bytes): bytes {
    if z == [] then [] else Escape(z[0]) + EscapeAll(z[1..])
  }

  function Quoted(z: bytes): bytes {
    [DQUOTE] + EscapeAll(z) + [DQUOTE]
  }

  lemma {:induction false} EscapeSnoc(z: bytes, c: byte)
    ensures EscapeAll(z + [c]) == EscapeAll(z) + Escape(c)
  {
    hide Escape;
    if z == [] {
      assert ([] + [c])[1..] == [];
    } else {
      assert (z + [c])[1..] == z[1..] + [c];
      EscapeSnoc(z[1..], c);
    }
  }

  lemma EscapeNothing()
    ensures EscapeAll([]) == []
  {
  }

  method OutputCString(out: OutFile, z: bytes)
    modifies out
    ensures out.text == old(out.text) + Quoted(z)
  {
    hide Escape, EscapeAll;
    out.PutChar(DQUOTE);
    EscapeNothing();
    for i := 0 to |z|
      invariant out.text == old(out.text) + [DQUOTE] + EscapeAll(z[..i])
    {
      EscapeSnoc(z[..i], z[i]);
      assert z[..i + 1] == z[..i] + [z[i]];
      WriteEscape(out, z[i]);
    }
    assert z[..|z|] == z;
    out.PutChar(DQUOTE);
  }

  /** The body of the loop of output_c_string. */
  method WriteEscape(out: OutFile, c: byte)
    modifies out
    ensures out.text == old(out.text) + Escape(c)
  {
    if c == BACKSLASH {
      out.PutChar(c);
      out.PutChar(c);
    } else if c == DQUOTE {
      out.PutChar(92);
      out.PutChar(34);
    } else if c == 9 {
      out.PutChar(92);
      out.PutChar(116);
    } else if c == 10 {
      out.PutChar(92);
      out.PutChar(110);
    } else if c == 13 {
      out.PutChar(92);
      out.PutChar(114);
    } else if !IsPrint(c) {
      out.PutText([92, 48 + c / 64, 48 + c / 8 % 8, 48 + c % 8]);
    } else {
      out.PutChar(c);
    }
  }

  // ----- what resolve_backslashes makes of a text

  /** The character that an escape letter stands for. */
  function Letter(c: byte): byte {
    if c == 97 then 7 else if c == 98 then 8 else if c == 116 then 9 else if c == 110 then 10
    else if c == 118 then 11 else if c == 102 then 12 else if c == 114 then 13 else c
  }

  /** How many characters the escape or plain character at the start of s takes. */
  function UnitLength(s: bytes): (n: nat)
    requires s != []
    ensures 1 <= n <= |s|
  {
    if s[0] != BACKSLASH || |s| == 1 then 1
    else if !IsOctal(s[1]) || |s| == 2 || !IsOctal(s[2]) then 2
    else if |s| == 3 || !IsOctal(s[3]) then 3
    else 4
  }

  function Octal(c: byte): (d: int)
    requires IsOctal(c)
    ensures 0 <= d < 8
  {
    c as int - 48
  }

  /** The character it stands for; an octal value is cut to a char. */
  function UnitValue(s: bytes): byte
    requires s != []
  {
    if s[0] != BACKSLASH || |s| == 1 then s[0]
    else if !IsOctal(s[1]) then Letter(s[1])
    else if UnitLength(s) == 2 then Octal(s[1])
    else if UnitLength(s) == 3 then Octal(s[1]) * 8 + Octal(s[2])
    else (Octal(s[1]) * 64 + Octal(s[2]) * 8 + Octal(s[3])) % 256
  }

  function Resolve(s: bytes): (r: bytes)
    ensures |r| <= |s|
  {
    if s == [] then [] else [UnitValue(s)] + Resolve(s[UnitLength(s)..])
  }

  /** Without a backslash there is nothing to resolve. */
  lemma {:induction false} ResolvePlain(p: bytes, s: bytes)
    requires BACKSLASH !in p
    ensures Resolve(p + s) == p + Resolve(s)
  {
    if p == [] {
      assert p + s == s;
    } else {
      assert p[0] in p;
      assert (p + s)[1..] == p[1..] + s;
      ResolvePlain(p[1..], s);
    }
  }

  // ----- the resolver in place

  /** The part of the loop of resolve_backslashes that reads one unit. */
  method ReadUnit(z: array<byte>, at: nat, ghost e: nat) returns (c: byte, next: nat)
    requires at < e < z.Length && z[e] == 0 && 0 !in z[at..e]
    ensures c == UnitValue(z[at..e]) && next == at + UnitLength(z[at..e])
  {
    ghost var s := z[at..e];
    assert forall k | at <= k < e :: z[k] == s[k - at] && z[k] != 0;
    c := z[at];
    next := at;
    if c == BACKSLASH && z[at + 1] != 0 {
      next := at + 1;
      c := z[next];
      if IsOctal(c) {
        var v := Octal(c);
        if IsOctal(z[next + 1]) {
          next := next + 1;
          v := v * 8 + Octal(z[next]);
          if IsOctal(z[next + 1]) {
            next := next + 1;
            v := v * 8 + Octal(z[next]);
          }
        }
        c := v % 256;
      } else {
        c := Letter(c);
      }
    }
    next := next + 1;
  }

  /** resolve_backslashes on the C string at position p, which ends at position e. */
  method ResolveBackslashes(z: array<byte>, p: nat, ghost e: nat)
    requires p <= e < z.Length && z[e] == 0 && 0 !in z[p..e]
    modifies z
    ensures
      var r := Resolve(old(z[p..e]));
      && z[p..p + |r|] == r && (p + |r| <= e) && z[p + |r|] == 0
    ensures z[e] == 0
    ensures forall k | 0 <= k < p || e < k < z.Length :: z[k] == old(z[k])
  {
    hide Resolve;
    var start := SkipPlain(z, p, e);
    SplitPlain(z[..], p, start, e);
    assert forall k | start <= k < e :: z[k] == z[p..e][k - p];
    var i, j := start, start;
    while z[i] != 0
      invariant start <= j <= i <= e && z[e] == 0 && 0 !in z[i..e]
      invariant forall k | 0 <= k < p || e < k < z.Length :: z[k] == old(z[k])
      invariant Resolve(old(z[p..e])) == z[p..j] + Resolve(z[i..e])
      decreases e - i
    {
      i := ResolveUnit(z, p, i, j, e);
      j := j + 1;
    }
    NulOrEnd(z[..], i, e);
    assert z[..][i..e] == z[i..e];
    assert z[e..e] == [];
    ResolveEmpty();
    ghost var r := z[p..j];
    if j < i {
      z[j] := 0;
    }
    assert z[p..j] == r;
  }

  /** The loop up to the first backslash. */
  method SkipPlain(z: array<byte>, p: nat, ghost e: nat) returns (start: nat)
    requires p <= e < z.Length && z[e] == 0
    ensures p <= start <= e && BACKSLASH !in z[p..start]
  {
    start := p;
    while z[start] != 0 && z[start] != BACKSLASH
      invariant p <= start <= e && BACKSLASH !in z[p..start]
      decreases e - start
    {
      start := start + 1;
    }
  }

  /** The body of the second loop: one unit is read at i and written at j. */
  method ResolveUnit(z: array<byte>, p: nat, i: nat, j: nat, ghost e: nat) returns (next: nat)
    requires p <= j <= i < e < z.Length && z[e] == 0 && 0 !in z[i..e]
    modifies z
    ensures i < next <= e && z[e] == 0 && 0 !in z[next..e]
    ensures forall k | 0 <= k < z.Length && k != j :: z[k] == old(z[k])
    ensures z[p..j + 1] + Resolve(z[next..e]) == old(z[p..j] + Resolve(z[i..e]))
  {
    hide Resolve, UnitValue, UnitLength;
    ghost var s := z[i..e];
    NextUnit(s);
    ghost var done := z[p..j];
    var c;
    c, next := ReadUnit(z, i, e);
    assert s[next - i..] == z[next..e];
    z[j] := c;
    assert z[p..j + 1] == done + [c];
    assert z[next..e] == s[next - i..];
    assert done + [c] + Resolve(z[next..e]) == done + ([c] + Resolve(z[next..e]));
  }

  lemma ResolveEmpty()
    ensures Resolve([]) == []
  {
  }

  lemma NextUnit(s: bytes)
    requires s != []
    ensures Resolve(s) == [UnitValue(s)] + Resolve(s[UnitLength(s)..])
  {
  }

  lemma SplitPlain(z: bytes, p: nat, m: nat, e: nat)
    requires p <= m <= e <= |z| && BACKSLASH !in z[p..m]
    ensures Resolve(z[p..e]) == z[p..m] + Resolve(z[m..e])
  {
    assert z[p..e] == z[p..m] + z[m..e];
    ResolvePlain(z[p..m], z[m..e]);
  }

  // ----- the tokens of a dot-command line

  function SpaceCount(s: bytes): (n: nat)
    ensures n <= |s| && (n < |s| ==> !IsSpace(s[n]))
  {
    if s == [] || !IsSpace(s[0]) then 0 else 1 + SpaceCount(s[1..])
  }

  function WordEnd(s: bytes): (n: nat)
    ensures n <= |s| && (s != [] && !IsSpace(s[0]) ==> n > 0)
  {
    if s == [] || IsSpace(s[0]) then 0 else 1 + WordEnd(s[1..])
  }

  /** Where the text between quotes ends: a double-quoted text skips escaped characters. */
  function BodyEnd(s: bytes, delim: byte): (n: nat)
    ensures n <= |s| && (n < |s| ==> s[n] == delim)
  {
    if s == [] || s[0] == delim then 0
    else if s[0] == BACKSLASH && delim == DQUOTE && |s| > 1 then 2 + BodyEnd(s[2..], delim)
    else 1 + BodyEnd(s[1..], delim)
  }

  predicate IsQuote(c: byte) {
    c == SQUOTE || c == DQUOTE
  }

  /** A token of s as it stands in the line: where it begins, its length, and where scanning goes on. */
  datatype Extent = Extent(begin: nat, length: nat, next: nat)

  function FirstToken(s: bytes): (x: Extent)
    requires s != [] && !IsSpace(s[0])
    ensures x.begin + x.length <= |s| && 0 < x.next <= |s|
    ensures x.begin + x.length < x.next || x.begin + x.length == x.next == |s|
  {
    if IsQuote(s[0]) then
      var n := BodyEnd(s[1..], s[0]);
      Extent(1, n, if 1 + n < |s| then n + 2 else n + 1)
    else
      var n := WordEnd(s);
      Extent(0, n, if n < |s| then n + 1 else n)
  }

  function TokenText(s: bytes): bytes
    requires s != [] && !IsSpace(s[0])
  {
    var x := FirstToken(s);
    var body := s[x.begin..x.begin + x.length];
    if s[0] == SQUOTE then body else Resolve(body)
  }

  /** The texts of at most n tokens of s. */
  function TokensOf(s: bytes, n: nat): seq<bytes>
    decreases n
  {
    var t := s[SpaceCount(s)..];
    if n == 0 || t == [] then [] else [TokenText(t)] + TokensOf(t[FirstToken(t).next..], n - 1)
  }

  /** The text t stands at p, ended by a NUL, and before h or at the end e of the line. */
  predicate Stored(z: bytes, p: nat, t: bytes, h: nat, e: nat) {
    p + |t| <= e < |z| && z[p..p + |t|] == t && z[p + |t|] == 0 && (p + |t| < h || h == e)
  }

  /** The loop that finds the end of a quoted token. */
  method ScanQuoted(z: array<byte>, start: nat, delim: byte, ghost e: nat) returns (h: nat)
    requires start <= e < z.Length && z[e] == 0 && 0 !in z[start..e]
    ensures h == start + BodyEnd(z[start..e], delim)
  {
    hide BodyEnd;
    ghost var s := z[start..e];
    h := start;
    while z[h] != 0 && z[h] != delim
      invariant start <= h <= e
      invariant BodyEnd(s, delim) == h - start + BodyEnd(s[h - start..], delim)
      decreases e - h
    {
      ghost var t := s[h - start..];
      assert z[h] == t[0] && (h + 1 < e ==> z[h + 1] == t[1] && t[1] in s);
      assert t[1..] == s[h + 1 - start..] && (h + 1 < e ==> t[2..] == s[h + 2 - start..]);
      BodyEndStep(t, delim);
      if z[h] == BACKSLASH && delim == DQUOTE && z[h + 1] != 0 {
        h := h + 1;
      }
      h := h + 1;
    }
    assert h < e ==> z[h] == s[h - start] && s[h - start] in s;
    BodyEndStops(s[h - start..], delim);
  }

  lemma BodyEndStep(s: bytes, delim: byte)
    requires s != [] && s[0] != delim
    ensures BodyEnd(s, delim) ==
      if s[0] == BACKSLASH && delim == DQUOTE && |s| > 1 then 2 + BodyEnd(s[2..], delim) else 1 + BodyEnd(s[1..], delim)
  {
  }

  lemma BodyEndStops(s: bytes, delim: byte)
    requires s == [] || s[0] == delim
    ensures BodyEnd(s, delim) == 0
  {
  }

  /** The loop that finds the end of an unquoted token. */
  method ScanWord(z: array<byte>, start: nat, ghost e: nat) returns (h: nat)
    requires start <= e < z.Length && z[e] == 0 && 0 !in z[start..e]
    ensures h == start + WordEnd(z[start..e])
  {
    ghost var s := z[start..e];
    h := start;
    while z[h] != 0 && !IsSpace(z[h])
      invariant start <= h <= e
      invariant WordEnd(s) == h - start + WordEnd(s[h - start..])
      decreases e - h
    {
      assert s[h - start..][0] == z[h] && s[h - start..][1..] == s[h + 1 - start..];
      h := h + 1;
    }
    assert h < e ==> z[h] == s[h - start] && s[h - start] in s;
  }

  /** Ends the token by a NUL, steps over the character it replaces, and resolves the escapes. */
  method EndToken(z: array<byte>, arg: nat, end: nat, resolve: bool) returns (h: nat)
    requires arg <= end < z.Length && 0 !in z[arg..end]
    modifies z
    ensures
      var r := if resolve then Resolve(old(z[arg..end])) else old(z[arg..end]);
      && arg + |r| <= end && z[arg..arg + |r|] == r && z[arg + |r|] == 0
    ensures z[end] == 0 && forall k | 0 <= k < arg || end < k < z.Length :: z[k] == old(z[k])
    ensures h == if old(z[end]) != 0 then end + 1 else end
  {
    hide Resolve;
    h := end;
    if z[h] != 0 {
      z[h] := 0;
      h := h + 1;
    }
    assert z[arg..end] == old(z[arg..end]);
    if resolve {
      ResolveBackslashes(z, arg, end);
    }
  }

  /** Where a token begins and ends, and whether its escapes are resolved. */
  method FindToken(z: array<byte>, start: nat, ghost e: nat) returns (arg: nat, end: nat, resolve: bool)
    requires start < e < z.Length && z[e] == 0 && 0 !in z[start..e] && !IsSpace(z[start])
    ensures var x := FirstToken(z[start..e]); arg == start + x.begin && end == arg + x.length
    ensures end <= e && resolve == (z[start] != SQUOTE) && (z[end] != 0 <==> end < e)
    ensures
      var x := FirstToken(z[start..e]);
      && z[arg..end] == z[start..e][x.begin..x.begin + x.length] && 0 !in z[arg..end]
      && start + x.next == if end < e then end + 1 else end
  {
    hide BodyEnd, WordEnd;
    if z[start] == SQUOTE || z[start] == DQUOTE {
      arg := start + 1;
      assert z[start..e][1..] == z[arg..e];
      end := ScanQuoted(z, arg, z[start], e);
      resolve := z[start] == DQUOTE;
    } else {
      arg := start;
      end := ScanWord(z, arg, e);
      resolve := true;
    }
    SameBody(z[..], start, e, arg, end);
    assert z[..][arg..end] == z[arg..end] && z[..][start..e] == z[start..e];
    assert end < e ==> z[end] in z[start..e];
  }

  /** The body of the loop of the tokenizer once the spaces are skipped. */
  method TakeToken(z: array<byte>, start: nat, ghost e: nat) returns (arg: nat, h: nat)
    requires start < e < z.Length && z[e] == 0 && 0 !in z[start..e] && !IsSpace(z[start])
    modifies z
    ensures
      var t := old(z[start..e]);
      var x := FirstToken(t);
      && arg == start + x.begin && h == start + x.next
      && Stored(z[..], arg, TokenText(t), h, e)
    ensures start < h <= e && forall k | 0 <= k < start || h <= k < z.Length :: z[k] == old(z[k])
  {
    hide *;
    ghost var t := z[start..e];
    var end, resolve;
    arg, end, resolve := FindToken(z, start, e);
    assert t[0] == z[start];
    FirstTokenText(t);
    ghost var body := z[arg..end];
    assert TokenText(t) == if resolve then Resolve(body) else body;
    h := EndToken(z, arg, end, resolve);
    ghost var r := TokenText(t);
    assert z[..][arg..arg + |r|] == z[arg..arg + |r|] == r;
    ItIsStored(z[..], arg, r, h, e);
  }

  lemma FirstTokenText(s: bytes)
    requires s != [] && !IsSpace(s[0])
    ensures
      var x := FirstToken(s);
      var body := s[x.begin..x.begin + x.length];
      TokenText(s) == if s[0] == SQUOTE then body else Resolve(body)
  {
  }

  lemma ItIsStored(z: bytes, p: nat, t: bytes, h: nat, e: nat)
    requires p + |t| <= e < |z| && z[p..p + |t|] == t && z[p + |t|] == 0 && (p + |t| < h || h == e)
    ensures Stored(z, p, t, h, e)
  {
  }

  lemma SameBody(z: bytes, start: nat, e: nat, arg: nat, end: nat)
    requires start <= e < |z| && start <= arg <= end <= e && 0 !in z[start..e]
    ensures z[start..e][arg - start..end - start] == z[arg..end] && 0 !in z[arg..end]
  {
    forall k | arg <= k < end ensures z[k] == z[start..e][k - start] != 0 {
      assert z[start..e][k - start] in z[start..e];
    }
  }

  /** What is stored before h stays when only later places change. */
  lemma StoredStays(y: bytes, z: bytes, p: nat, t: bytes, h: nat, h': nat, e: nat)
    requires Stored(y, p, t, h, e) && h < e && h <= h' <= e && |y| == |z| && y[..h] == z[..h]
    ensures Stored(z, p, t, h', e)
  {
    assert z[p..p + |t|] == y[..h][p..p + |t|];
    assert z[p + |t|] == y[..h][p + |t|];
  }

  lemma NextToken(s: bytes, t: bytes, rest: bytes, n: nat)
    requires SpaceCount(s) < |s| && t == s[SpaceCount(s)..] && rest == t[FirstToken(t).next..] && n > 0
    ensures TokensOf(s, n) == [TokenText(t)] + TokensOf(rest, n - 1)
  {
    hide SpaceCount, FirstToken, TokenText;
  }

  /** Where the token of s ends that follows its leading spaces. */
  function AfterToken(s: bytes): nat
    requires SpaceCount(s) < |s|
  {
    SpaceCount(s) + FirstToken(s[SpaceCount(s)..]).next
  }

  lemma TokensStep(s: bytes, n: nat)
    requires n > 0
    ensures SpaceCount(s) == |s| ==> TokensOf(s, n) == []
    ensures SpaceCount(s) < |s| ==>
      AfterToken(s) <= |s| && TokensOf(s, n) == [TokenText(s[SpaceCount(s)..])] + TokensOf(s[AfterToken(s)..], n - 1)
  {
    hide SpaceCount, FirstToken, TokenText;
    if SpaceCount(s) < |s| {
      var t := s[SpaceCount(s)..];
      assert t[FirstToken(t).next..] == s[AfterToken(s)..];
    }
  }

  /** Skips spaces and takes the token after them, if there is one. */
  method FetchToken(z: array<byte>, at: nat, ghost e: nat) returns (found: bool, arg: nat, h: nat)
    requires at <= e < z.Length && z[e] == 0 && 0 !in z[at..e]
    modifies z
    ensures found <==> SpaceCount(old(z[at..e])) < e - at
    ensures !found ==> h == e && z[..] == old(z[..])
    ensures found ==>
      var s := old(z[at..e]);
      && h == at + AfterToken(s) && Stored(z[..], arg, TokenText(s[SpaceCount(s)..]), h, e)
    ensures at <= h <= e && (found ==> at < h) && forall k | 0 <= k < at || h <= k < z.Length :: z[k] == old(z[k])
  {
    hide TokenText, FirstToken, SpaceCount, Stored;
    ghost var s := z[at..e];
    h := SkipSpaces(z, at, e);
    NulOrEnd(s, h - at, e - at);
    assert h < e ==> z[h] == s[h - at];
    arg, found := 0, z[h] != 0;
    if found {
      assert s[h - at..] == z[h..e];
      NoNulLater(s, h - at);
      arg, h := TakeToken(z, h, e);
    }
  }

  /** The arguments done are stored at the positions args. */
  predicate AllStored(z: bytes, args: seq<nat>, done: seq<bytes>, h: nat, e: nat) {
    |args| == |done| && forall k | 0 <= k < |done| :: Stored(z, args[k], done[k], h, e)
  }

  lemma AllStoredStays(y: bytes, z: bytes, args: seq<nat>, done: seq<bytes>, h: nat, h': nat, e: nat)
    requires AllStored(y, args, done, h, e) && h < e && h <= h' <= e < |y| == |z| && y[..h] == z[..h]
    ensures AllStored(z, args, done, h', e)
  {
    hide Stored;
    forall k | 0 <= k < |done| ensures Stored(z, args[k], done[k], h', e) {
      StoredStays(y, z, args[k], done[k], h, h', e);
    }
  }

  /** The body of the loop of the tokenizer, where the line holds y and done is stored. */
  method TakeNext(zLine: array<byte>, at: nat, args: seq<nat>, ghost y: bytes, ghost done: seq<bytes>, ghost e: nat)
    returns (found: bool, h: nat, azArg: seq<nat>, ghost y': bytes, ghost done': seq<bytes>)
    requires zLine[..] == y && at < e < |y| && y[e] == 0 && 0 !in y[at..e]
    requires |args| < MAX_ARGS && AllStored(y, args, done, at, e)
    modifies zLine
    ensures zLine[..] == y' && at <= h <= e && y'[e] == 0 && 0 !in y'[h..e] && AllStored(y', azArg, done', h, e)
    ensures if found then at < h && |azArg| == |args| + 1 else h == e && |azArg| == |args|
    ensures done' + TokensOf(y'[h..e], MAX_ARGS - |azArg|) == done + TokensOf(y[at..e], MAX_ARGS - |args|)
  {
    hide TokenText, FirstToken, SpaceCount, TokensOf, Stored, AllStored, AfterToken;
    ghost var line := y[at..e];
    assert zLine[at..e] == line && zLine[e] == y[e];
    TokensStep(line, MAX_ARGS - |args|);
    azArg, y', done' := args, y, done;
    var arg;
    found, arg, h := FetchToken(zLine, at, e);
    if !found {
      assert y[e..e] == [];
      NoTokens(MAX_ARGS - |args|);
      AllStoredStays(y, y, args, done, at, e, e);
      return;
    }
    y' := zLine[..];
    assert y'[..at] == y[..at] && y'[e] == y[e];
    AllStoredStays(y, y', args, done, at, h, e);
    assert y'[h..e] == line[h - at..];
    NoNulLater(line, h - at);
    AllStoredSnoc(y', args, done, arg, TokenText(line[SpaceCount(line)..]), h, e);
    azArg := args + [arg];
    done' := done + [TokenText(line[SpaceCount(line)..])];
  }

  lemma NoTokens(n: nat)
    ensures TokensOf([], n) == []
  {
    NoSpaces();
  }

  /** The tokenizer of do_meta_command: the positions of the arguments. */
  method Tokenize(zLine: array<byte>, ghost e: nat) returns (azArg: seq<nat>)
    requires 1 <= e < zLine.Length && zLine[e] == 0 && 0 !in zLine[..e]
    modifies zLine
    ensures
      var tokens := TokensOf(old(zLine[1..e]), MAX_ARGS);
      && |azArg| == |tokens|
      && forall k | 0 <= k < |tokens| :: azArg[k] <= zLine.Length && CString(zLine[..], azArg[k]) == UpToNul(tokens[k])
  {
    hide CString, TokensOf, AllStored;
    ghost var y, tokens := zLine[..], TokensOf(zLine[1..e], MAX_ARGS);
    ghost var done: seq<bytes> := [];
    var h := 1;
    azArg := [];
    NoNulIn(y, 1, e);
    assert y[1..e] == zLine[1..e];
    NothingStored(y, h, e);
    while zLine[h] != 0 && |azArg| < MAX_ARGS
      invariant zLine[..] == y && 1 <= h <= e && |azArg| <= MAX_ARGS
      invariant y[e] == 0 && 0 !in y[h..e] && AllStored(y, azArg, done, h, e)
      invariant done + TokensOf(y[h..e], MAX_ARGS - |azArg|) == tokens
      decreases e - h
    {
      assert zLine[h] == y[h];
      var found;
      found, h, azArg, y, done := TakeNext(zLine, h, azArg, y, done, e);
      if !found {
        break;
      }
    }
    assert zLine[h] == y[h];
    NulOrEnd(y, h, e);
    assert h == e ==> y[h..e] == [];
    NoTokens(MAX_ARGS - |azArg|);
    EndOfTokens(y[h..e], 0);
    AllCStrings(y, azArg, done, h, e);
  }

  lemma NothingStored(z: bytes, h: nat, e: nat)
    ensures AllStored(z, [], [], h, e)
  {
  }

  lemma AllStoredSnoc(z: bytes, args: seq<nat>, done: seq<bytes>, arg: nat, t: bytes, h: nat, e: nat)
    requires AllStored(z, args, done, h, e) && Stored(z, arg, t, h, e)
    ensures AllStored(z, args + [arg], done + [t], h, e)
  {
    hide Stored;
  }

  lemma AllCStrings(z: bytes, args: seq<nat>, done: seq<bytes>, h: nat, e: nat)
    requires AllStored(z, args, done, h, e)
    ensures |args| == |done|
    ensures forall k | 0 <= k < |done| :: args[k] <= |z| && CString(z, args[k]) == UpToNul(done[k])
  {
    hide Stored, CString;
    forall k | 0 <= k < |done| ensures args[k] <= |z| && CString(z, args[k]) == UpToNul(done[k]) {
      StoredIsCString(z, args[k], done[k], h, e);
    }
  }

  lemma StoredIsCString(z: bytes, p: nat, t: bytes, h: nat, e: nat)
    requires Stored(z, p, t, h, e)
    ensures p <= |z| && CString(z, p) == UpToNul(t)
  {
    CStringOf(z, p, t);
  }

  lemma NoNulIn(z: bytes, h: nat, e: nat)
    requires 1 <= h <= e <= |z| && 0 !in z[..e]
    ensures 0 !in z[h..e]
  {
    forall k | h <= k < e ensures z[k] != 0 {
      assert z[..e][k] in z[..e];
    }
  }

  lemma NoSpaces()
    ensures SpaceCount([]) == 0
  {
  }

  lemma EndOfTokens(s: bytes, n: nat)
    requires n == 0 || SpaceCount(s) == |s|
    ensures TokensOf(s, n) == []
  {
  }

  method SkipSpaces(z: array<byte>, start: nat, ghost e: nat) returns (h: nat)
    requires start <= e < z.Length && z[e] == 0 && 0 !in z[start..e]
    ensures h == start + SpaceCount(z[start..e])
  {
    hide SpaceCount;
    ghost var s := z[..];
    assert z[start..e] == s[start..e];
    h := start;
    while IsSpace(z[h])
      invariant start <= h <= e && z[..] == s
      invariant SpaceCount(s[start..e]) == h - start + SpaceCount(s[h..e])
      decreases e - h
    {
      assert z[h] == s[h];
      SpacesAt(s, h, e);
      h := h + 1;
    }
    assert z[h] == s[h];
    SpacesAt(s, h, e);
  }

  lemma SpacesAt(s: bytes, h: nat, e: nat)
    requires h <= e < |s| && s[e] == 0
    ensures IsSpace(s[h]) ==> h < e && SpaceCount(s[h..e]) == 1 + SpaceCount(s[h + 1..e])
    ensures !IsSpace(s[h]) ==> SpaceCount(s[h..e]) == 0
  {
    if h < e {
      assert s[h..e][1..] == s[h + 1..e];
    }
  }

  // ----- reading back what output_c_string wrote

  /** The escape of one character is one unit, and stands for that character. */
  lemma EscapeIsUnit(c: byte, rest: bytes)
    ensures
      var s := Escape(c) + rest;
      UnitLength(s) == |Escape(c)| && UnitValue(s) == c && s[UnitLength(s)..] == rest
  {
    var e := Escape(c);
    PrefixAndRest(e, rest);
    if !IsPrint(c) && c != 9 && c != 10 && c != 13 {
      OctalUnit(c, rest);
    }
  }

  lemma OctalDigits(c: byte)
    ensures IsOctal(48 + c / 64) && IsOctal(48 + c / 8 % 8) && IsOctal(48 + c % 8)
    ensures c / 64 * 64 + c / 8 % 8 * 8 + c % 8 == c
  {
  }

  lemma OctalUnit(c: byte, rest: bytes)
    ensures
      var s := [92, 48 + c / 64, 48 + c / 8 % 8, 48 + c % 8] + rest;
      UnitLength(s) == 4 && UnitValue(s) == c
  {
    OctalDigits(c);
  }

  lemma {:induction false} EscapeResolves(z: bytes)
    ensures Resolve(EscapeAll(z)) == z
  {
    hide Escape, UnitLength, UnitValue;
    if z != [] {
      EscapeIsUnit(z[0], EscapeAll(z[1..]));
      EscapeResolves(z[1..]);
    }
  }

  lemma ScanOctal(d0: byte, d1: byte, d2: byte, rest: bytes)
    requires IsOctal(d1) && IsOctal(d2)
    ensures BodyEnd([BACKSLASH, d0, d1, d2] + rest, DQUOTE) == 4 + BodyEnd(rest, DQUOTE)
  {
    var v, u, s := [d2] + rest, [d1] + ([d2] + rest), [BACKSLASH, d0, d1, d2] + rest;
    assert s[2..] == u && u[1..] == v && v[1..] == rest;
    assert BodyEnd(s, DQUOTE) == 2 + BodyEnd(u, DQUOTE);
    assert BodyEnd(u, DQUOTE) == 1 + BodyEnd(v, DQUOTE);
  }

  /** Scanning steps over the escape of a character as a whole. */
  lemma ScanSkipsEscape(c: byte, rest: bytes)
    ensures BodyEnd(Escape(c) + rest, DQUOTE) == |Escape(c)| + BodyEnd(rest, DQUOTE)
  {
    var s := Escape(c) + rest;
    if |Escape(c)| == 1 {
      assert s[0] == c && c != DQUOTE && c != BACKSLASH && s[1..] == rest;
    } else if |Escape(c)| == 2 {
      assert s[2..] == rest;
    } else {
      ScanOctal(48 + c / 64, 48 + c / 8 % 8, 48 + c % 8, rest);
    }
  }

  lemma {:induction false} ScanStopsAtQuote(z: bytes, rest: bytes)
    ensures BodyEnd(EscapeAll(z) + ([DQUOTE] + rest), DQUOTE) == |EscapeAll(z)|
  {
    hide Escape;
    var tail := [DQUOTE] + rest;
    if z == [] {
      assert EscapeAll(z) + tail == tail;
    } else {
      assert EscapeAll(z) + tail == Escape(z[0]) + (EscapeAll(z[1..]) + tail);
      ScanSkipsEscape(z[0], EscapeAll(z[1..]) + tail);
      ScanStopsAtQuote(z[1..], rest);
    }
  }

  /** A quoted string at the start of a line is its first token, and the token is the string. */
  lemma QuotedIsToken(z: bytes, rest: bytes)
    ensures
      var s := Quoted(z) + rest;
      FirstToken(s).next == |Quoted(z)| && TokenText(s) == z
  {
    hide BodyEnd, Resolve, EscapeAll;
    var s := Quoted(z) + rest;
    ScanStopsAtQuote(z, rest);
    assert s[1..] == EscapeAll(z) + ([DQUOTE] + rest);
    assert s[1..1 + |EscapeAll(z)|] == EscapeAll(z);
    EscapeResolves(z);
  }

  /** Arguments, each written by output_c_string and preceded by a space. */
  function ArgumentLine(args: seq<bytes>): bytes {
    if args == [] then [] else [SPACE] + Quoted(args[0]) + ArgumentLine(args[1..])
  }

  lemma {:induction false} ArgumentsRoundTrip(args: seq<bytes>, n: nat)
    ensures TokensOf(ArgumentLine(args), n) == if |args| <= n then args else args[..n]
    decreases |args|
  {
    hide FirstToken, TokenText, Quoted, SpaceCount;
    var s := ArgumentLine(args);
    if args == [] {
      assert SpaceCount([]) == 0 by { NoSpaces(); }
    } else if n > 0 {
      var t, rest := Quoted(args[0]) + ArgumentLine(args[1..]), ArgumentLine(args[1..]);
      assert s == [SPACE] + t;
      OneSpace(t, args[0], rest);
      assert s[1..] == t;
      QuotedIsToken(args[0], rest);
      assert t[|Quoted(args[0])|..] == rest;
      NextToken(s, t, rest, n);
      ArgumentsRoundTrip(args[1..], n - 1);
      FirstArguments(args, n);
    }
  }

  lemma FirstArguments(args: seq<bytes>, n: nat)
    requires args != [] && n > 0
    ensures [args[0]] + (if |args| - 1 <= n - 1 then args[1..] else args[1..][..n - 1]) ==
      if |args| <= n then args else args[..n]
  {
  }

  lemma OneSpace(t: bytes, z: bytes, rest: bytes)
    requires t == Quoted(z) + rest
    ensures SpaceCount([SPACE] + t) == 1 && SpaceCount(t) == 0 && !IsSpace(t[0])
  {
    assert ([SPACE] + t)[1..] == t;
  }

  /** A command name: one plain word. */
  predicate PlainWord(name: bytes) {
    name != [] && !IsQuote(name[0]) && forall c | c in name :: !IsSpace(c) && c != BACKSLASH
  }

  lemma {:induction false} WordStops(w: bytes, rest: bytes)
    requires (forall c | c in w :: !IsSpace(c)) && (rest == [] || IsSpace(rest[0]))
    ensures WordEnd(w + rest) == |w|
  {
    if w == [] {
      assert w + rest == rest;
    } else {
      assert w[0] in w && forall c | c in w[1..] :: c in w;
      assert (w + rest)[1..] == w[1..] + rest;
      WordStops(w[1..], rest);
    }
  }

  /**
   * Any strings, written by output_c_string and given as arguments of a dot-command, are its
   * arguments again exactly when there are fewer than 50 of them; of more, 49 are taken.
   */
  lemma DotCommandRoundTrip(name: bytes, args: seq<bytes>)
    requires PlainWord(name)
    ensures TokensOf(name + ArgumentLine(args), MAX_ARGS) == [name] + args <==> |args| < 50
    ensures |args| >= 50 ==> TokensOf(name + ArgumentLine(args), MAX_ARGS) == [name] + args[..49]
  {
    hide TokensOf, Resolve, Quoted;
    var s, rest := name + ArgumentLine(args), ArgumentLine(args);
    assert name[0] in name;
    assert SpaceCount(s) == 0 && s[0..] == s;
    WordStops(name, rest);
    ResolvePlain(name, []);
    assert name + [] == name;
    assert Resolve([]) == [] by { ResolveEmpty(); }
    assert s[..|name|] == name;
    if rest == [] {
      assert s[|name|..] == [] && args == [];
      NextToken(s, s, [], MAX_ARGS);
      EndOfTokens([], MAX_ARGS - 1);
    } else {
      var x := FirstToken(s);
      assert x == Extent(0, |name|, |name| + 1);
      AfterName(args);
      NextToken(s, s, s[x.next..], MAX_ARGS);
      assert s[x.next..] == rest[1..];
      ArgumentsRoundTrip(args, MAX_ARGS - 1);
    }
  }

  /** The tokenizer itself steps over the space after a word. */
  lemma AfterName(args: seq<bytes>)
    requires args != []
    ensures ArgumentLine(args)[0] == SPACE
    ensures forall n: nat :: TokensOf(ArgumentLine(args)[1..], n) == TokensOf(ArgumentLine(args), n)
  {
    hide Quoted, FirstToken, TokenText;
    var s := ArgumentLine(args);
    var t := Quoted(args[0]) + ArgumentLine(args[1..]);
    assert s == [SPACE] + t;
    OneSpace(t, args[0], ArgumentLine(args[1..]));
    assert s[1..] == t && t[0..] == t;
  }

  /** A text without NUL is its own C string, so the arguments of tokenize are the strings themselves. */
  lemma NulFreeIsWhole(s: bytes)
    requires 0 !in s
    ensures UpToNul(s) == s
  {
    NulFreeFrom(s, 0);
    assert s[0..] == s;
  }

  lemma {:induction false} NulFreeFrom(s: bytes, p: nat)
    requires 0 !in s && p <= |s|
    ensures CString(s, p) == s[p..]
    decreases |s| - p
  {
    if p < |s| {
      assert s[p] in s;
      NulFreeFrom(s, p + 1);
    }
  }

  // ----- from printing to the arguments in the buffer

  lemma EscapeHasNoNul(c: byte)
    requires c != 0
    ensures 0 !in Escape(c)
  {
  }

  lemma {:induction false} EscapeAllHasNoNul(z: bytes)
    requires 0 !in z
    ensures 0 !in EscapeAll(z)
  {
    hide Escape;
    if z != [] {
      assert z[0] in z;
      EscapeHasNoNul(z[0]);
      EscapeAllHasNoNul(z[1..]);
    }
  }

  lemma {:induction false} ArgumentLineHasNoNul(args: seq<bytes>)
    requires forall z | z in args :: 0 !in z
    ensures 0 !in ArgumentLine(args)
  {
    hide EscapeAll;
    if args != [] {
      EscapeAllHasNoNul(args[0]);
      ArgumentLineHasNoNul(args[1..]);
    }
  }

  lemma ArgumentLineStep(args: seq<bytes>, i: nat, before: bytes)
    requires i < |args|
    ensures before + ArgumentLine(args[i..]) == before + [SPACE] + Quoted(args[i]) + ArgumentLine(args[i + 1..])
  {
    hide Quoted;
    assert args[i..][0] == args[i] && args[i..][1..] == args[i + 1..];
  }

  lemma NoArguments()
    ensures ArgumentLine([]) == []
  {
  }

  /** A dot, a name, and the arguments as OutputCString prints them, in a buffer that ends in a NUL. */
  method PrintLine(name: bytes, args: seq<bytes>) returns (zLine: array<byte>)
    ensures fresh(zLine) && zLine[..] == [46] + name + ArgumentLine(args) + [0]
  {
    hide Quoted, ArgumentLine;
    var out := new OutFile();
    out.PutChar(46);
    out.PutText(name);
    assert args[0..] == args;
    for i := 0 to |args|
      invariant out.text + ArgumentLine(args[i..]) == [46] + name + ArgumentLine(args)
    {
      ArgumentLineStep(args, i, out.text);
      out.PutChar(SPACE);
      OutputCString(out, args[i]);
    }
    assert args[|args|..] == [];
    NoArguments();
    out.PutChar(0);
    var text := out.text;
    zLine := new byte[|text|](k => if 0 <= k < |text| then text[k] else 0);
    assert zLine[..] == text;
  }

  /**
   * Printing NUL-free strings as the arguments of a dot-command and tokenizing the line in
   * its buffer: the C strings at the positions found are the name and the strings.
   */
  method PrintAndTokenize(name: bytes, args: seq<bytes>) returns (zLine: array<byte>, azArg: seq<nat>)
    requires PlainWord(name) && 0 !in name && forall z | z in args :: 0 !in z
    ensures |azArg| == if |args| < 50 then 1 + |args| else 50
    ensures forall k | 0 <= k < |azArg| ::
      azArg[k] <= zLine.Length && CString(zLine[..], azArg[k]) == ([name] + args)[k]
  {
    hide TokensOf, ArgumentLine, CString;
    zLine := PrintLine(name, args);
    ArgumentLineHasNoNul(args);
    DotCommandRoundTrip(name, args);
    ghost var s := name + ArgumentLine(args);
    ghost var e := 1 + |s|;
    assert zLine[..] == [46] + s + [0];
    assert zLine[1..e] == zLine[..][1..e] == s && zLine[..e] == zLine[..][..e] == [46] + s;
    azArg := Tokenize(zLine, e);
    forall k | 0 <= k < |azArg| ensures CString(zLine[..], azArg[k]) == ([name] + args)[k] {
      assert ([name] + args)[k] == name || ([name] + args)[k] in args;
      NulFreeIsWhole(([name] + args)[k]);
    }
  }

  // ----- the escape that the comment of resolve_backslashes names and the code does not know

  predicate StartsWithBackslashS(s: bytes) {
    |s| > 1 && s[0] == BACKSLASH && s[1] == 115
  }

  /** The same units, of which \s stands for a space. */
  function ResolveDocumented(s: bytes): bytes {
    if s == [] then []
    else [if StartsWithBackslashS(s) then 32 else UnitValue(s)] + ResolveDocumented(s[UnitLength(s)..])
  }

  /** One of the units is \s. */
  predicate HasBackslashS(s: bytes) {
    s != [] && (StartsWithBackslashS(s) || HasBackslashS(s[UnitLength(s)..]))
  }

  /** A text is resolved as the comment says exactly when none of its units is \s. */
  lemma {:induction false} ResolvedAsDocumented(s: bytes)
    ensures Resolve(s) == ResolveDocumented(s) <==> !HasBackslashS(s)
  {
    hide UnitLength;
    if s != [] {
      var n := UnitLength(s);
      ResolvedAsDocumented(s[n..]);
      NextUnit(s);
      assert Resolve(s)[0] == UnitValue(s) && Resolve(s)[1..] == Resolve(s[n..]);
      assert ResolveDocumented(s)[1..] == ResolveDocumented(s[n..]);
    }
  }

  lemma BackslashSIsALetter()
    ensures Resolve([BACKSLASH, 115]) == [115] && ResolveDocumented([BACKSLASH, 115]) == [32]
  {
    assert [BACKSLASH, 115][2..] == [] && Resolve([]) == [] && ResolveDocumented([]) == [];
  }
}
