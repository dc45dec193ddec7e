// appendText: a growing text buffer, with arguments that are quoted by doubling. A char
// is a byte of the C code.
module ShellText {
  import opened CType
  import opened Identifiers
  import opened Options
  import opened Quoting

  // ----- quoted text

  function Quoted(s: string, quote: char): string {
    [quote] + Doubled(s, quote) + [quote]
  }

  /** What appendText adds; no quotes when the quote is NUL. */
  function Appended(s: string, quote: char): string {
    if quote == '\0' then s else Quoted(s, quote)
  }

  /** Reads up to the closing quote: the text, and what follows it. */
  function ReadBody(s: string, quote: char): Option<(string, string)>
    decreases |s|
  {
    if s == "" then None
    else if s[0] != quote then AddFront(s[0], ReadBody(s[1..], quote))
    else if |s| > 1 && s[1] == quote then AddFront(quote, ReadBody(s[2..], quote))
    else Some(("", s[1..]))
  }

  function AddFront(c: char, r: Option<(string, string)>): Option<(string, string)> {
    if r == None then None else Some(([c] + r.value.0, r.value.1))
  }

  lemma {:induction false} ReadBodyOfDoubled(s: string, quote: char, rest: string)
    requires rest == "" || rest[0] != quote
    ensures ReadBody(Doubled(s, quote) + [quote] + rest, quote) == Some((s, rest))
  {
    var t := Doubled(s, quote) + [quote] + rest;
    if s == "" {
      assert t[1..] == rest;
    } else {
      var u := Doubled(s[1..], quote) + [quote] + rest;
      ReadBodyOfDoubled(s[1..], quote, rest);
      assert [s[0]] + s[1..] == s;
      if s[0] == quote {
        assert t == [quote, quote] + u && t[2..] == u;
      } else {
        assert t == [s[0]] + u && t[1..] == u;
      }
    }
  }

  // ----- names that appendText writes with the quote that quoteChar asks for

  /** The longest run of word characters at the start. */
  function WordLength(s: string): (n: nat)
    ensures n <= |s|
  {
    if s == "" || !IsWordChar(s[0]) then 0 else 1 + WordLength(s[1..])
  }

  /** How an SQL tokenizer reads a name: quoted, or a run of word characters. */
  function ReadName(s: string): Option<(string, string)> {
    if s == "" then None
    else if s[0] == '"' then ReadBody(s[1..], '"')
    else if IsAlpha(s[0]) || s[0] == '_' then Some((s[..WordLength(s)], s[WordLength(s)..]))
    else None
  }

  /** The name as it is written. */
  function WrittenName(name: string): string {
    Appended(name, if PlainIdentifier(name) && !IsKeyword(name) then '\0' else '"')
  }

  lemma {:induction false} WordLengthOf(s: string, rest: string)
    requires forall k | 0 <= k < |s| :: IsWordChar(s[k])
    requires rest == "" || !IsWordChar(rest[0])
    ensures WordLength(s + rest) == |s|
  {
    if s == "" {
      assert s + rest == rest;
    } else {
      assert (s + rest)[1..] == s[1..] + rest;
      WordLengthOf(s[1..], rest);
    }
  }

  /** Any name, keyword or not, is read back, and it is never read as a bare keyword. */
  lemma NameRoundTrip(name: string, rest: string)
    requires rest == "" || (!IsWordChar(rest[0]) && rest[0] != '"')
    ensures ReadName(WrittenName(name) + rest) == Some((name, rest))
    ensures WrittenName(name)[0] != '"' ==> !IsKeyword(name)
  {
    hide IsKeyword, Doubled, ReadBody, WordLength;
    if PlainIdentifier(name) && !IsKeyword(name) {
      WordLengthOf(name, rest);
      assert (name + rest)[..|name|] == name && (name + rest)[|name|..] == rest;
    } else {
      ReadBodyOfDoubled(name, '"', rest);
      assert (Quoted(name, '"') + rest)[1..] == Doubled(name, '"') + ['"'] + rest;
    }
  }

  // ----- the buffer

  class ShellText {
    var z: array?<char>
    var n: nat
    var nAlloc: nat

    ghost predicate Valid()
      reads this, z
    {
      if z == null then n == 0 && nAlloc == 0 else z.Length == nAlloc && n < nAlloc && z[n] == '\0'
    }

    ghost function Text(): string
      requires Valid()
      reads this, z
    {
      if z == null then "" else z[..n]
    }

    /** initText. */
    constructor ()
      ensures Valid() && z == null && Text() == ""
    {
      z, n, nAlloc := null, 0, 0;
    }

    /** The call of realloc, which does not fail; what is beyond the old text is arbitrary. */
    method Grow(len: nat)
      requires Valid() && len > n
      modifies this`z, this`nAlloc
      ensures z != null && (z == old(z) || fresh(z)) && z.Length == nAlloc && n + len < nAlloc
      ensures z[..n] == old(Text())
    {
      if n + len >= nAlloc {
        nAlloc := nAlloc * 2 + len + 20;
        var y := new char[nAlloc];
        if z != null {
          forall k | 0 <= k < z.Length {
            y[k] := z[k];
          }
        }
        z := y;
      }
    }

    /** One character, twice if it is the quote, written at p. */
    method PutDoubled(p: nat, c: char, quote: char) returns (p': nat)
      requires z != null && p + 1 < z.Length
      modifies z
      ensures p' == p + (if c == quote then 2 else 1)
      ensures z[..p'] == old(z[..p]) + if c == quote then [quote, quote] else [c]
    {
      p' := p;
      z[p'] := c;
      p' := p' + 1;
      if c == quote {
        z[p'] := quote;
        p' := p' + 1;
      }
    }

    /** The loop between the quotes. */
    method PutBody(start: nat, zAppend: string, quote: char) returns (p: nat)
      requires z != null && start + |Doubled(zAppend, quote)| < z.Length
      modifies z
      ensures p == start + |Doubled(zAppend, quote)| && z[..p] == old(z[..start]) + Doubled(zAppend, quote)
    {
      hide Doubled;
      p := start;
      DoubledPrefix(zAppend, 0, quote);
      for i := 0 to |zAppend|
        invariant p == start + |Doubled(zAppend[..i], quote)|
        invariant |Doubled(zAppend[..i], quote)| <= |Doubled(zAppend, quote)|
        invariant z[..p] == old(z[..start]) + Doubled(zAppend[..i], quote)
      {
        DoubledSnoc(zAppend[..i], zAppend[i], quote);
        assert zAppend[..i + 1] == zAppend[..i] + [zAppend[i]];
        DoubledPrefix(zAppend, i + 1, quote);
        p := PutDoubled(p, zAppend[i], quote);
      }
      assert zAppend[..|zAppend|] == zAppend;
    }

    /** The branch of appendText with a quote: writes the quoted text at the end. */
    method PutQuoted(zAppend: string, quote: char)
      requires z != null && z.Length == nAlloc && n + |Quoted(zAppend, quote)| < nAlloc
      modifies this`n, z
      ensures n < nAlloc && z[n] == '\0' && z[..n] == old(z[..n]) + Quoted(zAppend, quote)
    {
      var p := n;
      z[p] := quote;
      p := p + 1;
      p := PutBody(p, zAppend, quote);
      z[p] := quote;
      p := p + 1;
      n := p;
      z[p] := '\0';
    }

    /** memcpy and the NUL after it. */
    method PutPlain(text: string)
      requires z != null && z.Length == nAlloc && n + |text| < nAlloc
      modifies this`n, z
      ensures n < nAlloc && z[n] == '\0' && z[..n] == old(z[..n]) + text
    {
      forall i | 0 <= i < |text| {
        z[n + i] := text[i];
      }
      n := n + |text|;
      z[n] := '\0';
    }

    /** The loop that counts the quotes: the length of what is to be added. */
    static method LengthNeeded(text: string, quote: char) returns (len: nat)
      ensures len == |Appended(text, quote)|
    {
      len := |text|;
      if quote != '\0' {
        len := len + 2;
        for i := 0 to |text|
          invariant len == |text| + 2 + (|Doubled(text[..i], quote)| - i)
        {
          DoubledSnoc(text[..i], text[i], quote);
          assert text[..i + 1] == text[..i] + [text[i]];
          if text[i] == quote {
            len := len + 1;
          }
        }
        assert text[..|text|] == text;
      }
    }

    method AppendText(zAppend: string, quote: char)
      requires Valid()
      modifies this, z
      ensures Valid() && (z == old(z) || fresh(z))
      ensures Text() == old(Text()) + Appended(zAppend[..StrLen30(zAppend)], quote)
    {
      var nAppend := StrLen30(zAppend);
      var text := zAppend[..nAppend];
      var len := LengthNeeded(text, quote);
      len := len + n + 1;
      Grow(len);
      if quote != '\0' {
        PutQuoted(text, quote);
      } else {
        PutPlain(text);
      }
    }
  }

  lemma {:induction false} DoubledPrefix(s: string, i: nat, quote: char)
    requires i <= |s|
    ensures i <= |Doubled(s[..i], quote)| <= |Doubled(s, quote)|
    ensures Doubled(s[..0], quote) == []
    decreases |s|
  {
    if i > 0 {
      assert s[..i][1..] == s[1..][..i - 1];
      DoubledPrefix(s[1..], i - 1, quote);
    }
  }
}
