// The schema printer by its words: what is inserted, what is printed as it is, and what
// stays on one line.
module PrettyWords {
  import opened ByteStrings
  import opened CType
  import opened Options
  import opened Pretty
  import opened Sequences

  /** The bytes of a text in ASCII. */
  function Spelled(s: string): (b: bytes)
    ensures |b| == |s|
  {
    seq(|s|, i requires 0 <= i < |s| => s[i] as int % 256)
  }

  lemma TableWords()
    ensures CREATE_TABLE == Spelled("CREATE TABLE ")
    ensures CREATE_TABLE + IF_NOT_EXISTS == Spelled("CREATE TABLE IF NOT EXISTS ")
  {
  }

  lemma StartWords()
    ensures CREATE_VIEW == Spelled("CREATE VIEW") && CREATE_TRIG == Spelled("CREATE TRIG")
  {
  }

  lemma LineEnds()
    ensures SEMI_LF == Spelled(";\n") && LF_ONLY == Spelled("\n") && LF_INDENT == Spelled("\n  ")
    ensures [LP, RP, COMMA] == Spelled("(),")
  {
  }

  /** The constants of the model are the texts of the code. */
  lemma Words()
    ensures CREATE_TABLE == Spelled("CREATE TABLE ") && CREATE_VIEW == Spelled("CREATE VIEW")
    ensures CREATE_TABLE + IF_NOT_EXISTS == Spelled("CREATE TABLE IF NOT EXISTS ")
    ensures CREATE_TRIG == Spelled("CREATE TRIG") && [LP, RP, COMMA] == Spelled("(),")
    ensures SEMI_LF == Spelled(";\n") && LF_ONLY == Spelled("\n") && LF_INDENT == Spelled("\n  ")
  {
    hide Spelled;
    TableWords();
    StartWords();
    LineEnds();
  }

  /** IF NOT EXISTS is inserted exactly between CREATE TABLE and a quote. */
  lemma InsertedWords(quote: byte, rest: bytes, z: bytes)
    requires quote in {'"' as int, '\'' as int}
    ensures SchemaLine(Spelled("CREATE TABLE ") + ([quote] + rest))
         == Spelled("CREATE TABLE IF NOT EXISTS ") + ([quote] + rest)
    ensures SchemaLine(z) != z ==> Spelled("CREATE TABLE ") <= z && |z| > 13 && z[13] in {'"' as int, '\'' as int}
  {
    hide Spelled;
    Words();
    PrefixAndRest(CREATE_TABLE, [quote] + rest);
  }

  /** The text is the word, in any case of letters. */
  predicate InAnyCase(z: bytes, capital: string, small: string)
    requires |capital| == |small|
  {
    |z| == |capital| && forall k | 0 <= k < |z| :: z[k] == Spelled(capital)[k] || z[k] == Spelled(small)[k]
  }

  predicate SmallForm(capital: string, small: string) {
    |capital| == |small| && forall k | 0 <= k < |capital| ::
      if 'A' <= capital[k] <= 'Z' then small[k] == capital[k] - 'A' + 'a' else capital[k] == small[k] == ' '
  }

  lemma LikeInAnyCase(z: bytes, capital: string, small: string)
    requires SmallForm(capital, small)
    ensures StartsLike(z, Spelled(capital)) <==> |z| >= |capital| && InAnyCase(z[..|capital|], capital, small)
  {
    var p := Spelled(capital);
    if |z| >= |capital| {
      forall k | 0 <= k < |p| ensures ToUpper(z[k]) == p[k] <==> z[k] == p[k] || z[k] == Spelled(small)[k] {
      }
      assert forall k | 0 <= k < |p| :: z[..|capital|][k] == z[k];
    }
  }

  lemma ViewWords()
    ensures SmallForm("CREATE VIEW", "create view") && SmallForm("CREATE TRIG", "create trig")
  {
  }

  /** Views and triggers, in any case of letters, are printed as they are. */
  lemma ViewsAndTriggers(z: bytes)
    ensures PrettyRow(Some(z)) == (
      if |z| >= 11
        && (InAnyCase(z[..11], "CREATE VIEW", "create view") || InAnyCase(z[..11], "CREATE TRIG", "create trig"))
      then z + Spelled(";\n")
      else PrettyText(z))
  {
    hide Spelled, StartsLike, InAnyCase, SmallForm;
    Words();
    ViewWords();
    LikeInAnyCase(z, "CREATE VIEW", "create view");
    LikeInAnyCase(z, "CREATE TRIG", "create trig");
  }

  /** A statement that takes at most 78 characters, its whitespace compacted, stays on one line. */
  lemma ShortStatement(s: bytes)
    requires |Compact(s)| <= 78
    ensures PrettyText(s) == SchemaLine(Compact(s)) + Spelled(";\n")
  {
    hide Compact, SchemaLine, Spelled;
    Words();
    OneChunk(Compact(s));
  }
}
