// quoteChar: whether a name can stand as an identifier without quotes. A char is a byte
// of the C code.
module Identifiers {
  import opened CType

  // The keywords of SQLite in the order of azKeywords[], cut into rows.
  const ROW0: seq<string> := ["ABORT", "ACTION", "ADD", "AFTER", "ALL", "ALTER", "ANALYZE", "AND"]
  const ROW1: seq<string> := ["AS", "ASC", "ATTACH", "AUTOINCREMENT", "BEFORE", "BEGIN", "BETWEEN", "BY"]
  const ROW2: seq<string> := ["CASCADE", "CASE", "CAST", "CHECK", "COLLATE", "COLUMN", "COMMIT", "CONFLICT"]
  const ROW3: seq<string> := ["CONSTRAINT", "CREATE", "CROSS"]
  const ROW4: seq<string> := ["CURRENT_DATE", "CURRENT_TIME", "CURRENT_TIMESTAMP"]
  const ROW5: seq<string> := ["DATABASE", "DEFAULT", "DEFERRABLE", "DEFERRED", "DELETE", "DESC", "DETACH", "DISTINCT"]
  const ROW6: seq<string> := ["DROP", "EACH", "ELSE", "END", "ESCAPE", "EXCEPT", "EXCLUSIVE", "EXISTS"]
  const ROW7: seq<string> := ["EXPLAIN", "FAIL", "FOR", "FOREIGN", "FROM", "FULL", "GLOB", "GROUP"]
  const ROW8: seq<string> := ["HAVING", "IF", "IGNORE", "IMMEDIATE", "IN", "INDEX", "INDEXED", "INITIALLY"]
  const ROW9: seq<string> := ["INNER", "INSERT", "INSTEAD", "INTERSECT", "INTO", "IS", "ISNULL", "JOIN"]
  const ROW10: seq<string> := ["KEY", "LEFT", "LIKE", "LIMIT", "MATCH", "NATURAL", "NO", "NOT"]
  const ROW11: seq<string> := ["NOTNULL", "NULL", "OF", "OFFSET", "ON", "OR", "ORDER", "OUTER"]
  const ROW12: seq<string> := ["PLAN", "PRAGMA", "PRIMARY", "QUERY", "RAISE", "RECURSIVE", "REFERENCES", "REGEXP"]
  const ROW13: seq<string> := ["REINDEX", "RELEASE", "RENAME", "REPLACE", "RESTRICT", "RIGHT", "ROLLBACK", "ROW"]
  const ROW14: seq<string> := ["SAVEPOINT", "SELECT", "SET", "TABLE", "TEMP", "TEMPORARY", "THEN", "TO"]
  const ROW15: seq<string> := ["TRANSACTION", "TRIGGER", "UNION", "UNIQUE", "UPDATE", "USING", "VACUUM", "VALUES"]
  const ROW16: seq<string> := ["VIEW", "VIRTUAL", "WHEN", "WHERE", "WITH", "WITHOUT"]

  const ROWS := 17

  function Row(n: nat): seq<string>
    requires n < ROWS
  {
    match n
    case 0 => ROW0 case 1 => ROW1 case 2 => ROW2 case 3 => ROW3 case 4 => ROW4 case 5 => ROW5
    case 6 => ROW6 case 7 => ROW7 case 8 => ROW8 case 9 => ROW9 case 10 => ROW10 case 11 => ROW11
    case 12 => ROW12 case 13 => ROW13 case 14 => ROW14 case 15 => ROW15 case 16 => ROW16
  }

  function FirstRows(n: nat): seq<string>
    requires n <= ROWS
  {
    if n == 0 then [] else FirstRows(n - 1) + Row(n - 1)
  }

  /** azKeywords[]. */
  function Keywords(): seq<string> {
    FirstRows(ROWS)
  }

  function CompareFrom(a: string, b: string, k: nat): int
    decreases |a| - k
  {
    if k >= |a| then (if k >= |b| then 0 else -1)
    else if k >= |b| then 1
    else if Lower(a[k]) == Lower(b[k]) then CompareFrom(a, b, k + 1)
    else Lower(a[k]) as int - Lower(b[k]) as int
  }

  /** sqlite3_stricmp, as far as its sign goes. */
  function Compare(a: string, b: string): int {
    CompareFrom(a, b, 0)
  }

  predicate SameIgnoringCase(a: string, b: string) {
    |a| == |b| && forall k | 0 <= k < |a| :: Lower(a[k]) == Lower(b[k])
  }

  // ----- sqlite3_stricmp is an order

  lemma {:induction false} CompareZero(a: string, b: string, k: nat)
    requires k <= |a| && k <= |b|
    ensures CompareFrom(a, b, k) == 0 <==> SameIgnoringCase(a[k..], b[k..])
    decreases |a| - k
  {
    if k < |a| && k < |b| {
      CompareZero(a, b, k + 1);
      SameHeadAndTail(a[k..], b[k..]);
      assert a[k..][1..] == a[k + 1..] && b[k..][1..] == b[k + 1..];
    }
  }

  lemma SameHeadAndTail(a: string, b: string)
    requires a != "" && b != ""
    ensures SameIgnoringCase(a, b) <==> Lower(a[0]) == Lower(b[0]) && SameIgnoringCase(a[1..], b[1..])
  {
    if SameIgnoringCase(a[1..], b[1..]) && Lower(a[0]) == Lower(b[0]) {
      forall k | 0 <= k < |a| ensures Lower(a[k]) == Lower(b[k]) {
        if k > 0 {
          assert Lower(a[1..][k - 1]) == Lower(b[1..][k - 1]);
        }
      }
    }
  }

  lemma {:induction false} CompareTransitive(a: string, b: string, c: string, k: nat)
    requires CompareFrom(a, b, k) < 0 && CompareFrom(b, c, k) < 0
    ensures CompareFrom(a, c, k) < 0
    decreases |a| - k
  {
    if k < |a| && k < |b| && k < |c| && Lower(a[k]) == Lower(b[k]) == Lower(c[k]) {
      CompareTransitive(a, b, c, k + 1);
    }
  }

  lemma {:induction false} CompareReversed(a: string, b: string, k: nat)
    ensures CompareFrom(b, a, k) == -CompareFrom(a, b, k)
    decreases |a| - k
  {
    if k < |a| && k < |b| {
      CompareReversed(a, b, k + 1);
    }
  }

  // ----- the table is in order

  predicate Ascending(words: seq<string>) {
    forall i | 0 <= i < |words| - 1 :: Compare(words[i], words[i + 1]) < 0
  }

  predicate Follows(x: seq<string>, y: seq<string>) {
    x != [] && y != [] && Compare(x[|x| - 1], y[0]) < 0
  }

  predicate InOrder(n: nat)
    requires n < ROWS
  {
    Row(n) != [] && Ascending(Row(n)) && (n + 1 < ROWS ==> Follows(Row(n), Row(n + 1)))
  }

  lemma {:induction false} SameStart(a: string, b: string, k: nat)
    requires k <= |a| && k <= |b| && forall m | 0 <= m < k :: a[m] == b[m]
    ensures Compare(a, b) == CompareFrom(a, b, k)
  {
    if k > 0 {
      SameStart(a, b, k - 1);
    }
  }

  /** The words differ first at k, where a ends or has the smaller letter. */
  lemma Before(a: string, b: string, k: nat)
    requires k <= |a| && k < |b| && (forall m | 0 <= m < k :: a[m] == b[m])
    requires k == |a| || Lower(a[k]) < Lower(b[k])
    ensures Compare(a, b) < 0
  {
    hide Compare;
    SameStart(a, b, k);
  }

  lemma Row0()
    ensures Ascending(ROW0) && Follows(ROW0, ROW1)
  {
    hide Compare;
    var w := ROW0;
    Before(w[0], w[1], 1); Before(w[1], w[2], 1); Before(w[2], w[3], 1); Before(w[3], w[4], 1);
    Before(w[4], w[5], 2); Before(w[5], w[6], 1); Before(w[6], w[7], 2); Before(w[7], ROW1[0], 1);
  }

  lemma Row1()
    ensures Ascending(ROW1) && Follows(ROW1, ROW2)
  {
    hide Compare;
    var w := ROW1;
    Before(w[0], w[1], 2); Before(w[1], w[2], 1); Before(w[2], w[3], 1); Before(w[3], w[4], 0);
    Before(w[4], w[5], 2); Before(w[5], w[6], 2); Before(w[6], w[7], 1); Before(w[7], ROW2[0], 0);
  }

  lemma Row2()
    ensures Ascending(ROW2) && Follows(ROW2, ROW3)
  {
    hide Compare;
    var w := ROW2;
    Before(w[0], w[1], 3); Before(w[1], w[2], 3); Before(w[2], w[3], 1); Before(w[3], w[4], 1);
    Before(w[4], w[5], 3); Before(w[5], w[6], 2); Before(w[6], w[7], 2); Before(w[7], ROW3[0], 3);
  }

  lemma Row3()
    ensures Ascending(ROW3) && Follows(ROW3, ROW4)
  {
    hide Compare;
    var w := ROW3;
    Before(w[0], w[1], 1); Before(w[1], w[2], 2); Before(w[2], ROW4[0], 1);
  }

  lemma Row4()
    ensures Ascending(ROW4) && Follows(ROW4, ROW5)
  {
    hide Compare;
    var w := ROW4;
    Before(w[0], w[1], 8); Before(w[1], w[2], 12); Before(w[2], ROW5[0], 0);
  }

  lemma Row5()
    ensures Ascending(ROW5) && Follows(ROW5, ROW6)
  {
    hide Compare;
    var w := ROW5;
    Before(w[0], w[1], 1); Before(w[1], w[2], 3); Before(w[2], w[3], 6); Before(w[3], w[4], 2);
    Before(w[4], w[5], 2); Before(w[5], w[6], 2); Before(w[6], w[7], 1); Before(w[7], ROW6[0], 1);
  }

  lemma Row6()
    ensures Ascending(ROW6) && Follows(ROW6, ROW7)
  {
    hide Compare;
    var w := ROW6;
    Before(w[0], w[1], 0); Before(w[1], w[2], 1); Before(w[2], w[3], 1); Before(w[3], w[4], 1);
    Before(w[4], w[5], 1); Before(w[5], w[6], 3); Before(w[6], w[7], 2); Before(w[7], ROW7[0], 2);
  }

  lemma Row7()
    ensures Ascending(ROW7) && Follows(ROW7, ROW8)
  {
    hide Compare;
    var w := ROW7;
    Before(w[0], w[1], 0); Before(w[1], w[2], 1); Before(w[2], w[3], 3); Before(w[3], w[4], 1);
    Before(w[4], w[5], 1); Before(w[5], w[6], 0); Before(w[6], w[7], 1); Before(w[7], ROW8[0], 0);
  }

  lemma Row8()
    ensures Ascending(ROW8) && Follows(ROW8, ROW9)
  {
    hide Compare;
    var w := ROW8;
    Before(w[0], w[1], 0); Before(w[1], w[2], 1); Before(w[2], w[3], 1); Before(w[3], w[4], 1);
    Before(w[4], w[5], 2); Before(w[5], w[6], 5); Before(w[6], w[7], 2); Before(w[7], ROW9[0], 2);
  }

  lemma Row9()
    ensures Ascending(ROW9) && Follows(ROW9, ROW10)
  {
    hide Compare;
    var w := ROW9;
    Before(w[0], w[1], 2); Before(w[1], w[2], 3); Before(w[2], w[3], 2); Before(w[3], w[4], 3);
    Before(w[4], w[5], 1); Before(w[5], w[6], 2); Before(w[6], w[7], 0); Before(w[7], ROW10[0], 0);
  }

  lemma Row10()
    ensures Ascending(ROW10) && Follows(ROW10, ROW11)
  {
    hide Compare;
    var w := ROW10;
    Before(w[0], w[1], 0); Before(w[1], w[2], 1); Before(w[2], w[3], 2); Before(w[3], w[4], 0);
    Before(w[4], w[5], 0); Before(w[5], w[6], 1); Before(w[6], w[7], 2); Before(w[7], ROW11[0], 3);
  }

  lemma Row11()
    ensures Ascending(ROW11) && Follows(ROW11, ROW12)
  {
    hide Compare;
    var w := ROW11;
    Before(w[0], w[1], 1); Before(w[1], w[2], 0); Before(w[2], w[3], 2); Before(w[3], w[4], 1);
    Before(w[4], w[5], 1); Before(w[5], w[6], 2); Before(w[6], w[7], 1); Before(w[7], ROW12[0], 0);
  }

  lemma Row12()
    ensures Ascending(ROW12) && Follows(ROW12, ROW13)
  {
    hide Compare;
    var w := ROW12;
    Before(w[0], w[1], 1); Before(w[1], w[2], 2); Before(w[2], w[3], 0); Before(w[3], w[4], 0);
    Before(w[4], w[5], 1); Before(w[5], w[6], 2); Before(w[6], w[7], 2); Before(w[7], ROW13[0], 2);
  }

  lemma Row13()
    ensures Ascending(ROW13) && Follows(ROW13, ROW14)
  {
    hide Compare;
    var w := ROW13;
    Before(w[0], w[1], 2); Before(w[1], w[2], 2); Before(w[2], w[3], 2); Before(w[3], w[4], 2);
    Before(w[4], w[5], 1); Before(w[5], w[6], 1); Before(w[6], w[7], 2); Before(w[7], ROW14[0], 0);
  }

  lemma Row14()
    ensures Ascending(ROW14) && Follows(ROW14, ROW15)
  {
    hide Compare;
    var w := ROW14;
    Before(w[0], w[1], 1); Before(w[1], w[2], 2); Before(w[2], w[3], 0); Before(w[3], w[4], 1);
    Before(w[4], w[5], 4); Before(w[5], w[6], 1); Before(w[6], w[7], 1); Before(w[7], ROW15[0], 1);
  }

  lemma Row15()
    ensures Ascending(ROW15) && Follows(ROW15, ROW16)
  {
    hide Compare;
    var w := ROW15;
    Before(w[0], w[1], 2); Before(w[1], w[2], 0); Before(w[2], w[3], 3); Before(w[3], w[4], 1);
    Before(w[4], w[5], 1); Before(w[5], w[6], 0); Before(w[6], w[7], 2); Before(w[7], ROW16[0], 1);
  }

  lemma Row16()
    ensures Ascending(ROW16)
  {
    hide Compare;
    var w := ROW16;
    Before(w[0], w[1], 2); Before(w[1], w[2], 0); Before(w[2], w[3], 3); Before(w[3], w[4], 1);
    Before(w[4], w[5], 4);
  }

  lemma RowInOrder(n: nat)
    requires n < ROWS
    ensures InOrder(n)
  {
    hide Ascending, Follows;
    match n
    case 0 => Row0(); case 1 => Row1(); case 2 => Row2(); case 3 => Row3(); case 4 => Row4(); case 5 => Row5();
    case 6 => Row6(); case 7 => Row7(); case 8 => Row8(); case 9 => Row9(); case 10 => Row10(); case 11 => Row11();
    case 12 => Row12(); case 13 => Row13(); case 14 => Row14(); case 15 => Row15(); case 16 => Row16();
  }

  lemma AscendingConcat(x: seq<string>, y: seq<string>)
    requires Ascending(x) && Ascending(y) && (x == [] || Follows(x, y))
    ensures Ascending(x + y)
  {
    hide Compare;
  }

  lemma {:induction false} FirstRowsAscend(n: nat)
    requires n <= ROWS
    ensures Ascending(FirstRows(n)) && (0 < n < ROWS ==> Follows(FirstRows(n), Row(n)))
  {
    hide Compare, Row;
    if n > 0 {
      FirstRowsAscend(n - 1);
      RowInOrder(n - 1);
      AscendingConcat(FirstRows(n - 1), Row(n - 1));
    }
  }

  /** In an ascending table every word comes before every later one. */
  lemma {:induction false} Ordered(words: seq<string>, i: nat, j: nat)
    requires Ascending(words) && i < j < |words|
    ensures Compare(words[i], words[j]) < 0
    decreases j
  {
    hide CompareFrom;
    if i + 1 < j {
      Ordered(words, i, j - 1);
      CompareTransitive(words[i], words[j - 1], words[j], 0);
    }
  }

  // ----- quoteChar

  predicate IsAlpha(c: char) {
    'A' <= c <= 'Z' || 'a' <= c <= 'z'
  }

  predicate IsWordChar(c: char) {
    IsAlpha(c) || '0' <= c <= '9' || c == '_'
  }

  predicate PlainIdentifier(s: string) {
    s != "" && (IsAlpha(s[0]) || s[0] == '_') && forall k | 0 <= k < |s| :: IsWordChar(s[k])
  }

  predicate IsKeyword(s: string) {
    exists w | w in Keywords() :: SameIgnoringCase(w, s)
  }

  /** isalpha and isalnum of the C locale, by their characters. */
  lemma WordCharacters(c: char)
    ensures IsAlpha(c) <==> c in Capitals() || c in SmallLetters()
    ensures IsWordChar(c) <==> c in Capitals() || c in SmallLetters() || c in DecimalDigits() || c == '_'
  {
    hide Capitals, SmallLetters, DecimalDigits;
    CapitalsAre(c);
    SmallLettersAre(c);
    DecimalDigitsAre(c);
  }

  /** The binary search for a word of the table. */
  method Search(azKeywords: seq<string>, zName: string) returns (found: bool)
    requires Ascending(azKeywords)
    ensures found <==> exists w | w in azKeywords :: SameIgnoringCase(w, zName)
  {
    hide CompareFrom, Ascending, SameIgnoringCase;
    var lwr, upr := 0, |azKeywords| - 1;
    while lwr <= upr
      invariant 0 <= lwr <= upr + 1 <= |azKeywords|
      invariant forall i | 0 <= i < lwr :: Compare(azKeywords[i], zName) < 0
      invariant forall i | upr < i < |azKeywords| :: Compare(azKeywords[i], zName) > 0
    {
      var mid := (lwr + upr) / 2;
      var c := Compare(azKeywords[mid], zName);
      CompareIsZero(azKeywords[mid], zName);
      if c == 0 {
        return true;
      }
      if c < 0 {
        SmallerBefore(azKeywords, mid, zName);
        lwr := mid + 1;
      } else {
        LargerAfter(azKeywords, mid, zName);
        upr := mid - 1;
      }
    }
    forall w | w in azKeywords ensures !SameIgnoringCase(w, zName) {
      CompareIsZero(w, zName);
    }
    return false;
  }

  lemma CompareIsZero(a: string, b: string)
    ensures Compare(a, b) == 0 <==> SameIgnoringCase(a, b)
  {
    CompareZero(a, b, 0);
    assert a[0..] == a && b[0..] == b;
  }

  lemma SmallerBefore(words: seq<string>, mid: nat, s: string)
    requires Ascending(words) && mid < |words| && Compare(words[mid], s) < 0
    ensures forall i | 0 <= i <= mid :: Compare(words[i], s) < 0
  {
    hide Ascending, CompareFrom;
    forall i | 0 <= i < mid ensures Compare(words[i], s) < 0 {
      Ordered(words, i, mid);
      CompareTransitive(words[i], words[mid], s, 0);
    }
  }

  lemma LargerAfter(words: seq<string>, mid: nat, s: string)
    requires Ascending(words) && mid < |words| && Compare(words[mid], s) > 0
    ensures forall i | mid <= i < |words| :: Compare(words[i], s) > 0
  {
    hide Ascending, CompareFrom;
    CompareReversed(words[mid], s, 0);
    forall i | mid < i < |words| ensures Compare(words[i], s) > 0 {
      Ordered(words, mid, i);
      CompareTransitive(s, words[mid], words[i], 0);
      CompareReversed(s, words[i], 0);
    }
  }

  /** Quotes are asked for exactly for keywords and for names that are not plain identifiers. */
  method QuoteChar(zName: string) returns (q: char)
    ensures q == if PlainIdentifier(zName) && !IsKeyword(zName) then '\0' else '"'
  {
    hide Keywords;
    if zName == "" || (!IsAlpha(zName[0]) && zName[0] != '_') {
      return '"';
    }
    for i := 0 to |zName|
      invariant forall k | 0 <= k < i :: IsWordChar(zName[k])
    {
      if !IsWordChar(zName[i]) {
        return '"';
      }
    }
    KeywordsAscend();
    var found := Search(Keywords(), zName);
    return if found then '"' else '\0';
  }

  lemma KeywordsAscend()
    ensures Ascending(Keywords())
  {
    hide FirstRows, Ascending;
    FirstRowsAscend(ROWS);
  }
}
