// The column layout of .tables and .indexes.
module TablesLayout {
  import opened ByteStrings
  import opened CStdio
  import opened CType

  const SPACES2: bytes := [32, 32]

  // ----- the numbers of columns and rows

  function MaxLen(names: seq<bytes>): (m: nat)
    ensures forall k | 0 <= k < |names| :: StrLen30(names[k]) <= m
  {
    if names == [] then 0
    else
      var m, l := MaxLen(names[..|names| - 1]), StrLen30(names[|names| - 1]);
      if l > m then l else m
  }

  function PrintCols(maxlen: nat): (c: nat)
    ensures c >= 1
  {
    if 80 / (maxlen + 2) < 1 then 1 else 80 / (maxlen + 2)
  }

  function PrintRows(nRow: nat, nPrintCol: nat): nat
    requires nPrintCol >= 1
  {
    (nRow + nPrintCol - 1) / nPrintCol
  }

  /** The indices j, j + step, ... below nRow: those on one line. */
  function Indices(j: nat, step: nat, nRow: nat): seq<nat>
    requires step > 0
    decreases nRow - j
  {
    if j >= nRow then [] else [j] + Indices(j + step, step, nRow)
  }

  // ----- arithmetic of rows and columns

  lemma MulMonotone(a: nat, b: nat, c: nat)
    ensures a <= b ==> a * c <= b * c
  {
  }

  lemma DivMod(n: nat, c: nat)
    requires c > 0
    ensures n == n / c * c + n % c
  {
  }

  lemma EnoughRows(nRow: nat, c: nat)
    requires c >= 1 && nRow > 0
    ensures 0 < PrintRows(nRow, c) <= nRow <= PrintRows(nRow, c) * c
  {
    DivMod(nRow + c - 1, c);
    MulMonotone(nRow + 1, PrintRows(nRow, c), c);
    assert (nRow + 1) * c == nRow * c + c;
    MulMonotone(1, c, nRow);
    assert nRow <= nRow * c;
  }

  lemma {:induction false} IndexAt(j: nat, step: nat, nRow: nat, k: nat)
    requires step > 0 && k < |Indices(j, step, nRow)|
    ensures Indices(j, step, nRow)[k] == j + k * step < nRow
    decreases k
  {
    if k > 0 {
      IndexAt(j + step, step, nRow, k - 1);
    }
  }

  lemma {:induction false} IndexIn(j: nat, step: nat, nRow: nat, k: nat)
    requires step > 0 && j + k * step < nRow
    ensures k < |Indices(j, step, nRow)|
    decreases k
  {
    if k > 0 {
      assert (k - 1) * step + step == k * step;
      IndexIn(j + step, step, nRow, k - 1);
    }
  }

  lemma RowAndColumn(i: nat, k: nat, r: nat)
    requires i < r
    ensures (i + k * r) % r == i && (i + k * r) / r == k
  {
    var n := i + k * r;
    var q := n / r;
    DivMod(n, r);
    MulMonotone(k + 1, q, r);
    MulMonotone(q + 1, k, r);
    assert (k + 1) * r == k * r + r && (q + 1) * r == q * r + r;
  }

  // ----- what the layout promises

  /** The indices on line i of the output. */
  function Line(names: seq<bytes>, i: nat): seq<nat>
    requires names != [] && i < PrintRows(|names|, PrintCols(MaxLen(names)))
  {
    Indices(i, PrintRows(|names|, PrintCols(MaxLen(names))), |names|)
  }

  /** The line of index j, and its place on the line. */
  function LineOf(j: nat, rows: nat): nat
    requires rows > 0
  {
    j % rows
  }

  function PlaceOf(j: nat, rows: nat): nat
    requires rows > 0
  {
    j / rows
  }

  lemma Placed(j: nat, r: nat, nRow: nat)
    requires r > 0 && j < nRow
    ensures LineOf(j, r) < r
    ensures PlaceOf(j, r) < |Indices(LineOf(j, r), r, nRow)| && Indices(LineOf(j, r), r, nRow)[PlaceOf(j, r)] == j
  {
    DivMod(j, r);
    hide Indices;
    var k, i := j / r, j % r;
    assert i + k * r == j;
    IndexIn(i, r, nRow, k);
    IndexAt(i, r, nRow, k);
  }

  /** Index j is printed, on line j mod nPrintRow, and column by column in order. */
  lemma EveryIndexPrinted(names: seq<bytes>, j: nat)
    requires j < |names|
    ensures
      var r := PrintRows(|names|, PrintCols(MaxLen(names)));
      && r > 0 && LineOf(j, r) < r
      && PlaceOf(j, r) < |Line(names, LineOf(j, r))| && Line(names, LineOf(j, r))[PlaceOf(j, r)] == j
  {
    hide MaxLen, PrintCols, PrintRows, Indices, LineOf, PlaceOf;
    EnoughRows(|names|, PrintCols(MaxLen(names)));
    Placed(j, PrintRows(|names|, PrintCols(MaxLen(names))), |names|);
  }

  /** No index is printed at two places. */
  lemma NoIndexTwice(names: seq<bytes>, i: nat, k: nat)
    requires names != [] && i < PrintRows(|names|, PrintCols(MaxLen(names))) && k < |Line(names, i)|
    ensures
      var r := PrintRows(|names|, PrintCols(MaxLen(names)));
      Line(names, i)[k] < |names| && i == LineOf(Line(names, i)[k], r) && k == PlaceOf(Line(names, i)[k], r)
  {
    hide MaxLen, PrintCols, PrintRows;
    var r := PrintRows(|names|, PrintCols(MaxLen(names)));
    IndexAt(i, r, |names|, k);
    RowAndColumn(i, k, r);
  }

  /** A line holds at least one name and at most nPrintCol. */
  lemma NamesOnALine(names: seq<bytes>, i: nat)
    requires names != [] && i < PrintRows(|names|, PrintCols(MaxLen(names)))
    ensures 1 <= |Line(names, i)| <= PrintCols(MaxLen(names))
  {
    hide MaxLen, PrintCols, PrintRows;
    var c := PrintCols(MaxLen(names));
    var r := PrintRows(|names|, c);
    EnoughRows(|names|, c);
    IndexIn(i, r, |names|, 0);
    var k := |Line(names, i)| - 1;
    IndexAt(i, r, |names|, k);
    MulMonotone(c, k, r);
    assert c * r == r * c;
  }

  /** The lengths of names are below the limit of strlen30. */
  predicate LengthsFit(names: seq<bytes>) {
    forall k | 0 <= k < |names| :: |names[k]| < 0x4000_0000
  }

  /**
   * The columns are as wide as the longest name, there is no room for another column unless
   * that name is wider than a line, and with one row less the names would not fit.
   */
  lemma LayoutIsTight(names: seq<bytes>)
    requires names != [] && LengthsFit(names)
    ensures
      var maxlen := MaxLen(names);
      var c := PrintCols(maxlen);
      && (exists k :: 0 <= k < |names| && |names[k]| == maxlen) && (forall k | 0 <= k < |names| :: |names[k]| <= maxlen)
      && (if maxlen + 2 <= 80 then c * (maxlen + 2) <= 80 < (c + 1) * (maxlen + 2) else c == 1)
      && (PrintRows(|names|, c) - 1) * c < |names| <= PrintRows(|names|, c) * c
  {
    var maxlen := MaxLen(names);
    var c := PrintCols(maxlen);
    LongestName(names);
    hide MaxLen, PrintCols, PrintRows;
    EnoughRows(|names|, c);
    ColumnsFit(maxlen, c);
    if maxlen + 2 <= 80 {
      NoMoreColumns(maxlen);
    }
    NoFewerRows(|names|, c);
  }

  lemma LongestName(names: seq<bytes>)
    requires names != [] && LengthsFit(names)
    ensures exists k :: 0 <= k < |names| && |names[k]| == MaxLen(names)
    ensures forall k | 0 <= k < |names| :: |names[k]| <= MaxLen(names)
  {
    hide MaxLen, StrLen30;
    forall k | 0 <= k < |names| ensures StrLen30(names[k]) == |names[k]| {
      ShortLength(names[k]);
    }
    var k := SomeLongest(names);
    assert |names[k]| == MaxLen(names);
  }

  lemma ShortLength(z: bytes)
    requires |z| < 0x4000_0000
    ensures StrLen30(z) == |z|
  {
  }

  lemma {:induction false} SomeLongest(names: seq<bytes>) returns (k: nat)
    requires names != []
    ensures k < |names| && StrLen30(names[k]) == MaxLen(names)
  {
    hide StrLen30;
    k := |names| - 1;
    if StrLen30(names[k]) < MaxLen(names) {
      assert names[..k] != [] by { NoNames(); }
      k := SomeLongest(names[..k]);
    }
  }

  lemma NoNames()
    ensures MaxLen([]) == 0
  {
  }

  lemma NoMoreColumns(maxlen: nat)
    requires maxlen + 2 <= 80
    ensures 80 < (PrintCols(maxlen) + 1) * (maxlen + 2)
  {
    var w := maxlen + 2;
    DivMod(80, w);
    MulMonotone(1, 80 / w, w);
    assert (80 / w + 1) * w == 80 / w * w + w;
  }

  lemma NoFewerRows(nRow: nat, c: nat)
    requires c >= 1 && nRow > 0
    ensures (PrintRows(nRow, c) - 1) * c < nRow
  {
    DivMod(nRow + c - 1, c);
    assert (PrintRows(nRow, c) - 1) * c == PrintRows(nRow, c) * c - c;
  }

  // ----- the text of the lines

  /** %-*s: the name, and spaces up to the width. */
  function Padded(s: bytes, width: nat): (p: bytes)
    ensures s <= p && |p| == if |s| < width then width else |s|
    ensures forall k | |s| <= k < |p| :: p[k] == ' ' as int
  {
    s + Repeat(32, if |s| < width then width - |s| else 0)
  }

  function Field(names: seq<bytes>, j: nat, rows: nat, maxlen: nat): bytes
    requires j < |names|
  {
    (if j < rows then [] else SPACES2) + Padded(names[j], maxlen)
  }

  /** The first name of a line stands at its start, and every other one after two spaces. */
  lemma NameInField(names: seq<bytes>, j: nat, rows: nat, maxlen: nat)
    requires j < |names|
    ensures
      var gap: bytes := if j < rows then [] else [' ' as int, ' ' as int];
      var field := Field(names, j, rows, maxlen);
      gap + names[j] <= field && forall k | |gap + names[j]| <= k < |field| :: field[k] == ' ' as int
  {
  }

  /** The fields of a line from index j on, and the line end. */
  function LineText(names: seq<bytes>, j: nat, rows: nat, maxlen: nat): bytes
    requires rows > 0
    decreases |names| - j
  {
    if j >= |names| then [LF] else Field(names, j, rows, maxlen) + LineText(names, j + rows, rows, maxlen)
  }

  /** The fields of some indices, one after the other. */
  function Fields(names: seq<bytes>, js: seq<nat>, rows: nat, maxlen: nat): bytes {
    if js == [] then []
    else (if js[0] < |names| then Field(names, js[0], rows, maxlen) else []) + Fields(names, js[1..], rows, maxlen)
  }

  /** A line shows the names of its indices, in order. */
  lemma {:induction false} LineShowsIndices(names: seq<bytes>, j: nat, rows: nat, maxlen: nat)
    requires rows > 0
    ensures LineText(names, j, rows, maxlen) == Fields(names, Indices(j, rows, |names|), rows, maxlen) + [LF]
    decreases |names| - j
  {
    hide Field;
    if j < |names| {
      LineShowsIndices(names, j + rows, rows, maxlen);
      assert Indices(j, rows, |names|)[1..] == Indices(j + rows, rows, |names|);
    }
  }

  function LinesText(names: seq<bytes>, i: nat, rows: nat, maxlen: nat): bytes
    requires rows > 0
    decreases rows - i
  {
    if i >= rows then [] else LineText(names, i, rows, maxlen) + LinesText(names, i + 1, rows, maxlen)
  }

  function LayoutText(names: seq<bytes>): bytes {
    if names == [] then []
    else
      var c := PrintCols(MaxLen(names));
      EnoughRows(|names|, c);
      LinesText(names, 0, PrintRows(|names|, c), MaxLen(names))
  }

  lemma {:induction false} RestWidth(names: seq<bytes>, j: nat, rows: nat, maxlen: nat)
    requires rows > 0 && j >= rows && forall k | 0 <= k < |names| :: |names[k]| <= maxlen
    ensures |LineText(names, j, rows, maxlen)| == |Indices(j, rows, |names|)| * (maxlen + 2) + 1
    decreases |names| - j
  {
    hide LineText, Indices;
    NextField(names, j, rows, maxlen);
    if j < |names| {
      RestWidth(names, j + rows, rows, maxlen);
      OneMore(|Indices(j + rows, rows, |names|)|, maxlen + 2);
    }
  }

  lemma NextField(names: seq<bytes>, j: nat, rows: nat, maxlen: nat)
    requires rows > 0 && j >= rows && (j < |names| ==> |names[j]| <= maxlen)
    ensures j < |names| ==>
      && |LineText(names, j, rows, maxlen)| == maxlen + 2 + |LineText(names, j + rows, rows, maxlen)|
      && |Indices(j, rows, |names|)| == 1 + |Indices(j + rows, rows, |names|)|
    ensures j >= |names| ==> |LineText(names, j, rows, maxlen)| == 1 && |Indices(j, rows, |names|)| == 0
  {
  }

  /** Every line takes at most 78 columns when a name takes at most that many. */
  lemma LineWidth(names: seq<bytes>, i: nat)
    requires names != [] && LengthsFit(names) && i < PrintRows(|names|, PrintCols(MaxLen(names)))
    ensures
      var maxlen := MaxLen(names);
      var line := LineText(names, i, PrintRows(|names|, PrintCols(maxlen)), maxlen);
      && |line| - 1 == |Line(names, i)| * (maxlen + 2) - 2
      && (maxlen + 2 <= 80 ==> |line| - 1 <= 78)
      && (maxlen + 2 > 80 ==> |line| - 1 == maxlen)
  {
    var maxlen := MaxLen(names);
    var c := PrintCols(maxlen);
    var r := PrintRows(|names|, c);
    NamesOnALine(names, i);
    EnoughRows(|names|, c);
    hide MaxLen, PrintCols, PrintRows;
    RestWidth(names, i + r, r, maxlen);
    FirstField(names, i, r, maxlen);
    ColumnsFit(maxlen, |Line(names, i)|);
    hide LineText, Indices;
    OneMore(|Indices(i + r, r, |names|)|, maxlen + 2);
  }

  lemma OneMore(n: nat, w: nat)
    ensures (n + 1) * w == n * w + w
  {
  }

  lemma FirstField(names: seq<bytes>, i: nat, rows: nat, maxlen: nat)
    requires i < rows && i < |names| && |names[i]| <= maxlen
    ensures |LineText(names, i, rows, maxlen)| == maxlen + |LineText(names, i + rows, rows, maxlen)|
    ensures |Indices(i, rows, |names|)| == 1 + |Indices(i + rows, rows, |names|)|
  {
  }

  lemma ColumnsFit(maxlen: nat, n: nat)
    requires 1 <= n <= PrintCols(maxlen)
    ensures maxlen + 2 <= 80 ==> n * (maxlen + 2) <= 80
    ensures maxlen + 2 > 80 ==> n == 1
  {
    var w := maxlen + 2;
    DivMod(80, w);
    MulMonotone(n, 80 / w, w);
  }

  // ----- the code

  method PrintTables(out: OutFile, azResult: seq<bytes>)
    modifies out
    ensures out.text == old(out.text) + LayoutText(azResult)
  {
    if azResult == [] {
      return;
    }
    var maxlen := FindMaxLen(azResult);
    var nPrintCol := 80 / (maxlen + 2);
    if nPrintCol < 1 {
      nPrintCol := 1;
    }
    assert nPrintCol == PrintCols(maxlen);
    var nPrintRow := (|azResult| + nPrintCol - 1) / nPrintCol;
    assert nPrintRow == PrintRows(|azResult|, nPrintCol);
    EnoughRows(|azResult|, nPrintCol);
    hide *;
    PrintLines(out, azResult, nPrintRow, maxlen);
  }

  method FindMaxLen(azResult: seq<bytes>) returns (maxlen: nat)
    ensures maxlen == MaxLen(azResult)
  {
    hide StrLen30;
    maxlen := 0;
    for i := 0 to |azResult|
      invariant maxlen == MaxLen(azResult[..i])
    {
      var len := StrLen30(azResult[i]);
      if len > maxlen {
        maxlen := len;
      }
      assert azResult[..i + 1][..i] == azResult[..i];
    }
    assert azResult[..|azResult|] == azResult;
  }

  method PrintLines(out: OutFile, azResult: seq<bytes>, nPrintRow: nat, maxlen: nat)
    requires nPrintRow > 0
    modifies out
    ensures out.text == old(out.text) + LinesText(azResult, 0, nPrintRow, maxlen)
  {
    hide LineText;
    ghost var all := out.text + LinesText(azResult, 0, nPrintRow, maxlen);
    for i := 0 to nPrintRow
      invariant all == out.text + LinesText(azResult, i, nPrintRow, maxlen)
    {
      PrintLine(out, azResult, i, nPrintRow, maxlen);
    }
  }

  method PrintLine(out: OutFile, azResult: seq<bytes>, i: nat, nPrintRow: nat, maxlen: nat)
    requires nPrintRow > 0
    modifies out
    ensures out.text == old(out.text) + LineText(azResult, i, nPrintRow, maxlen)
  {
    hide LineText;
    ghost var all := out.text + LineText(azResult, i, nPrintRow, maxlen);
    var j := i;
    while j < |azResult|
      invariant all == out.text + LineText(azResult, j, nPrintRow, maxlen)
      decreases |azResult| - j
    {
      var zSp := if j < nPrintRow then [] else SPACES2;
      LineStep(out.text, azResult, j, nPrintRow, maxlen);
      out.PutText(zSp);
      out.PutText(Padded(azResult[j], maxlen));
      j := j + nPrintRow;
    }
    LineStep(out.text, azResult, j, nPrintRow, maxlen);
    out.PutText([LF]);
  }

  lemma LineStep(before: bytes, names: seq<bytes>, j: nat, rows: nat, maxlen: nat)
    requires rows > 0
    ensures before + LineText(names, j, rows, maxlen) ==
      if j < |names| then
        before + (if j < rows then [] else SPACES2) + Padded(names[j], maxlen) + LineText(names, j + rows, rows, maxlen)
      else before + [LF]
  {
    hide Padded;
  }
}
