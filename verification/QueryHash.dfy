// sha3_query(SQL, SIZE) and sha3(X, SIZE): the loops that feed the hash.
module QueryHash {
  import opened LaneBits
  import opened Numerals
  import opened Sha3Spec
  import opened Sha3
  import opened QueryStream
  import opened Options

  /** What preparing and running the next statement of the SQL text comes to. */
  datatype Prepared = PrepareFails | NotReadOnly | NoStatement | Results(statement: Statement)

  datatype Outcome = NullResult | BadSize | PrepareError | NonQuery | Digest(digest: Bytes)

  const INT_MAX: nat := 0x7fff_ffff

  /** Lengths are ints in the code. */
  predicate ValueFits(v: Value) {
    (v.Text? ==> |v.bytes| <= INT_MAX) && (v.Blob? ==> |v.bytes| <= INT_MAX)
  }

  predicate StatementFits(s: Statement) {
    |s.sql| <= INT_MAX && forall row, v | row in s.rows && v in row :: ValueFits(v)
  }

  predicate AllFit(p: seq<Prepared>) {
    forall r | r in p && r.Results? :: StatementFits(r.statement)
  }

  /** The statements hashed before the first that cannot be prepared or is not a query. */
  function Hashed(p: seq<Prepared>): seq<Statement> {
    if p == [] || p[0] == PrepareFails || p[0] == NotReadOnly then []
    else (if p[0].Results? then [p[0].statement] else []) + Hashed(p[1..])
  }

  function FirstError(p: seq<Prepared>): Option<Outcome> {
    if p == [] then None
    else if p[0] == PrepareFails then Some(PrepareError)
    else if p[0] == NotReadOnly then Some(NonQuery)
    else FirstError(p[1..])
  }

  // ----- eight bytes of an integer or a float

  /** The word u after k shifts by eight bits. */
  function Shifted8(u: bv64, k: nat): bv64
    requires k <= 8
  {
    match k
    case 0 => u case 1 => u >> 8 case 2 => u >> 16 case 3 => u >> 24 case 4 => u >> 32
    case 5 => u >> 40 case 6 => u >> 48 case 7 => u >> 56 case 8 => 0
  }

  function LowByte(u: bv64): bv8 {
    (u & 0xff) as bv8
  }

  function ShiftRight8(u: bv64): bv64 {
    u >> 8
  }

  lemma ShiftStep0(u: bv64)
    ensures ShiftRight8(Shifted8(u, 0)) == Shifted8(u, 1) && LowByte(Shifted8(u, 0)) == Byte(u, 0)
  {
  }

  lemma ShiftStep1(u: bv64)
    ensures ShiftRight8(Shifted8(u, 1)) == Shifted8(u, 2) && LowByte(Shifted8(u, 1)) == Byte(u, 1)
  {
  }

  lemma ShiftStep2(u: bv64)
    ensures ShiftRight8(Shifted8(u, 2)) == Shifted8(u, 3) && LowByte(Shifted8(u, 2)) == Byte(u, 2)
  {
  }

  lemma ShiftStep3(u: bv64)
    ensures ShiftRight8(Shifted8(u, 3)) == Shifted8(u, 4) && LowByte(Shifted8(u, 3)) == Byte(u, 3)
  {
  }

  lemma ShiftStep4(u: bv64)
    ensures ShiftRight8(Shifted8(u, 4)) == Shifted8(u, 5) && LowByte(Shifted8(u, 4)) == Byte(u, 4)
  {
  }

  lemma ShiftStep5(u: bv64)
    ensures ShiftRight8(Shifted8(u, 5)) == Shifted8(u, 6) && LowByte(Shifted8(u, 5)) == Byte(u, 5)
  {
  }

  lemma ShiftStep6(u: bv64)
    ensures ShiftRight8(Shifted8(u, 6)) == Shifted8(u, 7) && LowByte(Shifted8(u, 6)) == Byte(u, 6)
  {
  }

  lemma ShiftStep7(u: bv64)
    ensures ShiftRight8(Shifted8(u, 7)) == Shifted8(u, 8) && LowByte(Shifted8(u, 7)) == Byte(u, 7)
  {
  }

  lemma ShiftStep(u: bv64, k: nat)
    requires k < 8
    ensures ShiftRight8(Shifted8(u, k)) == Shifted8(u, k + 1) && LowByte(Shifted8(u, k)) == Byte(u, k)
  {
    hide Shifted8, Byte;
    match k
    case 0 => ShiftStep0(u);
    case 1 => ShiftStep1(u);
    case 2 => ShiftStep2(u);
    case 3 => ShiftStep3(u);
    case 4 => ShiftStep4(u);
    case 5 => ShiftStep5(u);
    case 6 => ShiftStep6(u);
    case 7 => ShiftStep7(u);
  }

  /** The n low bytes of a word, most significant first. */
  function LowBytes(w: bv64, n: nat): Bytes
    requires n <= 8
  {
    if n == 0 then [] else [Byte(w, n - 1)] + LowBytes(w, n - 1)
  }

  lemma LowBytesStep(w: bv64, n: nat)
    requires n < 8
    ensures LowBytes(w, n + 1) == [Byte(w, n)] + LowBytes(w, n)
  {
    hide Byte;
  }

  lemma EightInFront<T>(a0: T, a1: T, a2: T, a3: T, a4: T, a5: T, a6: T, a7: T)
    ensures [a7] + ([a6] + ([a5] + ([a4] + ([a3] + ([a2] + ([a1] + ([a0] + []))))))) == [a7, a6, a5, a4, a3, a2, a1, a0]
  {
  }

  lemma NoBytes(w: bv64)
    ensures LowBytes(w, 0) == []
  {
  }

  lemma AllBytes(w: bv64)
    ensures LowBytes(w, 8) == BigEndianWord(w)
  {
    hide Byte, LowBytes;
    NoBytes(w);
    LowBytesStep(w, 0); LowBytesStep(w, 1); LowBytesStep(w, 2); LowBytesStep(w, 3);
    LowBytesStep(w, 4); LowBytesStep(w, 5); LowBytesStep(w, 6); LowBytesStep(w, 7);
    EightInFront(Byte(w, 0), Byte(w, 1), Byte(w, 2), Byte(w, 3), Byte(w, 4), Byte(w, 5), Byte(w, 6), Byte(w, 7));
  }

  /** x[0] = tag, and the loop that fills x[8] down to x[1]. */
  method PackWord(tag: bv8, v: bv64) returns (x: array<bv8>)
    ensures fresh(x) && x[..] == [tag] + BigEndianWord(v)
  {
    x := new bv8[9];
    FillWord(x, v);
    ghost var b := x[1..];
    x[0] := tag;
    assert x[1..] == b;
    assert x[..] == [x[0]] + b;
  }

  method FillWord(x: array<bv8>, v: bv64)
    requires x.Length == 9
    modifies x
    ensures x[1..] == BigEndianWord(v)
  {
    var u := v;
    ShiftZeroTimes(v);
    AllBytes(v);
    NoBytes(v);
    hide *;
    for j := 8 downto 0
      invariant u == Shifted8(v, 8 - j) && x[j + 1..] == LowBytes(v, 8 - j)
    {
      ShiftStep(v, 7 - j);
      LowBytesStep(v, 7 - j);
      ghost var b := x[j + 2..];
      x[j + 1] := LowByte(u);
      assert x[j + 1..] == [x[j + 1]] + b;
      u := ShiftRight8(u);
    }
  }

  lemma ShiftZeroTimes(u: bv64)
    ensures Shifted8(u, 0) == u
  {
  }

  // ----- headers

  function Pow10(k: nat): nat {
    if k == 0 then 1 else 10 * Pow10(k - 1)
  }

  lemma {:induction false} DecimalIsShort(n: nat, k: nat)
    requires k > 0 && n < Pow10(k)
    ensures |Decimal(n, Digit)| <= k
  {
    if n >= 10 {
      DecimalIsShort(n / 10, k - 1);
    }
  }

  /** A count that is an int fits in the 50 bytes of zBuf. */
  lemma HeaderFits(tag: bv8, n: nat)
    requires n <= INT_MAX
    ensures |Header(tag, n)| <= 12
  {
    assert Pow10(10) == 10_000_000_000;
    DecimalIsShort(n, 10);
  }

  function Truncated(z: Bytes, n: nat): Bytes {
    if |z| <= n then z else z[..n]
  }

  /** hash_step_vformat: the text is cut to 49 bytes. */
  method HashStepFormat(cx: SHA3Context, tag: bv8, n: nat)
    requires cx.Valid() && n <= INT_MAX
    modifies cx`nLoaded, cx`absorbed, cx.s
    ensures cx.Valid() && cx.absorbed == old(cx.absorbed) + Header(tag, n)
  {
    HeaderFits(tag, n);
    hide Header;
    HashBytes(cx, Truncated(Header(tag, n), 49));
  }

  /** SHA3Update of bytes at any address. */
  method HashBytes(cx: SHA3Context, z: Bytes)
    requires cx.Valid() && |z| <= INT_MAX
    modifies cx`nLoaded, cx`absorbed, cx.s
    ensures cx.Valid() && cx.absorbed == old(cx.absorbed) + z
  {
    var aligned: bool := *;
    cx.SHA3Update(z, aligned);
  }

  // ----- the loops over columns, rows and statements

  method HashWord(cx: SHA3Context, tag: bv8, w: bv64)
    requires cx.Valid()
    modifies cx`nLoaded, cx`absorbed, cx.s
    ensures cx.Valid() && cx.absorbed == old(cx.absorbed) + ([tag] + BigEndianWord(w))
  {
    hide BigEndianWord, cx.Valid;
    var x := PackWord(tag, w);
    HashBytes(cx, x[..]);
  }

  method HashSized(cx: SHA3Context, tag: bv8, z: Bytes)
    requires cx.Valid() && |z| <= INT_MAX
    modifies cx`nLoaded, cx`absorbed, cx.s
    ensures cx.Valid() && cx.absorbed == old(cx.absorbed) + (Header(tag, |z|) + z)
  {
    hide Header, cx.Valid;
    HashStepFormat(cx, tag, |z|);
    HashBytes(cx, z);
  }

  /** The switch on the type of a column. */
  method HashValue(cx: SHA3Context, v: Value)
    requires cx.Valid() && ValueFits(v)
    modifies cx`nLoaded, cx`absorbed, cx.s
    ensures cx.Valid() && cx.absorbed == old(cx.absorbed) + EncodeValue(v)
  {
    hide BigEndianWord, Header, cx.Valid;
    match v
    case Null => HashBytes(cx, [TAG_N]);
    case Integer(w) => HashWord(cx, TAG_I, w);
    case Float(w) => HashWord(cx, TAG_F, w);
    case Text(z) => HashSized(cx, TAG_T, z);
    case Blob(z) => HashSized(cx, TAG_B, z);
  }

  method HashRow(cx: SHA3Context, row: seq<Value>)
    requires cx.Valid() && forall v | v in row :: ValueFits(v)
    modifies cx`nLoaded, cx`absorbed, cx.s
    ensures cx.Valid() && cx.absorbed == old(cx.absorbed) + [TAG_R] + EncodeValues(row)
  {
    hide EncodeValue, ValueFits, cx.Valid;
    HashBytes(cx, [TAG_R]);
    for i := 0 to |row|
      invariant cx.Valid() && cx.absorbed == old(cx.absorbed) + [TAG_R] + EncodeValues(row[..i])
    {
      HashValue(cx, row[i]);
      assert row[..i + 1][..i] == row[..i];
    }
    assert row[..|row|] == row;
  }

  method HashStatement(cx: SHA3Context, s: Statement)
    requires cx.Valid() && StatementFits(s)
    modifies cx`nLoaded, cx`absorbed, cx.s
    ensures cx.Valid() && cx.absorbed == old(cx.absorbed) + EncodeStatement(s)
  {
    hide EncodeValues, Header, ValueFits, cx.Valid;
    HashStepFormat(cx, TAG_S, |s.sql|);
    HashBytes(cx, s.sql);
    for k := 0 to |s.rows|
      invariant cx.Valid() && cx.absorbed == old(cx.absorbed) + Header(TAG_S, |s.sql|) + s.sql + EncodeRows(s.rows[..k])
    {
      HashRow(cx, s.rows[k]);
      assert s.rows[..k + 1][..k] == s.rows[..k];
    }
    assert s.rows[..|s.rows|] == s.rows;
  }

  predicate IsDigestSize(iSize: int) {
    iSize == 224 || iSize == 256 || iSize == 384 || iSize == 512
  }

  function SizeArgument(arg: Option<int>): int {
    if arg == None then 256 else arg.value
  }

  /** The value of sha3_query: the digest of a stream that determines every statement, row and value. */
  function QueryOutcome(zSql: Option<seq<Prepared>>, arg: Option<int>): Outcome {
    if !IsDigestSize(SizeArgument(arg)) then BadSize
    else if zSql == None then NullResult
    else
      var e := FirstError(zSql.value);
      if e.Some? then e.value else Digest(Sha3Spec.Sha3(SizeArgument(arg), Encode(Hashed(zSql.value))))
  }

  /**
   * A digest is given exactly when the size is missing or one of four and every statement is a
   * query that can be prepared; it has as many bits as the size says, 256 when it is missing.
   */
  lemma {:induction false} DigestIff(p: seq<Prepared>, arg: Option<int>)
    ensures QueryOutcome(Some(p), arg).Digest? <==>
      (arg == None || arg.value in {224, 256, 384, 512}) && PrepareFails !in p && NotReadOnly !in p
    ensures QueryOutcome(Some(p), None) == QueryOutcome(Some(p), Some(256))
    ensures QueryOutcome(Some(p), arg).Digest? ==>
      8 * |QueryOutcome(Some(p), arg).digest| == if arg == None then 256 else arg.value
  {
    hide Encode, Sha3Spec.Sha3;
    if p != [] {
      DigestIff(p[1..], arg);
      assert p == [p[0]] + p[1..];
    }
  }

  /** Position i holds the first statement that cannot be prepared or is not a query. */
  predicate FirstBad(p: seq<Prepared>, i: nat) {
    && i < |p| && (p[i] == PrepareFails || p[i] == NotReadOnly)
    && forall j | 0 <= j < i :: p[j] != PrepareFails && p[j] != NotReadOnly
  }

  /** The first bad statement decides which error it is. */
  lemma {:induction false} FirstBadDecides(p: seq<Prepared>, i: nat)
    requires FirstBad(p, i)
    ensures FirstError(p) == Some(if p[i] == PrepareFails then PrepareError else NonQuery)
  {
    if i > 0 {
      assert forall j | 0 <= j < i - 1 :: p[1..][j] == p[j + 1];
      FirstBadDecides(p[1..], i - 1);
    }
  }

  /** Without one the results are hashed in order, and empty statements are left out. */
  lemma {:induction false} HashedInOrder(p: seq<Prepared>, r: Prepared)
    requires PrepareFails !in p && NotReadOnly !in p && r != PrepareFails && r != NotReadOnly
    ensures FirstError(p) == None
    ensures Hashed(p + [r]) == Hashed(p) + if r.Results? then [r.statement] else []
  {
    if p == [] {
      assert ([] + [r])[1..] == [];
      NothingHashed();
    } else {
      assert p[0] in p && (p + [r])[1..] == p[1..] + [r];
      HashedInOrder(p[1..], r);
    }
  }

  /** SHA3Final and the iSize/8 bytes taken from where it points. */
  method Finish(cx: SHA3Context, iSize: int) returns (digest: Bytes)
    requires cx.Valid() && IsDigestSize(iSize) && cx.nRate == 200 - iSize / 4
    modifies cx, cx.s
    ensures digest == Sha3Spec.Sha3(iSize, old(cx.absorbed))
  {
    hide Sha3Spec.Sha3, cx.Valid;
    var at := cx.SHA3Final();
    assert DigestSize(iSize);
    digest := cx.XBytes(at, iSize / 8);
  }

  method Begin(iSize: int) returns (cx: SHA3Context)
    requires IsDigestSize(iSize)
    ensures cx.Valid() && fresh(cx) && fresh(cx.s) && cx.absorbed == [] && cx.nRate == 200 - iSize / 4
  {
    hide cx.Valid;
    cx := new SHA3Context(iSize);
  }

  lemma NothingHashed()
    ensures Encode([]) == [] && Hashed([]) == [] && FirstError([]) == None && forall s: seq<Statement> :: [] + s == s
  {
  }

  /** One iteration over the statements. */
  lemma NextPrepared(p: seq<Prepared>, stmts: seq<Statement>)
    requires p != [] && AllFit(p)
    ensures AllFit(p[1..]) && (p[0].Results? ==> StatementFits(p[0].statement))
    ensures p[0] == PrepareFails ==> FirstError(p) == Some(PrepareError)
    ensures p[0] == NotReadOnly ==> FirstError(p) == Some(NonQuery)
    ensures p[0] != PrepareFails && p[0] != NotReadOnly ==>
      FirstError(p) == FirstError(p[1..]) &&
      stmts + Hashed(p) == (if p[0].Results? then stmts + [p[0].statement] else stmts) + Hashed(p[1..])
    ensures p[0].Results? ==> Encode(stmts + [p[0].statement]) == Encode(stmts) + EncodeStatement(p[0].statement)
  {
    hide EncodeStatement, StatementFits;
    assert p[0] in p && forall r | r in p[1..] :: r in p;
    if p[0].Results? {
      assert (stmts + [p[0].statement])[..|stmts|] == stmts;
    }
  }

  /** sha3_query(SQL, SIZE), where zSql holds what each sqlite3_prepare_v2 in turn comes to. */
  method Sha3QueryFunc(zSql: Option<seq<Prepared>>, arg: Option<int>) returns (r: Outcome)
    requires zSql.Some? ==> AllFit(zSql.value)
    ensures r == QueryOutcome(zSql, arg)
  {
    hide Sha3Spec.Sha3, EncodeStatement, StatementFits, SHA3Context.Valid, Encode, FirstError, Hashed, AllFit;
    var iSize := SizeArgument(arg);
    if !IsDigestSize(iSize) {
      return BadSize;
    }
    if zSql == None {
      return NullResult;
    }
    var cx := Begin(iSize);
    NothingHashed();
    var p := zSql.value;
    ghost var stmts: seq<Statement> := [];
    while p != []
      invariant cx.Valid() && fresh(cx) && fresh(cx.s) && cx.nRate == 200 - iSize / 4
      invariant AllFit(p) && cx.absorbed == Encode(stmts)
      invariant FirstError(p) == FirstError(zSql.value)
      invariant FirstError(p) == None ==> stmts + Hashed(p) == Hashed(zSql.value)
    {
      var next := p[0];
      NextPrepared(p, stmts);
      if next == PrepareFails {
        return PrepareError;
      }
      if next == NotReadOnly {
        return NonQuery;
      }
      if next.Results? {
        HashStatement(cx, next.statement);
        stmts := stmts + [next.statement];
      }
      p := p[1..];
    }
    assert stmts + [] == stmts;
    var digest := Finish(cx, iSize);
    r := Digest(digest);
  }

  /** sha3(X, SIZE), where X is None for NULL and else the bytes of the blob or the text. */
  method Sha3Func(x: Option<Bytes>, arg: Option<int>) returns (r: Outcome)
    requires x.Some? ==> |x.value| <= INT_MAX
    ensures r == if !IsDigestSize(SizeArgument(arg)) then BadSize else if x == None then NullResult
                 else Digest(Sha3Spec.Sha3(SizeArgument(arg), x.value))
  {
    hide Sha3Spec.Sha3, SHA3Context.Valid;
    var iSize := SizeArgument(arg);
    if !IsDigestSize(iSize) {
      return BadSize;
    }
    if x == None {
      return NullResult;
    }
    var cx := Begin(iSize);
    HashBytes(cx, x.value);
    assert cx.absorbed == x.value;
    var digest := Finish(cx, iSize);
    r := Digest(digest);
  }
}
