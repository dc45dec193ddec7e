// The functions on words of SHA-256, bit by bit: sections 2.2.2, 3.2 and 4.1.2 of FIPS 180-4.
module Sha256Bits {
  import opened ByteStrings
  import opened Division
  import opened Sha256Spec
  import opened WordBits

  /** Bit j of a word, the one of weight 2^j. */
  predicate Bit(x: Word, j: bv6)
    requires j < 32
  {
    IsSet(x.bits, j)
  }

  /** Rotation to the right by n: bit j of the result is bit j + n, modulo 32; a shift leaves zeros. */
  lemma RotrAndShrBits(x: Word, n: bv6, j: bv6)
    requires 0 < n < 32 && j < 32
    ensures Bit(Rotr(x, n), j) == Bit(x, (j + n) % 32)
    ensures Bit(Shr(x, n), j) == (j + n < 32 && Bit(x, (j + n) % 32))
  {
    hide IsSet, RotrWord, ShrWord;
    RotrAt(x.bits, n, j);
    ShrAt(x.bits, n, j);
  }

  lemma LogicBits(x: Word, y: Word, j: bv6)
    requires j < 32
    ensures Bit(Xor(x, y), j) == (Bit(x, j) != Bit(y, j))
    ensures Bit(And(x, y), j) == (Bit(x, j) && Bit(y, j))
    ensures Bit(Not(x), j) == !Bit(x, j)
  {
    hide IsSet, XorWords, AndWords, NotWord;
    XorAt(x.bits, y.bits, j);
    AndAt(x.bits, y.bits, j);
    NotAt(x.bits, j);
  }

  lemma Xor3(x: Word, y: Word, z: Word, j: bv6)
    requires j < 32
    ensures Bit(Xor(Xor(x, y), z), j) == (Bit(x, j) != (Bit(y, j) != Bit(z, j)))
  {
    hide Bit, Xor;
    LogicBits(x, y, j);
    LogicBits(Xor(x, y), z, j);
  }

  /** The two functions written as a large sigma. */
  lemma SumBits(x: Word, j: bv6)
    requires j < 32
    ensures Bit(Sum0(x), j) == (Bit(x, (j + 2) % 32) != (Bit(x, (j + 13) % 32) != Bit(x, (j + 22) % 32)))
    ensures Bit(Sum1(x), j) == (Bit(x, (j + 6) % 32) != (Bit(x, (j + 11) % 32) != Bit(x, (j + 25) % 32)))
  {
    hide Bit, Rotr, Xor;
    RotrAndShrBits(x, 2, j); RotrAndShrBits(x, 13, j); RotrAndShrBits(x, 22, j);
    Xor3(Rotr(x, 2), Rotr(x, 13), Rotr(x, 22), j);
    RotrAndShrBits(x, 6, j); RotrAndShrBits(x, 11, j); RotrAndShrBits(x, 25, j);
    Xor3(Rotr(x, 6), Rotr(x, 11), Rotr(x, 25), j);
  }

  /** The two functions written as a small sigma. */
  lemma SigmaBits(x: Word, j: bv6)
    requires j < 32
    ensures Bit(Sigma0(x), j) ==
      (Bit(x, (j + 7) % 32) != (Bit(x, (j + 18) % 32) != (j + 3 < 32 && Bit(x, (j + 3) % 32))))
    ensures Bit(Sigma1(x), j) ==
      (Bit(x, (j + 17) % 32) != (Bit(x, (j + 19) % 32) != (j + 10 < 32 && Bit(x, (j + 10) % 32))))
  {
    hide Bit, Rotr, Shr, Xor;
    RotrAndShrBits(x, 7, j); RotrAndShrBits(x, 18, j); RotrAndShrBits(x, 3, j);
    Xor3(Rotr(x, 7), Rotr(x, 18), Shr(x, 3), j);
    RotrAndShrBits(x, 17, j); RotrAndShrBits(x, 19, j); RotrAndShrBits(x, 10, j);
    Xor3(Rotr(x, 17), Rotr(x, 19), Shr(x, 10), j);
  }

  /** Ch chooses between y and z by the bit of x, and Maj is the majority. */
  lemma ChAndMajBits(x: Word, y: Word, z: Word, j: bv6)
    requires j < 32
    ensures Bit(Ch(x, y, z), j) == if Bit(x, j) then Bit(y, j) else Bit(z, j)
    ensures Bit(Maj(x, y, z), j)
         == ((Bit(x, j) && (Bit(y, j) || Bit(z, j))) || (Bit(y, j) && Bit(z, j)))
  {
    hide Bit, And, Not, Xor;
    LogicBits(x, y, j);
    LogicBits(x, z, j);
    LogicBits(y, z, j);
    LogicBits(Not(x), z, j);
    LogicBits(And(x, y), And(Not(x), z), j);
    Xor3(And(x, y), And(x, z), And(y, z), j);
  }

  /** Addition modulo 2^32. */
  lemma AddIsModular(x: Word, y: Word)
    ensures IsSum(Add(x, y).bits, x.bits, y.bits)
  {
    hide IsSum, AddWords;
    AddAt(x.bits, y.bits);
  }

  // ----- undoing a step and the schedule

  function Sub(x: Word, y: Word): Word {
    Word(SubWords(x.bits, y.bits))
  }

  lemma SubAdd(x: Word, y: Word)
    ensures Sub(Add(x, y), y) == x && Sub(Add(y, x), y) == x
  {
    hide AddWords, SubWords;
    SubUndoesAdd(x.bits, y.bits);
  }

  /** The working variables before a step, from those after it: six of them moved on by one place. */
  function StepBack(v: Vars, k: Word, w: Word): Vars {
    var t1 := Sub(v.a, Add(Sum0(v.b), Maj(v.b, v.c, v.d)));
    var h := Sub(Sub(Sub(Sub(t1, w), k), Ch(v.f, v.g, v.h)), Sum1(v.f));
    Vars(v.b, v.c, v.d, Sub(v.e, t1), v.f, v.g, v.h, h)
  }

  /** Section 6.2.2, step 3: nothing is lost in a step, which is undone in this way. */
  lemma StepIsUndone(v: Vars, k: Word, w: Word)
    ensures StepBack(Step(v, k, w), k, w) == v
  {
    hide Add, Sub, Sum0, Sum1, Ch, Maj;
    var s1 := Add(v.h, Sum1(v.e));
    var s2 := Add(s1, Ch(v.e, v.f, v.g));
    var s3 := Add(s2, k);
    var t1 := Add(s3, w);
    SubAdd(v.h, Sum1(v.e));
    SubAdd(s1, Ch(v.e, v.f, v.g));
    SubAdd(s2, k);
    SubAdd(s3, w);
    SubAdd(t1, Add(Sum0(v.a), Maj(v.a, v.b, v.c)));
    SubAdd(v.d, t1);
  }

  /** Section 6.2.2, step 1: any sixteen words of the schedule in a row give the word before them. */
  lemma ScheduleIsUndone(m: Block, t: nat)
    requires t + 16 < 64
    ensures
      var sum := Add(Add(Sigma1(Schedule(m, t + 14)), Schedule(m, t + 9)), Sigma0(Schedule(m, t + 1)));
      Schedule(m, t) == Sub(Schedule(m, t + 16), sum)
  {
    hide Add, Sub, Sigma0, Sigma1, Pack;
    SubAdd(Schedule(m, t), Add(Add(Sigma1(Schedule(m, t + 14)), Schedule(m, t + 9)), Sigma0(Schedule(m, t + 1))));
  }

  /** Section 6.2.2, step 4: a block adds what its 64 steps make of the hash value to that value. */
  lemma BlockAdds(v: Vars, m: Block)
    ensures
      var w, x := Steps(v, m, 64), Compress(v, m);
      && Vars(Sub(x.a, w.a), Sub(x.b, w.b), Sub(x.c, w.c), Sub(x.d, w.d),
           Sub(x.e, w.e), Sub(x.f, w.f), Sub(x.g, w.g), Sub(x.h, w.h)) == v
  {
    hide Add, Sub, Steps;
    var w := Steps(v, m, 64);
    SubAdd(v.a, w.a);
    SubAdd(v.b, w.b);
    SubAdd(v.c, w.c);
    SubAdd(v.d, w.d);
    SubAdd(v.e, w.e);
    SubAdd(v.f, w.f);
    SubAdd(v.g, w.g);
    SubAdd(v.h, w.h);
  }

  // ----- words and bytes

  /** Bit i of a byte. */
  predicate BitOfByte(b: byte, i: bv6)
    requires i < 8
  {
    IsSet(b as bv32, i)
  }

  /** Section 3.1: the first of the four bytes of a word is the most significant one. */
  lemma PackBits(b: bytes, k: nat, i: bv6)
    requires |b| == 4 && k < 4 && i < 8
    ensures Bit(Pack(b[0], b[1], b[2], b[3]), 8 * (3 - k as bv6) + i) == BitOfByte(b[k], i)
  {
  }

  lemma ByteOfWord(w: bv32, n: bv6, i: bv6)
    requires i < 8 && (n == 0 || n == 8 || n == 16 || n == 24)
    ensures (w >> n) & 0xff < 0x100 && IsSet((w >> n) & 0xff, i) == IsSet(w, n + i)
  {
  }

  lemma ByteValue(v: bv32)
    requires v < 0x100
    ensures v as int < 256 && v as int as bv32 == v
  {
  }

  lemma ByteFromBits(w: bv32, n: bv6, i: bv6)
    requires i < 8 && (n == 0 || n == 8 || n == 16 || n == 24)
    ensures BitOfByte(ByteFrom(w, n), i) == IsSet(w, n + i)
  {
    ByteOfWord(w, n, i);
    hide IsSet;
    ByteValue((w >> n) & 0xff);
  }

  lemma UnpackBits(x: Word, k: nat, i: bv6)
    requires k < 4 && i < 8
    ensures BitOfByte(Unpack(x)[k], i) == Bit(x, 8 * (3 - k as bv6) + i)
  {
    hide IsSet, ByteFrom, BitOfByte;
    ByteFromBits(x.bits, 24, i);
    ByteFromBits(x.bits, 16, i);
    ByteFromBits(x.bits, 8, i);
    ByteFromBits(x.bits, 0, i);
  }

  // ----- padding

  /** The number whose base-256 digits are b, most significant first. */
  function Value(b: bytes): nat {
    if b == [] then 0 else 256 * Value(b[..|b| - 1]) + b[|b| - 1]
  }

  function Power256(n: nat): (p: nat)
    ensures p > 0
  {
    if n == 0 then 1 else 256 * Power256(n - 1)
  }

  lemma RemainderOfProduct(n: nat, p: nat)
    requires p > 0
    ensures n % (256 * p) == 256 * (n / 256 % p) + n % 256
  {
    var q := n / 256 / p;
    assert n / 256 == p * q + n / 256 % p;
    assert n == 256 * (p * q) + 256 * (n / 256 % p) + n % 256;
    assert 256 * (p * q) == 256 * p * q;
    DivModUnique(n, 256 * p, q, 256 * (n / 256 % p) + n % 256);
  }

  lemma {:induction false} BigEndianValue(n: nat, width: nat)
    ensures Value(BigEndian(n, width)) == n % Power256(width)
  {
    if width > 0 {
      var front := BigEndian(n / 256, width - 1);
      BigEndianValue(n / 256, width - 1);
      assert BigEndian(n, width)[..width - 1] == front;
      RemainderOfProduct(n, Power256(width - 1));
    }
  }

  lemma ZerosFill(n: nat)
    ensures ZeroCount(n) < 64 && (n + (9 + ZeroCount(n))) % 64 == 0
  {
  }

  lemma LastEight(s: bytes, z: bytes, l: bytes)
    requires |l| == 8
    ensures (s + z + l)[|s + z + l| - 8..] == l
  {
  }

  /** Section 5.1.1: a bit 1, the least number of bits 0 that fill a block, and the length in 64 bits. */
  lemma PaddingIs(n: nat)
    requires 8 * n < 0x1_0000_0000_0000_0000
    ensures |Padding(n)| < 9 + 64 && (n + |Padding(n)|) % 64 == 0
    ensures Padding(n) == [0x80] + Repeat(0, |Padding(n)| - 9) + Padding(n)[|Padding(n)| - 8..]
    ensures Value(Padding(n)[|Padding(n)| - 8..]) == 8 * n
  {
    hide BigEndian, ZeroCount, Repeat, Value;
    BigEndianValue(8 * n, 8);
    assert Power256(8) == 0x1_0000_0000_0000_0000;
    ZerosFill(n);
    LastEight([0x80], Repeat(0, ZeroCount(n)), BigEndian(8 * n, 8));
  }
}
