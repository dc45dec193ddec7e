// The bytes of a 64-bit word: byte k holds bits 8*k to 8*k + 7.
module LaneBits {
  /** The byte b moved to byte position k of a word. */
  function Shift(b: bv8, k: nat): bv64
    requires k < 8
  {
    var w := b as bv64;
    match k
    case 0 => w
    case 1 => w << 8
    case 2 => w << 16
    case 3 => w << 24
    case 4 => w << 32
    case 5 => w << 40
    case 6 => w << 48
    case 7 => w << 56
  }

  /** Byte k of a word. */
  function Byte(w: bv64, k: nat): bv8
    requires k < 8
  {
    match k
    case 0 => (w & 0xff) as bv8
    case 1 => ((w >> 8) & 0xff) as bv8
    case 2 => ((w >> 16) & 0xff) as bv8
    case 3 => ((w >> 24) & 0xff) as bv8
    case 4 => ((w >> 32) & 0xff) as bv8
    case 5 => ((w >> 40) & 0xff) as bv8
    case 6 => ((w >> 48) & 0xff) as bv8
    case 7 => (w >> 56) as bv8
  }

  /** The word w with byte k replaced by b. */
  function SetByte(w: bv64, k: nat, b: bv8): bv64
    requires k < 8
  {
    match k
    case 0 => (w & 0xffffffffffffff00) | Shift(b, 0)
    case 1 => (w & 0xffffffffffff00ff) | Shift(b, 1)
    case 2 => (w & 0xffffffffff00ffff) | Shift(b, 2)
    case 3 => (w & 0xffffffff00ffffff) | Shift(b, 3)
    case 4 => (w & 0xffffff00ffffffff) | Shift(b, 4)
    case 5 => (w & 0xffff00ffffffffff) | Shift(b, 5)
    case 6 => (w & 0xff00ffffffffffff) | Shift(b, 6)
    case 7 => (w & 0x00ffffffffffffff) | Shift(b, 7)
  }

  lemma SetThenGet0(w: bv64, b: bv8, j: nat)
    requires j < 8
    ensures Byte(SetByte(w, 0, b), j) == if j == 0 then b else Byte(w, j)
  {
  }

  lemma SetThenGet1(w: bv64, b: bv8, j: nat)
    requires j < 8
    ensures Byte(SetByte(w, 1, b), j) == if j == 1 then b else Byte(w, j)
  {
  }

  lemma SetThenGet2(w: bv64, b: bv8, j: nat)
    requires j < 8
    ensures Byte(SetByte(w, 2, b), j) == if j == 2 then b else Byte(w, j)
  {
    match j
    case 0 =>
    case 1 =>
    case 2 =>
    case 3 =>
    case 4 =>
    case 5 =>
    case 6 =>
    case 7 =>
  }

  lemma SetThenGet3(w: bv64, b: bv8, j: nat)
    requires j < 8
    ensures Byte(SetByte(w, 3, b), j) == if j == 3 then b else Byte(w, j)
  {
    match j
    case 0 =>
    case 1 =>
    case 2 =>
    case 3 =>
    case 4 =>
    case 5 =>
    case 6 =>
    case 7 =>
  }

  lemma SetThenGet4(w: bv64, b: bv8, j: nat)
    requires j < 8
    ensures Byte(SetByte(w, 4, b), j) == if j == 4 then b else Byte(w, j)
  {
    match j
    case 0 =>
    case 1 =>
    case 2 =>
    case 3 =>
    case 4 =>
    case 5 =>
    case 6 =>
    case 7 =>
  }

  lemma SetThenGet5(w: bv64, b: bv8, j: nat)
    requires j < 8
    ensures Byte(SetByte(w, 5, b), j) == if j == 5 then b else Byte(w, j)
  {
    match j
    case 0 =>
    case 1 =>
    case 2 =>
    case 3 =>
    case 4 =>
    case 5 =>
    case 6 =>
    case 7 =>
  }

  lemma SetThenGet6(w: bv64, b: bv8, j: nat)
    requires j < 8
    ensures Byte(SetByte(w, 6, b), j) == if j == 6 then b else Byte(w, j)
  {
    match j
    case 0 =>
    case 1 =>
    case 2 =>
    case 3 =>
    case 4 =>
    case 5 =>
    case 6 =>
    case 7 =>
  }

  lemma SetThenGet7(w: bv64, b: bv8, j: nat)
    requires j < 8
    ensures Byte(SetByte(w, 7, b), j) == if j == 7 then b else Byte(w, j)
  {
    match j
    case 0 =>
    case 1 =>
    case 2 =>
    case 3 =>
    case 4 =>
    case 5 =>
    case 6 =>
    case 7 =>
  }

  lemma SetThenGet(w: bv64, k: nat, b: bv8, j: nat)
    requires k < 8 && j < 8
    ensures Byte(SetByte(w, k, b), j) == if j == k then b else Byte(w, j)
  {
    hide Byte, SetByte;
    match k
    case 0 => SetThenGet0(w, b, j);
    case 1 => SetThenGet1(w, b, j);
    case 2 => SetThenGet2(w, b, j);
    case 3 => SetThenGet3(w, b, j);
    case 4 => SetThenGet4(w, b, j);
    case 5 => SetThenGet5(w, b, j);
    case 6 => SetThenGet6(w, b, j);
    case 7 => SetThenGet7(w, b, j);
  }

  function XorBits(a: bv64, b: bv64): bv64 {
    a ^ b
  }

  function AndNotBits(a: bv64, b: bv64): bv64 {
    !a & b
  }

  /** The word w turned by n places towards the higher positions. */
  function RolBits(w: bv64, n: bv7): bv64
    requires 0 < n < 64
  {
    (w << n) | (w >> (64 - n))
  }

  lemma XorLaws(a: bv64, b: bv64, c: bv64)
    ensures XorBits(XorBits(a, b), c) == XorBits(a, XorBits(b, c)) && XorBits(a, 0) == a && XorBits(0, a) == a
  {
  }

  lemma ShiftZero(k: nat)
    requires k < 8
    ensures Shift(0, k) == 0
  {
  }

  function OrBits(a: bv64, b: bv64): bv64 {
    a | b
  }

  /** Eight bytes in little-endian order put together by "or". */
  function OrOfBytes(b0: bv8, b1: bv8, b2: bv8, b3: bv8, b4: bv8, b5: bv8, b6: bv8, b7: bv8): bv64 {
    OrBits(OrBits(OrBits(OrBits(OrBits(OrBits(OrBits(Shift(b0, 0),
      Shift(b1, 1)), Shift(b2, 2)), Shift(b3, 3)), Shift(b4, 4)), Shift(b5, 5)), Shift(b6, 6)), Shift(b7, 7))
  }

  /** Eight bytes in little-endian order put together by "exclusive or". */
  function XorOfBytes(b0: bv8, b1: bv8, b2: bv8, b3: bv8, b4: bv8, b5: bv8, b6: bv8, b7: bv8): bv64 {
    XorBits(XorBits(XorBits(XorBits(XorBits(XorBits(XorBits(Shift(b0, 0),
      Shift(b1, 1)), Shift(b2, 2)), Shift(b3, 3)), Shift(b4, 4)), Shift(b5, 5)), Shift(b6, 6)), Shift(b7, 7))
  }

  lemma OrOfDisjoint(w: bv64, s: bv64)
    requires w & s == 0
    ensures w | s == w ^ s
  {
  }

  lemma OrIsXorBits(w: bv64, s: bv64)
    requires w & s == 0
    ensures OrBits(w, s) == w | s && OrBits(w, s) == XorBits(w, s)
  {
    OrOfDisjoint(w, s);
    assert XorBits(w, s) == w ^ s;
    assert OrBits(w, s) == w | s;
  }

  // A next byte goes where the bytes so far leave zeros.

  lemma Disjoint1(w: bv64, b: bv8)
    requires w < 0x100
    ensures w & Shift(b, 1) == 0 && w | Shift(b, 1) < 0x1_0000
  {
  }

  lemma Disjoint2(w: bv64, b: bv8)
    requires w < 0x1_0000
    ensures w & Shift(b, 2) == 0 && w | Shift(b, 2) < 0x100_0000
  {
  }

  lemma Disjoint3(w: bv64, b: bv8)
    requires w < 0x100_0000
    ensures w & Shift(b, 3) == 0 && w | Shift(b, 3) < 0x1_0000_0000
  {
  }

  lemma Disjoint4(w: bv64, b: bv8)
    requires w < 0x1_0000_0000
    ensures w & Shift(b, 4) == 0 && w | Shift(b, 4) < 0x100_0000_0000
  {
  }

  lemma Disjoint5(w: bv64, b: bv8)
    requires w < 0x100_0000_0000
    ensures w & Shift(b, 5) == 0 && w | Shift(b, 5) < 0x1_0000_0000_0000
  {
  }

  lemma Disjoint6(w: bv64, b: bv8)
    requires w < 0x1_0000_0000_0000
    ensures w & Shift(b, 6) == 0 && w | Shift(b, 6) < 0x100_0000_0000_0000
  {
  }

  lemma Disjoint7(w: bv64, b: bv8)
    requires w < 0x100_0000_0000_0000
    ensures w & Shift(b, 7) == 0
  {
  }

  lemma FirstByte(b: bv8)
    ensures Shift(b, 0) < 0x100
  {
  }

  /** Eight bytes in little-endian order make the same word by "or" and by "exclusive or". */
  lemma OrIsXor(b0: bv8, b1: bv8, b2: bv8, b3: bv8, b4: bv8, b5: bv8, b6: bv8, b7: bv8)
    ensures OrOfBytes(b0, b1, b2, b3, b4, b5, b6, b7) == XorOfBytes(b0, b1, b2, b3, b4, b5, b6, b7)
  {
    hide Shift, XorBits, OrBits;
    FirstByte(b0);
    var w0 := Shift(b0, 0);
    Disjoint1(w0, b1); OrIsXorBits(w0, Shift(b1, 1));
    var w1 := OrBits(w0, Shift(b1, 1));
    Disjoint2(w1, b2); OrIsXorBits(w1, Shift(b2, 2));
    var w2 := OrBits(w1, Shift(b2, 2));
    Disjoint3(w2, b3); OrIsXorBits(w2, Shift(b3, 3));
    var w3 := OrBits(w2, Shift(b3, 3));
    Disjoint4(w3, b4); OrIsXorBits(w3, Shift(b4, 4));
    var w4 := OrBits(w3, Shift(b4, 4));
    Disjoint5(w4, b5); OrIsXorBits(w4, Shift(b5, 5));
    var w5 := OrBits(w4, Shift(b5, 5));
    Disjoint6(w5, b6); OrIsXorBits(w5, Shift(b6, 6));
    var w6 := OrBits(w5, Shift(b6, 6));
    Disjoint7(w6, b7); OrIsXorBits(w6, Shift(b7, 7));
  }

  // ----- single bits

  /** Bit z of a word, the one of weight 2^z. */
  predicate IsSet(w: bv64, z: bv7)
    requires z < 64
  {
    (w >> z) & 1 == 1
  }

  predicate SameBit(v: bv64, k: bv7, w: bv64, z: bv7)
    requires k < 64 && z < 64
  {
    (v >> k) & 1 == (w >> z) & 1
  }

  lemma SameBitSet(v: bv64, k: bv7, w: bv64, z: bv7)
    requires k < 64 && z < 64 && SameBit(v, k, w, z)
    ensures IsSet(v, k) == IsSet(w, z)
  {
  }

  lemma HigherBit(w: bv64, n: bv7, z: bv7)
    requires 0 < n < 64 && z < 64 && z + n < 64
    ensures SameBit((w << n) | (w >> (64 - n)), z + n, w, z)
  {
    assert (((w << n) | (w >> (64 - n))) >> (z + n)) & 1 == (w >> z) & 1;
  }

  lemma LowerBit(w: bv64, n: bv7, z: bv7)
    requires 0 < n < 64 && 64 - n <= z < 64
    ensures SameBit((w << n) | (w >> (64 - n)), z - (64 - n), w, z)
  {
    assert (((w << n) | (w >> (64 - n))) >> (z - (64 - n))) & 1 == (w >> z) & 1;
  }

  lemma RolBitsAt(w: bv64, n: bv7, z: bv7)
    requires 0 < n < 64 && z < 64
    ensures IsSet(RolBits(w, n), (z + n) % 64) == IsSet(w, z)
  {
    hide IsSet, SameBit;
    TurnedPosition(n, z);
    if z + n < 64 {
      HigherBit(w, n, z);
    } else {
      LowerBit(w, n, z);
    }
    SameBitSet(RolBits(w, n), (z + n) % 64, w, z);
  }

  lemma TurnedPosition(n: bv7, z: bv7)
    requires n < 64 && z < 64
    ensures (z + n) % 64 == if z + n < 64 then z + n else z - (64 - n)
  {
  }

  lemma BitsOfXor(a: bv64, b: bv64, z: bv7)
    requires z < 64
    ensures IsSet(a ^ b, z) == (IsSet(a, z) != IsSet(b, z))
  {
  }

  lemma XorBitsAt(a: bv64, b: bv64, z: bv7)
    requires z < 64
    ensures IsSet(XorBits(a, b), z) == (IsSet(a, z) != IsSet(b, z))
  {
    hide IsSet;
    BitsOfXor(a, b, z);
  }

  lemma BitsOfAndNot(a: bv64, b: bv64, z: bv7)
    requires z < 64
    ensures IsSet(!a & b, z) == (!IsSet(a, z) && IsSet(b, z))
  {
  }

  lemma AndNotBitsAt(a: bv64, b: bv64, z: bv7)
    requires z < 64
    ensures IsSet(AndNotBits(a, b), z) == (!IsSet(a, z) && IsSet(b, z))
  {
    hide IsSet;
    BitsOfAndNot(a, b, z);
  }
}
