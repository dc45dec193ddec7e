// The bytes of SHA-3 as strings of bits: appendix B.1 of FIPS 202 numbers the bits of a
// byte from the lowest, and section 3.1.2 puts bit z of lane i at place 64 * i + z.
module Sha3Bits {
  import opened KeccakSpec
  import opened LaneBits
  import opened Sha3Spec

  predicate BitOfByte(b: bv8, i: bv7)
    requires i < 8
  {
    (b >> i) & 1 == 1
  }

  /** Bit i of byte j of a byte string, 0 past its end. */
  predicate StringBit(s: Bytes, j: nat, i: bv7)
    requires i < 8
  {
    j < |s| && BitOfByte(s[j], i)
  }

  /** Byte k of a word holds its bits 8 * k to 8 * k + 7. */
  lemma ByteBits(w: bv64, k: nat, i: bv7)
    requires k < 8 && i < 8
    ensures BitOfByte(Byte(w, k), i) == IsSet(w, 8 * (k as bv7) + i)
  {
    match k
    case 0 =>
    case 1 =>
    case 2 =>
    case 3 =>
    case 4 =>
    case 5 =>
    case 6 =>
    case 7 =>
  }

  lemma ShiftBits(b: bv8, k: nat, j: nat, i: bv7)
    requires k < 8 && j < 8 && i < 8
    ensures IsSet(Shift(b, k), 8 * (j as bv7) + i) == (j == k && BitOfByte(b, i))
  {
    match k
    case 0 =>
    case 1 =>
    case 2 =>
    case 3 =>
    case 4 =>
    case 5 =>
    case 6 =>
    case 7 =>
  }

  lemma ZeroBits(i: bv7)
    requires i < 64
    ensures !IsSet(0, i) && (i < 8 ==> !BitOfByte(0, i))
  {
  }

  /** The state before the first block is zero. */
  lemma InitialBits(l: nat, z: bv7)
    requires l < 25 && z < 64
    ensures !IsSet(ZeroState()[l].bits, z)
  {
    ZeroBits(z);
  }

  lemma PositionInLane(k: nat, i: bv7)
    requires k < 8 && i < 8
    ensures 8 * (k as bv7) + i < 64
  {
  }

  lemma {:induction false} PartialLaneBits(p: Bytes, l: nat, n: nat, k: nat, i: bv7)
    requires n <= 8 && k < 8 && i < 8
    ensures IsSet(PartialLane(p, l, n).bits, 8 * (k as bv7) + i) == (k < n && StringBit(p, 8 * l + k, i))
  {
    hide IsSet, BitOfByte, Byte, Shift, XorBits;
    PositionInLane(k, i);
    ZeroBits(i);
    ZeroBits(8 * (k as bv7) + i);
    if n > 0 {
      PartialLaneBits(p, l, n - 1, k, i);
      var b := ByteOrZero(p, 8 * l + n - 1);
      ShiftBits(b, n - 1, k, i);
      XorBitsAt(PartialLane(p, l, n - 1).bits, Shift(b, n - 1), 8 * (k as bv7) + i);
    }
  }

  /** Absorbing adds the block to the state bit by bit: place 64 * l + 8 * k + i of the state and of the block. */
  lemma AbsorbedBits(a: Lanes, p: Bytes, l: nat, k: nat, i: bv7)
    requires l < 25 && k < 8 && i < 8
    ensures IsSet(XorInto(a, p)[l].bits, 8 * (k as bv7) + i)
         == (IsSet(a[l].bits, 8 * (k as bv7) + i) != StringBit(p, 8 * l + k, i))
  {
    hide IsSet, BitOfByte, Byte, Shift, XorBits, PartialLane;
    PositionInLane(k, i);
    PartialLaneBits(p, l, 8, k, i);
    XorBitsAt(a[l].bits, LaneOf(p, l).bits, 8 * (k as bv7) + i);
  }

  /** The state as a byte string has bit 8 * k + i of lane l at bit i of byte 8 * l + k. */
  lemma SqueezedBits(a: Lanes, l: nat, k: nat, i: bv7)
    requires l < 25 && k < 8 && i < 8
    ensures StringBit(StateBytes(a), 8 * l + k, i) == IsSet(a[l].bits, 8 * (k as bv7) + i)
  {
    hide IsSet, BitOfByte, Byte;
    ByteBits(a[l].bits, k, i);
    assert (8 * l + k) / 8 == l && (8 * l + k) % 8 == k;
  }

  /** Section 6.1 and Algorithm 9: the bits 01 and then 1, zeros and 1, to a multiple of the rate. */
  lemma PaddingBits(rate: nat, n: nat, j: nat, i: bv7)
    requires rate > 0 && i < 8
    ensures 1 <= |Padding(rate, n)| <= rate && (n + |Padding(rate, n)|) % rate == 0
    ensures StringBit(Padding(rate, n), j, i)
       <==> (j == 0 && (i == 1 || i == 2)) || (j == |Padding(rate, n)| - 1 && i == 7)
  {
    PaddedLength(rate, n);
    RemIsMod(rate, n + |Padding(rate, n)|);
    LastBytes(i);
    hide BitOfByte;
  }

  lemma LastBytes(i: bv7)
    requires i < 8
    ensures BitOfByte(0x86, i) == (i == 1 || i == 2 || i == 7) && BitOfByte(0x80, i) == (i == 7)
    ensures BitOfByte(0x06, i) == (i == 1 || i == 2) && !BitOfByte(0, i)
  {
  }
}
