// SHA3Init, SHA3Update and SHA3Final on the little-endian build, where the 25
// lanes and the bytes u.x[] are the same memory.
module Sha3 {
  import opened KeccakSpec
  import opened Keccak
  import opened LaneBits
  import opened Sha3Spec

  /** The 8-byte little-endian load *(u64*)&d[i]. */
  function LoadWord(d: Bytes, i: nat): Lane
    requires i + 8 <= |d|
  {
    Lane(OrOfBytes(d[i], d[i + 1], d[i + 2], d[i + 3], d[i + 4], d[i + 5], d[i + 6], d[i + 7]))
  }

  lemma SameWord(d: Bytes, i: nat)
    requires i + 8 <= |d|
    ensures LoadWord(d, i) == LoadWord(d[i..i + 8], 0)
  {
    hide OrOfBytes;
  }

  lemma XorLaneLaws(a: Lane, b: Lane, c: Lane)
    ensures Xor(Xor(a, b), c) == Xor(a, Xor(b, c)) && Xor(a, Lane(0)) == a && Xor(Lane(0), a) == a
  {
    hide XorBits;
    XorLaws(a.bits, b.bits, c.bits);
  }

  // ----- how the block being filled grows

  /** Lane i looks only at the bytes 8*i to 8*i + n - 1. */
  lemma {:induction false} SameBytesSameLane(p: Bytes, q: Bytes, i: nat, n: nat)
    requires n <= 8 && forall j | 8 * i <= j < 8 * i + n :: ByteOrZero(p, j) == ByteOrZero(q, j)
    ensures PartialLane(p, i, n) == PartialLane(q, i, n)
  {
    if n > 0 {
      SameBytesSameLane(p, q, i, n - 1);
    }
  }

  lemma {:induction false} ZeroBytesZeroLane(p: Bytes, i: nat, n: nat)
    requires n <= 8 && forall j | 8 * i <= j < 8 * i + n :: ByteOrZero(p, j) == 0
    ensures PartialLane(p, i, n) == Lane(0)
  {
    hide Shifted, Xor;
    if n > 0 {
      ZeroBytesZeroLane(p, i, n - 1);
      ShiftedZero(n - 1);
      XorLaneLaws(Lane(0), Lane(0), Lane(0));
    }
  }

  lemma ShiftedZero(k: nat)
    requires k < 8
    ensures Shifted(0, k) == Lane(0)
  {
    ShiftZero(k);
  }

  /** Zeros at the end of a block change nothing. */
  lemma ZerosAreNeutral(a: Lanes, p: Bytes, z: nat)
    ensures XorInto(a, p + Zeros(z)) == XorInto(a, p)
  {
    forall i | 0 <= i < 25 ensures LaneOf(p + Zeros(z), i) == LaneOf(p, i) {
      SameBytesSameLane(p + Zeros(z), p, i, 8);
    }
  }

  lemma EmptyIsNeutral(a: Lanes)
    ensures XorInto(a, []) == a
  {
    hide Xor;
    forall i | 0 <= i < 25 ensures Xor(a[i], LaneOf([], i)) == a[i] {
      ZeroBytesZeroLane([], i, 8);
      XorLaneLaws(a[i], a[i], a[i]);
    }
  }

  /** Lane i with one more byte: the byte is xored in at its place. */
  lemma {:induction false} LaneWithByte(p: Bytes, b: bv8, i: nat, n: nat)
    requires n <= 8
    requires 8 * i <= |p| < 8 * i + 8
    ensures PartialLane(p + [b], i, n) ==
      if |p| < 8 * i + n then Xor(PartialLane(p, i, n), Shifted(b, |p| - 8 * i)) else PartialLane(p, i, n)
  {
    hide Xor, Shifted;
    if n > 0 {
      LaneWithByte(p, b, i, n - 1);
      var k := |p| - 8 * i;
      var l, m := PartialLane(p, i, n - 1), Shifted(ByteOrZero(p, 8 * i + n - 1), n - 1);
      if k == n - 1 {
        ShiftedZero(k);
        XorLaneLaws(l, m, m);
      } else if k < n - 1 {
        ShiftedZero(n - 1);
        XorLaneLaws(l, m, m);
        XorLaneLaws(Xor(l, Shifted(b, k)), m, m);
      }
    }
  }

  /** u.x[|p|] ^= b carries a xor p to a xor (p + [b]). */
  lemma ByteIntoBlock(a: Lanes, p: Bytes, b: bv8)
    requires |p| < 200
    ensures var i := |p| / 8; XorInto(a, p + [b]) == XorInto(a, p)[i := Xor(XorInto(a, p)[i], Shifted(b, |p| % 8))]
  {
    hide Xor, Shifted;
    forall i | 0 <= i < 25
      ensures Xor(a[i], LaneOf(p + [b], i)) ==
        if i == |p| / 8 then Xor(Xor(a[i], LaneOf(p, i)), Shifted(b, |p| % 8)) else Xor(a[i], LaneOf(p, i))
    {
      if i == |p| / 8 {
        LaneWithByte(p, b, i, 8);
        XorLaneLaws(a[i], LaneOf(p, i), Shifted(b, |p| % 8));
      } else {
        SameBytesSameLane(p + [b], p, i, 8);
      }
    }
  }

  lemma UnrolledLane(p: Bytes, i: nat)
    ensures LaneOf(p, i).bits == XorOfBytes(ByteOrZero(p, 8 * i), ByteOrZero(p, 8 * i + 1), ByteOrZero(p, 8 * i + 2),
      ByteOrZero(p, 8 * i + 3), ByteOrZero(p, 8 * i + 4), ByteOrZero(p, 8 * i + 5), ByteOrZero(p, 8 * i + 6),
      ByteOrZero(p, 8 * i + 7))
  {
    XorLaws(Shift(ByteOrZero(p, 8 * i), 0), 0, 0);
    hide Shift, XorBits, ByteOrZero;
    assert PartialLane(p, i, 1).bits == XorBits(PartialLane(p, i, 0).bits, Shift(ByteOrZero(p, 8 * i), 0));
    assert PartialLane(p, i, 2).bits == XorBits(PartialLane(p, i, 1).bits, Shift(ByteOrZero(p, 8 * i + 1), 1));
    assert PartialLane(p, i, 3).bits == XorBits(PartialLane(p, i, 2).bits, Shift(ByteOrZero(p, 8 * i + 2), 2));
    assert PartialLane(p, i, 4).bits == XorBits(PartialLane(p, i, 3).bits, Shift(ByteOrZero(p, 8 * i + 3), 3));
    assert PartialLane(p, i, 5).bits == XorBits(PartialLane(p, i, 4).bits, Shift(ByteOrZero(p, 8 * i + 4), 4));
    assert PartialLane(p, i, 6).bits == XorBits(PartialLane(p, i, 5).bits, Shift(ByteOrZero(p, 8 * i + 5), 5));
    assert PartialLane(p, i, 7).bits == XorBits(PartialLane(p, i, 6).bits, Shift(ByteOrZero(p, 8 * i + 6), 6));
    assert PartialLane(p, i, 8).bits == XorBits(PartialLane(p, i, 7).bits, Shift(ByteOrZero(p, 8 * i + 7), 7));
  }

  /** Lane i of p + d is the word of the eight bytes d when d starts at byte 8*i. */
  lemma WordLane(p: Bytes, d: Bytes, i: nat)
    requires |d| == 8 && |p| == 8 * i
    ensures LaneOf(p + d, i) == LoadWord(d, 0)
  {
    UnrolledLane(p + d, i);
    OrIsXor(d[0], d[1], d[2], d[3], d[4], d[5], d[6], d[7]);
    hide XorOfBytes, OrOfBytes, LaneOf;
    assert forall k: nat | k < 8 :: ByteOrZero(p + d, 8 * i + k) == d[k];
  }

  /** u.s[|p|/8] ^= word carries a xor p to a xor (p + d). */
  lemma WordIntoBlock(a: Lanes, p: Bytes, d: Bytes)
    requires |p| % 8 == 0 && |p| + 8 <= 200 && |d| == 8
    ensures var i := |p| / 8; XorInto(a, p + d) == XorInto(a, p)[i := Xor(XorInto(a, p)[i], LoadWord(d, 0))]
  {
    hide Xor, LoadWord;
    forall i | 0 <= i < 25
      ensures Xor(a[i], LaneOf(p + d, i)) ==
        if i == |p| / 8 then Xor(Xor(a[i], LaneOf(p, i)), LoadWord(d, 0)) else Xor(a[i], LaneOf(p, i))
    {
      if i == |p| / 8 {
        WordLane(p, d, i);
        ZeroBytesZeroLane(p, i, 8);
        XorLaneLaws(a[i], a[i], a[i]);
      } else {
        SameBytesSameLane(p + d, p, i, 8);
      }
    }
  }

  // ----- the state after absorbing a message that need not end a block

  function Absorbing(rate: nat, m: Bytes): Lanes
    requires rate > 0
  {
    var n := |m| - Rem(rate, |m|);
    RemOfWhole(rate, |m|);
    XorInto(Absorb(rate, m[..n]), m[n..])
  }

  lemma {:induction false} RemOfWhole(rate: nat, n: nat)
    requires rate > 0
    ensures Rem(rate, n - Rem(rate, n)) == 0
  {
    if n >= rate {
      RemOfWhole(rate, n - rate);
      assert Rem(rate, n) == Rem(rate, n - rate);
    }
  }

  lemma {:induction false} RemOfSum(rate: nat, n: nat, k: nat)
    requires rate > 0 && Rem(rate, n) + k <= rate
    ensures Rem(rate, n + k) == if Rem(rate, n) + k < rate then Rem(rate, n) + k else 0
  {
    if n >= rate {
      RemOfSum(rate, n - rate, k);
    }
  }

  lemma AbsorbLast(rate: nat, m: Bytes)
    requires rate > 0 && |m| > 0 && Rem(rate, |m|) == 0
    ensures |m| >= rate && Rem(rate, |m| - rate) == 0
    ensures Absorb(rate, m) == KeccakF(XorInto(Absorb(rate, m[..|m| - rate]), m[|m| - rate..]))
  {
    hide KeccakF, XorInto;
  }

  /** More bytes within one block, which may fill it. */
  lemma AbsorbMore(rate: nat, m: Bytes, d: Bytes)
    requires rate > 0 && 0 < |d| && Rem(rate, |m|) + |d| <= rate
    ensures
      var n := |m| - Rem(rate, |m|);
      && Rem(rate, n) == 0
      && var filled := XorInto(Absorb(rate, m[..n]), m[n..] + d);
         Absorbing(rate, m + d) == if Rem(rate, |m|) + |d| < rate then filled else KeccakF(filled)
  {
    hide KeccakF, XorInto, Absorb, Rem;
    RemOfSum(rate, |m|, |d|);
    RemOfWhole(rate, |m|);
    var n := |m| - Rem(rate, |m|);
    var md := m + d;
    assert md[..n] == m[..n] && md[n..] == m[n..] + d;
    if Rem(rate, |m|) + |d| == rate {
      assert md[..|md|] == md && md[|md|..] == [];
      AbsorbLast(rate, md);
      EmptyIsNeutral(Absorb(rate, md));
    }
  }

  /** One step of the byte loop on the state. */
  lemma AbsorbByte(rate: nat, m: Bytes, b: bv8)
    requires 0 < rate <= 200
    ensures
      var r, a := Rem(rate, |m|), Absorbing(rate, m);
      var t := a[r / 8 := Xor(a[r / 8], Shifted(b, r % 8))];
      && Rem(rate, |m + [b]|) == (if r + 1 == rate then 0 else r + 1)
      && Absorbing(rate, m + [b]) == if r + 1 == rate then KeccakF(t) else t
  {
    hide KeccakF, XorInto, Absorb, Rem, Xor, Shifted;
    RemOfSum(rate, |m|, 1);
    AbsorbMore(rate, m, [b]);
    var n := |m| - Rem(rate, |m|);
    ByteIntoBlock(Absorb(rate, m[..n]), m[n..], b);
  }

  /** One step of the word loop on the state. */
  lemma AbsorbWord(rate: nat, m: Bytes, d: Bytes)
    requires 0 < rate <= 200 && rate % 8 == 0 && Rem(rate, |m|) % 8 == 0 && |d| == 8
    ensures
      var r, a := Rem(rate, |m|), Absorbing(rate, m);
      var t := a[r / 8 := Xor(a[r / 8], LoadWord(d, 0))];
      && Rem(rate, |m + d|) == (if r + 8 == rate then 0 else r + 8)
      && Absorbing(rate, m + d) == if r + 8 == rate then KeccakF(t) else t
  {
    hide KeccakF, XorInto, Absorb, Rem, Xor, LoadWord;
    RemOfSum(rate, |m|, 8);
    AbsorbMore(rate, m, d);
    var n := |m| - Rem(rate, |m|);
    WordIntoBlock(Absorb(rate, m[..n]), m[n..], d);
  }

  class SHA3Context {
    const s: array<Lane>     // the union u as 200 words; the first 25 are the state
    var nRate: nat
    var nLoaded: nat
    ghost var absorbed: Bytes

    ghost predicate Valid()
      reads this, s
    {
      && s.Length == 200
      && 0 < nRate <= 200 && nRate % 8 == 0
      && nLoaded == Rem(nRate, |absorbed|)
      && s[..25] == Absorbing(nRate, absorbed)
    }

    /** SHA3Init. */
    constructor (iSize: int)
      ensures Valid() && fresh(s) && absorbed == []
      ensures nRate == if 128 <= iSize <= 512 then 200 - 8 * ((iSize + 31) / 32) else 136
    {
      s := new Lane[200](_ => Lane(0));
      if 128 <= iSize <= 512 {
        nRate := (1600 - (iSize + 31) / 32 * 32 * 2) / 8;
      } else {
        nRate := (1600 - 2 * 256) / 8;
      }
      nLoaded := 0;
      absorbed := [];
      new;
      assert s[..25] == ZeroState();
      EmptyIsNeutral(ZeroState());
    }

    /** SHA3Update; aligned says whether the address of aData is a multiple of 8. */
    method SHA3Update(aData: Bytes, aligned: bool)
      requires Valid() && |aData| + 7 < 0x1_0000_0000
      modifies this`nLoaded, this`absorbed, s
      ensures Valid() && absorbed == old(absorbed) + aData
    {
      hide Absorbing, Rem;
      var i := 0;
      if nLoaded % 8 == 0 && aligned {
        while i + 7 < |aData|
          invariant 0 <= i <= |aData| && Valid() && nLoaded % 8 == 0
          invariant absorbed == old(absorbed) + aData[..i]
        {
          XorWord(aData, i);
          i := i + 8;
        }
      }
      while i < |aData|
        invariant 0 <= i <= |aData| && Valid()
        invariant absorbed == old(absorbed) + aData[..i]
      {
        XorByte(aData[i]);
        i := i + 1;
      }
    }

    /** The body of the word loop. */
    method XorWord(aData: Bytes, i: nat)
      requires Valid() && nLoaded % 8 == 0 && i + 8 <= |aData|
      modifies this`nLoaded, this`absorbed, s
      ensures Valid() && nLoaded % 8 == 0 && absorbed == old(absorbed) + aData[i..i + 8]
    {
      hide KeccakF, Rem, Absorbing, Xor, LoadWord;
      ghost var d := aData[i..i + 8];
      AbsorbWord(nRate, absorbed, d);
      assert LoadWord(aData, i) == LoadWord(d, 0) by { SameWord(aData, i); }
      ghost var a: Lanes := s[..25];
      s[nLoaded / 8] := Xor(s[nLoaded / 8], LoadWord(aData, i));
      assert s[..25] == a[nLoaded / 8 := s[nLoaded / 8]];
      nLoaded := nLoaded + 8;
      if nLoaded >= nRate {
        KeccakF1600Step(s);
        nLoaded := 0;
      }
      absorbed := absorbed + d;
    }

    /** The body of the byte loop. */
    method XorByte(b: bv8)
      requires Valid()
      modifies this`nLoaded, this`absorbed, s
      ensures Valid() && absorbed == old(absorbed) + [b]
    {
      hide KeccakF, Rem, Absorbing, Xor, Shifted;
      AbsorbByte(nRate, absorbed, b);
      ghost var a: Lanes := s[..25];
      s[nLoaded / 8] := Xor(s[nLoaded / 8], Shifted(b, nLoaded % 8));
      assert s[..25] == a[nLoaded / 8 := s[nLoaded / 8]];
      nLoaded := nLoaded + 1;
      if nLoaded == nRate {
        KeccakF1600Step(s);
        nLoaded := 0;
      }
      absorbed := absorbed + [b];
    }

    /** Byte j of u.x[]. */
    function X(j: nat): bv8
      requires s.Length == 200 && j < 1600
      reads this, s
    {
      LaneByte(s[j / 8], j % 8)
    }

    /** The bytes u.x[from] to u.x[from + n - 1]. */
    function XBytes(from: nat, n: nat): Bytes
      requires s.Length == 200 && from + n <= 1600
      reads this, s
    {
      seq(n, (j: nat) requires j < n reads this, s => X(from + j))
    }

    /** SHA3Final: the position in u.x[] at which the digest starts. */
    method SHA3Final() returns (at: nat)
      requires Valid()
      modifies this, s
      ensures s.Length == 200 && at <= 200
      ensures forall d: nat | DigestSize(d) && old(nRate) == 200 - d / 4 :: XBytes(at, d / 8) == Sha3(d, old(absorbed))
    {
      hide Absorbing, Rem, Padding, Absorb, LaneByte;
      ghost var m := absorbed;
      Pad();
      PaddedLength(nRate, |m|);
      FinishedBlocks(nRate, absorbed);
      CopyOut();
      at := nRate;
      forall d: nat | DigestSize(d) && nRate == 200 - d / 4 ensures XBytes(at, d / 8) == Sha3(d, m) {
        assert XBytes(at, d / 8) == XBytes(at, nRate)[..d / 8];
      }
    }

    /** The padding that SHA3Final adds. */
    method Pad()
      requires Valid()
      modifies this`nLoaded, this`absorbed, s
      ensures Valid() && absorbed == old(absorbed) + Padding(nRate, |old(absorbed)|)
    {
      hide Absorbing, Rem;
      if nLoaded == nRate - 1 {
        SHA3Update([0x86], false);
      } else {
        RemOfSum(nRate, |absorbed|, 1);
        SHA3Update([0x06], false);
        ghost var z := nRate - 1 - nLoaded;
        PadWithZeros(nRate, absorbed, z);
        nLoaded := nRate - 1;
        absorbed := absorbed + Zeros(z);
        SHA3Update([0x80], false);
      }
    }

    /** The loop u.x[i + nRate] = u.x[i]. */
    method CopyOut()
      requires s.Length == 200 && 0 < nRate <= 200 && nRate % 8 == 0
      modifies s
      ensures XBytes(nRate, nRate) == old(XBytes(0, nRate))
    {
      var i := 0;
      while i < nRate
        invariant 0 <= i <= nRate
        invariant s[..nRate / 8] == old(s[..nRate / 8])
        invariant forall j: nat | j < i :: X(nRate + j) == old(X(j))
      {
        CopyByte(i);
        i := i + 1;
      }
    }

    method CopyByte(i: nat)
      requires s.Length == 200 && i < nRate <= 200 && nRate % 8 == 0
      modifies s
      ensures s[..nRate / 8] == old(s[..nRate / 8])
      ensures X(nRate + i) == old(X(i))
      ensures forall j: nat | j < 1600 && j != nRate + i :: X(j) == old(X(j))
    {
      hide Byte, SetByte;
      var b := X(i);
      var w, k := (i + nRate) / 8, (i + nRate) % 8;
      forall j: nat | j < 8
        ensures LaneByte(Lane(SetByte(s[w].bits, k, b)), j) == if j == k then b else LaneByte(s[w], j)
      {
        SetThenGet(s[w].bits, k, b, j);
      }
      s[w] := Lane(SetByte(s[w].bits, k, b));
    }
  }

  lemma PadWithZeros(rate: nat, m: Bytes, z: nat)
    requires rate > 0 && Rem(rate, |m|) + z < rate
    ensures Absorbing(rate, m + Zeros(z)) == Absorbing(rate, m)
    ensures Rem(rate, |m + Zeros(z)|) == Rem(rate, |m|) + z
  {
    hide KeccakF, XorInto, Absorb, Rem, Zeros;
    RemOfSum(rate, |m|, z);
    if z == 0 {
      assert m + Zeros(0) == m;
    } else {
      AbsorbMore(rate, m, Zeros(z));
      var n := |m| - Rem(rate, |m|);
      ZerosAreNeutral(Absorb(rate, m[..n]), m[n..], z);
    }
  }

  lemma FinishedBlocks(rate: nat, m: Bytes)
    requires rate > 0 && Rem(rate, |m|) == 0
    ensures Absorbing(rate, m) == Absorb(rate, m)
  {
    assert m[..|m|] == m && m[|m|..] == [];
    EmptyIsNeutral(Absorb(rate, m));
  }
}
