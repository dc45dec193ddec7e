// SHA-3 of a byte string, as sections 4, 5.1 and 6.1 and appendix B of FIPS 202
// define it, with bytes read into lanes in little-endian order.
module Sha3Spec {
  import opened Division
  import opened KeccakSpec
  import opened LaneBits

  type Bytes = seq<bv8>

  /** The byte b moved to byte position k of a lane. */
  function Shifted(b: bv8, k: nat): Lane
    requires k < 8
  {
    Lane(Shift(b, k))
  }

  /** Byte k of a lane. */
  function LaneByte(l: Lane, k: nat): bv8
    requires k < 8
  {
    Byte(l.bits, k)
  }

  /** Byte j of p followed by zeros. */
  function ByteOrZero(p: Bytes, j: nat): bv8 {
    if j < |p| then p[j] else 0
  }

  /** The first n bytes of lane i of p followed by zeros. */
  function PartialLane(p: Bytes, i: nat, n: nat): Lane
    requires n <= 8
  {
    if n == 0 then Lane(0) else Xor(PartialLane(p, i, n - 1), Shifted(ByteOrZero(p, 8 * i + n - 1), n - 1))
  }

  /** Lane i of p followed by zeros. */
  function LaneOf(p: Bytes, i: nat): Lane {
    PartialLane(p, i, 8)
  }

  /** The state a xor (p || 0...0). */
  function XorInto(a: Lanes, p: Bytes): Lanes {
    seq(25, i requires 0 <= i < 25 => Xor(a[i], LaneOf(p, i)))
  }

  function ZeroState(): Lanes {
    seq(25, (i: nat) => Lane(0))
  }

  /** n modulo rate. */
  function Rem(rate: nat, n: nat): (r: nat)
    requires rate > 0
    ensures r < rate && r <= n
  {
    if n < rate then n else Rem(rate, n - rate)
  }

  lemma {:induction false} RemIsMod(rate: nat, n: nat)
    requires rate > 0
    ensures Rem(rate, n) == n % rate
  {
    if n >= rate {
      RemIsMod(rate, n - rate);
      ModSub(rate, n);
    }
  }

  /** The absorbing phase of the sponge on a message of whole blocks (Algorithm 8). */
  function Absorb(rate: nat, m: Bytes): Lanes
    requires rate > 0 && Rem(rate, |m|) == 0
  {
    if |m| == 0 then ZeroState()
    else KeccakF(XorInto(Absorb(rate, m[..|m| - rate]), m[|m| - rate..]))
  }

  function Zeros(n: nat): (z: Bytes)
    ensures |z| == n && forall i | 0 <= i < n :: z[i] == 0
  {
    seq(n, (i: nat) => 0 as bv8)
  }

  /** The domain bits 01 and pad10*1 for a message of n bytes, as bytes (table 6). */
  function Padding(rate: nat, n: nat): Bytes
    requires rate > 0
  {
    var q := rate - Rem(rate, n);
    if q == 1 then [0x86] else [0x06] + Zeros(q - 2) + [0x80]
  }

  lemma {:induction false} PaddedLength(rate: nat, n: nat)
    requires rate > 0
    ensures Rem(rate, n + |Padding(rate, n)|) == 0
  {
    if n >= rate {
      PaddedLength(rate, n - rate);
    }
  }

  function StateBytes(a: Lanes): (b: Bytes)
    ensures |b| == 200
  {
    seq(200, j requires 0 <= j < 200 => LaneByte(a[j / 8], j % 8))
  }

  predicate DigestSize(d: nat) {
    d == 224 || d == 256 || d == 384 || d == 512
  }

  /** SHA3-d (section 6.1): the capacity is 2*d bits; d bits fit in one squeezed block. */
  function Sha3(d: nat, m: Bytes): (h: Bytes)
    requires DigestSize(d)
    ensures 8 * |h| == d
  {
    var rate := 200 - d / 4;
    PaddedLength(rate, |m|);
    StateBytes(Absorb(rate, m + Padding(rate, |m|)))[..d / 8]
  }
}
