// SHA-256 as FIPS 180-4 defines it: functions (4.1.2), constants (4.2.2), padding
// (5.1.1), initial value (5.3.3) and hash computation (6.2.2).
module Sha256Spec {
  import opened ByteStrings
  import opened WordBits

  /** A word of 32 bits. */
  datatype Word = Word(bits: bv32)

  function Add(x: Word, y: Word): Word {
    Word(AddWords(x.bits, y.bits))
  }

  function Xor(x: Word, y: Word): Word {
    Word(XorWords(x.bits, y.bits))
  }

  function And(x: Word, y: Word): Word {
    Word(AndWords(x.bits, y.bits))
  }

  function Not(x: Word): Word {
    Word(NotWord(x.bits))
  }

  function Rotr(x: Word, n: bv6): Word
    requires 0 < n < 32
  {
    Word(RotrWord(x.bits, n))
  }

  function Shr(x: Word, n: bv6): Word
    requires n < 32
  {
    Word(ShrWord(x.bits, n))
  }

  function Ch(x: Word, y: Word, z: Word): Word {
    Xor(And(x, y), And(Not(x), z))
  }

  function Maj(x: Word, y: Word, z: Word): Word {
    Xor(Xor(And(x, y), And(x, z)), And(y, z))
  }

  function Sum0(x: Word): Word {
    Xor(Xor(Rotr(x, 2), Rotr(x, 13)), Rotr(x, 22))
  }

  function Sum1(x: Word): Word {
    Xor(Xor(Rotr(x, 6), Rotr(x, 11)), Rotr(x, 25))
  }

  function Sigma0(x: Word): Word {
    Xor(Xor(Rotr(x, 7), Rotr(x, 18)), Shr(x, 3))
  }

  function Sigma1(x: Word): Word {
    Xor(Xor(Rotr(x, 17), Rotr(x, 19)), Shr(x, 10))
  }

  function K(t: nat): Word
    requires t < 64
  {
    match t
    case 0 => Word(0x428a2f98) case 1 => Word(0x71374491) case 2 => Word(0xb5c0fbcf) case 3 => Word(0xe9b5dba5)
    case 4 => Word(0x3956c25b) case 5 => Word(0x59f111f1) case 6 => Word(0x923f82a4) case 7 => Word(0xab1c5ed5)
    case 8 => Word(0xd807aa98) case 9 => Word(0x12835b01) case 10 => Word(0x243185be) case 11 => Word(0x550c7dc3)
    case 12 => Word(0x72be5d74) case 13 => Word(0x80deb1fe) case 14 => Word(0x9bdc06a7) case 15 => Word(0xc19bf174)
    case 16 => Word(0xe49b69c1) case 17 => Word(0xefbe4786) case 18 => Word(0x0fc19dc6) case 19 => Word(0x240ca1cc)
    case 20 => Word(0x2de92c6f) case 21 => Word(0x4a7484aa) case 22 => Word(0x5cb0a9dc) case 23 => Word(0x76f988da)
    case 24 => Word(0x983e5152) case 25 => Word(0xa831c66d) case 26 => Word(0xb00327c8) case 27 => Word(0xbf597fc7)
    case 28 => Word(0xc6e00bf3) case 29 => Word(0xd5a79147) case 30 => Word(0x06ca6351) case 31 => Word(0x14292967)
    case 32 => Word(0x27b70a85) case 33 => Word(0x2e1b2138) case 34 => Word(0x4d2c6dfc) case 35 => Word(0x53380d13)
    case 36 => Word(0x650a7354) case 37 => Word(0x766a0abb) case 38 => Word(0x81c2c92e) case 39 => Word(0x92722c85)
    case 40 => Word(0xa2bfe8a1) case 41 => Word(0xa81a664b) case 42 => Word(0xc24b8b70) case 43 => Word(0xc76c51a3)
    case 44 => Word(0xd192e819) case 45 => Word(0xd6990624) case 46 => Word(0xf40e3585) case 47 => Word(0x106aa070)
    case 48 => Word(0x19a4c116) case 49 => Word(0x1e376c08) case 50 => Word(0x2748774c) case 51 => Word(0x34b0bcb5)
    case 52 => Word(0x391c0cb3) case 53 => Word(0x4ed8aa4a) case 54 => Word(0x5b9cca4f) case 55 => Word(0x682e6ff3)
    case 56 => Word(0x748f82ee) case 57 => Word(0x78a5636f) case 58 => Word(0x84c87814) case 59 => Word(0x8cc70208)
    case 60 => Word(0x90befffa) case 61 => Word(0xa4506ceb) case 62 => Word(0xbef9a3f7) case 63 => Word(0xc67178f2)
  }

  /** The word of four bytes, most significant first. */
  function Pack(b0: byte, b1: byte, b2: byte, b3: byte): Word {
    Word((b3 as bv32) | ((b2 as bv32) << 8) | ((b1 as bv32) << 16) | ((b0 as bv32) << 24))
  }

  /** The byte of a word that starts at bit n. */
  function ByteFrom(w: bv32, n: bv6): byte
    requires n < 32
  {
    ((w >> n) & 0xff) as byte
  }

  /** The four bytes of a word, most significant first. */
  function Unpack(w: Word): (b: bytes)
    ensures |b| == 4
  {
    [ByteFrom(w.bits, 24), ByteFrom(w.bits, 16), ByteFrom(w.bits, 8), ByteFrom(w.bits, 0)]
  }

  // ----- hash computation

  /** The working variables a to h, and the hash value between blocks. */
  datatype Vars = Vars(a: Word, b: Word, c: Word, d: Word, e: Word, f: Word, g: Word, h: Word)

  const INITIAL := Vars(Word(0x6a09e667), Word(0xbb67ae85), Word(0x3c6ef372), Word(0xa54ff53a),
                        Word(0x510e527f), Word(0x9b05688c), Word(0x1f83d9ab), Word(0x5be0cd19))

  type Block = s: bytes | |s| == 64 witness Repeat(0, 64)

  /** The message schedule. */
  function Schedule(m: Block, t: nat): Word
    requires t < 64
  {
    if t < 16 then Pack(m[4 * t], m[4 * t + 1], m[4 * t + 2], m[4 * t + 3])
    else Add(Add(Add(Sigma1(Schedule(m, t - 2)), Schedule(m, t - 7)), Sigma0(Schedule(m, t - 15))), Schedule(m, t - 16))
  }

  function Step(v: Vars, k: Word, w: Word): Vars {
    var t1 := Add(Add(Add(Add(v.h, Sum1(v.e)), Ch(v.e, v.f, v.g)), k), w);
    var t2 := Add(Sum0(v.a), Maj(v.a, v.b, v.c));
    Vars(Add(t1, t2), v.a, v.b, v.c, Add(v.d, t1), v.e, v.f, v.g)
  }

  /** The working variables after t steps on block m. */
  function Steps(v: Vars, m: Block, t: nat): Vars
    requires t <= 64
  {
    if t == 0 then v else Step(Steps(v, m, t - 1), K(t - 1), Schedule(m, t - 1))
  }

  function Compress(v: Vars, m: Block): Vars {
    var w := Steps(v, m, 64);
    Vars(Add(v.a, w.a), Add(v.b, w.b), Add(v.c, w.c), Add(v.d, w.d),
         Add(v.e, w.e), Add(v.f, w.f), Add(v.g, w.g), Add(v.h, w.h))
  }

  /** The hash value after all whole blocks of m. */
  function Blocks(v: Vars, m: bytes): Vars
    decreases |m|
  {
    if |m| < 64 then v else Blocks(Compress(v, m[..64]), m[64..])
  }

  // ----- padding

  function BigEndian(n: nat, width: nat): (b: bytes)
    ensures |b| == width
  {
    if width == 0 then [] else BigEndian(n / 256, width - 1) + [n % 256]
  }

  /** The least number of zero bytes that leave room for the length at the end of a block. */
  function ZeroCount(n: nat): nat {
    if n % 64 <= 55 then 55 - n % 64 else 119 - n % 64
  }

  /** The padding of a message of n bytes. */
  function Padding(n: nat): bytes {
    [0x80] + Repeat(0, ZeroCount(n)) + BigEndian(8 * n, 8)
  }

  function DigestBytes(v: Vars): (b: bytes)
    ensures |b| == 32
  {
    Unpack(v.a) + Unpack(v.b) + Unpack(v.c) + Unpack(v.d) + Unpack(v.e) + Unpack(v.f) + Unpack(v.g) + Unpack(v.h)
  }

  /** SHA-256, for messages of fewer than 2^64 bits. */
  function Sha256(m: bytes): (d: bytes)
    requires |m| < 0x2000_0000_0000_0000
    ensures |d| == 32
  {
    DigestBytes(Blocks(INITIAL, m + Padding(|m|)))
  }
}
