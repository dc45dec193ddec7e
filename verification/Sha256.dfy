// The streaming class SHA256: a block buffer, a 32-bit byte count, and padding of
// one or two blocks.
module Sha256 {
  import opened ByteStrings
  import opened Sequences
  import opened Sha256Spec

  // ----- the value of an array of eight words

  function VarsOf(s: seq<Word>): Vars
    requires |s| == 8
  {
    Vars(s[0], s[1], s[2], s[3], s[4], s[5], s[6], s[7])
  }

  /** The loop over 64 steps of transform, on the local array wv. */
  method RunSteps(wv: array<Word>, w: array<Word>, ghost m: Block)
    requires wv.Length == 8 && w.Length == 64 && wv != w
    requires forall t: nat | t < 64 :: w[t] == Schedule(m, t)
    modifies wv
    ensures VarsOf(wv[..]) == Steps(VarsOf(old(wv[..])), m, 64)
  {
    hide Add, Ch, Maj, Sum0, Sum1, K, Schedule;
    var j := 0;
    while j < 64
      invariant 0 <= j <= 64
      invariant VarsOf(wv[..]) == Steps(VarsOf(old(wv[..])), m, j)
    {
      var t1 := Add(Add(Add(Add(wv[7], Sum1(wv[4])), Ch(wv[4], wv[5], wv[6])), K(j)), w[j]);
      var t2 := Add(Sum0(wv[0]), Maj(wv[0], wv[1], wv[2]));
      wv[7] := wv[6];
      wv[6] := wv[5];
      wv[5] := wv[4];
      wv[4] := Add(wv[3], t1);
      wv[3] := wv[2];
      wv[2] := wv[1];
      wv[1] := wv[0];
      wv[0] := Add(t1, t2);
      j := j + 1;
    }
  }

  /** The two loops of transform that fill the local array w. */
  method FillSchedule(w: array<Word>, m: Block)
    requires w.Length == 64
    modifies w
    ensures forall t: nat | t < 64 :: w[t] == Schedule(m, t)
  {
    hide Add, Sigma0, Sigma1, Pack;
    var j := 0;
    while j < 16
      invariant 0 <= j <= 16
      invariant forall t: nat | t < j :: w[t] == Schedule(m, t)
    {
      w[j] := Pack(m[4 * j], m[4 * j + 1], m[4 * j + 2], m[4 * j + 3]);
      j := j + 1;
    }
    while j < 64
      invariant 16 <= j <= 64
      invariant forall t: nat | t < j :: w[t] == Schedule(m, t)
    {
      w[j] := Add(Add(Add(Sigma1(w[j - 2]), w[j - 7]), Sigma0(w[j - 15])), w[j - 16]);
      j := j + 1;
    }
  }

  // ----- whole blocks

  predicate Whole(n: nat) {
    n % 64 == 0
  }

  lemma WholeSums(n: nat, k: nat)
    ensures Whole(0) && (Whole(n) ==> Whole(n + 64 * k))
  {
  }

  lemma {:induction false} BlocksOfSum(v: Vars, a: bytes, b: bytes)
    requires Whole(|a|)
    ensures Blocks(v, a + b) == Blocks(Blocks(v, a), b)
    decreases |a|
  {
    hide Compress;
    if |a| == 0 {
      assert a + b == b;
    } else {
      assert (a + b)[..64] == a[..64] && (a + b)[64..] == a[64..] + b;
      BlocksOfSum(Compress(v, a[..64]), a[64..], b);
    }
  }

  lemma OneBlock(v: Vars, m: Block)
    ensures Blocks(v, m) == Compress(v, m)
  {
    hide Compress;
    assert m[..64] == m;
    assert Blocks(Compress(v, m[..64]), m[64..]) == Compress(v, m[..64]);
  }

  const WRAP: nat := 0x1_0000_0000

  lemma CountWraps(n: nat, k: nat)
    ensures (n % WRAP + k) % WRAP == (n + k) % WRAP
  {
  }

  /** What update does with the bytes kept so far and a message that completes a block. */
  lemma SplitInput(done: bytes, kept: bytes, message: bytes, tmpLen: nat, blockNb: nat)
    requires Whole(|done|) && |kept| < 64 && tmpLen == 64 - |kept| <= |message| && blockNb == (|message| - tmpLen) / 64
    ensures 0 <= 64 * blockNb <= |message| - tmpLen
    ensures
      var first := kept + message[..tmpLen];
      var shifted := message[tmpLen..];
      var rest, tail := shifted[..64 * blockNb], shifted[64 * blockNb..];
      && |first| == 64 && Whole(|done + first + rest|) && |tail| == (|message| - tmpLen) % 64
      && Blocks(INITIAL, done + first + rest) == Blocks(Blocks(Blocks(INITIAL, done), first), rest)
      && done + first + rest + tail == done + kept + message
      && (|done| % WRAP + 64 * (blockNb + 1)) % WRAP == |done + first + rest| % WRAP
  {
    hide Compress, Blocks, Whole;
    var first := kept + message[..tmpLen];
    var shifted := message[tmpLen..];
    var rest := shifted[..64 * blockNb];
    assert |first| == 64 && |rest| == 64 * blockNb && |done + first| == |done| + 64 * 1;
    SplitLengths(|done|, blockNb);
    BlocksOfSum(INITIAL, done, first);
    BlocksOfSum(INITIAL, done + first, rest);
    Rejoined(done, kept, message, tmpLen, 64 * blockNb);
  }

  lemma SplitLengths(n: nat, blockNb: nat)
    requires Whole(n)
    ensures Whole(64) && Whole(n + 64) && Whole(n + 64 + 64 * blockNb) && Whole(64 * blockNb)
    ensures (n % WRAP + 64 * (blockNb + 1)) % WRAP == (n + 64 + 64 * blockNb) % WRAP
  {
    WholeSums(n, 1);
    WholeSums(n + 64, blockNb);
    WholeSums(0, blockNb);
    WholeSums(0, 1);
    CountWraps(n, 64 * (blockNb + 1));
  }

  lemma Rejoined(done: bytes, kept: bytes, message: bytes, n: nat, m: nat)
    requires n + m <= |message|
    ensures done + (kept + message[..n]) + message[n..][..m] + message[n..][m..] == done + kept + message
  {
    assert message[..n] + message[n..] == message;
  }

  /** The padding that final() writes: the length is 32 bits wide. */
  function PaddingWithWordLength(n: nat): bytes {
    [0x80] + Repeat(0, ZeroCount(n)) + Repeat(0, 4) + BigEndian(8 * n % WRAP, 4)
  }

  lemma HighBytesZero(h: nat)
    requires h < WRAP
    ensures BigEndian(h, 4) == Repeat(0, 4) <==> h == 0
  {
    LastByte(h, 3);
    LastByte(h / 256, 2);
    LastByte(h / 256 / 256, 1);
    LastByte(h / 256 / 256 / 256, 0);
    hide BigEndian;
    if BigEndian(h, 4) == Repeat(0, 4) {
      assert h % 256 == BigEndian(h, 4)[3] == 0;
      assert h / 256 % 256 == BigEndian(h, 4)[2] == 0;
      assert h / 256 / 256 % 256 == BigEndian(h, 4)[1] == 0;
      assert h / 256 / 256 / 256 % 256 == BigEndian(h, 4)[0] == 0;
    }
  }

  lemma LastByte(n: nat, w: nat)
    ensures BigEndian(n, w + 1) == BigEndian(n / 256, w) + [n % 256] && BigEndian(n, 0) == []
  {
  }

  lemma FourBytes(n: nat, w: nat)
    ensures BigEndian(n, w + 4) == BigEndian(n / 256 / 256 / 256 / 256, w)
      + [n / 256 / 256 / 256 % 256, n / 256 / 256 % 256, n / 256 % 256, n % 256]
  {
    LastByte(n, w + 3);
    LastByte(n / 256, w + 2);
    LastByte(n / 256 / 256, w + 1);
    LastByte(n / 256 / 256 / 256, w);
    hide BigEndian;
  }

  lemma LowAndHigh(n: nat)
    ensures BigEndian(n, 8) == BigEndian(n / 256 / 256 / 256 / 256, 4) + BigEndian(n, 4)
  {
    FourBytes(n, 4);
    FourBytes(n, 0);
    hide BigEndian;
    assert BigEndian(n / 256 / 256 / 256 / 256, 0) == [] by { LastByte(n / 256 / 256 / 256 / 256, 0); }
  }

  /** The code pads as section 5.1.1 says exactly for messages below 2^29 bytes. */
  lemma PaddingsAgree(n: nat)
    requires n < 0x2000_0000_0000_0000
    ensures PaddingWithWordLength(n) == Padding(n) <==> n < 0x2000_0000
  {
    var l, h := 8 * n, 8 * n / 256 / 256 / 256 / 256;
    LowAndHigh(l);
    HighBytesZero(h);
    hide BigEndian, ZeroCount, Repeat;
    var z, y: bytes := [0x80] + Repeat(0, ZeroCount(n)), BigEndian(l % WRAP, 4);
    Associative(z, Repeat(0, 4), y);
    SameMiddle(z, Repeat(0, 4), BigEndian(h, 4), y);
  }

  class SHA256 {
    var totalLen: nat
    var blockLen: nat
    const block: array<byte>
    const chain: array<Word>
    ghost var done: bytes      // the bytes of the whole blocks processed
    ghost var absorbed: bytes  // all bytes given to update

    ghost predicate Valid()
      reads this, block, chain
    {
      && block.Length == 128 && chain.Length == 8
      && blockLen < 64 && Whole(|done|) && totalLen == |done| % WRAP
      && absorbed == done + block[..blockLen]
      && VarsOf(chain[..]) == Blocks(INITIAL, done)
    }

    /** Object creation and init(). */
    constructor ()
      ensures Valid() && absorbed == [] && fresh(block) && fresh(chain)
    {
      block := new byte[128](_ => 0);
      chain := new Word[8](_ => Word(0));
      done, absorbed := [], [];
      blockLen := 0;
      totalLen := 0;
      new;
      chain[0] := Word(0x6a09e667);
      chain[1] := Word(0xbb67ae85);
      chain[2] := Word(0x3c6ef372);
      chain[3] := Word(0xa54ff53a);
      chain[4] := Word(0x510e527f);
      chain[5] := Word(0x9b05688c);
      chain[6] := Word(0x1f83d9ab);
      chain[7] := Word(0x5be0cd19);
    }

    method Transform(message: bytes, blockNb: nat)
      requires chain.Length == 8 && |message| >= 64 * blockNb
      modifies chain
      ensures VarsOf(chain[..]) == Blocks(VarsOf(old(chain[..])), message[..64 * blockNb])
    {
      hide Compress;
      var w := new Word[64](_ => Word(0));
      var wv := new Word[8](_ => Word(0));
      assert message[..0] == [];
      for i := 0 to blockNb
        invariant VarsOf(chain[..]) == Blocks(VarsOf(old(chain[..])), message[..64 * i])
      {
        var subBlock: Block := message[64 * i..64 * i + 64];
        ghost var before := VarsOf(chain[..]);
        TransformBlock(subBlock, w, wv);
        BlocksOfSum(VarsOf(old(chain[..])), message[..64 * i], subBlock);
        OneBlock(before, subBlock);
        assert message[..64 * i] + subBlock == message[..64 * (i + 1)];
      }
    }

    /** The body of the loop over blocks. */
    method TransformBlock(subBlock: Block, w: array<Word>, wv: array<Word>)
      requires chain.Length == 8 && w.Length == 64 && wv.Length == 8 && w != wv && w != chain && wv != chain
      modifies chain, w, wv
      ensures VarsOf(chain[..]) == Compress(VarsOf(old(chain[..])), subBlock)
    {
      hide Add, Steps, Schedule;
      FillSchedule(w, subBlock);
      for j := 0 to 8
        invariant forall i | 0 <= i < j :: wv[i] == chain[i]
        invariant forall t: nat | t < 64 :: w[t] == Schedule(subBlock, t)
        invariant chain[..] == old(chain[..])
      {
        wv[j] := chain[j];
      }
      assert wv[..] == chain[..];
      RunSteps(wv, w, subBlock);
      AddToChain(wv);
    }

    /** The last loop: m_h[j] += wv[j]. */
    method AddToChain(wv: array<Word>)
      requires chain.Length == 8 && wv.Length == 8 && wv != chain
      modifies chain
      ensures forall i | 0 <= i < 8 :: chain[i] == Add(old(chain[i]), wv[i])
    {
      hide Add;
      for j := 0 to 8
        invariant forall i | 0 <= i < j :: chain[i] == Add(old(chain[i]), wv[i])
        invariant forall i | j <= i < 8 :: chain[i] == old(chain[i])
      {
        chain[j] := Add(chain[j], wv[j]);
      }
    }

    /** memcpy of the bytes from to m_block + at. */
    method CopyToBlock(at: nat, from: bytes)
      requires at + |from| <= block.Length
      modifies block
      ensures block[..] == old(block[..at]) + from + old(block[at + |from|..])
    {
      forall i | 0 <= i < |from| {
        block[at + i] := from[i];
      }
    }

    method Update(message: bytes)
      requires Valid() && |message| < 0x8000_0000
      modifies this, block, chain
      ensures Valid() && absorbed == old(absorbed) + message
    {
      hide Whole, Blocks;
      var tmpLen := 64 - blockLen;
      var remLen := if |message| < tmpLen then |message| else tmpLen;
      ghost var kept := block[..blockLen];
      CopyToBlock(blockLen, message[..remLen]);
      if blockLen + |message| < 64 {
        assert block[..blockLen + |message|] == kept + message;
        absorbed := absorbed + message;
        blockLen := blockLen + |message|;
        return;
      }
      assert block[..blockLen] == kept;
      FullBlocks(message, remLen);
    }

    /** The part of update() for a block that is full, with its last bytes from the message. */
    method FullBlocks(message: bytes, first: nat)
      requires Valid() && blockLen + first == 64 && first <= |message| < 0x8000_0000
      requires block[blockLen..64] == message[..first]
      modifies this, block, chain
      ensures Valid() && absorbed == old(absorbed) + message
    {
      hide Whole, Blocks;
      var remLen := first;
      ghost var kept := block[..blockLen];
      absorbed := absorbed + message;
      var newLen := |message| - remLen;
      var blockNb := newLen / 64;
      var shiftedMessage := message[remLen..];
      SplitInput(done, kept, message, remLen, blockNb);
      assert block[..][..64 * 1] == kept + block[blockLen..64];
      done := done + (kept + message[..remLen]) + shiftedMessage[..64 * blockNb];
      Transform(block[..], 1);
      Transform(shiftedMessage, blockNb);
      remLen := newLen % 64;
      CopyToBlock(0, shiftedMessage[64 * blockNb..64 * blockNb + remLen]);
      assert block[..remLen] == shiftedMessage[64 * blockNb..];
      blockLen := remLen;
      totalLen := (totalLen + 64 * (blockNb + 1)) % WRAP;
    }

    method Final(digest: array<byte>)
      requires Valid() && digest.Length >= 32 && digest != block
      modifies this, block, chain, digest
      ensures digest[..32] == DigestBytes(Blocks(INITIAL, old(absorbed) + PaddingWithWordLength(|old(absorbed)|)))
      ensures |old(absorbed)| < 0x2000_0000 ==> digest[..32] == Sha256(old(absorbed))
      ensures digest[32..] == old(digest[32..])
    {
      hide Blocks, PaddingWithWordLength, Whole, DigestBytes;
      ghost var n, kept := |absorbed|, block[..blockLen];
      var blockNb := WritePadding();
      LastBlocks(done, kept);
      Transform(block[..], blockNb);
      assert block[..][..64 * blockNb] == kept + PaddingWithWordLength(n);
      if n < 0x2000_0000 {
        PaddingsAgree(n);
      }
      WriteDigest(digest);
    }

    /** The number of blocks and the length in bits that final() starts with. */
    method PaddingCounts() returns (blockNb: nat, lenB: nat)
      requires Valid()
      ensures blockNb == 1 + (if 55 < blockLen then 1 else 0)
      ensures |absorbed| % 64 == blockLen && lenB == 8 * |absorbed| % WRAP
    {
      hide Blocks;
      blockNb := 1 + (if 64 - 9 < blockLen % 64 then 1 else 0);
      lenB := ((totalLen + blockLen) % WRAP * 8) % WRAP;
      LengthMod(|done|, blockLen);
      BitCount(|done|, blockLen);
    }

    /** The part of final() before transform. */
    method WritePadding() returns (blockNb: nat)
      requires Valid()
      modifies block
      ensures 0 < blockNb <= 2 && blockNb == 1 + (if 55 < blockLen then 1 else 0)
      ensures block[..64 * blockNb] == old(block[..blockLen]) + PaddingWithWordLength(|absorbed|)
    {
      hide PaddingWithWordLength, Blocks, Whole, Marked, UnpackLength;
      var lenB;
      blockNb, lenB := PaddingCounts();
      var pmLen := 64 * blockNb;
      PaddingBytes(|absorbed|, blockLen, pmLen, lenB);
      CopyToBlock(blockLen, Repeat(0, pmLen - blockLen));
      ghost var s0 := block[..];
      WriteMarkAndLength(blockLen, pmLen, UnpackLength(lenB));
      FilledBlock(old(block[..blockLen]), s0, pmLen, UnpackLength(lenB));
    }

    /** m_block[k] = 0x80 and SHA2_UNPACK32 of the length before byte n. */
    method WriteMarkAndLength(k: nat, n: nat, b: bytes)
      requires k + 5 <= n <= block.Length && |b| == 4
      modifies block
      ensures block[..] == Marked(old(block[..]), k, n, b)
    {
      block[k] := 0x80;
      block[n - 1] := b[3];
      block[n - 2] := b[2];
      block[n - 3] := b[1];
      block[n - 4] := b[0];
    }

    /** The last loop of final(). */
    method WriteDigest(digest: array<byte>)
      requires chain.Length == 8 && digest.Length >= 32
      modifies digest
      ensures digest[..32] == DigestBytes(VarsOf(chain[..])) && digest[32..] == old(digest[32..])
    {
      hide Unpack;
      for i := 0 to 8
        invariant forall k, j | 0 <= k < i && 0 <= j < 4 :: digest[4 * k + j] == Unpack(chain[k])[j]
        invariant digest[32..] == old(digest[32..])
      {
        var b := Unpack(chain[i]);
        digest[4 * i + 3] := b[3];
        digest[4 * i + 2] := b[2];
        digest[4 * i + 1] := b[1];
        digest[4 * i] := b[0];
      }
    }
  }

  /** SHA2_UNPACK32 of a 32-bit count. */
  function UnpackLength(x: nat): (b: bytes)
    ensures |b| == 4
  {
    [x / 256 / 256 / 256 % 256, x / 256 / 256 % 256, x / 256 % 256, x % 256]
  }

  /** The buffer with the mark after k bytes and the length before byte n. */
  function Marked(s: bytes, k: nat, n: nat, b: bytes): (t: bytes)
    requires k + 5 <= n <= |s| && |b| == 4
    ensures |t| == |s|
  {
    s[k := 0x80][n - 1 := b[3]][n - 2 := b[2]][n - 3 := b[1]][n - 4 := b[0]]
  }

  lemma FilledBlock(kept: bytes, s: bytes, n: nat, b: bytes)
    requires |kept| + 5 <= n <= |s| && s[..n] == kept + Repeat(0, n - |kept|) && |b| == 4
    ensures Marked(s, |kept|, n, b)[..n] == kept + ([0x80] + Repeat(0, n - |kept| - 5) + b)
  {
  }

  lemma LengthMod(d: nat, k: nat)
    requires Whole(d) && k < 64
    ensures (d + k) % 64 == k
  {
  }

  lemma BitCount(d: nat, k: nat)
    ensures (d % WRAP + k) % WRAP * 8 % WRAP == 8 * (d + k) % WRAP
  {
    CountWraps(d, k);
    var x := d + k;
    MultipleVanishes(8 * (x % WRAP), 8 * (x / WRAP));
  }

  lemma MultipleVanishes(n: nat, k: nat)
    ensures (n + k * WRAP) % WRAP == n % WRAP
  {
  }

  /** The padding of the code, byte by byte. */
  lemma PaddingBytes(n: nat, blockLen: nat, pmLen: nat, lenB: nat)
    requires n % 64 == blockLen && pmLen == (if 55 < blockLen then 128 else 64) && lenB == 8 * n % WRAP
    ensures 5 <= pmLen - blockLen
    ensures PaddingWithWordLength(n) == [0x80] + Repeat(0, pmLen - blockLen - 5) + UnpackLength(lenB)
  {
    FourBytes(lenB, 0);
    LastByte(lenB / 256 / 256 / 256 / 256, 0);
    hide BigEndian;
    assert Repeat(0, ZeroCount(n)) + Repeat(0, 4) == Repeat(0, ZeroCount(n) + 4);
  }

  lemma PaddingLength(n: nat)
    ensures |PaddingWithWordLength(n)| + n % 64 == if 55 < n % 64 then 128 else 64
  {
    hide PaddingWithWordLength, UnpackLength;
    PaddingBytes(n, n % 64, if 55 < n % 64 then 128 else 64, 8 * n % WRAP);
  }

  lemma LastBlocks(done: bytes, kept: bytes)
    requires Whole(|done|) && |kept| < 64
    ensures
      var p := PaddingWithWordLength(|done + kept|);
      && |kept + p| == (if 55 < |kept| then 128 else 64)
      && Blocks(INITIAL, done + kept + p) == Blocks(Blocks(INITIAL, done), kept + p)
  {
    hide Blocks, PaddingWithWordLength;
    var n := |done + kept|;
    var p := PaddingWithWordLength(n);
    LengthMod(|done|, |kept|);
    PaddingLength(n);
    BlocksOfSum(INITIAL, done, kept + p);
    assert done + kept + p == done + (kept + p);
  }

  // ----- the hexadecimal wrapper

  function HexDigit(d: nat): char
    requires d < 16
  {
    "0123456789abcdef"[d]
  }

  function DigitOf(c: char): (d: nat)
    ensures d < 16
  {
    if '0' <= c <= '9' then (c - '0') as nat else if 'a' <= c <= 'f' then (c - 'a') as nat + 10 else 0
  }

  lemma DigitOfHex(d: nat)
    requires d < 16
    ensures DigitOf(HexDigit(d)) == d
  {
  }

  /** What "%02x" prints of each byte. */
  function HexOf(b: bytes): (s: string)
    ensures |s| == 2 * |b|
  {
    if b == [] then "" else
      var last := b[|b| - 1]; HexOf(b[..|b| - 1]) + [HexDigit(last / 16), HexDigit(last % 16)]
  }

  function FromHex(s: string): (b: bytes)
    requires |s| % 2 == 0
    ensures |b| == |s| / 2
  {
    if s == "" then [] else FromHex(s[..|s| - 2]) + [16 * DigitOf(s[|s| - 2]) + DigitOf(s[|s| - 1])]
  }

  lemma HexSnoc(b: bytes, c: byte)
    ensures HexOf(b + [c]) == HexOf(b) + [HexDigit(c / 16), HexDigit(c % 16)]
  {
    hide HexDigit;
    assert (b + [c])[..|b|] == b;
  }

  lemma LastHex(t: string)
    requires t != "" && |t| % 2 == 0
    ensures FromHex(t) == FromHex(t[..|t| - 2]) + [16 * DigitOf(t[|t| - 2]) + DigitOf(t[|t| - 1])]
  {
    hide DigitOf;
  }

  lemma FromHexSnoc(s: string, c: char, d: char)
    requires |s| % 2 == 0 && |s + [c, d]| % 2 == 0
    ensures FromHex(s + [c, d]) == FromHex(s) + [16 * DigitOf(c) + DigitOf(d)]
  {
    hide *;
    var n, t := |s|, s + [c, d];
    LastHex(t);
    PrefixAndRest(s, [c, d]);
    assert |t| - 2 == n;
    assert t[n..][0] == c && t[n..][1] == d;
  }

  /** The hexadecimal text loses nothing of the digest. */
  lemma {:induction false} HexRoundTrip(b: bytes)
    ensures FromHex(HexOf(b)) == b
  {
    hide HexDigit, DigitOf, HexOf, FromHex;
    if b == [] {
      NoHex();
    } else {
      var last, front := b[|b| - 1], b[..|b| - 1];
      HexRoundTrip(front);
      HexSnoc(front, last);
      FromHexSnoc(HexOf(front), HexDigit(last / 16), HexDigit(last % 16));
      DigitOfHex(last / 16);
      DigitOfHex(last % 16);
      assert b == front + [last];
    }
  }

  lemma NoHex()
    ensures HexOf([]) == "" && FromHex("") == []
  {
  }

  method Sha256Hex(input: bytes) returns (hex: string)
    requires |input| < 0x8000_0000
    ensures |hex| == 64
    ensures |input| < 0x2000_0000 ==> hex == HexOf(Sha256(input))
  {
    hide Blocks, DigestBytes, HexDigit;
    var digest := new byte[32](_ => 0);
    var ctx := new SHA256();
    ctx.Update(input);
    assert ctx.absorbed == input;
    ctx.Final(digest);
    hex := "";
    for i := 0 to 32
      invariant hex == HexOf(digest[..i])
      invariant |input| < 0x2000_0000 ==> digest[..32] == Sha256(input)
    {
      assert digest[..i + 1][..i] == digest[..i];
      hex := hex + [HexDigit(digest[i] / 16), HexDigit(digest[i] % 16)];
    }
  }
}
