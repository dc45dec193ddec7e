// The operators of C on 32-bit words, named so that a proof can leave aside what they do
// to bits, and what each of them does to a bit.
module WordBits {
  function AddWords(v: bv32, w: bv32): bv32 {
    v + w
  }

  function XorWords(v: bv32, w: bv32): bv32 {
    v ^ w
  }

  function AndWords(v: bv32, w: bv32): bv32 {
    v & w
  }

  function NotWord(w: bv32): bv32 {
    !w
  }

  /** The word w turned by n places towards the lower positions. */
  function RotrWord(w: bv32, n: bv6): bv32
    requires 0 < n < 32
  {
    (w >> n) | (w << (32 - n))
  }

  function ShrWord(w: bv32, n: bv6): bv32
    requires n < 32
  {
    w >> n
  }

  /** Bit j of a word, the one of weight 2^j. */
  predicate IsSet(w: bv32, j: bv6)
    requires j < 32
  {
    (w >> j) & 1 == 1
  }

  lemma BitOfTurned(w: bv32, n: bv6, j: bv6)
    requires 0 < n < 32 && j < 32
    ensures IsSet((w >> n) | (w << (32 - n)), j) == IsSet(w, (j + n) % 32)
  {
  }

  lemma RotrAt(w: bv32, n: bv6, j: bv6)
    requires 0 < n < 32 && j < 32
    ensures IsSet(RotrWord(w, n), j) == IsSet(w, (j + n) % 32)
  {
    hide IsSet;
    BitOfTurned(w, n, j);
  }

  lemma BitOfShifted(w: bv32, n: bv6, j: bv6)
    requires n < 32 && j < 32
    ensures IsSet(w >> n, j) == (j + n < 32 && IsSet(w, (j + n) % 32))
  {
  }

  lemma ShrAt(w: bv32, n: bv6, j: bv6)
    requires n < 32 && j < 32
    ensures IsSet(ShrWord(w, n), j) == (j + n < 32 && IsSet(w, (j + n) % 32))
  {
    hide IsSet;
    BitOfShifted(w, n, j);
  }

  lemma BitOfXor(v: bv32, w: bv32, j: bv6)
    requires j < 32
    ensures IsSet(v ^ w, j) == (IsSet(v, j) != IsSet(w, j))
  {
  }

  lemma XorAt(v: bv32, w: bv32, j: bv6)
    requires j < 32
    ensures IsSet(XorWords(v, w), j) == (IsSet(v, j) != IsSet(w, j))
  {
    hide IsSet;
    BitOfXor(v, w, j);
  }

  lemma BitOfAnd(v: bv32, w: bv32, j: bv6)
    requires j < 32
    ensures IsSet(v & w, j) == (IsSet(v, j) && IsSet(w, j))
  {
  }

  lemma AndAt(v: bv32, w: bv32, j: bv6)
    requires j < 32
    ensures IsSet(AndWords(v, w), j) == (IsSet(v, j) && IsSet(w, j))
  {
    hide IsSet;
    BitOfAnd(v, w, j);
  }

  lemma BitOfNot(w: bv32, j: bv6)
    requires j < 32
    ensures IsSet(!w, j) == !IsSet(w, j)
  {
  }

  lemma NotAt(w: bv32, j: bv6)
    requires j < 32
    ensures IsSet(NotWord(w), j) == !IsSet(w, j)
  {
    hide IsSet;
    BitOfNot(w, j);
  }

  /** s is the sum of v and w modulo 2^32: the low 32 bits of their sum in 33 bits, which cannot overflow. */
  predicate IsSum(s: bv32, v: bv32, w: bv32) {
    s as bv33 == (v as bv33 + w as bv33) & 0xffff_ffff
  }

  lemma SumOf(v: bv32, w: bv32)
    ensures IsSum(v + w, v, w)
  {
  }

  lemma AddAt(v: bv32, w: bv32)
    ensures IsSum(AddWords(v, w), v, w)
  {
    hide IsSum;
    SumOf(v, w);
  }

  function SubWords(v: bv32, w: bv32): bv32 {
    v - w
  }

  lemma SubUndoesAdd(v: bv32, w: bv32)
    ensures SubWords(AddWords(v, w), w) == v && SubWords(AddWords(w, v), w) == v
  {
  }
}
