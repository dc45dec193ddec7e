// Text between quotes, with every quote in it doubled.
module Quoting {
  function Doubled<T(==)>(s: seq<T>, quote: T): seq<T> {
    if s == [] then [] else (if s[0] == quote then [quote, quote] else [s[0]]) + Doubled(s[1..], quote)
  }

  lemma {:induction false} DoubledSnoc<T>(s: seq<T>, c: T, quote: T)
    ensures Doubled(s + [c], quote) == Doubled(s, quote) + if c == quote then [quote, quote] else [c]
  {
    if s == [] {
      assert ([] + [c])[1..] == [];
    } else {
      assert (s + [c])[1..] == s[1..] + [c];
      DoubledSnoc(s[1..], c, quote);
    }
  }
}
