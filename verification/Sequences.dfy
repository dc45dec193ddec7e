// Regrouping of concatenations.
module Sequences {
  lemma Regroup<T>(a: seq<T>, b: seq<T>, c: seq<T>, d: seq<T>)
    ensures a + b + c + d == a + (b + c + d) == a + (b + (c + d))
  {
  }

  lemma Associative<T>(a: seq<T>, b: seq<T>, c: seq<T>)
    ensures a + b + c == a + (b + c)
  {
  }

  lemma SameFront<T>(a: seq<T>, b: seq<T>, c: seq<T>)
    requires a + c == b + c
    ensures a == b
  {
    assert |a| == |b|;
    assert (a + c)[..|a|] == a && (b + c)[..|a|] == b;
  }

  lemma SameMiddle<T>(z: seq<T>, a: seq<T>, b: seq<T>, y: seq<T>)
    ensures z + (a + y) == z + (b + y) <==> a == b
  {
    if z + (a + y) == z + (b + y) {
      assert a + y == (z + (a + y))[|z|..] == (z + (b + y))[|z|..] == b + y;
      SameFront(a, b, y);
    }
  }

  lemma PrefixAndRest<T>(a: seq<T>, b: seq<T>)
    ensures (a + b)[..|a|] == a && (a + b)[|a|..] == b
  {
  }
}
