// Facts about quotients and remainders of naturals.
module Division {
  lemma MultipleBound(d: nat, k: int)
    ensures k >= 1 ==> d * k >= d
    ensures k <= -1 ==> d * k <= 0 - d
  {
  }

  lemma DivModUnique(n: nat, d: nat, q: nat, r: nat)
    requires r < d && n == d * q + r
    ensures n / d == q && n % d == r
  {
    var k := n / d - q;
    assert n % d - r == -(d * k);
    MultipleBound(d, k);
  }

  lemma ModSub(d: nat, n: nat)
    requires 0 < d <= n
    ensures n % d == (n - d) % d
  {
    var k, r := (n - d) / d, (n - d) % d;
    assert n == d * (k + 1) + r;
    DivModUnique(n, d, k + 1, r);
  }
}
