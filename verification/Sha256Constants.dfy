// The constants of SHA-256 as sections 4.2.2 and 5.3.3 of FIPS 180-4 define them: the
// first 32 bits of the fractional parts of roots of the first primes.
module Sha256Constants {
  import opened Division
  import opened Sha256Spec

  // ----- the first 64 primes

  function NthPrime(t: nat): (p: nat)
    requires t < 64
    ensures 2 <= p <= 311
  {
    match t
    case 0 => 2 case 1 => 3 case 2 => 5 case 3 => 7 case 4 => 11 case 5 => 13 case 6 => 17
    case 7 => 19 case 8 => 23 case 9 => 29 case 10 => 31 case 11 => 37 case 12 => 41 case 13 => 43
    case 14 => 47 case 15 => 53 case 16 => 59 case 17 => 61 case 18 => 67 case 19 => 71 case 20 => 73
    case 21 => 79 case 22 => 83 case 23 => 89 case 24 => 97 case 25 => 101 case 26 => 103 case 27 => 107
    case 28 => 109 case 29 => 113 case 30 => 127 case 31 => 131 case 32 => 137 case 33 => 139 case 34 => 149
    case 35 => 151 case 36 => 157 case 37 => 163 case 38 => 167 case 39 => 173 case 40 => 179 case 41 => 181
    case 42 => 191 case 43 => 193 case 44 => 197 case 45 => 199 case 46 => 211 case 47 => 223 case 48 => 227
    case 49 => 229 case 50 => 233 case 51 => 239 case 52 => 241 case 53 => 251 case 54 => 257 case 55 => 263
    case 56 => 269 case 57 => 271 case 58 => 277 case 59 => 281 case 60 => 283 case 61 => 293 case 62 => 307
    case 63 => 311
  }

  ghost predicate Prime(n: nat) {
    n >= 2 && forall d | 2 <= d < n :: n % d != 0
  }

  predicate Free(n: nat, p: nat)
    requires p > 0
  {
    n == p || n % p != 0
  }

  /** No prime up to 17 is a proper divisor. */
  predicate Sieved(n: nat) {
    n >= 2 && Free(n, 2) && Free(n, 3) && Free(n, 5) && Free(n, 7) && Free(n, 11) && Free(n, 13) && Free(n, 17)
  }

  lemma Divides(n: nat, d: nat, p: nat)
    requires 0 < p && 0 < d && d % p == 0 && n % d == 0
    ensures n % p == 0
  {
    var e, k := d / p, n / d;
    assert n == p * e * k;
    assert n == p * (e * k);
    DivModUnique(n, p, e * k, 0);
  }

  function PrimeFactor(d: nat): (p: nat)
    requires 2 <= d <= 18
    ensures p in {2, 3, 5, 7, 11, 13, 17} && d % p == 0 && p <= d
  {
    if d % 2 == 0 then 2 else if d % 3 == 0 then 3 else d
  }

  lemma SmallDivisor(n: nat, d: nat)
    requires Sieved(n) && 2 <= d <= 18 && d < n
    ensures n % d != 0
  {
    hide PrimeFactor;
    var p := PrimeFactor(d);
    assert Free(n, p);
    if n % d == 0 {
      Divides(n, d, p);
    }
  }

  /** A number below 19 * 19 is prime when the sieve leaves it. */
  lemma SievedIsPrime(n: nat)
    requires n < 361
    ensures Sieved(n) <==> Prime(n)
  {
    if Sieved(n) {
      forall d | 2 <= d < n ensures n % d != 0 {
        if d <= 18 {
          SmallDivisor(n, d);
        } else if n % d == 0 {
          Cofactor(n, d);
          SmallDivisor(n, n / d);
        }
      }
    }
  }

  lemma Cofactor(n: nat, d: nat)
    requires n < 361 && 19 <= d < n && n % d == 0
    ensures 2 <= n / d <= 18 && n / d < n && n % (n / d) == 0
  {
    var q := n / d;
    assert n == d * q;
    Bounds(d, q);
    assert n == q * d;
    DivModUnique(n, q, d, 0);
  }

  lemma Bounds(d: nat, q: nat)
    requires 19 <= d < d * q < 361
    ensures 2 <= q <= 18
  {
    if q >= 19 {
      Product(d, q);
    }
  }

  lemma Product(d: nat, q: nat)
    requires d >= 19 && q >= 19
    ensures d * q >= 361
  {
  }

  predicate NoneIn(lo: nat, hi: nat)
    decreases hi - lo
  {
    lo >= hi || (!Sieved(lo) && NoneIn(lo + 1, hi))
  }

  lemma {:induction false} NoneInMeans(lo: nat, hi: nat, n: nat)
    requires NoneIn(lo, hi) && lo <= n < hi
    ensures !Sieved(n)
    decreases hi - lo
  {
    if n > lo {
      NoneInMeans(lo + 1, hi, n);
    }
  }

  lemma Gaps0(t: nat)
    requires 0 <= t < 16
    ensures Sieved(NthPrime(t)) && NthPrime(t) < NthPrime(t + 1) && NoneIn(NthPrime(t) + 1, NthPrime(t + 1))
  {
    match t
    case 0 => assert NoneIn(3, 3);
    case 1 => assert NoneIn(4, 5);
    case 2 => assert NoneIn(6, 7);
    case 3 => assert NoneIn(8, 11);
    case 4 => assert NoneIn(12, 13);
    case 5 => assert NoneIn(14, 17);
    case 6 => assert NoneIn(18, 19);
    case 7 => assert NoneIn(20, 23);
    case 8 => assert NoneIn(24, 29);
    case 9 => assert NoneIn(30, 31);
    case 10 => assert NoneIn(32, 37);
    case 11 => assert NoneIn(38, 41);
    case 12 => assert NoneIn(42, 43);
    case 13 => assert NoneIn(44, 47);
    case 14 => assert NoneIn(48, 53);
    case 15 => assert NoneIn(54, 59);
  }

  lemma Gaps1(t: nat)
    requires 16 <= t < 32
    ensures Sieved(NthPrime(t)) && NthPrime(t) < NthPrime(t + 1) && NoneIn(NthPrime(t) + 1, NthPrime(t + 1))
  {
    match t
    case 16 => assert NoneIn(60, 61);
    case 17 => assert NoneIn(62, 67);
    case 18 => assert NoneIn(68, 71);
    case 19 => assert NoneIn(72, 73);
    case 20 => assert NoneIn(74, 79);
    case 21 => assert NoneIn(80, 83);
    case 22 => assert NoneIn(84, 89);
    case 23 => assert NoneIn(90, 97);
    case 24 => assert NoneIn(98, 101);
    case 25 => assert NoneIn(102, 103);
    case 26 => assert NoneIn(104, 107);
    case 27 => assert NoneIn(108, 109);
    case 28 => assert NoneIn(110, 113);
    case 29 => assert NoneIn(114, 127);
    case 30 => assert NoneIn(128, 131);
    case 31 => assert NoneIn(132, 137);
  }

  lemma Gaps2(t: nat)
    requires 32 <= t < 48
    ensures Sieved(NthPrime(t)) && NthPrime(t) < NthPrime(t + 1) && NoneIn(NthPrime(t) + 1, NthPrime(t + 1))
  {
    match t
    case 32 => assert NoneIn(138, 139);
    case 33 => assert NoneIn(140, 149);
    case 34 => assert NoneIn(150, 151);
    case 35 => assert NoneIn(152, 157);
    case 36 => assert NoneIn(158, 163);
    case 37 => assert NoneIn(164, 167);
    case 38 => assert NoneIn(168, 173);
    case 39 => assert NoneIn(174, 179);
    case 40 => assert NoneIn(180, 181);
    case 41 => assert NoneIn(182, 191);
    case 42 => assert NoneIn(192, 193);
    case 43 => assert NoneIn(194, 197);
    case 44 => assert NoneIn(198, 199);
    case 45 => assert NoneIn(200, 211);
    case 46 => assert NoneIn(212, 223);
    case 47 => assert NoneIn(224, 227);
  }

  lemma Gaps3(t: nat)
    requires 48 <= t < 63
    ensures Sieved(NthPrime(t)) && NthPrime(t) < NthPrime(t + 1) && NoneIn(NthPrime(t) + 1, NthPrime(t + 1))
  {
    match t
    case 48 => assert NoneIn(228, 229);
    case 49 => assert NoneIn(230, 233);
    case 50 => assert NoneIn(234, 239);
    case 51 => assert NoneIn(240, 241);
    case 52 => assert NoneIn(242, 251);
    case 53 => assert NoneIn(252, 257);
    case 54 => assert NoneIn(258, 263);
    case 55 => assert NoneIn(264, 269);
    case 56 => assert NoneIn(270, 271);
    case 57 => assert NoneIn(272, 277);
    case 58 => assert NoneIn(278, 281);
    case 59 => assert NoneIn(282, 283);
    case 60 => assert NoneIn(284, 293);
    case 61 => assert NoneIn(294, 307);
    case 62 => assert NoneIn(308, 311);
  }

  /** NthPrime lists the primes from 2 on, in order and without a gap. */
  lemma FirstPrimes(t: nat)
    requires t < 64
    ensures NthPrime(0) == 2 && Prime(NthPrime(t))
    ensures t + 1 < 64 ==> NthPrime(t) < NthPrime(t + 1)
    ensures t + 1 < 64 ==> forall n | NthPrime(t) < n < NthPrime(t + 1) :: !Prime(n)
  {
    hide NthPrime, Sieved, Prime;
    Ends();
    SievedIsPrime(NthPrime(t));
    if t < 63 {
      if t < 16 { Gaps0(t); } else if t < 32 { Gaps1(t); } else if t < 48 { Gaps2(t); } else { Gaps3(t); }
      forall n | NthPrime(t) < n < NthPrime(t + 1) ensures !Prime(n) {
        NoneInMeans(NthPrime(t) + 1, NthPrime(t + 1), n);
        SievedIsPrime(n);
      }
    }
  }

  lemma Ends()
    ensures NthPrime(0) == 2 && NthPrime(63) == 311 && Sieved(311)
  {
  }

  // ----- roots

  function Square(x: nat): nat {
    x * x
  }

  function Cube(x: nat): nat {
    x * x * x
  }

  /** The floor of the cube root. */
  predicate CubeFloor(c: nat, p: nat) {
    Cube(c) <= p < Cube(c + 1)
  }

  predicate SquareFloor(c: nat, p: nat) {
    Square(c) <= p < Square(c + 1)
  }

  lemma CubesGrow(c: nat)
    requires c >= 7
    ensures Cube(c) >= 343
  {
    var n := c * c;
    assert n >= 49;
    assert n * c >= 49 * c;
  }

  lemma CubeFloorIs(c: nat, p: nat)
    requires CubeFloor(c, p) && p <= 311
    ensures c <= 6
  {
    if c >= 7 {
      CubesGrow(c);
    }
  }

  lemma Roots0(t: nat, c: nat)
    requires 0 <= t < 8 && CubeFloor(c, NthPrime(t))
    ensures CubeFloor(c * 0x1_0000_0000 + K(t).bits as nat, NthPrime(t) * 0x1_0000_0000_0000_0000_0000_0000)
  {
    CubeFloorIs(c, NthPrime(t));
    match t
    case 0 => assert c == 1;
    case 1 => assert c == 1;
    case 2 => assert c == 1;
    case 3 => assert c == 1;
    case 4 => assert c == 2;
    case 5 => assert c == 2;
    case 6 => assert c == 2;
    case 7 => assert c == 2;
  }

  lemma Roots1(t: nat, c: nat)
    requires 8 <= t < 16 && CubeFloor(c, NthPrime(t))
    ensures CubeFloor(c * 0x1_0000_0000 + K(t).bits as nat, NthPrime(t) * 0x1_0000_0000_0000_0000_0000_0000)
  {
    CubeFloorIs(c, NthPrime(t));
    match t
    case 8 => assert c == 2;
    case 9 => assert c == 3;
    case 10 => assert c == 3;
    case 11 => assert c == 3;
    case 12 => assert c == 3;
    case 13 => assert c == 3;
    case 14 => assert c == 3;
    case 15 => assert c == 3;
  }

  lemma Roots2(t: nat, c: nat)
    requires 16 <= t < 24 && CubeFloor(c, NthPrime(t))
    ensures CubeFloor(c * 0x1_0000_0000 + K(t).bits as nat, NthPrime(t) * 0x1_0000_0000_0000_0000_0000_0000)
  {
    CubeFloorIs(c, NthPrime(t));
    match t
    case 16 => assert c == 3;
    case 17 => assert c == 3;
    case 18 => assert c == 4;
    case 19 => assert c == 4;
    case 20 => assert c == 4;
    case 21 => assert c == 4;
    case 22 => assert c == 4;
    case 23 => assert c == 4;
  }

  lemma Roots3(t: nat, c: nat)
    requires 24 <= t < 32 && CubeFloor(c, NthPrime(t))
    ensures CubeFloor(c * 0x1_0000_0000 + K(t).bits as nat, NthPrime(t) * 0x1_0000_0000_0000_0000_0000_0000)
  {
    CubeFloorIs(c, NthPrime(t));
    match t
    case 24 => assert c == 4;
    case 25 => assert c == 4;
    case 26 => assert c == 4;
    case 27 => assert c == 4;
    case 28 => assert c == 4;
    case 29 => assert c == 4;
    case 30 => assert c == 5;
    case 31 => assert c == 5;
  }

  lemma Roots4(t: nat, c: nat)
    requires 32 <= t < 40 && CubeFloor(c, NthPrime(t))
    ensures CubeFloor(c * 0x1_0000_0000 + K(t).bits as nat, NthPrime(t) * 0x1_0000_0000_0000_0000_0000_0000)
  {
    CubeFloorIs(c, NthPrime(t));
    match t
    case 32 => assert c == 5;
    case 33 => assert c == 5;
    case 34 => assert c == 5;
    case 35 => assert c == 5;
    case 36 => assert c == 5;
    case 37 => assert c == 5;
    case 38 => assert c == 5;
    case 39 => assert c == 5;
  }

  lemma Roots5(t: nat, c: nat)
    requires 40 <= t < 48 && CubeFloor(c, NthPrime(t))
    ensures CubeFloor(c * 0x1_0000_0000 + K(t).bits as nat, NthPrime(t) * 0x1_0000_0000_0000_0000_0000_0000)
  {
    CubeFloorIs(c, NthPrime(t));
    match t
    case 40 => assert c == 5;
    case 41 => assert c == 5;
    case 42 => assert c == 5;
    case 43 => assert c == 5;
    case 44 => assert c == 5;
    case 45 => assert c == 5;
    case 46 => assert c == 5;
    case 47 => assert c == 6;
  }

  lemma Roots6(t: nat, c: nat)
    requires 48 <= t < 56 && CubeFloor(c, NthPrime(t))
    ensures CubeFloor(c * 0x1_0000_0000 + K(t).bits as nat, NthPrime(t) * 0x1_0000_0000_0000_0000_0000_0000)
  {
    CubeFloorIs(c, NthPrime(t));
    match t
    case 48 => assert c == 6;
    case 49 => assert c == 6;
    case 50 => assert c == 6;
    case 51 => assert c == 6;
    case 52 => assert c == 6;
    case 53 => assert c == 6;
    case 54 => assert c == 6;
    case 55 => assert c == 6;
  }

  lemma Roots7(t: nat, c: nat)
    requires 56 <= t < 64 && CubeFloor(c, NthPrime(t))
    ensures CubeFloor(c * 0x1_0000_0000 + K(t).bits as nat, NthPrime(t) * 0x1_0000_0000_0000_0000_0000_0000)
  {
    CubeFloorIs(c, NthPrime(t));
    match t
    case 56 => assert c == 6;
    case 57 => assert c == 6;
    case 58 => assert c == 6;
    case 59 => assert c == 6;
    case 60 => assert c == 6;
    case 61 => assert c == 6;
    case 62 => assert c == 6;
    case 63 => assert c == 6;
  }

  /** Section 4.2.2: K(t) is the first 32 bits of the fractional part of the cube root of prime t, whose floor is c. */
  lemma CubeRootDigits(t: nat, c: nat)
    requires t < 64 && CubeFloor(c, NthPrime(t))
    ensures CubeFloor(c * 0x1_0000_0000 + K(t).bits as nat, NthPrime(t) * 0x1_0000_0000_0000_0000_0000_0000)
  {
    hide NthPrime, K, CubeFloor;
    if t < 8 {
      Roots0(t, c);
    } else if t < 16 {
      Roots1(t, c);
    } else if t < 24 {
      Roots2(t, c);
    } else if t < 32 {
      Roots3(t, c);
    } else if t < 40 {
      Roots4(t, c);
    } else if t < 48 {
      Roots5(t, c);
    } else if t < 56 {
      Roots6(t, c);
    } else {
      Roots7(t, c);
    }
  }

  function VarAt(v: Vars, t: nat): Word
    requires t < 8
  {
    match t
    case 0 => v.a case 1 => v.b case 2 => v.c case 3 => v.d case 4 => v.e case 5 => v.f case 6 => v.g case 7 => v.h
  }

  lemma SquaresGrow(c: nat)
    requires c >= 5
    ensures Square(c) >= 25
  {
  }

  lemma SquareFloorIs(c: nat, p: nat)
    requires SquareFloor(c, p) && p <= 19
    ensures c <= 4
  {
    if c >= 5 {
      SquaresGrow(c);
    }
  }

  /** Section 5.3.3: the initial hash value has the bits of the square roots of the first eight primes. */
  lemma SquareRootDigits(t: nat, c: nat)
    requires t < 8 && SquareFloor(c, NthPrime(t))
    ensures
      SquareFloor(c * 0x1_0000_0000 + VarAt(INITIAL, t).bits as nat, NthPrime(t) * 0x1_0000_0000_0000_0000)
  {
    SquareFloorIs(c, NthPrime(t));
    match t
    case 0 => assert c == 1;
    case 1 => assert c == 1;
    case 2 => assert c == 2;
    case 3 => assert c == 2;
    case 4 => assert c == 3;
    case 5 => assert c == 3;
    case 6 => assert c == 4;
    case 7 => assert c == 4;
  }
}
