// The tables of the code and the algorithms of FIPS 202 that yield them: the round
// constants (Algorithm 5) and the rotation offsets (Algorithm 2).
module KeccakTables {
  import opened KeccakSpec

  /** The table RC of the code. */
  function RC(i: nat): bv64
    requires i < 24
  {
    match i
    case 0 => 0x0000000000000001 case 1 => 0x0000000000008082
    case 2 => 0x800000000000808a case 3 => 0x8000000080008000
    case 4 => 0x000000000000808b case 5 => 0x0000000080000001
    case 6 => 0x8000000080008081 case 7 => 0x8000000000008009
    case 8 => 0x000000000000008a case 9 => 0x0000000000000088
    case 10 => 0x0000000080008009 case 11 => 0x000000008000000a
    case 12 => 0x000000008000808b case 13 => 0x800000000000008b
    case 14 => 0x8000000000008089 case 15 => 0x8000000000008003
    case 16 => 0x8000000000008002 case 17 => 0x8000000000000080
    case 18 => 0x000000000000800a case 19 => 0x800000008000000a
    case 20 => 0x8000000080008081 case 21 => 0x8000000000008080
    case 22 => 0x0000000080000001 case 23 => 0x8000000080008008
  }

  /** Seven steps of the register give one round constant and the register of the next round. */
  lemma SevenSteps(i: nat, r: bv8, rc: bv64, next: bv8)
    requires i < 24 && Register(7 * i) == r
    requires
      var r1 := RegisterStep(r); var r2 := RegisterStep(r1); var r3 := RegisterStep(r2); var r4 := RegisterStep(r3);
      var r5 := RegisterStep(r4); var r6 := RegisterStep(r5);
      && next == RegisterStep(r6)
      && rc == (if r & 1 != 0 then 1 else 0) | (if r1 & 1 != 0 then 2 else 0) | (if r2 & 1 != 0 then 8 else 0)
           | (if r3 & 1 != 0 then 0x80 else 0) | (if r4 & 1 != 0 then 0x8000 else 0)
           | (if r5 & 1 != 0 then 0x80000000 else 0) | (if r6 & 1 != 0 then 0x8000000000000000 else 0)
    ensures RoundConstant(i) == rc && Register(7 * i + 7) == next
  {
    hide RegisterStep;
    assert Register(7 * i + 1) == RegisterStep(r);
    assert Register(7 * i + 2) == RegisterStep(Register(7 * i + 1));
    assert Register(7 * i + 3) == RegisterStep(Register(7 * i + 2));
    assert Register(7 * i + 4) == RegisterStep(Register(7 * i + 3));
    assert Register(7 * i + 5) == RegisterStep(Register(7 * i + 4));
    assert Register(7 * i + 6) == RegisterStep(Register(7 * i + 5));
    assert Register(7 * i + 7) == RegisterStep(Register(7 * i + 6));
  }

  lemma FirstConstants()
    ensures Register(84) == 0xd5 && forall i: nat | i < 12 :: RC(i) == RoundConstant(i)
  {
    hide Register, RoundConstant;
    assert Register(0) == 1 by { RegisterZero(); }
    SevenSteps(0, 1, 0x1, 0x80);
    SevenSteps(1, 0x80, 0x8082, 0xd8);
    SevenSteps(2, 0xd8, 0x800000000000808a, 0x1a);
    SevenSteps(3, 0x1a, 0x8000000080008000, 0xdf);
    SevenSteps(4, 0xdf, 0x808b, 0x09);
    SevenSteps(5, 0x09, 0x80000001, 0x35);
    SevenSteps(6, 0x35, 0x8000000080008081, 0x4f);
    SevenSteps(7, 0x4f, 0x8000000000008009, 0xca);
    SevenSteps(8, 0xca, 0x8a, 0x70);
    SevenSteps(9, 0x70, 0x88, 0x41);
    SevenSteps(10, 0x41, 0x80008009, 0xec);
    SevenSteps(11, 0xec, 0x8000000a, 0xd5);
  }

  lemma LastConstants()
    ensures forall i: nat | 12 <= i < 24 :: RC(i) == RoundConstant(i)
  {
    hide Register, RoundConstant;
    FirstConstants();
    SevenSteps(12, 0xd5, 0x8000808b, 0xcd);
    SevenSteps(13, 0xcd, 0x800000000000008b, 0x63);
    SevenSteps(14, 0x63, 0x8000000000008089, 0xab);
    SevenSteps(15, 0xab, 0x8000000000008003, 0xaa);
    SevenSteps(16, 0xaa, 0x8000000000008002, 0x2a);
    SevenSteps(17, 0x2a, 0x8000000000000080, 0xf2);
    SevenSteps(18, 0xf2, 0x800a, 0xe8);
    SevenSteps(19, 0xe8, 0x800000008000000a, 0x37);
    SevenSteps(20, 0x37, 0x8000000080008081, 0x3e);
    SevenSteps(21, 0x3e, 0x8000000000008080, 0x0b);
    SevenSteps(22, 0x0b, 0x80000001, 0x44);
    SevenSteps(23, 0x44, 0x8000000080008008, 0x8e);
  }

  /** The table of the code holds the round constants that the shift register yields. */
  lemma RoundConstants()
    ensures forall i: nat | i < 24 :: RC(i) == RoundConstant(i)
  {
    hide RC, RoundConstant, Register;
    FirstConstants();
    LastConstants();
  }

  lemma RegisterZero()
    ensures Register(0) == 1
  {
  }

  /** The place of Algorithm 2 after t steps of its walk from (1, 0). */
  function Walk(t: nat): (p: (nat, nat))
    ensures p.0 < 5 && p.1 < 5
  {
    if t == 0 then (1, 0) else var p := Walk(t - 1); (p.1, (2 * p.0 + 3 * p.1) % 5)
  }

  /** The time at which the walk is at a lane other than (0, 0). */
  function Time(x: nat, y: nat): (t: nat)
    requires x < 5 && y < 5
    ensures t < 24
  {
    match y
    case 0 => (match x case 0 => 0 case 1 => 0 case 2 => 18 case 3 => 6 case 4 => 12)
    case 1 => (match x case 0 => 7 case 1 => 23 case 2 => 2 case 3 => 9 case 4 => 22)
    case 2 => (match x case 0 => 1 case 1 => 3 case 2 => 17 case 3 => 16 case 4 => 20)
    case 3 => (match x case 0 => 13 case 1 => 8 case 2 => 4 case 3 => 5 case 4 => 15)
    case 4 => (match x case 0 => 19 case 1 => 10 case 2 => 21 case 3 => 14 case 4 => 11)
  }

  /** Algorithm 2 gives lane (x, y) its offset at time t. */
  predicate OnWalk(t: nat, x: nat, y: nat)
    requires x < 5 && y < 5
  {
    Walk(t) == (x, y) && Offset(x, y) as int == (t + 1) * (t + 2) / 2 % 64
  }

  lemma NextOffset(t: nat)
    ensures (t + 2) * (t + 3) / 2 % 64 == ((t + 1) * (t + 2) / 2 % 64 + t + 2) % 64
  {
    var a, c := (t + 1) * (t + 2), t + 2;
    assert (t + 2) * (t + 3) == a + 2 * c;
    HalfOfSum(a, c);
    ModOfSum(a / 2, c);
  }

  lemma HalfOfSum(a: nat, c: nat)
    ensures (a + 2 * c) / 2 == a / 2 + c
  {
  }

  lemma ModOfSum(q: nat, c: nat)
    ensures (q % 64 + c) % 64 == (q + c) % 64
  {
  }

  lemma WalkStep(t: nat, x: nat, y: nat, n: nat)
    requires x < 5 && y < 5 && n == (2 * x + 3 * y) % 5 && OnWalk(t, x, y)
    requires Offset(y, n) as int == (Offset(x, y) as int + t + 2) % 64
    ensures OnWalk(t + 1, y, n)
  {
    NextOffset(t);
  }

  lemma WalkStarts()
    ensures OnWalk(0, 1, 0) && OnWalk(1, 0, 2) && OnWalk(2, 2, 1) && OnWalk(3, 1, 2)
    ensures OnWalk(4, 2, 3) && OnWalk(5, 3, 3) && OnWalk(6, 3, 0) && OnWalk(7, 0, 1)
    ensures OnWalk(8, 1, 3) && OnWalk(9, 3, 1) && OnWalk(10, 1, 4) && OnWalk(11, 4, 4)
  {
    assert OnWalk(0, 1, 0);
    hide OnWalk;
    WalkStep(0, 1, 0, 2); WalkStep(1, 0, 2, 1); WalkStep(2, 2, 1, 2);
    WalkStep(3, 1, 2, 3); WalkStep(4, 2, 3, 3); WalkStep(5, 3, 3, 0);
    WalkStep(6, 3, 0, 1); WalkStep(7, 0, 1, 3); WalkStep(8, 1, 3, 1);
    WalkStep(9, 3, 1, 4); WalkStep(10, 1, 4, 4);
  }

  lemma WalkGoesOn()
    ensures OnWalk(12, 4, 0) && OnWalk(13, 0, 3) && OnWalk(14, 3, 4) && OnWalk(15, 4, 3)
    ensures OnWalk(16, 3, 2) && OnWalk(17, 2, 2) && OnWalk(18, 2, 0) && OnWalk(19, 0, 4)
    ensures OnWalk(20, 4, 2) && OnWalk(21, 2, 4) && OnWalk(22, 4, 1) && OnWalk(23, 1, 1)
  {
    hide OnWalk;
    WalkStarts();
    WalkStep(11, 4, 4, 0); WalkStep(12, 4, 0, 3); WalkStep(13, 0, 3, 4);
    WalkStep(14, 3, 4, 3); WalkStep(15, 4, 3, 2); WalkStep(16, 3, 2, 2);
    WalkStep(17, 2, 2, 0); WalkStep(18, 2, 0, 4); WalkStep(19, 0, 4, 2);
    WalkStep(20, 4, 2, 4); WalkStep(21, 2, 4, 1); WalkStep(22, 4, 1, 1);
  }

  /** The rotation table is the one Algorithm 2 computes on its walk over all lanes but (0, 0). */
  lemma RhoOffsets(x: nat, y: nat)
    requires x < 5 && y < 5
    ensures if x == 0 && y == 0 then Offset(x, y) == 0 else OnWalk(Time(x, y), x, y)
  {
    hide OnWalk;
    WalkStarts();
    WalkGoesOn();
  }
}
