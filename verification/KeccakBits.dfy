// The step mappings bit by bit, as sections 3.2.1 to 3.2.5 of FIPS 202 state them.
module KeccakBits {
  import opened KeccakSpec
  import opened LaneBits

  /** The bit A[x, y, z] of section 3.1.2: bit z of lane (x, y). */
  predicate A(a: Lanes, x: nat, y: nat, z: bv7)
    requires x < 5 && y < 5 && z < 64
  {
    IsSet(a[5 * y + x].bits, z)
  }

  /** Rotation by n moves bit z to position z + n modulo 64. */
  lemma RolMovesBits(a: Lane, n: bv7, z: bv7)
    requires n < 64 && z < 64
    ensures IsSet(Rol(a, n).bits, (z + n) % 64) == IsSet(a.bits, z)
  {
    hide IsSet, RolBits;
    if n != 0 {
      RolBitsAt(a.bits, n, z);
    }
  }

  lemma LaneXor(a: Lane, b: Lane, z: bv7)
    requires z < 64
    ensures IsSet(Xor(a, b).bits, z) == (IsSet(a.bits, z) != IsSet(b.bits, z))
  {
    hide IsSet, XorBits;
    XorBitsAt(a.bits, b.bits, z);
  }

  lemma LaneAndNot(a: Lane, b: Lane, z: bv7)
    requires z < 64
    ensures IsSet(AndNot(a, b).bits, z) == (!IsSet(a.bits, z) && IsSet(b.bits, z))
  {
    hide IsSet, AndNotBits;
    AndNotBitsAt(a.bits, b.bits, z);
  }

  /** C[x, z] of section 3.2.1: the sum of the five bits of a column, modulo 2. */
  predicate C(a: Lanes, x: nat, z: bv7)
    requires x < 5 && z < 64
  {
    A(a, x, 0, z) != (A(a, x, 1, z) != (A(a, x, 2, z) != (A(a, x, 3, z) != A(a, x, 4, z))))
  }

  lemma ParityBits(a: Lanes, x: nat, z: bv7)
    requires x < 5 && z < 64
    ensures IsSet(Parity(a, x).bits, z) == C(a, x, z)
  {
    hide IsSet, Xor;
    var p1 := Xor(At(a, x, 0), At(a, x, 1));
    var p2 := Xor(p1, At(a, x, 2));
    var p3 := Xor(p2, At(a, x, 3));
    LaneXor(At(a, x, 0), At(a, x, 1), z);
    LaneXor(p1, At(a, x, 2), z);
    LaneXor(p2, At(a, x, 3), z);
    LaneXor(p3, At(a, x, 4), z);
  }

  /** Section 3.2.1: theta adds to a bit the columns (x - 1, z) and (x + 1, z - 1). */
  lemma ThetaBits(a: Lanes, x: nat, y: nat, z: bv7)
    requires x < 5 && y < 5 && z < 64
    ensures A(Theta(a), x, y, z) == (A(a, x, y, z) != (C(a, (x + 4) % 5, z) != C(a, (x + 1) % 5, (z + 63) % 64)))
  {
    hide IsSet, Xor, Rol, Parity, C, State;
    var p, q := Parity(a, Right(x, 4)), Parity(a, Right(x, 1));
    ParityBits(a, Right(x, 4), z);
    ParityBits(a, Right(x, 1), (z + 63) % 64);
    RolMovesBits(q, 1, (z + 63) % 64);
    Around(z);
    LaneXor(p, Rol(q, 1), z);
    LaneXor(At(a, x, y), ThetaEffect(a, x), z);
    assert At(Theta(a), x, y) == Xor(At(a, x, y), ThetaEffect(a, x));
  }

  lemma Around(z: bv7)
    requires z < 64
    ensures (z + 63) % 64 < 64 && ((z + 63) % 64 + 1) % 64 == z
  {
  }

  /** Section 3.2.2: rho moves the bits of a lane by its offset, which KeccakTables.RhoOffsets gives. */
  lemma RhoBits(a: Lanes, x: nat, y: nat, z: bv7)
    requires x < 5 && y < 5 && z < 64
    ensures A(Rho(a), x, y, (z + Offset(x, y)) % 64) == A(a, x, y, z)
  {
    hide IsSet, Rol, Offset, State;
    RolMovesBits(At(a, x, y), Offset(x, y), z);
    assert At(Rho(a), x, y) == Rol(At(a, x, y), Offset(x, y));
  }

  /** Section 3.2.3: pi. */
  lemma PiBits(a: Lanes, x: nat, y: nat, z: bv7)
    requires x < 5 && y < 5 && z < 64
    ensures A(Pi(a), x, y, z) == A(a, (x + 3 * y) % 5, x, z)
  {
    hide IsSet, State;
    assert At(Pi(a), x, y) == At(a, Right(x, Right(y, Right(y, y))), x);
  }

  /** Section 3.2.4: chi adds to a bit the product of its two neighbours in the row, the first one inverted. */
  lemma ChiBits(a: Lanes, x: nat, y: nat, z: bv7)
    requires x < 5 && y < 5 && z < 64
    ensures A(Chi(a), x, y, z) == (A(a, x, y, z) != (!A(a, (x + 1) % 5, y, z) && A(a, (x + 2) % 5, y, z)))
  {
    hide IsSet, Xor, AndNot, State;
    var b, c := At(a, Right(x, 1), y), At(a, Right(x, 2), y);
    LaneAndNot(b, c, z);
    LaneXor(At(a, x, y), AndNot(b, c), z);
    assert At(Chi(a), x, y) == Xor(At(a, x, y), AndNot(b, c));
  }

  /** Section 3.2.5: iota adds the bits of the round constant to lane (0, 0). */
  lemma IotaBits(a: Lanes, rc: Lane, x: nat, y: nat, z: bv7)
    requires x < 5 && y < 5 && z < 64
    ensures A(Iota(a, rc), x, y, z) == (A(a, x, y, z) != (x == 0 && y == 0 && IsSet(rc.bits, z)))
  {
    hide IsSet, Xor, State;
    LaneXor(At(a, x, y), rc, z);
    assert At(Iota(a, rc), x, y) == if x == 0 && y == 0 then Xor(At(a, x, y), rc) else At(a, x, y);
  }
}
