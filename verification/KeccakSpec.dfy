// The permutation Keccak-f[1600] as sections 3.2 to 3.4 of FIPS 202 define it,
// on a state of 25 lanes of 64 bits. Lane (x, y) is element 5*y + x.
module KeccakSpec {
  import opened LaneBits

  /** A lane of 64 bits. */
  datatype Lane = Lane(bits: bv64)

  type Lanes = s: seq<Lane> | |s| == 25 witness seq(25, _ => Lane(0))

  /** Rotation of a lane towards higher bit positions. */
  function Rol(a: Lane, n: bv7): Lane
    requires n < 64
  {
    if n == 0 then a else Lane(RolBits(a.bits, n))
  }

  lemma RolZero(a: Lane)
    ensures Rol(a, 0) == a
  {
  }

  // The three operations on lanes, named so that a proof about where lanes go
  // can leave aside what happens to their bits.

  function Xor(a: Lane, b: Lane): Lane {
    Lane(XorBits(a.bits, b.bits))
  }

  function AndNot(a: Lane, b: Lane): Lane {
    Lane(AndNotBits(a.bits, b.bits))
  }

  function At(a: Lanes, x: nat, y: nat): Lane
    requires x < 5 && y < 5
  {
    a[5 * y + x]
  }

  /** x + n modulo 5, for coordinates. */
  function Right(x: nat, n: nat): (r: nat)
    requires x < 5 && n < 5
    ensures r < 5
  {
    if x + n < 5 then x + n else x + n - 5
  }

  /** The state whose lane (x, y) is f(x, y). */
  function State(f: (nat, nat) --> Lane): (a: Lanes)
    requires forall x: nat, y: nat | x < 5 && y < 5 :: f.requires(x, y)
    ensures forall x: nat, y: nat | x < 5 && y < 5 :: At(a, x, y) == f(x, y)
  {
    seq(25, i requires 0 <= i < 25 => f(i % 5, i / 5))
  }

  /** A state is determined by its lanes. */
  lemma SameLanes(a: Lanes, b: Lanes)
    requires forall x: nat, y: nat | x < 5 && y < 5 :: At(a, x, y) == At(b, x, y)
    ensures a == b
  {
    forall i | 0 <= i < 25 ensures a[i] == b[i] {
      assert At(a, i % 5, i / 5) == At(b, i % 5, i / 5);
    }
  }

  // ----- section 3.2.1, theta

  function Parity(a: Lanes, x: nat): Lane
    requires x < 5
  {
    Xor(Xor(Xor(Xor(At(a, x, 0), At(a, x, 1)), At(a, x, 2)), At(a, x, 3)), At(a, x, 4))
  }

  function ThetaEffect(a: Lanes, x: nat): Lane
    requires x < 5
  {
    Xor(Parity(a, Right(x, 4)), Rol(Parity(a, Right(x, 1)), 1))
  }

  function Theta(a: Lanes): Lanes {
    State((x: nat, y: nat) requires x < 5 && y < 5 => Xor(At(a, x, y), ThetaEffect(a, x)))
  }

  // ----- section 3.2.2, rho

  function Offset(x: nat, y: nat): (n: bv7)
    requires x < 5 && y < 5
    ensures n < 64
  {
    match y
    case 0 => (match x case 0 => 0 case 1 => 1 case 2 => 62 case 3 => 28 case 4 => 27)
    case 1 => (match x case 0 => 36 case 1 => 44 case 2 => 6 case 3 => 55 case 4 => 20)
    case 2 => (match x case 0 => 3 case 1 => 10 case 2 => 43 case 3 => 25 case 4 => 39)
    case 3 => (match x case 0 => 41 case 1 => 45 case 2 => 15 case 3 => 21 case 4 => 8)
    case 4 => (match x case 0 => 18 case 1 => 2 case 2 => 61 case 3 => 56 case 4 => 14)
  }

  function Rho(a: Lanes): Lanes {
    State((x: nat, y: nat) requires x < 5 && y < 5 => Rol(At(a, x, y), Offset(x, y)))
  }

  // ----- section 3.2.3, pi

  function Pi(a: Lanes): Lanes {
    State((x: nat, y: nat) requires x < 5 && y < 5 => At(a, Right(x, Right(y, Right(y, y))), x))
  }

  // ----- section 3.2.4, chi

  function Chi(a: Lanes): Lanes {
    State((x: nat, y: nat) requires x < 5 && y < 5 =>
      Xor(At(a, x, y), AndNot(At(a, Right(x, 1), y), At(a, Right(x, 2), y))))
  }

  // ----- section 3.2.5, iota

  function Iota(a: Lanes, rc: Lane): Lanes {
    State((x: nat, y: nat) requires x < 5 && y < 5 =>
      if x == 0 && y == 0 then Xor(At(a, x, y), rc) else At(a, x, y))
  }

  /** One step of the shift register of Algorithm 5: bit k of r is R[k]. */
  function RegisterStep(r: bv8): bv8 {
    if r & 0x80 != 0 then (r << 1) ^ 0x71 else r << 1
  }

  /** The register after n steps from R = 10000000. */
  function Register(n: nat): bv8 {
    if n == 0 then 1 else RegisterStep(Register(n - 1))
  }

  /** The bit rc(t) of Algorithm 5, for the t below 255 that the rounds use, moved to bit position p. */
  function RcBit(t: nat, p: bv7): bv64
    requires t < 255 && p < 64
  {
    if Register(t) & 1 != 0 then 1 << p else 0
  }

  /** The constant of round i: bit 2^j - 1 is rc(j + 7 * i), for j from 0 to 6. */
  function RoundConstant(i: nat): bv64
    requires i < 24
  {
    RcBit(7 * i, 0) | RcBit(7 * i + 1, 1) | RcBit(7 * i + 2, 3) | RcBit(7 * i + 3, 7)
    | RcBit(7 * i + 4, 15) | RcBit(7 * i + 5, 31) | RcBit(7 * i + 6, 63)
  }

  // ----- section 3.3 and 3.4, Keccak-f[1600]

  function Round(a: Lanes, rc: Lane): Lanes {
    Iota(Chi(Pi(Rho(Theta(a)))), rc)
  }

  function Rounds(a: Lanes, n: nat): Lanes
    requires n <= 24
  {
    if n == 0 then a else Round(Rounds(a, n - 1), Lane(RoundConstant(n - 1)))
  }

  function KeccakF(a: Lanes): Lanes {
    Rounds(a, 24)
  }
}
