// KeccakF1600Step: 24 rounds in six groups of four, each round in place and
// leaving the lanes in permuted positions that come back after four rounds.
module Keccak {
  import opened KeccakSpec
  import opened KeccakTables

  /** The index at which lane (x, y) is kept after k of the four rounds of a group. */
  function Place(k: nat, x: nat, y: nat): (i: nat)
    requires k <= 4 && x < 5 && y < 5
    ensures i < 25
  {
    match k
    case 0 => (match x
      case 0 => (match y case 0 => 0 case 1 => 5 case 2 => 10 case 3 => 15 case 4 => 20)
      case 1 => (match y case 0 => 1 case 1 => 6 case 2 => 11 case 3 => 16 case 4 => 21)
      case 2 => (match y case 0 => 2 case 1 => 7 case 2 => 12 case 3 => 17 case 4 => 22)
      case 3 => (match y case 0 => 3 case 1 => 8 case 2 => 13 case 3 => 18 case 4 => 23)
      case 4 => (match y case 0 => 4 case 1 => 9 case 2 => 14 case 3 => 19 case 4 => 24))
    case 1 => (match x
      case 0 => (match y case 0 => 0 case 1 => 10 case 2 => 20 case 3 => 5 case 4 => 15)
      case 1 => (match y case 0 => 6 case 1 => 16 case 2 => 1 case 3 => 11 case 4 => 21)
      case 2 => (match y case 0 => 12 case 1 => 22 case 2 => 7 case 3 => 17 case 4 => 2)
      case 3 => (match y case 0 => 18 case 1 => 3 case 2 => 13 case 3 => 23 case 4 => 8)
      case 4 => (match y case 0 => 24 case 1 => 9 case 2 => 19 case 3 => 4 case 4 => 14))
    case 2 => (match x
      case 0 => (match y case 0 => 0 case 1 => 20 case 2 => 15 case 3 => 10 case 4 => 5)
      case 1 => (match y case 0 => 16 case 1 => 11 case 2 => 6 case 3 => 1 case 4 => 21)
      case 2 => (match y case 0 => 7 case 1 => 2 case 2 => 22 case 3 => 17 case 4 => 12)
      case 3 => (match y case 0 => 23 case 1 => 18 case 2 => 13 case 3 => 8 case 4 => 3)
      case 4 => (match y case 0 => 14 case 1 => 9 case 2 => 4 case 3 => 24 case 4 => 19))
    case 3 => (match x
      case 0 => (match y case 0 => 0 case 1 => 15 case 2 => 5 case 3 => 20 case 4 => 10)
      case 1 => (match y case 0 => 11 case 1 => 1 case 2 => 16 case 3 => 6 case 4 => 21)
      case 2 => (match y case 0 => 22 case 1 => 12 case 2 => 2 case 3 => 17 case 4 => 7)
      case 3 => (match y case 0 => 8 case 1 => 23 case 2 => 13 case 3 => 3 case 4 => 18)
      case 4 => (match y case 0 => 19 case 1 => 9 case 2 => 24 case 3 => 14 case 4 => 4))
    case 4 => (match x
      case 0 => (match y case 0 => 0 case 1 => 5 case 2 => 10 case 3 => 15 case 4 => 20)
      case 1 => (match y case 0 => 1 case 1 => 6 case 2 => 11 case 3 => 16 case 4 => 21)
      case 2 => (match y case 0 => 2 case 1 => 7 case 2 => 12 case 3 => 17 case 4 => 22)
      case 3 => (match y case 0 => 3 case 1 => 8 case 2 => 13 case 3 => 18 case 4 => 23)
      case 4 => (match y case 0 => 4 case 1 => 9 case 2 => 14 case 3 => 19 case 4 => 24))
  }

  /** s holds the state a in the positions of k rounds into a group. */
  predicate Layout(k: nat, a: Lanes, s: seq<Lane>)
    requires k <= 4
  {
    |s| >= 25 && forall x: nat, y: nat | x < 5 && y < 5 :: s[Place(k, x, y)] == At(a, x, y)
  }

  /** Block y of a round finds in the place of new lane (x, y) the old lane (x, From(x, y)). */
  function From(x: nat, y: nat): (r: nat)
    requires x < 5 && y < 5
    ensures r < 5
  {
    match x
    case 0 => (match y case 0 => 0 case 1 => 2 case 2 => 4 case 3 => 1 case 4 => 3)
    case 1 => (match y case 0 => 1 case 1 => 3 case 2 => 0 case 3 => 2 case 4 => 4)
    case 2 => (match y case 0 => 2 case 1 => 4 case 2 => 1 case 3 => 3 case 4 => 0)
    case 3 => (match y case 0 => 3 case 1 => 0 case 2 => 2 case 3 => 4 case 4 => 1)
    case 4 => (match y case 0 => 4 case 1 => 1 case 2 => 3 case 3 => 0 case 4 => 2)
  }

  /** Round k of a group on the way from state a to state b: n of its five blocks are done. */
  predicate Progress(k: nat, n: nat, a: Lanes, b: Lanes, s: seq<Lane>)
    requires k < 4
  {
    && |s| >= 25
    && forall x: nat, y: nat | x < 5 && y < 5 ::
         s[Place(k + 1, x, y)] == if y < n then At(b, x, y) else At(a, x, From(x, y))
  }

  lemma PlacesAgree(k: nat, x: nat, y: nat)
    requires k < 4 && x < 5 && y < 5
    ensures Place(k + 1, x, y) == Place(k, x, From(x, y))
  {
  }

  lemma PlacesDiffer(k: nat, x: nat, y: nat, x': nat, y': nat)
    requires k <= 4 && x < 5 && y < 5 && x' < 5 && y' < 5 && (x != x' || y != y')
    ensures Place(k, x, y) != Place(k, x', y')
  {
  }

  lemma PlacesDiffer5(k: nat, x: nat, y: nat, n: nat)
    requires k <= 4 && x < 5 && y < 5 && n < 5
    ensures x != 0 || y != n ==> Place(k, x, y) != Place(k, 0, n)
    ensures x != 1 || y != n ==> Place(k, x, y) != Place(k, 1, n)
    ensures x != 2 || y != n ==> Place(k, x, y) != Place(k, 2, n)
    ensures x != 3 || y != n ==> Place(k, x, y) != Place(k, 3, n)
    ensures x != 4 || y != n ==> Place(k, x, y) != Place(k, 4, n)
  {
    hide Place;
    forall x': nat | x' < 5 && (x != x' || y != n) ensures Place(k, x, y) != Place(k, x', n) {
      PlacesDiffer(k, x, y, x', n);
    }
  }

  lemma ProgressStart(k: nat, a: Lanes, b: Lanes, s: seq<Lane>)
    requires k < 4 && Layout(k, a, s)
    ensures Progress(k, 0, a, b, s)
  {
    hide At, Place, From;
    forall x: nat, y: nat | x < 5 && y < 5 ensures s[Place(k + 1, x, y)] == At(a, x, From(x, y)) {
      PlacesAgree(k, x, y);
    }
  }

  /** q0 to q4 are the lanes of columns 0 to 4 that block y of round k rewrites. */
  predicate BlockLanes(k: nat, y: nat, q0: nat, q1: nat, q2: nat, q3: nat, q4: nat)
    requires k < 4 && y < 5
  {
    && q0 == Place(k + 1, 0, y) && q1 == Place(k + 1, 1, y) && q2 == Place(k + 1, 2, y)
    && q3 == Place(k + 1, 3, y) && q4 == Place(k + 1, 4, y)
  }

  lemma Inputs(k: nat, n: nat, a: Lanes, b: Lanes, s: seq<Lane>, q0: nat, q1: nat, q2: nat, q3: nat, q4: nat)
    requires k < 4 && n < 5 && Progress(k, n, a, b, s) && BlockLanes(k, n, q0, q1, q2, q3, q4)
    ensures q0 < 25 && q1 < 25 && q2 < 25 && q3 < 25 && q4 < 25
    ensures s[q0] == At(a, 0, From(0, n)) && s[q1] == At(a, 1, From(1, n)) && s[q2] == At(a, 2, From(2, n))
    ensures s[q3] == At(a, 3, From(3, n)) && s[q4] == At(a, 4, From(4, n))
  {
    hide At, Place, From;
  }

  /** What writing v0 to v4 to the lanes of block n leaves where. */
  lemma Outputs(k: nat, n: nat, a: Lanes, b: Lanes, s: seq<Lane>, t: seq<Lane>,
                q0: nat, q1: nat, q2: nat, q3: nat, q4: nat)
    requires k < 4 && n < 5 && Progress(k, n, a, b, s) && BlockLanes(k, n, q0, q1, q2, q3, q4)
    requires t == s[q0 := At(b, 0, n)][q1 := At(b, 1, n)][q2 := At(b, 2, n)][q3 := At(b, 3, n)][q4 := At(b, 4, n)]
    ensures Progress(k, n + 1, a, b, t)
  {
    hide At, Place, From;
    forall x: nat, y: nat | x < 5 && y < 5
      ensures t[Place(k + 1, x, y)] == if y < n + 1 then At(b, x, y) else At(a, x, From(x, y))
    {
      PlacesDiffer5(k + 1, x, y, n);
      assert s[Place(k + 1, x, y)] == if y < n then At(b, x, y) else At(a, x, From(x, y));
    }
  }

  // ----- one round, lane by lane

  /** Lane (x, y) after theta, rho and pi. */
  function Moved(a: Lanes, x: nat, y: nat): Lane
    requires x < 5 && y < 5
  {
    var from := Right(x, Right(y, Right(y, y)));
    Rol(Xor(At(a, from, x), ThetaEffect(a, from)), Offset(from, x))
  }

  /** The value a block leaves in a lane: b0 ^ (~b1 & b2). */
  function Mix(b0: Lane, b1: Lane, b2: Lane): Lane {
    Xor(b0, AndNot(b1, b2))
  }

  lemma MovedLane(a: Lanes, x: nat, y: nat)
    requires x < 5 && y < 5
    ensures At(Pi(Rho(Theta(a))), x, y) == Moved(a, x, y)
  {
    hide State, At, Xor, Rol, ThetaEffect, Offset;
  }

  lemma RoundLane(a: Lanes, rc: Lane, x: nat, y: nat)
    requires x < 5 && y < 5
    ensures var m := Mix(Moved(a, x, y), Moved(a, Right(x, 1), y), Moved(a, Right(x, 2), y));
            At(Round(a, rc), x, y) == if x == 0 && y == 0 then Xor(m, rc) else m
  {
    hide State, At, Xor, AndNot, Rol, Moved, Theta, Rho, Pi, Right;
    var p := Pi(Rho(Theta(a)));
    MovedLane(a, x, y);
    MovedLane(a, Right(x, 1), y);
    MovedLane(a, Right(x, 2), y);
    assert At(Chi(p), x, y) == Xor(At(p, x, y), AndNot(At(p, Right(x, 1), y), At(p, Right(x, 2), y)));
  }

  /** Row y of the new state from the five lanes b0 to b4 of a block. */
  lemma RoundRow(a: Lanes, rc: Lane, y: nat, b0: Lane, b1: Lane, b2: Lane, b3: Lane, b4: Lane)
    requires y < 5 && b0 == Moved(a, 0, y) && b1 == Moved(a, 1, y) && b2 == Moved(a, 2, y)
    requires b3 == Moved(a, 3, y) && b4 == Moved(a, 4, y)
    ensures At(Round(a, rc), 0, y) == if y == 0 then Xor(Mix(b0, b1, b2), rc) else Mix(b0, b1, b2)
    ensures At(Round(a, rc), 1, y) == Mix(b1, b2, b3) && At(Round(a, rc), 2, y) == Mix(b2, b3, b4)
    ensures At(Round(a, rc), 3, y) == Mix(b3, b4, b0) && At(Round(a, rc), 4, y) == Mix(b4, b0, b1)
  {
    hide At, Mix, Moved, Round, Xor;
    RoundLane(a, rc, 0, y);
    RoundLane(a, rc, 1, y);
    RoundLane(a, rc, 2, y);
    RoundLane(a, rc, 3, y);
    RoundLane(a, rc, 4, y);
  }

  lemma Sources0(a: Lanes)
    ensures Moved(a, 0, 0) == Xor(At(a, 0, 0), ThetaEffect(a, 0))
    ensures Moved(a, 1, 0) == Rol(Xor(At(a, 1, 1), ThetaEffect(a, 1)), 44)
    ensures Moved(a, 2, 0) == Rol(Xor(At(a, 2, 2), ThetaEffect(a, 2)), 43)
    ensures Moved(a, 3, 0) == Rol(Xor(At(a, 3, 3), ThetaEffect(a, 3)), 21)
    ensures Moved(a, 4, 0) == Rol(Xor(At(a, 4, 4), ThetaEffect(a, 4)), 14)
  {
    hide At, Xor, Rol, ThetaEffect;
    RolZero(Xor(At(a, 0, 0), ThetaEffect(a, 0)));
  }

  lemma Sources1(a: Lanes)
    ensures Moved(a, 0, 1) == Rol(Xor(At(a, 3, 0), ThetaEffect(a, 3)), 28)
    ensures Moved(a, 1, 1) == Rol(Xor(At(a, 4, 1), ThetaEffect(a, 4)), 20)
    ensures Moved(a, 2, 1) == Rol(Xor(At(a, 0, 2), ThetaEffect(a, 0)), 3)
    ensures Moved(a, 3, 1) == Rol(Xor(At(a, 1, 3), ThetaEffect(a, 1)), 45)
    ensures Moved(a, 4, 1) == Rol(Xor(At(a, 2, 4), ThetaEffect(a, 2)), 61)
  {
    hide At, Xor, Rol, ThetaEffect;
  }

  lemma Sources2(a: Lanes)
    ensures Moved(a, 0, 2) == Rol(Xor(At(a, 1, 0), ThetaEffect(a, 1)), 1)
    ensures Moved(a, 1, 2) == Rol(Xor(At(a, 2, 1), ThetaEffect(a, 2)), 6)
    ensures Moved(a, 2, 2) == Rol(Xor(At(a, 3, 2), ThetaEffect(a, 3)), 25)
    ensures Moved(a, 3, 2) == Rol(Xor(At(a, 4, 3), ThetaEffect(a, 4)), 8)
    ensures Moved(a, 4, 2) == Rol(Xor(At(a, 0, 4), ThetaEffect(a, 0)), 18)
  {
    hide At, Xor, Rol, ThetaEffect;
  }

  lemma Sources3(a: Lanes)
    ensures Moved(a, 0, 3) == Rol(Xor(At(a, 4, 0), ThetaEffect(a, 4)), 27)
    ensures Moved(a, 1, 3) == Rol(Xor(At(a, 0, 1), ThetaEffect(a, 0)), 36)
    ensures Moved(a, 2, 3) == Rol(Xor(At(a, 1, 2), ThetaEffect(a, 1)), 10)
    ensures Moved(a, 3, 3) == Rol(Xor(At(a, 2, 3), ThetaEffect(a, 2)), 15)
    ensures Moved(a, 4, 3) == Rol(Xor(At(a, 3, 4), ThetaEffect(a, 3)), 56)
  {
    hide At, Xor, Rol, ThetaEffect;
  }

  lemma Sources4(a: Lanes)
    ensures Moved(a, 0, 4) == Rol(Xor(At(a, 2, 0), ThetaEffect(a, 2)), 62)
    ensures Moved(a, 1, 4) == Rol(Xor(At(a, 3, 1), ThetaEffect(a, 3)), 55)
    ensures Moved(a, 2, 4) == Rol(Xor(At(a, 4, 2), ThetaEffect(a, 4)), 39)
    ensures Moved(a, 3, 4) == Rol(Xor(At(a, 0, 3), ThetaEffect(a, 0)), 41)
    ensures Moved(a, 4, 4) == Rol(Xor(At(a, 1, 4), ThetaEffect(a, 1)), 2)
  {
    hide At, Xor, Rol, ThetaEffect;
  }

  // ----- the in-place code

  predicate Effects(a: Lanes, d0: Lane, d1: Lane, d2: Lane, d3: Lane, d4: Lane) {
    && d0 == ThetaEffect(a, 0) && d1 == ThetaEffect(a, 1) && d2 == ThetaEffect(a, 2)
    && d3 == ThetaEffect(a, 3) && d4 == ThetaEffect(a, 4)
  }

  // Each of these five methods is one block of ten assignments.

  method Block0(ghost k: nat, ghost a: Lanes, s: array<Lane>, q0: nat, q1: nat, q2: nat, q3: nat, q4: nat,
                d0: Lane, d1: Lane, d2: Lane, d3: Lane, d4: Lane, rc: Lane)
    requires k < 4 && Progress(k, 0, a, Round(a, rc), s[..])
    requires BlockLanes(k, 0, q0, q1, q2, q3, q4) && Effects(a, d0, d1, d2, d3, d4)
    modifies s
    ensures Progress(k, 1, a, Round(a, rc), s[..]) && s[25..] == old(s[25..])
  {
    hide At, Xor, AndNot, Rol, ThetaEffect, Mix, Moved, Round, Place;
    Sources0(a);
    ghost var s0 := s[..];
    Inputs(k, 0, a, Round(a, rc), s0, q0, q1, q2, q3, q4);
    var b0 := Xor(s[q0], d0);
    var b1 := Rol(Xor(s[q1], d1), 44);
    var b2 := Rol(Xor(s[q2], d2), 43);
    var b3 := Rol(Xor(s[q3], d3), 21);
    var b4 := Rol(Xor(s[q4], d4), 14);
    RoundRow(a, rc, 0, b0, b1, b2, b3, b4);
    s[q0] := Mix(b0, b1, b2);
    s[q0] := Xor(s[q0], rc);
    assert s[..] == s0[q0 := Xor(Mix(b0, b1, b2), rc)];
    s[q1] := Mix(b1, b2, b3);
    s[q2] := Mix(b2, b3, b4);
    s[q3] := Mix(b3, b4, b0);
    s[q4] := Mix(b4, b0, b1);
    Outputs(k, 0, a, Round(a, rc), s0, s[..], q0, q1, q2, q3, q4);
  }

  method Block1(ghost k: nat, ghost a: Lanes, s: array<Lane>, q0: nat, q1: nat, q2: nat, q3: nat, q4: nat,
                d0: Lane, d1: Lane, d2: Lane, d3: Lane, d4: Lane, ghost rc: Lane)
    requires k < 4 && Progress(k, 1, a, Round(a, rc), s[..])
    requires BlockLanes(k, 1, q0, q1, q2, q3, q4) && Effects(a, d0, d1, d2, d3, d4)
    modifies s
    ensures Progress(k, 2, a, Round(a, rc), s[..]) && s[25..] == old(s[25..])
  {
    hide At, Xor, AndNot, Rol, ThetaEffect, Mix, Moved, Round, Place;
    Sources1(a);
    ghost var s0 := s[..];
    Inputs(k, 1, a, Round(a, rc), s0, q0, q1, q2, q3, q4);
    var b2 := Rol(Xor(s[q0], d0), 3);
    var b3 := Rol(Xor(s[q1], d1), 45);
    var b4 := Rol(Xor(s[q2], d2), 61);
    var b0 := Rol(Xor(s[q3], d3), 28);
    var b1 := Rol(Xor(s[q4], d4), 20);
    RoundRow(a, rc, 1, b0, b1, b2, b3, b4);
    s[q0] := Mix(b0, b1, b2);
    s[q1] := Mix(b1, b2, b3);
    s[q2] := Mix(b2, b3, b4);
    s[q3] := Mix(b3, b4, b0);
    s[q4] := Mix(b4, b0, b1);
    Outputs(k, 1, a, Round(a, rc), s0, s[..], q0, q1, q2, q3, q4);
  }

  method Block2(ghost k: nat, ghost a: Lanes, s: array<Lane>, q0: nat, q1: nat, q2: nat, q3: nat, q4: nat,
                d0: Lane, d1: Lane, d2: Lane, d3: Lane, d4: Lane, ghost rc: Lane)
    requires k < 4 && Progress(k, 2, a, Round(a, rc), s[..])
    requires BlockLanes(k, 2, q0, q1, q2, q3, q4) && Effects(a, d0, d1, d2, d3, d4)
    modifies s
    ensures Progress(k, 3, a, Round(a, rc), s[..]) && s[25..] == old(s[25..])
  {
    hide At, Xor, AndNot, Rol, ThetaEffect, Mix, Moved, Round, Place;
    Sources2(a);
    ghost var s0 := s[..];
    Inputs(k, 2, a, Round(a, rc), s0, q0, q1, q2, q3, q4);
    var b4 := Rol(Xor(s[q0], d0), 18);
    var b0 := Rol(Xor(s[q1], d1), 1);
    var b1 := Rol(Xor(s[q2], d2), 6);
    var b2 := Rol(Xor(s[q3], d3), 25);
    var b3 := Rol(Xor(s[q4], d4), 8);
    RoundRow(a, rc, 2, b0, b1, b2, b3, b4);
    s[q0] := Mix(b0, b1, b2);
    s[q1] := Mix(b1, b2, b3);
    s[q2] := Mix(b2, b3, b4);
    s[q3] := Mix(b3, b4, b0);
    s[q4] := Mix(b4, b0, b1);
    Outputs(k, 2, a, Round(a, rc), s0, s[..], q0, q1, q2, q3, q4);
  }

  method Block3(ghost k: nat, ghost a: Lanes, s: array<Lane>, q0: nat, q1: nat, q2: nat, q3: nat, q4: nat,
                d0: Lane, d1: Lane, d2: Lane, d3: Lane, d4: Lane, ghost rc: Lane)
    requires k < 4 && Progress(k, 3, a, Round(a, rc), s[..])
    requires BlockLanes(k, 3, q0, q1, q2, q3, q4) && Effects(a, d0, d1, d2, d3, d4)
    modifies s
    ensures Progress(k, 4, a, Round(a, rc), s[..]) && s[25..] == old(s[25..])
  {
    hide At, Xor, AndNot, Rol, ThetaEffect, Mix, Moved, Round, Place;
    Sources3(a);
    ghost var s0 := s[..];
    Inputs(k, 3, a, Round(a, rc), s0, q0, q1, q2, q3, q4);
    var b1 := Rol(Xor(s[q0], d0), 36);
    var b2 := Rol(Xor(s[q1], d1), 10);
    var b3 := Rol(Xor(s[q2], d2), 15);
    var b4 := Rol(Xor(s[q3], d3), 56);
    var b0 := Rol(Xor(s[q4], d4), 27);
    RoundRow(a, rc, 3, b0, b1, b2, b3, b4);
    s[q0] := Mix(b0, b1, b2);
    s[q1] := Mix(b1, b2, b3);
    s[q2] := Mix(b2, b3, b4);
    s[q3] := Mix(b3, b4, b0);
    s[q4] := Mix(b4, b0, b1);
    Outputs(k, 3, a, Round(a, rc), s0, s[..], q0, q1, q2, q3, q4);
  }

  method Block4(ghost k: nat, ghost a: Lanes, s: array<Lane>, q0: nat, q1: nat, q2: nat, q3: nat, q4: nat,
                d0: Lane, d1: Lane, d2: Lane, d3: Lane, d4: Lane, ghost rc: Lane)
    requires k < 4 && Progress(k, 4, a, Round(a, rc), s[..])
    requires BlockLanes(k, 4, q0, q1, q2, q3, q4) && Effects(a, d0, d1, d2, d3, d4)
    modifies s
    ensures Progress(k, 5, a, Round(a, rc), s[..]) && s[25..] == old(s[25..])
  {
    hide At, Xor, AndNot, Rol, ThetaEffect, Mix, Moved, Round, Place;
    Sources4(a);
    ghost var s0 := s[..];
    Inputs(k, 4, a, Round(a, rc), s0, q0, q1, q2, q3, q4);
    var b3 := Rol(Xor(s[q0], d0), 41);
    var b4 := Rol(Xor(s[q1], d1), 2);
    var b0 := Rol(Xor(s[q2], d2), 62);
    var b1 := Rol(Xor(s[q3], d3), 55);
    var b2 := Rol(Xor(s[q4], d4), 39);
    RoundRow(a, rc, 4, b0, b1, b2, b3, b4);
    s[q0] := Mix(b0, b1, b2);
    s[q1] := Mix(b1, b2, b3);
    s[q2] := Mix(b2, b3, b4);
    s[q3] := Mix(b3, b4, b0);
    s[q4] := Mix(b4, b0, b1);
    Outputs(k, 4, a, Round(a, rc), s0, s[..], q0, q1, q2, q3, q4);
  }

  lemma Columns0(a: Lanes, s: seq<Lane>)
    requires Layout(0, a, s)
    ensures Parity(a, 0) == Xor(Xor(Xor(Xor(s[0], s[5]), s[10]), s[15]), s[20])
    ensures Parity(a, 1) == Xor(Xor(Xor(Xor(s[1], s[6]), s[11]), s[16]), s[21])
    ensures Parity(a, 2) == Xor(Xor(Xor(Xor(s[2], s[7]), s[12]), s[17]), s[22])
    ensures Parity(a, 3) == Xor(Xor(Xor(Xor(s[3], s[8]), s[13]), s[18]), s[23])
    ensures Parity(a, 4) == Xor(Xor(Xor(Xor(s[4], s[9]), s[14]), s[19]), s[24])
  {
    hide Xor, At;
  }

  lemma Lanes0()
    ensures Place(1, 0, 0) == 0 && Place(1, 1, 0) == 6 && Place(1, 2, 0) == 12 && Place(1, 3, 0) == 18 &&
      Place(1, 4, 0) == 24
    ensures Place(1, 0, 1) == 10 && Place(1, 1, 1) == 16 && Place(1, 2, 1) == 22 && Place(1, 3, 1) == 3 &&
      Place(1, 4, 1) == 9
    ensures Place(1, 0, 2) == 20 && Place(1, 1, 2) == 1 && Place(1, 2, 2) == 7 && Place(1, 3, 2) == 13 &&
      Place(1, 4, 2) == 19
    ensures Place(1, 0, 3) == 5 && Place(1, 1, 3) == 11 && Place(1, 2, 3) == 17 && Place(1, 3, 3) == 23 &&
      Place(1, 4, 3) == 4
    ensures Place(1, 0, 4) == 15 && Place(1, 1, 4) == 21 && Place(1, 2, 4) == 2 && Place(1, 3, 4) == 8 &&
      Place(1, 4, 4) == 14
  {
  }

  method Round0(ghost a: Lanes, s: array<Lane>, rc: Lane)
    requires Layout(0, a, s[..])
    modifies s
    ensures Layout(1, Round(a, rc), s[..]) && s[25..] == old(s[25..])
  {
    hide Xor, Rol, AndNot, At, Parity, Effects, Progress, Layout, Round, Place, From;
    assert s.Length >= 25 by { LayoutSize(0, a, s[..]); }
    Columns0(a, s[..]);
    Lanes0();
    ProgressStart(0, a, Round(a, rc), s[..]);
    var c0 := Xor(Xor(Xor(Xor(s[0], s[5]), s[10]), s[15]), s[20]);
    var c1 := Xor(Xor(Xor(Xor(s[1], s[6]), s[11]), s[16]), s[21]);
    var c2 := Xor(Xor(Xor(Xor(s[2], s[7]), s[12]), s[17]), s[22]);
    var c3 := Xor(Xor(Xor(Xor(s[3], s[8]), s[13]), s[18]), s[23]);
    var c4 := Xor(Xor(Xor(Xor(s[4], s[9]), s[14]), s[19]), s[24]);
    var d0 := Xor(c4, Rol(c1, 1));
    var d1 := Xor(c0, Rol(c2, 1));
    var d2 := Xor(c1, Rol(c3, 1));
    var d3 := Xor(c2, Rol(c4, 1));
    var d4 := Xor(c3, Rol(c0, 1));
    EffectsOf(a, c0, c1, c2, c3, c4);
    Block0(0, a, s, 0, 6, 12, 18, 24, d0, d1, d2, d3, d4, rc);
    Block1(0, a, s, 10, 16, 22, 3, 9, d0, d1, d2, d3, d4, rc);
    Block2(0, a, s, 20, 1, 7, 13, 19, d0, d1, d2, d3, d4, rc);
    Block3(0, a, s, 5, 11, 17, 23, 4, d0, d1, d2, d3, d4, rc);
    Block4(0, a, s, 15, 21, 2, 8, 14, d0, d1, d2, d3, d4, rc);
    ProgressEnd(0, a, Round(a, rc), s[..]);
  }

  lemma Columns1(a: Lanes, s: seq<Lane>)
    requires Layout(1, a, s)
    ensures Parity(a, 0) == Xor(Xor(Xor(Xor(s[0], s[10]), s[20]), s[5]), s[15])
    ensures Parity(a, 1) == Xor(Xor(Xor(Xor(s[6], s[16]), s[1]), s[11]), s[21])
    ensures Parity(a, 2) == Xor(Xor(Xor(Xor(s[12], s[22]), s[7]), s[17]), s[2])
    ensures Parity(a, 3) == Xor(Xor(Xor(Xor(s[18], s[3]), s[13]), s[23]), s[8])
    ensures Parity(a, 4) == Xor(Xor(Xor(Xor(s[24], s[9]), s[19]), s[4]), s[14])
  {
    hide Xor, At;
  }

  lemma Lanes1()
    ensures Place(2, 0, 0) == 0 && Place(2, 1, 0) == 16 && Place(2, 2, 0) == 7 && Place(2, 3, 0) == 23 &&
      Place(2, 4, 0) == 14
    ensures Place(2, 0, 1) == 20 && Place(2, 1, 1) == 11 && Place(2, 2, 1) == 2 && Place(2, 3, 1) == 18 &&
      Place(2, 4, 1) == 9
    ensures Place(2, 0, 2) == 15 && Place(2, 1, 2) == 6 && Place(2, 2, 2) == 22 && Place(2, 3, 2) == 13 &&
      Place(2, 4, 2) == 4
    ensures Place(2, 0, 3) == 10 && Place(2, 1, 3) == 1 && Place(2, 2, 3) == 17 && Place(2, 3, 3) == 8 &&
      Place(2, 4, 3) == 24
    ensures Place(2, 0, 4) == 5 && Place(2, 1, 4) == 21 && Place(2, 2, 4) == 12 && Place(2, 3, 4) == 3 &&
      Place(2, 4, 4) == 19
  {
  }

  method Round1(ghost a: Lanes, s: array<Lane>, rc: Lane)
    requires Layout(1, a, s[..])
    modifies s
    ensures Layout(2, Round(a, rc), s[..]) && s[25..] == old(s[25..])
  {
    hide Xor, Rol, AndNot, At, Parity, Effects, Progress, Layout, Round, Place, From;
    assert s.Length >= 25 by { LayoutSize(1, a, s[..]); }
    Columns1(a, s[..]);
    Lanes1();
    ProgressStart(1, a, Round(a, rc), s[..]);
    var c0 := Xor(Xor(Xor(Xor(s[0], s[10]), s[20]), s[5]), s[15]);
    var c1 := Xor(Xor(Xor(Xor(s[6], s[16]), s[1]), s[11]), s[21]);
    var c2 := Xor(Xor(Xor(Xor(s[12], s[22]), s[7]), s[17]), s[2]);
    var c3 := Xor(Xor(Xor(Xor(s[18], s[3]), s[13]), s[23]), s[8]);
    var c4 := Xor(Xor(Xor(Xor(s[24], s[9]), s[19]), s[4]), s[14]);
    var d0 := Xor(c4, Rol(c1, 1));
    var d1 := Xor(c0, Rol(c2, 1));
    var d2 := Xor(c1, Rol(c3, 1));
    var d3 := Xor(c2, Rol(c4, 1));
    var d4 := Xor(c3, Rol(c0, 1));
    EffectsOf(a, c0, c1, c2, c3, c4);
    Block0(1, a, s, 0, 16, 7, 23, 14, d0, d1, d2, d3, d4, rc);
    Block1(1, a, s, 20, 11, 2, 18, 9, d0, d1, d2, d3, d4, rc);
    Block2(1, a, s, 15, 6, 22, 13, 4, d0, d1, d2, d3, d4, rc);
    Block3(1, a, s, 10, 1, 17, 8, 24, d0, d1, d2, d3, d4, rc);
    Block4(1, a, s, 5, 21, 12, 3, 19, d0, d1, d2, d3, d4, rc);
    ProgressEnd(1, a, Round(a, rc), s[..]);
  }

  lemma Columns2(a: Lanes, s: seq<Lane>)
    requires Layout(2, a, s)
    ensures Parity(a, 0) == Xor(Xor(Xor(Xor(s[0], s[20]), s[15]), s[10]), s[5])
    ensures Parity(a, 1) == Xor(Xor(Xor(Xor(s[16], s[11]), s[6]), s[1]), s[21])
    ensures Parity(a, 2) == Xor(Xor(Xor(Xor(s[7], s[2]), s[22]), s[17]), s[12])
    ensures Parity(a, 3) == Xor(Xor(Xor(Xor(s[23], s[18]), s[13]), s[8]), s[3])
    ensures Parity(a, 4) == Xor(Xor(Xor(Xor(s[14], s[9]), s[4]), s[24]), s[19])
  {
    hide Xor, At;
  }

  lemma Lanes2()
    ensures Place(3, 0, 0) == 0 && Place(3, 1, 0) == 11 && Place(3, 2, 0) == 22 && Place(3, 3, 0) == 8 &&
      Place(3, 4, 0) == 19
    ensures Place(3, 0, 1) == 15 && Place(3, 1, 1) == 1 && Place(3, 2, 1) == 12 && Place(3, 3, 1) == 23 &&
      Place(3, 4, 1) == 9
    ensures Place(3, 0, 2) == 5 && Place(3, 1, 2) == 16 && Place(3, 2, 2) == 2 && Place(3, 3, 2) == 13 &&
      Place(3, 4, 2) == 24
    ensures Place(3, 0, 3) == 20 && Place(3, 1, 3) == 6 && Place(3, 2, 3) == 17 && Place(3, 3, 3) == 3 &&
      Place(3, 4, 3) == 14
    ensures Place(3, 0, 4) == 10 && Place(3, 1, 4) == 21 && Place(3, 2, 4) == 7 && Place(3, 3, 4) == 18 &&
      Place(3, 4, 4) == 4
  {
  }

  method Round2(ghost a: Lanes, s: array<Lane>, rc: Lane)
    requires Layout(2, a, s[..])
    modifies s
    ensures Layout(3, Round(a, rc), s[..]) && s[25..] == old(s[25..])
  {
    hide Xor, Rol, AndNot, At, Parity, Effects, Progress, Layout, Round, Place, From;
    assert s.Length >= 25 by { LayoutSize(2, a, s[..]); }
    Columns2(a, s[..]);
    Lanes2();
    ProgressStart(2, a, Round(a, rc), s[..]);
    var c0 := Xor(Xor(Xor(Xor(s[0], s[20]), s[15]), s[10]), s[5]);
    var c1 := Xor(Xor(Xor(Xor(s[16], s[11]), s[6]), s[1]), s[21]);
    var c2 := Xor(Xor(Xor(Xor(s[7], s[2]), s[22]), s[17]), s[12]);
    var c3 := Xor(Xor(Xor(Xor(s[23], s[18]), s[13]), s[8]), s[3]);
    var c4 := Xor(Xor(Xor(Xor(s[14], s[9]), s[4]), s[24]), s[19]);
    var d0 := Xor(c4, Rol(c1, 1));
    var d1 := Xor(c0, Rol(c2, 1));
    var d2 := Xor(c1, Rol(c3, 1));
    var d3 := Xor(c2, Rol(c4, 1));
    var d4 := Xor(c3, Rol(c0, 1));
    EffectsOf(a, c0, c1, c2, c3, c4);
    Block0(2, a, s, 0, 11, 22, 8, 19, d0, d1, d2, d3, d4, rc);
    Block1(2, a, s, 15, 1, 12, 23, 9, d0, d1, d2, d3, d4, rc);
    Block2(2, a, s, 5, 16, 2, 13, 24, d0, d1, d2, d3, d4, rc);
    Block3(2, a, s, 20, 6, 17, 3, 14, d0, d1, d2, d3, d4, rc);
    Block4(2, a, s, 10, 21, 7, 18, 4, d0, d1, d2, d3, d4, rc);
    ProgressEnd(2, a, Round(a, rc), s[..]);
  }

  lemma Columns3(a: Lanes, s: seq<Lane>)
    requires Layout(3, a, s)
    ensures Parity(a, 0) == Xor(Xor(Xor(Xor(s[0], s[15]), s[5]), s[20]), s[10])
    ensures Parity(a, 1) == Xor(Xor(Xor(Xor(s[11], s[1]), s[16]), s[6]), s[21])
    ensures Parity(a, 2) == Xor(Xor(Xor(Xor(s[22], s[12]), s[2]), s[17]), s[7])
    ensures Parity(a, 3) == Xor(Xor(Xor(Xor(s[8], s[23]), s[13]), s[3]), s[18])
    ensures Parity(a, 4) == Xor(Xor(Xor(Xor(s[19], s[9]), s[24]), s[14]), s[4])
  {
    hide Xor, At;
  }

  lemma Lanes3()
    ensures Place(4, 0, 0) == 0 && Place(4, 1, 0) == 1 && Place(4, 2, 0) == 2 && Place(4, 3, 0) == 3 &&
      Place(4, 4, 0) == 4
    ensures Place(4, 0, 1) == 5 && Place(4, 1, 1) == 6 && Place(4, 2, 1) == 7 && Place(4, 3, 1) == 8 &&
      Place(4, 4, 1) == 9
    ensures Place(4, 0, 2) == 10 && Place(4, 1, 2) == 11 && Place(4, 2, 2) == 12 && Place(4, 3, 2) == 13 &&
      Place(4, 4, 2) == 14
    ensures Place(4, 0, 3) == 15 && Place(4, 1, 3) == 16 && Place(4, 2, 3) == 17 && Place(4, 3, 3) == 18 &&
      Place(4, 4, 3) == 19
    ensures Place(4, 0, 4) == 20 && Place(4, 1, 4) == 21 && Place(4, 2, 4) == 22 && Place(4, 3, 4) == 23 &&
      Place(4, 4, 4) == 24
  {
  }

  method Round3(ghost a: Lanes, s: array<Lane>, rc: Lane)
    requires Layout(3, a, s[..])
    modifies s
    ensures Layout(4, Round(a, rc), s[..]) && s[25..] == old(s[25..])
  {
    hide Xor, Rol, AndNot, At, Parity, Effects, Progress, Layout, Round, Place, From;
    assert s.Length >= 25 by { LayoutSize(3, a, s[..]); }
    Columns3(a, s[..]);
    Lanes3();
    ProgressStart(3, a, Round(a, rc), s[..]);
    var c0 := Xor(Xor(Xor(Xor(s[0], s[15]), s[5]), s[20]), s[10]);
    var c1 := Xor(Xor(Xor(Xor(s[11], s[1]), s[16]), s[6]), s[21]);
    var c2 := Xor(Xor(Xor(Xor(s[22], s[12]), s[2]), s[17]), s[7]);
    var c3 := Xor(Xor(Xor(Xor(s[8], s[23]), s[13]), s[3]), s[18]);
    var c4 := Xor(Xor(Xor(Xor(s[19], s[9]), s[24]), s[14]), s[4]);
    var d0 := Xor(c4, Rol(c1, 1));
    var d1 := Xor(c0, Rol(c2, 1));
    var d2 := Xor(c1, Rol(c3, 1));
    var d3 := Xor(c2, Rol(c4, 1));
    var d4 := Xor(c3, Rol(c0, 1));
    EffectsOf(a, c0, c1, c2, c3, c4);
    Block0(3, a, s, 0, 1, 2, 3, 4, d0, d1, d2, d3, d4, rc);
    Block1(3, a, s, 5, 6, 7, 8, 9, d0, d1, d2, d3, d4, rc);
    Block2(3, a, s, 10, 11, 12, 13, 14, d0, d1, d2, d3, d4, rc);
    Block3(3, a, s, 15, 16, 17, 18, 19, d0, d1, d2, d3, d4, rc);
    Block4(3, a, s, 20, 21, 22, 23, 24, d0, d1, d2, d3, d4, rc);
    ProgressEnd(3, a, Round(a, rc), s[..]);
  }

  lemma LayoutSize(k: nat, a: Lanes, s: seq<Lane>)
    requires k <= 4 && Layout(k, a, s)
    ensures |s| >= 25
  {
  }

  lemma EffectsOf(a: Lanes, c0: Lane, c1: Lane, c2: Lane, c3: Lane, c4: Lane)
    requires c0 == Parity(a, 0) && c1 == Parity(a, 1) && c2 == Parity(a, 2) && c3 == Parity(a, 3) && c4 == Parity(a, 4)
    ensures Effects(a, Xor(c4, Rol(c1, 1)), Xor(c0, Rol(c2, 1)), Xor(c1, Rol(c3, 1)),
      Xor(c2, Rol(c4, 1)), Xor(c3, Rol(c0, 1)))
  {
    hide Xor, Rol, Parity;
  }

  lemma ProgressEnd(k: nat, a: Lanes, b: Lanes, s: seq<Lane>)
    requires k < 4 && Progress(k, 5, a, b, s)
    ensures Layout(k + 1, b, s)
  {
    hide At, Place, From;
  }

  // ----- the permutation

  lemma LayoutIsPrefix(a: Lanes, s: seq<Lane>)
    requires |s| >= 25
    ensures Layout(0, a, s) <==> s[..25] == a
  {
    assert forall x: nat, y: nat | x < 5 && y < 5 :: Place(0, x, y) == 5 * y + x;
    hide Place;
    if Layout(0, a, s) {
      var b: Lanes := s[..25];
      forall x: nat, y: nat | x < 5 && y < 5 ensures At(b, x, y) == At(a, x, y) {
        assert s[Place(0, x, y)] == At(a, x, y);
      }
      SameLanes(b, a);
    }
  }

  lemma LayoutReturns(a: Lanes, s: seq<Lane>)
    requires Layout(4, a, s)
    ensures Layout(0, a, s)
  {
    assert forall x: nat, y: nat | x < 5 && y < 5 :: Place(4, x, y) == Place(0, x, y);
    hide Place;
  }

  method KeccakF1600Step(s: array<Lane>)
    requires s.Length >= 25
    modifies s
    ensures s[..25] == KeccakF(old(s[..25])) && s[25..] == old(s[25..])
  {
    hide Layout, Round, RC, RoundConstant;
    RoundConstants();
    ghost var a: Lanes := s[..25];
    LayoutIsPrefix(a, s[..]);
    var i := 0;
    while i < 24
      invariant 0 <= i <= 24 && i % 4 == 0
      invariant Layout(0, Rounds(a, i), s[..]) && s[25..] == old(s[25..])
    {
      Round0(Rounds(a, i), s, Lane(RC(i)));
      Round1(Rounds(a, i + 1), s, Lane(RC(i + 1)));
      Round2(Rounds(a, i + 2), s, Lane(RC(i + 2)));
      Round3(Rounds(a, i + 3), s, Lane(RC(i + 3)));
      LayoutReturns(Rounds(a, i + 4), s[..]);
      i := i + 4;
    }
    LayoutIsPrefix(Rounds(a, 24), s[..]);
    assert s[..][..25] == s[..25];
  }
}
