/** Board topology: the fourteen pits in their fixed order, the two players,
    the derived pit sets and the opposite-pit relation. */
module Pits {

  /** A pit is identified by its ordinal in the enumeration order
      A1..A6, MANCALA_A, B1..B6, MANCALA_B. */
  type Pit = p: int | 0 <= p < 14

  const A1: Pit := 0
  const A2: Pit := 1
  const A3: Pit := 2
  const A4: Pit := 3
  const A5: Pit := 4
  const A6: Pit := 5
  const MANCALA_A: Pit := 6
  const B1: Pit := 7
  const B2: Pit := 8
  const B3: Pit := 9
  const B4: Pit := 10
  const B5: Pit := 11
  const B6: Pit := 12
  const MANCALA_B: Pit := 13

  /** All pits in enumeration order (what iterating over the enum yields). */
  const AllPits: seq<Pit> := [A1, A2, A3, A4, A5, A6, MANCALA_A, B1, B2, B3, B4, B5, B6, MANCALA_B]

  /** The two stores. */
  const Mancalas: set<Pit> := {MANCALA_A, MANCALA_B}

  /** The complement of the stores. */
  const SmallPits: set<Pit> := set p: Pit | 0 <= p < 14 && p !in Mancalas

  /** The range A1..A6 and the range B1..B6. */
  const SideAPits: set<Pit> := set p: Pit | A1 <= p <= A6
  const SideBPits: set<Pit> := set p: Pit | B1 <= p <= B6

  /** The side pits as the enum sets list them, in ordinal order. */
  const SideAOrder: seq<Pit> := [A1, A2, A3, A4, A5, A6]
  const SideBOrder: seq<Pit> := [B1, B2, B3, B4, B5, B6]

  datatype Player = A | B

  function Other(p: Player): (q: Player)
    ensures q != p
  {
    match p
    case A => B
    case B => A
  }

  /** The store of a player. */
  function Store(p: Player): (s: Pit)
    ensures s in Mancalas
    ensures s == (if p == A then MANCALA_A else MANCALA_B)
  {
    match p
    case A => MANCALA_A
    case B => MANCALA_B
  }

  /** The mover's store faces the opponent's store, which is the one pit the sowing
      iterator leaves out, and neither store is on a side. */
  lemma StoresFace(p: Player)
    ensures Opposite(Store(p)) == Store(Other(p)) && Store(p) != Store(Other(p))
    ensures Store(p) !in Side(p) && Store(p) !in Side(Other(p))
  {
  }

  function Side(p: Player): set<Pit>
  {
    match p
    case A => SideAPits
    case B => SideBPits
  }

  function SideOrder(p: Player): seq<Pit>
  {
    match p
    case A => SideAOrder
    case B => SideBOrder
  }

  /** The pit across the board: a store maps to the other store, a side-A pit is
      looked up in the array of side-B pits at index 5 - ordinal, a side-B pit in
      the array of side-A pits at index 12 - ordinal. */
  function Opposite(p: Pit): (q: Pit)
    ensures p == MANCALA_A ==> q == MANCALA_B
    ensures p == MANCALA_B ==> q == MANCALA_A
    ensures p in SmallPits ==> q in SmallPits && q == 12 - p
    ensures p in SideAPits <==> q in SideBPits
  {
    if p in Mancalas then
      (if p == MANCALA_A then MANCALA_B else MANCALA_A)
    else if p in SideAPits then
      SideBOrder[5 - p]
    else
      SideAOrder[12 - p]
  }

  lemma OppositeInvolution(p: Pit)
    ensures Opposite(Opposite(p)) == p
    ensures Opposite(p) != p
  {
  }

  /** A side pit is a small pit, neither store, and faces a pit of the other side. */
  lemma SidePit(pl: Player, p: Pit)
    requires p in Side(pl)
    ensures p in SmallPits && p != Store(pl) && p != Store(Other(pl)) && p != Opposite(Store(pl))
    ensures Opposite(p) in Side(Other(pl))
  {
  }

  /** The enumeration order and the ordinals agree. */
  lemma {:induction false} PitOrder()
    ensures |AllPits| == 14
    ensures forall i :: 0 <= i < 14 ==> AllPits[i] == i
    ensures SmallPits == {A1, A2, A3, A4, A5, A6, B1, B2, B3, B4, B5, B6}
  {
    assert forall p: Pit :: p in SmallPits <==> p in {A1, A2, A3, A4, A5, A6, B1, B2, B3, B4, B5, B6};
  }

  /** The stores and the small pits partition the board; there are twelve small pits. */
  lemma {:induction false} MancalasPartition()
    ensures Mancalas !! SmallPits
    ensures forall p: Pit :: p in Mancalas || p in SmallPits
    ensures |Mancalas| == 2 && |SmallPits| == 12
  {
    PitOrder();
  }

  lemma {:induction false} SideADisplay()
    ensures SideAPits == {A1, A2, A3, A4, A5, A6}
  {
    assert forall p: Pit :: p in SideAPits <==> p in {A1, A2, A3, A4, A5, A6};
  }

  lemma {:induction false} SideBDisplay()
    ensures SideBPits == {B1, B2, B3, B4, B5, B6}
  {
    assert forall p: Pit :: p in SideBPits <==> p in {B1, B2, B3, B4, B5, B6};
  }

  /** The two sides are disjoint, have six pits each and together make the small pits;
      side A is exactly ordinals 0..5, side B exactly ordinals 7..12. */
  lemma {:induction false} SidesPartition()
    ensures SideAPits !! SideBPits
    ensures SideAPits + SideBPits == SmallPits
    ensures |SideAPits| == 6 && |SideBPits| == 6
    ensures forall p: Pit :: p in SideAPits <==> 0 <= p <= 5
    ensures forall p: Pit :: p in SideBPits <==> 7 <= p <= 12
    ensures forall i :: 0 <= i < 6 ==> SideAOrder[i] == i && SideBOrder[i] == 7 + i
  {
    assert |SideAPits| == 6 && |SideBPits| == 6 by {
      SideADisplay();
      SideBDisplay();
    }
    assert SideAPits + SideBPits == SmallPits by {
      PitOrder();
      SideADisplay();
      SideBDisplay();
    }
  }

  /** A player's side listed in order holds exactly the pits of that side. */
  lemma SideOrderMatches(pl: Player)
    ensures |SideOrder(pl)| == 6
    ensures forall i :: 0 <= i < 6 ==> SideOrder(pl)[i] in Side(pl)
    ensures forall p :: p in Side(pl) <==> p in SideOrder(pl)
    ensures forall i, k :: 0 <= i < k < 6 ==> SideOrder(pl)[i] < SideOrder(pl)[k]
  {
    SidesPartition();
  }
}
