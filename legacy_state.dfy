/** The mutable game state of the older, root-level MancalaGameState.java. Every
    operation is proved to compute the corresponding function of module LegacyRules
    on the state's snapshot. */
module LegacyState {
  import opened Pits
  import opened BoardOps
  import opened Wrappers
  import LegacyRules

  class MancalaGameState {
    /** The pit of the last legal sow. */
    var sowedPit: Option<Pit>
    /** The stone count of every pit, indexed by pit ordinal. */
    const pits: array<nat>
    var playerTurn: Player
    var isGameOver: bool
    var previousState: Option<LegacyRules.LegacyValue>
    /** The length of the list of every stone created. */
    var stoneCount: nat
    /** The length of the animation queue of sown stones. */
    var sequenceLength: nat

    ghost predicate Valid()
      reads this
    {
      pits.Length == 14
    }

    function Snapshot(): LegacyRules.LegacyValue
      requires Valid()
      reads this, pits
    {
      LegacyRules.LegacyValue(sowedPit, pits[..], playerTurn, isGameOver, previousState, stoneCount, sequenceLength)
    }

    constructor ()
      ensures Valid() && fresh(pits)
      ensures Snapshot() == LegacyRules.NewGame()
    {
      sowedPit := None;
      pits := new nat[14](_ => 0);
      playerTurn := A;
      isGameOver := false;
      previousState := None;
      stoneCount := 0;
      sequenceLength := 0;
      new;
      assert pits[..] == EmptyBoard;
    }

    /** The copy constructor: every field copied, the pits into a fresh array. */
    constructor Copy(state: MancalaGameState)
      requires state.Valid()
      ensures Valid() && fresh(pits)
      ensures Snapshot() == state.Snapshot()
    {
      sowedPit := state.sowedPit;
      var a := new nat[14];
      for i := 0 to 14
        invariant forall k :: 0 <= k < i ==> a[k] == state.pits[k]
      {
        a[i] := state.pits[i];
      }
      pits := a;
      playerTurn := state.playerTurn;
      isGameOver := state.isGameOver;
      previousState := state.previousState;
      stoneCount := state.stoneCount;
      sequenceLength := state.sequenceLength;
      new;
      assert pits[..] == state.pits[..];
    }

    method OfferStone(p: Pit)
      requires Valid()
      modifies pits
      ensures pits[..] == old(pits[..])[p := old(pits[p]) + 1]
    {
      pits[p] := pits[p] + 1;
    }

    /** Take one stone out of pit p; the older version fails on an empty pit. */
    method PollStone(p: Pit)
      requires Valid() && pits[p] > 0
      modifies pits
      ensures pits[..] == old(pits[..])[p := old(pits[p]) - 1]
    {
      pits[p] := pits[p] - 1;
    }

    method EmptyPit(p: Pit) returns (count: nat)
      requires Valid()
      modifies pits
      ensures count == old(pits[p])
      ensures pits[..] == old(pits[..])[p := 0]
    {
      count := 0;
      while pits[p] > 0
        invariant count <= old(pits[p])
        invariant pits[..] == old(pits[..])[p := old(pits[p]) - count]
        decreases pits[p]
      {
        PollStone(p);
        count := count + 1;
      }
    }

    method OfferStones(count: nat, p: Pit)
      requires Valid()
      modifies pits
      ensures pits[..] == old(pits[..])[p := old(pits[p]) + count]
    {
      for i := 0 to count
        invariant pits[..] == old(pits[..])[p := old(pits[p]) + i]
      {
        OfferStone(p);
      }
    }

    /** Empty every pit, in pit order; the list of created stones is kept. */
    method EmptyAllPits()
      requires Valid()
      modifies pits
      ensures pits[..] == EmptyBoard
    {
      for q := 0 to 14
        invariant forall i :: 0 <= i < q ==> pits[i] == 0
      {
        var _ := EmptyPit(q);
      }
    }

    /** Create n stones for each small pit, in pit order, offering each to its pit and
        adding it to the list of created stones. */
    method PopulatePits(n: int)
      requires Valid()
      modifies this, pits
      ensures Snapshot() == LegacyRules.PopulatePits(old(Snapshot()), n)
    {
      var k: nat := if n > 0 then n else 0;
      for q := 0 to 14
        invariant pits[..] == PopulatePrefix(old(pits[..]), k, q)
        invariant stoneCount == old(stoneCount) + k * SmallBelow(q)
        invariant sowedPit == old(sowedPit) && playerTurn == old(playerTurn) && isGameOver == old(isGameOver)
        invariant previousState == old(previousState) && sequenceLength == old(sequenceLength)
      {
        SmallBelowStep(k, q);
        if q in SmallPits {
          CreateStones(q, n);
        }
      }
      assert pits[..] == Populate(old(pits[..]), n);
      assert stoneCount == old(stoneCount) + 12 * k;
    }

    /** Create n stones (none when n is not positive), each offered to pit q and added
        to the list of created stones. */
    method CreateStones(q: Pit, n: int)
      requires Valid()
      modifies this, pits
      ensures var k: nat := if n > 0 then n else 0;
        pits[..] == old(pits[..])[q := old(pits[q]) + k] && stoneCount == old(stoneCount) + k
      ensures sowedPit == old(sowedPit) && playerTurn == old(playerTurn) && isGameOver == old(isGameOver)
      ensures previousState == old(previousState) && sequenceLength == old(sequenceLength)
    {
      var k: nat := if n > 0 then n else 0;
      var i := 0;
      while i < n
        invariant 0 <= i <= k
        invariant pits[..] == old(pits[..])[q := old(pits[q]) + i]
        invariant stoneCount == old(stoneCount) + i
        invariant sowedPit == old(sowedPit) && playerTurn == old(playerTurn) && isGameOver == old(isGameOver)
        invariant previousState == old(previousState) && sequenceLength == old(sequenceLength)
      {
        OfferStone(q);
        stoneCount := stoneCount + 1;
        i := i + 1;
      }
    }

    method ChangePlayer()
      modifies this
      ensures playerTurn == Other(old(playerTurn))
      ensures sowedPit == old(sowedPit) && isGameOver == old(isGameOver) && previousState == old(previousState)
      ensures stoneCount == old(stoneCount) && sequenceLength == old(sequenceLength)
    {
      match playerTurn
      case A => playerTurn := B;
      case B => playerTurn := A;
    }

    /** The non-empty pits on the side of the player to move, in pit order. */
    method GetSowablePits() returns (r: seq<Pit>)
      requires Valid()
      ensures r == Sowable(pits[..], playerTurn)
      ensures forall p :: p in r <==> p in Side(playerTurn) && pits[p] > 0
    {
      var side := SideOrder(playerTurn);
      r := [];
      for i := 0 to 6
        invariant r == NonEmpty(pits[..], side[..i])
      {
        assert side[..i + 1][..i] == side[..i];
        if pits[side[i]] > 0 {
          r := r + [side[i]];
        }
      }
      assert side[..6] == side;
      SowableSpec(pits[..], playerTurn);
    }

    /** Sow a pit if it is sowable: record it, save a copy of the state and sow;
        otherwise change nothing. */
    method Sow(pit: Pit)
      requires Valid()
      modifies this, pits
      ensures Snapshot() == LegacyRules.Sow(old(Snapshot()), pit)
    {
      var sowable := GetSowablePits();
      if pit !in sowable {
        return;
      }
      sowedPit := Some(pit);
      previousState := Some(Snapshot());
      SowableSpec(pits[..], playerTurn);
      match playerTurn
      case A => SowSubroutine(pit, MANCALA_A);
      case B => SowSubroutine(pit, MANCALA_B);
    }

    /** The older sowing loop: when the count of stones to sow reaches zero, stop if
        the stone went to the mover's store, otherwise pass the turn and then apply
        the capture test to the landing pit, on whichever side it is. */
    method SowSubroutine(pit: Pit, store: Pit)
      requires Valid() && store in Mancalas && pit != Opposite(store)
      modifies this, pits
      ensures Snapshot() == LegacyRules.SowSubroutine(old(Snapshot()), pit, store)
    {
      var stonesLeft: int := pits[pit];
      var skip := Opposite(store);
      // Advance the iterator until it returns the origin.
      var j: nat := 0;
      while CyclePit(skip, j) != pit
        invariant j <= CycleIndex(skip, pit)
        decreases CycleIndex(skip, pit) - j
      {
        j := j + 1;
      }
      CycleIndexOfPit(skip, j);
      ghost var goal := LegacyRules.SowLoop(pits[..], pit, skip, j, stonesLeft, playerTurn, store, sequenceLength);
      while pits[pit] > 0
        invariant j < 13
        invariant LegacyRules.SowLoop(pits[..], pit, skip, j, stonesLeft, playerTurn, store, sequenceLength) == goal
        invariant sowedPit == old(sowedPit) && isGameOver == old(isGameOver)
        invariant previousState == old(previousState) && stoneCount == old(stoneCount)
        decreases if stonesLeft > 0 then 1 else 0, 2 * pits[pit] + 13 - Gap(j, CycleIndex(skip, pit))
      {
        ghost var b := pits[..];
        LegacyRules.SowLoopUnfold(b, pit, skip, j, stonesLeft, playerTurn, store, sequenceLength);
        GapStep(j, CycleIndex(skip, pit));
        var cur;
        j, cur := NextStone(pit, skip, j);
        CycleIndexOfPit(skip, j);
        sequenceLength := sequenceLength + 1;
        stonesLeft := stonesLeft - 1;
        if stonesLeft == 0 {
          if cur == store {
            return;
          }
          PassAndCapture(cur, store);
        }
      }
    }

    /** Advance the iterator, restarting it once it has passed the last pit, and move
        one stone from the origin to the pit it returns. */
    method NextStone(pit: Pit, skip: Pit, j: nat) returns (j': nat, cur: Pit)
      requires Valid() && skip in Mancalas && j < 13 && pits[pit] > 0
      modifies pits
      ensures j' == NextIndex(j) && cur == CyclePit(skip, j')
      ensures pits[..] == Move(old(pits[..]), pit, cur)
    {
      if j == 12 {
        j' := 0;
      } else {
        j' := j + 1;
      }
      cur := CyclePit(skip, j');
      MoveStone(pit, cur);
    }

    /** The last stone missed the store: the turn passes, then the older capture test
        runs on the landing pit. */
    method PassAndCapture(cur: Pit, store: Pit)
      requires Valid() && store in Mancalas && cur !in Mancalas
      modifies this, pits
      ensures pits[..] == LegacyRules.ApplyCapture(old(pits[..]), cur, store)
      ensures playerTurn == Other(old(playerTurn))
      ensures sowedPit == old(sowedPit) && isGameOver == old(isGameOver) && previousState == old(previousState)
      ensures stoneCount == old(stoneCount) && sequenceLength == old(sequenceLength)
    {
      ChangePlayer();
      if pits[cur] == 1 && pits[Opposite(cur)] > 0 {
        assert cur in SmallPits;
        OppositeInvolution(store);
        CaptureInto(cur, store);
      }
    }

    method MoveStone(from: Pit, to: Pit)
      requires Valid() && pits[from] > 0
      modifies pits
      ensures pits[..] == Move(old(pits[..]), from, to)
    {
      PollStone(from);
      OfferStone(to);
    }

    method CaptureInto(cur: Pit, store: Pit)
      requires Valid() && pits[cur] > 0 && cur != store && Opposite(cur) != store
      modifies pits
      ensures pits[..] == Capture(old(pits[..]), cur, store)
    {
      PollStone(cur);
      OfferStone(store);
      var count := EmptyPit(Opposite(cur));
      OfferStones(count, store);
    }

    method IsSideEmpty(pl: Player) returns (empty: bool)
      requires Valid()
      ensures empty <==> SideEmpty(pits[..], pl)
    {
      var side := SideOrder(pl);
      empty := true;
      for i := 0 to 6
        invariant empty <==> forall k :: 0 <= k < i ==> pits[side[k]] == 0
      {
        if pits[side[i]] > 0 {
          empty := false;
          break;
        }
      }
    }

    method SweepInto(side: seq<Pit>, store: Pit)
      requires Valid() && store !in side
      modifies pits
      ensures pits[..] == Sweep(old(pits[..]), side, store)
    {
      for i := 0 to |side|
        invariant pits[..] == Sweep(old(pits[..]), side[..i], store)
      {
        assert side[..i + 1][..i] == side[..i];
        assert store !in side[..i] && side[i] != store;
        var count := EmptyPit(side[i]);
        OfferStones(count, store);
      }
      assert side[..|side|] == side;
    }

    /** The same end-of-game test and sweep as the src version. */
    method CheckIfGameEnded() returns (ended: bool)
      requires Valid()
      modifies this, pits
      ensures (ended, Snapshot()) == LegacyRules.CheckIfGameEnded(old(Snapshot()))
    {
      var isSideAEmpty := IsSideEmpty(A);
      var isSideBEmpty := IsSideEmpty(B);
      if !isSideAEmpty && isSideBEmpty {
        SweepInto(SideAOrder, MANCALA_A);
        isGameOver := true;
        return true;
      }
      if isSideAEmpty && !isSideBEmpty {
        SweepInto(SideBOrder, MANCALA_B);
        isGameOver := true;
        return true;
      }
      if isSideAEmpty && isSideBEmpty {
        isGameOver := true;
        return true;
      }
      return false;
    }
  }
}
