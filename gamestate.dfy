/** The mutable game state of src/MancalaGameState.java: an array of stone counts
    indexed by pit ordinal and the player, flag, saved state, animation queue and
    counters the Java object updates in place. Every operation is proved to compute
    the corresponding function of module Rules on the state's snapshot. */
module GameState {
  import opened Pits
  import opened BoardOps
  import opened Wrappers
  import Rules

  class MancalaGameState {
    /** The stone count of every pit, indexed by pit ordinal. */
    const pits: array<nat>
    var playerTurn: Player
    var isGameOver: bool
    var previousState: Option<Rules.GameValue>
    var stoneSequence: seq<Pit>
    var initStones: int
    /** The state of the undo-saving state machine. */
    var finiteState: int

    ghost predicate Valid()
      reads this
    {
      pits.Length == 14
    }

    /** The state as a value: what the copy constructor copies. */
    function Snapshot(): Rules.GameValue
      requires Valid()
      reads this, pits
    {
      Rules.GameValue(pits[..], playerTurn, isGameOver, previousState, stoneSequence, initStones)
    }

    constructor ()
      ensures Valid() && fresh(pits)
      ensures Snapshot() == Rules.NewGame() && finiteState == 0
    {
      pits := new nat[14](_ => 0);
      playerTurn := A;
      isGameOver := false;
      previousState := None;
      stoneSequence := [];
      initStones := 0;
      finiteState := 0;
      new;
      assert pits[..] == EmptyBoard;
    }

    /** The copy constructor: the same pits, turn, flag, saved state, queue and initial
        stones, in a fresh array; the state machine starts over. */
    constructor Copy(state: MancalaGameState)
      requires state.Valid()
      ensures Valid() && fresh(pits)
      ensures Snapshot() == state.Snapshot() && finiteState == 0
    {
      var a := new nat[14];
      for i := 0 to 14
        invariant forall k :: 0 <= k < i ==> a[k] == state.pits[k]
      {
        a[i] := state.pits[i];
      }
      pits := a;
      playerTurn := state.playerTurn;
      isGameOver := state.isGameOver;
      previousState := state.previousState;
      stoneSequence := state.stoneSequence;
      initStones := state.initStones;
      finiteState := 0;
      new;
      assert pits[..] == state.pits[..];
    }

    /** Put one stone into pit p. */
    method OfferStone(p: Pit)
      requires Valid()
      modifies pits
      ensures pits[..] == old(pits[..])[p := old(pits[p]) + 1]
    {
      pits[p] := pits[p] + 1;
    }

    /** Take one stone out of pit p; an empty pit yields nothing and stays as it is. */
    method PollStone(p: Pit) returns (polled: bool)
      requires Valid()
      modifies pits
      ensures polled <==> old(pits[p]) > 0
      ensures pits[..] == if polled then old(pits[..])[p := old(pits[p]) - 1] else old(pits[..])
    {
      if pits[p] > 0 {
        pits[p] := pits[p] - 1;
        polled := true;
      } else {
        polled := false;
      }
    }

    /** Poll pit p until it is empty; the result is the number of stones taken. */
    method EmptyPit(p: Pit) returns (count: nat)
      requires Valid()
      modifies pits
      ensures count == old(pits[p])
      ensures pits[..] == old(pits[..])[p := 0]
    {
      count := 0;
      while pits[p] > 0
        invariant count <= old(pits[p])
        invariant pits[..] == old(pits[..])[p := old(pits[p]) - count]
        decreases pits[p]
      {
        var _ := PollStone(p);
        count := count + 1;
      }
    }

    /** Offer `count` stones, one at a time, to pit p. */
    method OfferStones(count: nat, p: Pit)
      requires Valid()
      modifies pits
      ensures pits[..] == old(pits[..])[p := old(pits[p]) + count]
    {
      for i := 0 to count
        invariant pits[..] == old(pits[..])[p := old(pits[p]) + i]
      {
        OfferStone(p);
      }
    }

    /** Empty every pit, in pit order. */
    method EmptyAllPits()
      requires Valid()
      modifies pits
      ensures pits[..] == EmptyBoard
    {
      for q := 0 to 14
        invariant forall i :: 0 <= i < q ==> pits[i] == 0
      {
        var _ := EmptyPit(q);
      }
    }

    /** Record the initial stones per pit and add that many stones to each small pit,
        in pit order. */
    method PopulatePits(n: int)
      requires Valid()
      modifies this, pits
      ensures pits[..] == Populate(old(pits[..]), n) && initStones == n
      ensures playerTurn == old(playerTurn) && isGameOver == old(isGameOver)
      ensures previousState == old(previousState) && stoneSequence == old(stoneSequence)
      ensures finiteState == old(finiteState)
    {
      initStones := n;
      var k: nat := if n > 0 then n else 0;
      for q := 0 to 14
        invariant pits[..] == PopulatePrefix(old(pits[..]), k, q)
        invariant initStones == n && playerTurn == old(playerTurn) && isGameOver == old(isGameOver)
        invariant previousState == old(previousState) && stoneSequence == old(stoneSequence)
        invariant finiteState == old(finiteState)
      {
        if q in SmallPits {
          var i := 0;
          while i < n
            invariant 0 <= i <= k
            invariant initStones == n && playerTurn == old(playerTurn) && isGameOver == old(isGameOver)
            invariant previousState == old(previousState) && stoneSequence == old(stoneSequence)
            invariant finiteState == old(finiteState)
            invariant pits[..] == PopulatePrefix(old(pits[..]), k, q)[q := old(pits[q]) + i]
          {
            OfferStone(q);
            i := i + 1;
          }
        }
      }
    }

    /** Start a new game with n stones per small pit; the turn goes to A. The saved
        state, the animation queue and the state machine are kept. */
    method SetupGame(n: int)
      requires Valid()
      modifies this, pits
      ensures Snapshot() == old(Snapshot()).(pits := Rules.SetupBoard(n), playerTurn := A,
                                             isGameOver := false, initStones := n)
      ensures finiteState == old(finiteState)
    {
      isGameOver := false;
      EmptyAllPits();
      playerTurn := A;
      PopulatePits(n);
    }

    /** Pass the turn to the other player. */
    method ChangePlayer()
      modifies this
      ensures playerTurn == Other(old(playerTurn))
      ensures isGameOver == old(isGameOver) && previousState == old(previousState)
      ensures stoneSequence == old(stoneSequence) && initStones == old(initStones)
      ensures finiteState == old(finiteState)
    {
      match playerTurn
      case A => playerTurn := B;
      case B => playerTurn := A;
    }

    /** The non-empty pits on the side of the player to move, in pit order. */
    method GetSowablePits() returns (r: seq<Pit>)
      requires Valid()
      ensures r == Rules.SowablePits(Snapshot())
      ensures forall p :: p in r <==> p in Side(playerTurn) && pits[p] > 0
    {
      var side := SideOrder(playerTurn);
      r := [];
      for i := 0 to 6
        invariant r == NonEmpty(pits[..], side[..i])
      {
        assert side[..i + 1][..i] == side[..i];
        if pits[side[i]] > 0 {
          r := r + [side[i]];
        }
      }
      assert side[..6] == side;
      SowableSpec(pits[..], playerTurn);
    }

    /** Sow the stones of `pit` for the player to move. There is no legality test.
        The opponent's store is not in the sowing cycle: the Java iterator runs out
        before any change and throws; here the call changes nothing and answers false. */
    method Sow(pit: Pit) returns (ok: bool)
      requires Valid()
      modifies this, pits
      ensures ok <==> Rules.Sow(old(Snapshot()), pit).Some?
      ensures Snapshot() == if ok then Rules.Sow(old(Snapshot()), pit).value else old(Snapshot())
      ensures finiteState == old(finiteState)
    {
      var store := Store(playerTurn);
      if pit == Opposite(store) {
        return false;
      }
      SowSubroutine(pit, store);
      return true;
    }

    /** The sowing loop: take one stone at a time from the origin and offer it to the
        next pit of the cycle that skips the opponent's store, while the origin holds
        stones; when the count of stones to sow reaches zero, stop if the stone went
        to the mover's store, otherwise apply the capture test and pass the turn. */
    method SowSubroutine(pit: Pit, store: Pit)
      requires Valid() && store in Mancalas && pit != Opposite(store)
      modifies this, pits
      ensures Snapshot() == Rules.SowSubroutine(old(Snapshot()), pit, store)
      ensures finiteState == old(finiteState)
    {
      var stonesLeft: int := pits[pit];
      var skip := Opposite(store);
      // Advance the iterator until it returns the origin.
      var j: nat := 0;
      while CyclePit(skip, j) != pit
        invariant j <= CycleIndex(skip, pit)
        decreases CycleIndex(skip, pit) - j
      {
        j := j + 1;
      }
      CycleIndexOfPit(skip, j);
      ghost var goal := Rules.SowLoop(pits[..], pit, skip, j, stonesLeft, playerTurn, store, stoneSequence);
      while pits[pit] > 0
        invariant j < 13
        invariant Rules.SowLoop(pits[..], pit, skip, j, stonesLeft, playerTurn, store, stoneSequence) == goal
        invariant isGameOver == old(isGameOver) && previousState == old(previousState)
        invariant initStones == old(initStones) && finiteState == old(finiteState)
        decreases if stonesLeft > 0 then 1 else 0, 2 * pits[pit] + 13 - Gap(j, CycleIndex(skip, pit))
      {
        ghost var b := pits[..];
        Rules.SowLoopUnfold(b, pit, skip, j, stonesLeft, playerTurn, store, stoneSequence);
        GapStep(j, CycleIndex(skip, pit));
        var cur;
        j, cur := NextStone(pit, skip, j);
        CycleIndexOfPit(skip, j);
        stoneSequence := stoneSequence + [cur];
        stonesLeft := stonesLeft - 1;
        if stonesLeft == 0 {
          if cur == store {
            return;
          }
          CaptureAndPass(cur, store);
        }
      }
    }

    /** Advance the iterator, restarting it once it has passed the last pit, and move
        one stone from the origin to the pit it returns. */
    method NextStone(pit: Pit, skip: Pit, j: nat) returns (j': nat, cur: Pit)
      requires Valid() && skip in Mancalas && j < 13 && pits[pit] > 0
      modifies pits
      ensures j' == NextIndex(j) && cur == CyclePit(skip, j')
      ensures pits[..] == Move(old(pits[..]), pit, cur)
    {
      if j == 12 {
        j' := 0;
      } else {
        j' := j + 1;
      }
      cur := CyclePit(skip, j');
      MoveStone(pit, cur);
    }

    /** The last stone missed the store: the capture test runs on the landing pit,
        then the turn passes. */
    method CaptureAndPass(cur: Pit, store: Pit)
      requires Valid() && store in Mancalas && cur != store
      modifies this, pits
      ensures pits[..] == Rules.ApplyCapture(old(pits[..]), cur, old(playerTurn), store)
      ensures playerTurn == Other(old(playerTurn))
      ensures isGameOver == old(isGameOver) && previousState == old(previousState)
      ensures stoneSequence == old(stoneSequence) && initStones == old(initStones)
      ensures finiteState == old(finiteState)
    {
      if ((playerTurn == A && cur in SideAPits) || (playerTurn == B && cur in SideBPits))
         && pits[cur] == 1 && pits[Opposite(cur)] > 0
      {
        Rules.CaptureIsLegal(pits[..], cur, playerTurn, store);
        CaptureInto(cur, store);
      }
      ChangePlayer();
    }

    /** Poll a stone from one pit and offer it to another. */
    method MoveStone(from: Pit, to: Pit)
      requires Valid() && pits[from] > 0
      modifies pits
      ensures pits[..] == Move(old(pits[..]), from, to)
    {
      var _ := PollStone(from);
      OfferStone(to);
    }

    /** The capture: the stone in `cur`, then every stone of the opposite pit, go to the store. */
    method CaptureInto(cur: Pit, store: Pit)
      requires Valid() && pits[cur] > 0 && cur != store && Opposite(cur) != store
      modifies pits
      ensures pits[..] == Capture(old(pits[..]), cur, store)
    {
      var _ := PollStone(cur);
      OfferStone(store);
      var count := EmptyPit(Opposite(cur));
      OfferStones(count, store);
    }

    /** Whether every pit on a player's side is empty; stops at the first stone found. */
    method IsSideEmpty(pl: Player) returns (empty: bool)
      requires Valid()
      ensures empty <==> SideEmpty(pits[..], pl)
    {
      var side := SideOrder(pl);
      empty := true;
      for i := 0 to 6
        invariant empty <==> forall k :: 0 <= k < i ==> pits[side[k]] == 0
      {
        if pits[side[i]] > 0 {
          empty := false;
          break;
        }
      }
    }

    /** Empty each pit of a side, in order, into a store. */
    method SweepInto(side: seq<Pit>, store: Pit)
      requires Valid() && store !in side
      modifies pits
      ensures pits[..] == Sweep(old(pits[..]), side, store)
    {
      for i := 0 to |side|
        invariant pits[..] == Sweep(old(pits[..]), side[..i], store)
      {
        assert side[..i + 1][..i] == side[..i];
        assert store !in side[..i] && side[i] != store;
        var count := EmptyPit(side[i]);
        OfferStones(count, store);
      }
      assert side[..|side|] == side;
    }

    /** End the game when a side is empty: if only one side is empty, the stones left
        on the other side go to that other side's store; the game is then over. */
    method CheckIfGameEnded() returns (ended: bool)
      requires Valid()
      modifies this, pits
      ensures (ended, Snapshot()) == Rules.CheckIfGameEnded(old(Snapshot()))
      ensures finiteState == old(finiteState)
    {
      var isSideAEmpty := IsSideEmpty(A);
      var isSideBEmpty := IsSideEmpty(B);
      if !isSideAEmpty && isSideBEmpty {
        SweepInto(SideAOrder, MANCALA_A);
        isGameOver := true;
        return true;
      }
      if isSideAEmpty && !isSideBEmpty {
        SweepInto(SideBOrder, MANCALA_B);
        isGameOver := true;
        return true;
      }
      if isSideAEmpty && isSideBEmpty {
        isGameOver := true;
        return true;
      }
      return false;
    }

    /** The undo-saving state machine: step it, and when it lands in state 0 or 1 keep
        a copy of the whole current state (including its own saved state). */
    method ShouldISaveGameState(isHuman: bool) returns (saved: bool)
      requires Valid()
      modifies this
      ensures finiteState == Rules.NextFiniteState(old(finiteState), isHuman)
      ensures saved <==> Rules.SavesIn(finiteState)
      ensures previousState == if saved then Some(old(Snapshot())) else old(previousState)
      ensures playerTurn == old(playerTurn) && isGameOver == old(isGameOver)
      ensures stoneSequence == old(stoneSequence) && initStones == old(initStones)
    {
      if finiteState == 0 {
        finiteState := if isHuman then 0 else 1;
      } else if finiteState == 1 {
        finiteState := if isHuman then 2 else 3;
      } else if finiteState == 2 {
        finiteState := if isHuman then 0 else 1;
      } else if finiteState == 3 {
        finiteState := if isHuman then 0 else 3;
      }
      if finiteState == 0 || finiteState == 1 {
        previousState := Some(Snapshot());
        return true;
      }
      return false;
    }
  }
}
