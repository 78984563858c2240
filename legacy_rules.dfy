/** The rules of the older, root-level MancalaGameState.java on state values. Unlike
    the src version, a sow is guarded by the sowable-pit test and saves an undo copy,
    and the last-stone rule passes the turn before a capture test that has no own-side
    condition. */
module LegacyRules {
  import opened Pits
  import opened Sums
  import opened BoardOps
  import opened Wrappers

  /** What a copy of the older game state holds. Stones are counted, not identified:
      `stoneCount` is the length of the list of every stone ever created and
      `sequenceLength` the length of the animation queue of sown stones. */
  datatype LegacyValue = LegacyValue(
    sowedPit: Option<Pit>,
    pits: Board,
    playerTurn: Player,
    isGameOver: bool,
    previousState: Option<LegacyValue>,
    stoneCount: nat,
    sequenceLength: nat)

  function NewGame(): (v: LegacyValue)
    ensures (forall p: Pit :: v.pits[p] == 0) && v.playerTurn == A && !v.isGameOver
    ensures v.sowedPit == None && v.previousState == None && v.stoneCount == 0 && v.sequenceLength == 0
  {
    EmptyBoardEmpty();
    LegacyValue(None, EmptyBoard, A, false, None, 0, 0)
  }

  /** A new game holds no stone at all. */
  lemma NewGameEmpty()
    ensures Sum(NewGame().pits) == 0
  {
    EmptyBoardEmpty();
  }

  datatype LoopResult = LoopResult(board: Board, turn: Player, sequenceLength: nat)

  /** The older capture test: the last stone's pit holds one stone and the opposite
      pit holds some, on either side of the board. */
  predicate CaptureApplies(b: Board, cur: Pit)
  {
    b[cur] == 1 && b[Opposite(cur)] > 0
  }

  /** The board after the older capture test on `cur`, a small pit. */
  function ApplyCapture(b: Board, cur: Pit, store: Pit): Board
    requires store in Mancalas && cur !in Mancalas
  {
    if CaptureApplies(b, cur) then
      assert cur in SmallPits;
      OppositeInvolution(store);
      Capture(b, cur, store)
    else b
  }

  /** What the older capture does to the board, whether or not it applies. */
  lemma ApplyCaptureSpec(b: Board, cur: Pit, store: Pit)
    requires store in Mancalas && cur !in Mancalas
    ensures var r := ApplyCapture(b, cur, store);
      Sum(r) == Sum(b) && r[Opposite(store)] == b[Opposite(store)] && r[store] >= b[store]
    ensures !CaptureApplies(b, cur) ==> ApplyCapture(b, cur, store) == b
    ensures CaptureApplies(b, cur) ==>
      var r := ApplyCapture(b, cur, store);
      r[cur] == 0 && r[Opposite(cur)] == 0 && r[store] == b[store] + 1 + b[Opposite(cur)] &&
      forall p: Pit :: p != cur && p != Opposite(cur) && p != store ==> r[p] == b[p]
  {
    if CaptureApplies(b, cur) {
      assert cur in SmallPits;
      OppositeInvolution(store);
      CaptureSum(b, cur, store);
    }
  }

  lemma CycleAvoidsStores(skip: Pit, store: Pit, j: nat)
    requires store in Mancalas && skip == Opposite(store) && j < 13
    requires CyclePit(skip, j) != store
    ensures CyclePit(skip, j) !in Mancalas
  {
  }

  /** The older sowing loop: as in the src version, it runs while the origin holds
      stones; when the count reaches zero it returns if the stone went to the store,
      and otherwise passes the turn and then applies the older capture test. */
  function SowLoop(b: Board, origin: Pit, skip: Pit, j: nat, left: int, turn: Player,
                   store: Pit, n: nat): LoopResult
    requires store in Mancalas && skip == Opposite(store) && origin != skip && j < 13
    decreases if left > 0 then 1 else 0, 2 * b[origin] + 13 - Gap(j, CycleIndex(skip, origin))
  {
    if b[origin] == 0 then LoopResult(b, turn, n)
    else
      var j' := NextIndex(j);
      var cur := CyclePit(skip, j');
      var b1 := Move(b, origin, cur);
      GapStep(j, CycleIndex(skip, origin));
      CycleIndexOfPit(skip, j');
      if left - 1 == 0 then
        if cur == store then LoopResult(b1, turn, n + 1)
        else
          CycleAvoidsStores(skip, store, j');
          SowLoop(ApplyCapture(b1, cur, store), origin, skip, j', 0, Other(turn), store, n + 1)
      else
        SowLoop(b1, origin, skip, j', left - 1, turn, store, n + 1)
  }

  function SowSubroutine(v: LegacyValue, pit: Pit, store: Pit): LegacyValue
    requires store in Mancalas && pit != Opposite(store)
  {
    var skip := Opposite(store);
    var r := SowLoop(v.pits, pit, skip, CycleIndex(skip, pit), v.pits[pit], v.playerTurn, store, v.sequenceLength);
    v.(pits := r.board, playerTurn := r.turn, sequenceLength := r.sequenceLength)
  }

  /** sow(pit): a pit that is not sowable changes nothing; otherwise record the pit,
      save a copy of the state (already holding the sowed pit) and sow. */
  function Sow(v: LegacyValue, pit: Pit): LegacyValue
  {
    if pit !in Sowable(v.pits, v.playerTurn) then v
    else
      var marked := v.(sowedPit := Some(pit));
      SowableSpec(v.pits, v.playerTurn);
      SowSubroutine(marked.(previousState := Some(marked)), pit, Store(v.playerTurn))
  }

  /** One iteration of the older loop, in each of its three outcomes. */
  lemma SowLoopUnfold(b: Board, origin: Pit, skip: Pit, j: nat, left: int, turn: Player, store: Pit, n: nat)
    requires store in Mancalas && skip == Opposite(store) && origin != skip && j < 13 && b[origin] > 0
    ensures var cur := CyclePit(skip, NextIndex(j));
      var b1 := Move(b, origin, cur);
      cur != store ==> cur !in Mancalas
    ensures var cur := CyclePit(skip, NextIndex(j));
      var b1 := Move(b, origin, cur);
      SowLoop(b, origin, skip, j, left, turn, store, n)
        == if left - 1 != 0 then SowLoop(b1, origin, skip, NextIndex(j), left - 1, turn, store, n + 1)
           else if cur == store then LoopResult(b1, turn, n + 1)
           else SowLoop(ApplyCapture(b1, cur, store), origin, skip, NextIndex(j), 0, Other(turn), store, n + 1)
  {
  }

  /** The older loop conserves stones, never touches the skipped store and never takes
      a stone out of the mover's store when sowing another pit. */
  lemma {:induction false} SowLoopConserves(b: Board, origin: Pit, skip: Pit, j: nat, left: int,
                                            turn: Player, store: Pit, n: nat)
    requires store in Mancalas && skip == Opposite(store) && origin != skip && j < 13
    ensures var r := SowLoop(b, origin, skip, j, left, turn, store, n);
      Sum(r.board) == Sum(b) && r.board[skip] == b[skip] &&
      (origin != store ==> r.board[store] >= b[store])
    decreases if left > 0 then 1 else 0, 2 * b[origin] + 13 - Gap(j, CycleIndex(skip, origin))
  {
    if b[origin] > 0 {
      var j' := NextIndex(j);
      var cur := CyclePit(skip, j');
      var b1 := Move(b, origin, cur);
      GapStep(j, CycleIndex(skip, origin));
      CycleIndexOfPit(skip, j');
      assert Sum(b1) == Sum(b) && b1[skip] == b[skip] && (origin != store ==> b1[store] >= b[store]) by {
        MoveSpec(b, origin, cur);
      }
      SowLoopUnfold(b, origin, skip, j, left, turn, store, n);
      if left - 1 == 0 {
        if cur != store {
          var b2 := ApplyCapture(b1, cur, store);
          assert Sum(b2) == Sum(b1) && b2[skip] == b1[skip] && b2[store] >= b1[store] by {
            ApplyCaptureSpec(b1, cur, store);
          }
          SowLoopConserves(b2, origin, skip, j', 0, Other(turn), store, n + 1);
        }
      } else {
        SowLoopConserves(b1, origin, skip, j', left - 1, turn, store, n + 1);
      }
    }
  }

  /** The older loop counts one queue entry per stone it moves. */
  lemma {:induction false} SowLoopCounts(b: Board, origin: Pit, skip: Pit, j: nat, left: int,
                                         turn: Player, store: Pit, n: nat)
    requires store in Mancalas && skip == Opposite(store) && origin != skip && j < 13
    ensures var r := SowLoop(b, origin, skip, j, left, turn, store, n);
      r.sequenceLength >= n && (b[origin] > 0 ==> r.sequenceLength > n)
    decreases if left > 0 then 1 else 0, 2 * b[origin] + 13 - Gap(j, CycleIndex(skip, origin))
  {
    if b[origin] > 0 {
      var j' := NextIndex(j);
      var cur := CyclePit(skip, j');
      var b1 := Move(b, origin, cur);
      GapStep(j, CycleIndex(skip, origin));
      CycleIndexOfPit(skip, j');
      var r := SowLoop(b, origin, skip, j, left, turn, store, n);
      if left - 1 == 0 {
        if cur != store {
          CycleAvoidsStores(skip, store, j');
          var b2 := ApplyCapture(b1, cur, store);
          assert r == SowLoop(b2, origin, skip, j', 0, Other(turn), store, n + 1);
          SowLoopCounts(b2, origin, skip, j', 0, Other(turn), store, n + 1);
        }
      } else {
        assert r == SowLoop(b1, origin, skip, j', left - 1, turn, store, n + 1);
        SowLoopCounts(b1, origin, skip, j', left - 1, turn, store, n + 1);
      }
    }
  }

  /** A pit that is not sowable for the mover leaves every field as it was. */
  lemma SowGuard(v: LegacyValue, pit: Pit)
    requires pit !in Side(v.playerTurn) || v.pits[pit] == 0
    ensures Sow(v, pit) == v
  {
    SowableSpec(v.pits, v.playerTurn);
  }

  /** A legal sow records the sowed pit, saves the pre-move state (with that pit
      recorded), conserves the stones, leaves the opponent's store alone, never
      empties the mover's store and adds at least one queue entry. */
  lemma SowSaves(v: LegacyValue, pit: Pit)
    requires pit in Side(v.playerTurn) && v.pits[pit] > 0
    ensures var r := Sow(v, pit);
      r.sowedPit == Some(pit) &&
      r.previousState == Some(v.(sowedPit := Some(pit))) &&
      r.isGameOver == v.isGameOver && r.stoneCount == v.stoneCount &&
      Sum(r.pits) == Sum(v.pits) &&
      r.pits[Opposite(Store(v.playerTurn))] == v.pits[Opposite(Store(v.playerTurn))] &&
      r.pits[Store(v.playerTurn)] >= v.pits[Store(v.playerTurn)] &&
      r.sequenceLength > v.sequenceLength
  {
    SowableSpec(v.pits, v.playerTurn);
    SidesPartition();
    var store := Store(v.playerTurn);
    var skip := Opposite(store);
    SowLoopConserves(v.pits, pit, skip, CycleIndex(skip, pit), v.pits[pit], v.playerTurn, store, v.sequenceLength);
    SowLoopCounts(v.pits, pit, skip, CycleIndex(skip, pit), v.pits[pit], v.playerTurn, store, v.sequenceLength);
  }

  // ---------------------------------------------------------------------------
  // A legal sow of at most twelve stones
  // ---------------------------------------------------------------------------

  /** The older last-stone rules on the board after the distribution. */
  function LastStone(d: Board, last: Pit, turn: Player, store: Pit, n: nat): LoopResult
    requires store in Mancalas && last != Opposite(store)
  {
    if last == store then LoopResult(d, turn, n)
    else LoopResult(ApplyCapture(d, last, store), Other(turn), n)
  }

  lemma SowLoopLastStone(b: Board, origin: Pit, skip: Pit, j: nat, turn: Player, store: Pit, n: nat)
    requires store in Mancalas && skip == Opposite(store) && origin != skip && origin != store && j < 13
    requires b[origin] == 1 && CyclePit(skip, NextIndex(j)) != origin
    ensures var cur := CyclePit(skip, NextIndex(j));
      SowLoop(b, origin, skip, j, 1, turn, store, n)
        == LastStone(Move(b, origin, cur), cur, turn, store, n + 1)
  {
    var j' := NextIndex(j);
    var cur := CyclePit(skip, j');
    var b1 := Move(b, origin, cur);
    SowLoopUnfold(b, origin, skip, j, 1, turn, store, n);
    if cur != store {
      assert ApplyCapture(b1, cur, store)[origin] == 0;
    }
  }

  /** While the origin cannot be reached again, the older loop spreads its m stones
      over the next m pits and then applies its last-stone rules once. */
  lemma SowLoopSpread(b: Board, origin: Pit, skip: Pit, j: nat, m: nat, turn: Player, store: Pit, n: nat)
    requires store in Mancalas && skip == Opposite(store) && origin != skip && origin != store && j < 13
    requires b[origin] == m >= 1 && Gap(j, CycleIndex(skip, origin)) > m
    ensures SowLoop(b, origin, skip, j, m, turn, store, n)
         == LastStone(Spread(b, skip, j, origin, m), CyclePit(skip, Advance(j, m)), turn, store, n + m)
  {
    SowLoopSpreadInto(b, origin, skip, j, m, turn, store, n,
                      Spread(b, skip, j, origin, m), CyclePit(skip, Advance(j, m)), n + m);
  }

  /** The same, with the final board d, landing pit last and queue length q of the
      closed form fixed in advance: each iteration before the last moves one stone and
      leaves the closed form of the rest equal to them. */
  lemma {:induction false} SowLoopSpreadInto(b: Board, origin: Pit, skip: Pit, j: nat, m: nat,
                                             turn: Player, store: Pit, n: nat,
                                             d: Board, last: Pit, q: nat)
    requires store in Mancalas && skip == Opposite(store) && origin != skip && origin != store && j < 13
    requires b[origin] == m >= 1 && Gap(j, CycleIndex(skip, origin)) > m
    requires d == Spread(b, skip, j, origin, m) && last == CyclePit(skip, Advance(j, m)) && q == n + m
    ensures last != Opposite(store)
    ensures SowLoop(b, origin, skip, j, m, turn, store, n) == LastStone(d, last, turn, store, q)
    decreases m
  {
    if m == 1 {
      SowLoopSpreadOne(b, origin, skip, j, m, turn, store, n);
    } else {
      var cur := CyclePit(skip, NextIndex(j));
      var b1 := Move(b, origin, cur);
      SowLoopStep(b, origin, skip, j, m, turn, store, n);
      assert SowLoop(b1, origin, skip, NextIndex(j), m - 1, turn, store, n + 1) == LastStone(d, last, turn, store, q) by {
        SpreadNext(b, origin, skip, j, m);
        SpreadClosedStep(b, origin, skip, j, m);
        SowLoopSpreadInto(b1, origin, skip, NextIndex(j), m - 1, turn, store, n + 1, d, last, q);
      }
    }
  }

  /** The last of the spread stones. */
  lemma SowLoopSpreadOne(b: Board, origin: Pit, skip: Pit, j: nat, m: nat, turn: Player, store: Pit, n: nat)
    requires store in Mancalas && skip == Opposite(store) && origin != skip && origin != store && j < 13
    requires m == 1 && b[origin] == m && Gap(j, CycleIndex(skip, origin)) > m
    ensures SowLoop(b, origin, skip, j, m, turn, store, n)
         == LastStone(Spread(b, skip, j, origin, m), CyclePit(skip, Advance(j, m)), turn, store, n + m)
  {
    var j' := NextIndex(j);
    var cur := CyclePit(skip, j');
    SpreadStep(b, skip, j, origin, 1);
    SpreadNone(Move(b, origin, cur), skip, j', origin);
    SowLoopLastStone(b, origin, skip, j, turn, store, n);
  }

  /** With stones still to count after this one, an iteration only moves a stone. */
  lemma SowLoopStep(b: Board, origin: Pit, skip: Pit, j: nat, m: nat, turn: Player, store: Pit, n: nat)
    requires store in Mancalas && skip == Opposite(store) && origin != skip && j < 13
    requires b[origin] > 0 && m >= 2
    ensures SowLoop(b, origin, skip, j, m, turn, store, n)
         == SowLoop(Move(b, origin, CyclePit(skip, NextIndex(j))), origin, skip, NextIndex(j), m - 1,
                    turn, store, n + 1)
  {
    SowLoopUnfold(b, origin, skip, j, m, turn, store, n);
  }

  /** The closed form from the next cursor, with one stone already moved, has the
      board and the landing pit of the closed form from this one. */
  lemma SpreadClosedStep(b: Board, origin: Pit, skip: Pit, j: nat, m: nat)
    requires skip in Mancalas && origin != skip && j < 13
    requires b[origin] == m >= 2 && Gap(j, CycleIndex(skip, origin)) > m
    ensures Spread(Move(b, origin, CyclePit(skip, NextIndex(j))), skip, NextIndex(j), origin, m - 1)
         == Spread(b, skip, j, origin, m)
    ensures Advance(NextIndex(j), m - 1) == Advance(j, m)
  {
    SpreadStep(b, skip, j, origin, m);
  }

  /** In closed form, for a legal pit holding c <= 12 stones: the pit ends empty, each
      of the next c pits of the cycle gains one stone, the queue grows by c; then, if
      the c-th stone is not in the mover's store, the turn passes and the older
      capture test is applied to the landing pit, whichever side it is on. */
  lemma SowClosedForm(v: LegacyValue, pit: Pit)
    requires pit in Side(v.playerTurn) && 1 <= v.pits[pit] <= 12
    ensures var store := Store(v.playerTurn);
      var skip := Opposite(store);
      var c := v.pits[pit];
      var sown := Path(skip, CycleIndex(skip, pit), c);
      var d := Spread(v.pits, skip, CycleIndex(skip, pit), pit, c);
      var last := sown[c - 1];
      var r := Sow(v, pit);
      r.sequenceLength == v.sequenceLength + c &&
      d[pit] == 0 && pit !in sown && skip !in sown && last !in Mancalas - {store} &&
      (forall p: Pit :: p != pit ==> d[p] == v.pits[p] + (if p in sown then 1 else 0)) &&
      (r.playerTurn == v.playerTurn <==> last == store) &&
      r.pits == (if last == store then d else ApplyCapture(d, last, store))
  {
    SowableSpec(v.pits, v.playerTurn);
    SidesPartition();
    var store := Store(v.playerTurn);
    var skip := Opposite(store);
    var o := CycleIndex(skip, pit);
    var c := v.pits[pit];
    var sown := Path(skip, o, c);
    SowLoopSpread(v.pits, pit, skip, o, c, v.playerTurn, store, v.sequenceLength);
    PathAt(skip, o, c, c);
    forall p: Pit ensures p in sown <==> p != skip && Gap(o, CycleIndex(skip, p)) <= c {
      PathMembers(skip, o, c, p);
    }
    CycleIndexOfPit(skip, Advance(o, c));
    if CyclePit(skip, Advance(o, c)) != store {
      CycleAvoidsStores(skip, store, Advance(o, c));
    }
  }

  /** The older capture has no own-side test: with three stones in A5 and A to move,
      the last stone lands alone in B1 across from A6, which just received one, and
      both go to MANCALA_A; the turn passes to B. */
  lemma CaptureOnOpponentSide(v: LegacyValue)
    requires v.playerTurn == A && v.pits == [0, 0, 0, 0, 3, 0, 0, 0, 0, 0, 0, 0, 0, 0]
    ensures Sow(v, A5).pits == [0, 0, 0, 0, 0, 0, 3, 0, 0, 0, 0, 0, 0, 0]
    ensures Sow(v, A5).playerTurn == B
  {
    var n := v.sequenceLength;
    var d := Spread(v.pits, MANCALA_B, 4, A5, 3);
    assert A5 in Sowable(v.pits, A) by {
      SowableMember(v.pits, A, A5);
    }
    assert SowLoop(v.pits, A5, MANCALA_B, 4, 3, A, MANCALA_A, n) == LoopResult(ApplyCapture(d, B1, MANCALA_A), B, n + 3) by {
      assert CycleIndex(MANCALA_B, A5) == 4 && Gap(4, 4) == 13;
      SowLoopSpread(v.pits, A5, MANCALA_B, 4, 3, A, MANCALA_A, n);
      assert Advance(4, 3) == 7 && CyclePit(MANCALA_B, 7) == B1;
    }
    assert ApplyCapture(d, B1, MANCALA_A) == [0, 0, 0, 0, 0, 0, 3, 0, 0, 0, 0, 0, 0, 0] by {
      ExampleSpread(v.pits);
      ExampleCapture();
    }
    assert CycleIndex(MANCALA_B, A5) == 4;
  }

  /** Three stones from A5, with MANCALA_B skipped, land in A6, MANCALA_A and B1. */
  lemma ExampleSpread(b: Board)
    requires b == [0, 0, 0, 0, 3, 0, 0, 0, 0, 0, 0, 0, 0, 0]
    ensures Spread(b, MANCALA_B, 4, A5, 3) == [0, 0, 0, 0, 0, 1, 1, 1, 0, 0, 0, 0, 0, 0]
  {
    var d := Spread(b, MANCALA_B, 4, A5, 3);
    assert forall i :: 0 <= i < 14 ==> d[i] == [0, 0, 0, 0, 0, 1, 1, 1, 0, 0, 0, 0, 0, 0][i];
  }

  /** The older capture of that board: the lone stone in B1 and the one in A6 go to
      MANCALA_A. */
  lemma ExampleCapture()
    ensures ApplyCapture([0, 0, 0, 0, 0, 1, 1, 1, 0, 0, 0, 0, 0, 0], B1, MANCALA_A)
         == [0, 0, 0, 0, 0, 0, 3, 0, 0, 0, 0, 0, 0, 0]
  {
    var d: Board := [0, 0, 0, 0, 0, 1, 1, 1, 0, 0, 0, 0, 0, 0];
    var e: Board := [0, 0, 0, 0, 0, 0, 3, 0, 0, 0, 0, 0, 0, 0];
    assert Opposite(B1) == A6 by {
      assert B1 in SmallPits;
    }
    assert CaptureApplies(d, B1);
    var r := ApplyCapture(d, B1, MANCALA_A);
    assert r == Capture(d, B1, MANCALA_A);
    assert r[A6] == 0 && r[MANCALA_A] == 3 && r[B1] == 0;
    assert forall p: Pit :: p != A6 && p != MANCALA_A && p != B1 ==> r[p] == 0;
    assert forall p: Pit :: r[p] == e[p];
  }

  // ---------------------------------------------------------------------------
  // End of the game and set-up
  // ---------------------------------------------------------------------------

  /** checkIfGameEnded: the same test and sweep as the src version. */
  function CheckIfGameEnded(v: LegacyValue): (bool, LegacyValue)
  {
    var (ended, b) := EndCheck(v.pits);
    if ended then (true, v.(pits := b, isGameOver := true)) else (false, v)
  }

  /** The game ends exactly when a side is empty; if it does not, nothing changes; on
      ending both sides are empty, no stone is lost, only the pits and the game-over
      flag change, and a second call changes nothing. */
  lemma CheckIfGameEndedSpec(v: LegacyValue)
    ensures var (ended, r) := CheckIfGameEnded(v);
      (ended <==> SideEmpty(v.pits, A) || SideEmpty(v.pits, B)) &&
      (!ended ==> r == v) &&
      (ended ==> r.isGameOver && SideEmpty(r.pits, A) && SideEmpty(r.pits, B)) &&
      (SideEmpty(v.pits, A) && SideEmpty(v.pits, B) ==> r == v.(isGameOver := true)) &&
      Sum(r.pits) == Sum(v.pits) &&
      r.playerTurn == v.playerTurn && r.sowedPit == v.sowedPit && r.previousState == v.previousState &&
      r.stoneCount == v.stoneCount && r.sequenceLength == v.sequenceLength &&
      (ended ==> CheckIfGameEnded(r) == (true, r))
  {
    EndCheckSpec(v.pits);
    if EndCheck(v.pits).0 {
      EndCheckEmptiesSides(v.pits);
      EndCheckIdempotent(v.pits);
    }
  }

  /** When exactly one side is empty, the other side's stones go to that side's own store. */
  lemma CheckIfGameEndedSweep(v: LegacyValue, pl: Player)
    requires !SideEmpty(v.pits, pl) && SideEmpty(v.pits, Other(pl))
    ensures var (ended, r) := CheckIfGameEnded(v);
      ended && r.isGameOver &&
      r.pits[Store(pl)] == v.pits[Store(pl)] + SumOver(v.pits, SideOrder(pl)) &&
      r.pits[Store(Other(pl))] == v.pits[Store(Other(pl))]
  {
    EndCheckSweeps(v.pits, pl);
  }

  /** populatePits(n): n more stones in every small pit and 12 * n more in the list of
      created stones; nothing is emptied first. */
  function PopulatePits(v: LegacyValue, n: int): (r: LegacyValue)
    ensures var k: nat := if n > 0 then n else 0;
      Sum(r.pits) == Sum(v.pits) + 12 * k && r.stoneCount == v.stoneCount + 12 * k &&
      (forall p: Pit :: p in SmallPits ==> r.pits[p] == v.pits[p] + k) &&
      r.pits[MANCALA_A] == v.pits[MANCALA_A] && r.pits[MANCALA_B] == v.pits[MANCALA_B]
  {
    PopulateSum(v.pits, n);
    v.(pits := Populate(v.pits, n), stoneCount := v.stoneCount + 12 * (if n > 0 then n else 0))
  }
}
