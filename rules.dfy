/** The rules of src/MancalaGameState.java on state values: the sowing loop with
    its last-stone rules, the end-of-game check and the undo-saving state machine.
    The class in module GameState is proved to compute exactly these functions,
    and the search in module Search explores the game through them. */
module Rules {
  import opened Pits
  import opened Sums
  import opened BoardOps
  import opened Wrappers

  /** What a copy of the game state holds: the stone count of every pit, whose turn
      it is, the game-over flag, the saved previous state (itself copied with its own
      previous state), the animation queue (the pit each sown stone was offered to,
      in order) and the initial number of stones per pit. */
  datatype GameValue = GameValue(
    pits: Board,
    playerTurn: Player,
    isGameOver: bool,
    previousState: Option<GameValue>,
    stoneSequence: seq<Pit>,
    initStones: int)

  /** The state of a freshly constructed game: no stones, player A to move. */
  function NewGame(): (v: GameValue)
    ensures (forall p: Pit :: v.pits[p] == 0) && v.playerTurn == A && !v.isGameOver && v.previousState == None
    ensures v.stoneSequence == []
  {
    EmptyBoardEmpty();
    GameValue(EmptyBoard, A, false, None, [], 0)
  }

  /** A new game holds no stone at all. */
  lemma NewGameEmpty()
    ensures Sum(NewGame().pits) == 0
  {
    EmptyBoardEmpty();
  }

  /** The pits getSowablePits reports, in enumeration order. */
  function SowablePits(v: GameValue): seq<Pit>
  {
    Sowable(v.pits, v.playerTurn)
  }

  // ---------------------------------------------------------------------------
  // Sowing
  // ---------------------------------------------------------------------------

  /** The result of the sowing loop: pit counts, whose turn, animation queue. */
  datatype LoopResult = LoopResult(board: Board, turn: Player, sequence: seq<Pit>)

  /** The capture test of the last stone: it lies on the mover's own side, is alone
      in its pit, and the opposite pit holds stones. */
  predicate CaptureApplies(b: Board, cur: Pit, turn: Player)
  {
    ((turn == A && cur in SideAPits) || (turn == B && cur in SideBPits))
    && b[cur] == 1 && b[Opposite(cur)] > 0
  }

  lemma CaptureIsLegal(b: Board, cur: Pit, turn: Player, store: Pit)
    requires CaptureApplies(b, cur, turn) && store in Mancalas
    ensures cur != store && Opposite(cur) != store && Opposite(cur) in SmallPits
  {
    assert cur in SmallPits;
  }

  /** The board after the capture test on the last stone's pit `cur`: when the test
      holds, the stone in cur and then the stones of the opposite pit go to the store.
      No stone is created or lost, the other store is untouched and the mover's store
      does not shrink. */
  function ApplyCapture(b: Board, cur: Pit, turn: Player, store: Pit): (r: Board)
    requires store in Mancalas && cur != store
  {
    if CaptureApplies(b, cur, turn) then
      CaptureIsLegal(b, cur, turn, store);
      OppositeInvolution(store);
      Capture(b, cur, store)
    else b
  }

  /** What a capture does to the board, whether or not it applies. */
  lemma ApplyCaptureSpec(b: Board, cur: Pit, turn: Player, store: Pit)
    requires store in Mancalas && cur != store
    ensures var r := ApplyCapture(b, cur, turn, store);
      Sum(r) == Sum(b) && r[Opposite(store)] == b[Opposite(store)] && r[store] >= b[store]
    ensures !CaptureApplies(b, cur, turn) ==> ApplyCapture(b, cur, turn, store) == b
    ensures CaptureApplies(b, cur, turn) ==>
      var r := ApplyCapture(b, cur, turn, store);
      r[cur] == 0 && r[Opposite(cur)] == 0 && r[store] == b[store] + 1 + b[Opposite(cur)] &&
      forall p: Pit :: p != cur && p != Opposite(cur) && p != store ==> r[p] == b[p]
  {
    if CaptureApplies(b, cur, turn) {
      CaptureIsLegal(b, cur, turn, store);
      OppositeInvolution(store);
      CaptureSum(b, cur, store);
    }
  }

  /** The loop of sowSubroutine from one loop head on: the origin pit, the iterator
      cursor j into the sowing cycle (every pit but `skip`), the stones left to
      count down, the player to move, the mover's store and the animation queue.
      The loop runs while the origin holds stones; it takes one stone from the
      origin and offers it to the next pit of the cycle; when the count reaches
      zero it returns if that pit is the store, and otherwise applies the capture
      test and passes the turn. */
  function SowLoop(b: Board, origin: Pit, skip: Pit, j: nat, left: int, turn: Player,
                   store: Pit, sq: seq<Pit>): LoopResult
    requires store in Mancalas && skip == Opposite(store) && origin != skip && j < 13
    decreases if left > 0 then 1 else 0, 2 * b[origin] + 13 - Gap(j, CycleIndex(skip, origin))
  {
    if b[origin] == 0 then LoopResult(b, turn, sq)
    else
      var j' := NextIndex(j);
      var cur := CyclePit(skip, j');
      var b1 := Move(b, origin, cur);
      var sq1 := sq + [cur];
      GapStep(j, CycleIndex(skip, origin));
      CycleIndexOfPit(skip, j');
      if left - 1 == 0 then
        if cur == store then LoopResult(b1, turn, sq1)
        else
          SowLoop(ApplyCapture(b1, cur, turn, store), origin, skip, j', 0, Other(turn), store, sq1)
      else
        SowLoop(b1, origin, skip, j', left - 1, turn, store, sq1)
  }

  /** sowSubroutine(pit, store): the stone count to sow is the origin's, and the
      iterator starts on the origin itself. */
  function SowSubroutine(v: GameValue, pit: Pit, store: Pit): GameValue
    requires store in Mancalas && pit != Opposite(store)
  {
    var skip := Opposite(store);
    var r := SowLoop(v.pits, pit, skip, CycleIndex(skip, pit), v.pits[pit], v.playerTurn, store, v.stoneSequence);
    v.(pits := r.board, playerTurn := r.turn, stoneSequence := r.sequence)
  }

  /** sow(pit): no legality test; the mover's store is the one of the player to move.
      For the opponent's store the iterator is exhausted before any change and the
      call ends in an exception: None. */
  function Sow(v: GameValue, pit: Pit): (r: Option<GameValue>)
    ensures r.None? <==> forall i :: 0 <= i < 13 ==> CyclePit(Opposite(Store(v.playerTurn)), i) != pit
  {
    var skip := Opposite(Store(v.playerTurn));
    if pit == skip then None
    else
      assert CyclePit(skip, CycleIndex(skip, pit)) == pit;
      Some(SowSubroutine(v, pit, Store(v.playerTurn)))
  }

  /** The loop creates and destroys no stone, never touches the skipped store,
      and, when the origin is not the store, never takes a stone out of the store. */
  lemma {:induction false} SowLoopConserves(b: Board, origin: Pit, skip: Pit, j: nat, left: int,
                                            turn: Player, store: Pit, sq: seq<Pit>)
    requires store in Mancalas && skip == Opposite(store) && origin != skip && j < 13
    ensures var r := SowLoop(b, origin, skip, j, left, turn, store, sq);
      Sum(r.board) == Sum(b) && r.board[skip] == b[skip] &&
      (origin != store ==> r.board[store] >= b[store])
    decreases if left > 0 then 1 else 0, 2 * b[origin] + 13 - Gap(j, CycleIndex(skip, origin))
  {
    if b[origin] > 0 {
      var r := SowLoop(b, origin, skip, j, left, turn, store, sq);
      var j' := NextIndex(j);
      var cur := CyclePit(skip, j');
      var b1 := Move(b, origin, cur);
      var sq1 := sq + [cur];
      GapStep(j, CycleIndex(skip, origin));
      CycleIndexOfPit(skip, j');
      assert Sum(b1) == Sum(b) && b1[skip] == b[skip] && (origin != store ==> b1[store] >= b[store]) by {
        MoveSpec(b, origin, cur);
      }
      if left - 1 == 0 {
        if cur != store {
          var b2 := ApplyCapture(b1, cur, turn, store);
          assert Sum(b2) == Sum(b1) && b2[skip] == b1[skip] && b2[store] >= b1[store] by {
            ApplyCaptureSpec(b1, cur, turn, store);
          }
          assert r == SowLoop(b2, origin, skip, j', 0, Other(turn), store, sq1);
          SowLoopConserves(b2, origin, skip, j', 0, Other(turn), store, sq1);
        }
      } else {
        assert r == SowLoop(b1, origin, skip, j', left - 1, turn, store, sq1);
        SowLoopConserves(b1, origin, skip, j', left - 1, turn, store, sq1);
      }
    }
  }

  /** The loop only appends to the animation queue. */
  lemma {:induction false} SowLoopExtends(b: Board, origin: Pit, skip: Pit, j: nat, left: int,
                                          turn: Player, store: Pit, sq: seq<Pit>)
    requires store in Mancalas && skip == Opposite(store) && origin != skip && j < 13
    ensures var r := SowLoop(b, origin, skip, j, left, turn, store, sq);
      |r.sequence| >= |sq| && r.sequence[..|sq|] == sq
    decreases if left > 0 then 1 else 0, 2 * b[origin] + 13 - Gap(j, CycleIndex(skip, origin))
  {
    if b[origin] > 0 {
      var r := SowLoop(b, origin, skip, j, left, turn, store, sq);
      var j' := NextIndex(j);
      var cur := CyclePit(skip, j');
      var b1 := Move(b, origin, cur);
      var sq1 := sq + [cur];
      assert sq1[..|sq|] == sq;
      GapStep(j, CycleIndex(skip, origin));
      CycleIndexOfPit(skip, j');
      if left - 1 == 0 {
        if cur != store {
          var b2 := ApplyCapture(b1, cur, turn, store);
          assert r == SowLoop(b2, origin, skip, j', 0, Other(turn), store, sq1);
          SowLoopExtends(b2, origin, skip, j', 0, Other(turn), store, sq1);
        }
      } else {
        assert r == SowLoop(b1, origin, skip, j', left - 1, turn, store, sq1);
        SowLoopExtends(b1, origin, skip, j', left - 1, turn, store, sq1);
      }
    }
  }

  /** A sow moves stones but never creates or destroys one, never puts a stone in
      the opponent's store and, from a pit other than the mover's store, never takes
      one out of the mover's store. The animation queue only grows. */
  lemma SowConserves(v: GameValue, pit: Pit)
    requires Sow(v, pit).Some?
    ensures var r := Sow(v, pit).value;
      Sum(r.pits) == Sum(v.pits) &&
      r.pits[Opposite(Store(v.playerTurn))] == v.pits[Opposite(Store(v.playerTurn))] &&
      (pit != Store(v.playerTurn) ==> r.pits[Store(v.playerTurn)] >= v.pits[Store(v.playerTurn)]) &&
      r.isGameOver == v.isGameOver && r.initStones == v.initStones &&
      |r.stoneSequence| >= |v.stoneSequence| && r.stoneSequence[..|v.stoneSequence|] == v.stoneSequence
  {
    var store := Store(v.playerTurn);
    var skip := Opposite(store);
    SowLoopConserves(v.pits, pit, skip, CycleIndex(skip, pit), v.pits[pit], v.playerTurn, store, v.stoneSequence);
    SowLoopExtends(v.pits, pit, skip, CycleIndex(skip, pit), v.pits[pit], v.playerTurn, store, v.stoneSequence);
  }

  /** Sowing an empty pit changes nothing: the loop does not run. */
  lemma SowEmptyPit(v: GameValue, pit: Pit)
    requires pit != Opposite(Store(v.playerTurn)) && v.pits[pit] == 0
    ensures Sow(v, pit) == Some(v)
  {
  }

  // ---------------------------------------------------------------------------
  // A sow of at most twelve stones from a legal pit
  // ---------------------------------------------------------------------------

  /** The last-stone rules on the board after the distribution. */
  function LastStone(d: Board, last: Pit, turn: Player, store: Pit, sq: seq<Pit>): LoopResult
    requires store in Mancalas
  {
    if last == store then LoopResult(d, turn, sq)
    else LoopResult(ApplyCapture(d, last, turn, store), Other(turn), sq)
  }

  /** One stone left: it goes to the next pit and the last-stone rules end the loop. */
  lemma SowLoopLastStone(b: Board, origin: Pit, skip: Pit, j: nat, turn: Player, store: Pit, sq: seq<Pit>)
    requires store in Mancalas && skip == Opposite(store) && origin != skip && origin != store && j < 13
    requires b[origin] == 1 && CyclePit(skip, NextIndex(j)) != origin
    ensures var cur := CyclePit(skip, NextIndex(j));
      SowLoop(b, origin, skip, j, 1, turn, store, sq)
        == LastStone(Move(b, origin, cur), cur, turn, store, sq + [cur])
  {
    var j' := NextIndex(j);
    var cur := CyclePit(skip, j');
    var b1 := Move(b, origin, cur);
    GapStep(j, CycleIndex(skip, origin));
    CycleIndexOfPit(skip, j');
    if cur != store {
      var b2 := ApplyCapture(b1, cur, turn, store);
      assert b2[origin] == 0;
      assert SowLoop(b, origin, skip, j, 1, turn, store, sq)
          == SowLoop(b2, origin, skip, j', 0, Other(turn), store, sq + [cur]);
    }
  }

  /** While the origin cannot be reached again, the loop spreads its n stones over the
      next n pits, then applies the last-stone rules once, then stops. */
  lemma SowLoopSpread(b: Board, origin: Pit, skip: Pit, j: nat, n: nat,
                      turn: Player, store: Pit, sq: seq<Pit>)
    requires store in Mancalas && skip == Opposite(store) && origin != skip && origin != store && j < 13
    requires b[origin] == n >= 1 && Gap(j, CycleIndex(skip, origin)) > n
    ensures SowLoop(b, origin, skip, j, n, turn, store, sq)
         == LastStone(Spread(b, skip, j, origin, n), CyclePit(skip, Advance(j, n)), turn, store,
                      sq + Path(skip, j, n))
  {
    SowLoopSpreadInto(b, origin, skip, j, n, turn, store, sq,
                      Spread(b, skip, j, origin, n), CyclePit(skip, Advance(j, n)), sq + Path(skip, j, n));
  }

  /** The same, with the final board d, landing pit last and queue q of the closed
      form fixed in advance: each iteration before the last moves one stone and leaves
      the closed form of the rest equal to them. */
  lemma {:induction false} SowLoopSpreadInto(b: Board, origin: Pit, skip: Pit, j: nat, n: nat,
                                             turn: Player, store: Pit, sq: seq<Pit>,
                                             d: Board, last: Pit, q: seq<Pit>)
    requires store in Mancalas && skip == Opposite(store) && origin != skip && origin != store && j < 13
    requires b[origin] == n >= 1 && Gap(j, CycleIndex(skip, origin)) > n
    requires d == Spread(b, skip, j, origin, n) && last == CyclePit(skip, Advance(j, n))
    requires q == sq + Path(skip, j, n)
    ensures SowLoop(b, origin, skip, j, n, turn, store, sq) == LastStone(d, last, turn, store, q)
    decreases n
  {
    if n == 1 {
      SowLoopSpreadOne(b, origin, skip, j, n, turn, store, sq);
    } else {
      var cur := CyclePit(skip, NextIndex(j));
      var b1 := Move(b, origin, cur);
      SowLoopStep(b, origin, skip, j, n, turn, store, sq);
      assert SowLoop(b1, origin, skip, NextIndex(j), n - 1, turn, store, sq + [cur]) == LastStone(d, last, turn, store, q) by {
        SpreadNext(b, origin, skip, j, n);
        SpreadClosedStep(b, origin, skip, j, n, sq);
        SowLoopSpreadInto(b1, origin, skip, NextIndex(j), n - 1, turn, store, sq + [cur], d, last, q);
      }
    }
  }

  /** The last of the spread stones. */
  lemma SowLoopSpreadOne(b: Board, origin: Pit, skip: Pit, j: nat, n: nat, turn: Player, store: Pit, sq: seq<Pit>)
    requires store in Mancalas && skip == Opposite(store) && origin != skip && origin != store && j < 13
    requires n == 1 && b[origin] == n && Gap(j, CycleIndex(skip, origin)) > n
    ensures SowLoop(b, origin, skip, j, n, turn, store, sq)
         == LastStone(Spread(b, skip, j, origin, n), CyclePit(skip, Advance(j, n)), turn, store,
                      sq + Path(skip, j, n))
  {
    var j' := NextIndex(j);
    var cur := CyclePit(skip, j');
    var b1 := Move(b, origin, cur);
    SpreadStep(b, skip, j, origin, 1);
    SpreadNone(b1, skip, j', origin);
    SowLoopLastStone(b, origin, skip, j, turn, store, sq);
    assert Path(skip, j, 1) == [cur];
  }

  /** With stones still to count after this one, an iteration only moves a stone. */
  lemma SowLoopStep(b: Board, origin: Pit, skip: Pit, j: nat, n: nat, turn: Player, store: Pit, sq: seq<Pit>)
    requires store in Mancalas && skip == Opposite(store) && origin != skip && j < 13
    requires b[origin] > 0 && n >= 2
    ensures SowLoop(b, origin, skip, j, n, turn, store, sq)
         == SowLoop(Move(b, origin, CyclePit(skip, NextIndex(j))), origin, skip, NextIndex(j), n - 1,
                    turn, store, sq + [CyclePit(skip, NextIndex(j))])
  {
    SowLoopUnfold(b, origin, skip, j, n, turn, store, sq);
  }

  /** The closed form from the next cursor, with one stone already moved, has the
      board, the landing pit and the queue of the closed form from this one. */
  lemma SpreadClosedStep(b: Board, origin: Pit, skip: Pit, j: nat, n: nat, sq: seq<Pit>)
    requires skip in Mancalas && origin != skip && j < 13
    requires b[origin] == n >= 2 && Gap(j, CycleIndex(skip, origin)) > n
    ensures Spread(Move(b, origin, CyclePit(skip, NextIndex(j))), skip, NextIndex(j), origin, n - 1)
         == Spread(b, skip, j, origin, n)
    ensures Advance(NextIndex(j), n - 1) == Advance(j, n)
    ensures sq + [CyclePit(skip, NextIndex(j))] + Path(skip, NextIndex(j), n - 1) == sq + Path(skip, j, n)
  {
    SpreadStep(b, skip, j, origin, n);
    assert Path(skip, j, n) == [CyclePit(skip, NextIndex(j))] + Path(skip, NextIndex(j), n - 1);
  }

  /** One iteration of the loop, in each of its three outcomes. */
  lemma SowLoopUnfold(b: Board, origin: Pit, skip: Pit, j: nat, left: int, turn: Player, store: Pit, sq: seq<Pit>)
    requires store in Mancalas && skip == Opposite(store) && origin != skip && j < 13 && b[origin] > 0
    ensures var cur := CyclePit(skip, NextIndex(j));
      var b1 := Move(b, origin, cur);
      SowLoop(b, origin, skip, j, left, turn, store, sq)
        == if left - 1 != 0 then SowLoop(b1, origin, skip, NextIndex(j), left - 1, turn, store, sq + [cur])
           else if cur == store then LoopResult(b1, turn, sq + [cur])
           else SowLoop(ApplyCapture(b1, cur, turn, store), origin, skip, NextIndex(j), 0, Other(turn), store, sq + [cur])
  {
  }

  /** The pits a sow of `pit` reaches with its c stones, in order. */
  function SownPits(v: GameValue, pit: Pit): (r: seq<Pit>)
    requires pit != Opposite(Store(v.playerTurn))
    ensures |r| == v.pits[pit]
  {
    var skip := Opposite(Store(v.playerTurn));
    Path(skip, CycleIndex(skip, pit), v.pits[pit])
  }

  /** The board once every stone of `pit` has been offered, before any last-stone rule. */
  function Distributed(v: GameValue, pit: Pit): Board
    requires pit != Opposite(Store(v.playerTurn))
  {
    var skip := Opposite(Store(v.playerTurn));
    Spread(v.pits, skip, CycleIndex(skip, pit), pit, v.pits[pit])
  }

  /** In closed form: a legal sow of c <= 12 stones empties its pit, offers one stone to
      each of the next c pits of the cycle, records exactly those pits in the
      animation queue, and then applies the last-stone rules to the c-th pit. */
  lemma SowClosedForm(v: GameValue, pit: Pit)
    requires pit in Side(v.playerTurn) && 1 <= v.pits[pit] <= 12
    ensures var store := Store(v.playerTurn);
      var sown := SownPits(v, pit);
      var r := LastStone(Distributed(v, pit), sown[|sown| - 1], v.playerTurn, store,
                         v.stoneSequence + sown);
      Sow(v, pit) == Some(v.(pits := r.board, playerTurn := r.turn, stoneSequence := r.sequence))
  {
    SidePit(v.playerTurn, pit);
    var store := Store(v.playerTurn);
    var skip := Opposite(store);
    var o := CycleIndex(skip, pit);
    var c := v.pits[pit];
    assert Gap(o, o) == 13;
    SowLoopSpread(v.pits, pit, skip, o, c, v.playerTurn, store, v.stoneSequence);
    PathAt(skip, o, c, c);
    assert SownPits(v, pit) == Path(skip, o, c);
    assert Distributed(v, pit) == Spread(v.pits, skip, o, pit, c);
  }

  /** What the distribution does: the origin ends empty, each pit of the sown path has
      gained exactly one stone and every other pit is as before; the path has c
      distinct pits, starts right after the origin, never contains the origin or the
      opponent's store, and its k-th pit is k steps ahead in the cycle. */
  lemma DistributedSpec(v: GameValue, pit: Pit)
    requires pit in Side(v.playerTurn) && 1 <= v.pits[pit] <= 12
    ensures var d := Distributed(v, pit);
      var sown := SownPits(v, pit);
      var skip := Opposite(Store(v.playerTurn));
      d[pit] == 0 &&
      (forall p: Pit :: p != pit ==> d[p] == v.pits[p] + (if p in sown then 1 else 0)) &&
      pit !in sown && skip !in sown &&
      (forall k, m :: 0 <= k < m < |sown| ==> sown[k] != sown[m]) &&
      sown[0] == NextPit(skip, pit) &&
      (forall k :: 0 <= k < |sown| - 1 ==> sown[k + 1] == NextPit(skip, sown[k]))
  {
    DistributedOrigin(v, pit);
    DistributedBoard(v, pit);
    DistributedOrder(v, pit);
    SidePit(v.playerTurn, pit);
    var skip := Opposite(Store(v.playerTurn));
    PathDistinct(skip, CycleIndex(skip, pit), v.pits[pit]);
  }

  /** Every pit but the origin gains one stone exactly when it is on the sown path. */
  lemma DistributedBoard(v: GameValue, pit: Pit)
    requires pit in Side(v.playerTurn) && 1 <= v.pits[pit] <= 12
    ensures var d := Distributed(v, pit);
      forall p: Pit :: p != pit ==> d[p] == v.pits[p] + (if p in SownPits(v, pit) then 1 else 0)
  {
    SidePit(v.playerTurn, pit);
    var skip := Opposite(Store(v.playerTurn));
    var o := CycleIndex(skip, pit);
    var c := v.pits[pit];
    forall p: Pit | p != pit
      ensures Distributed(v, pit)[p] == v.pits[p] + (if p in SownPits(v, pit) then 1 else 0)
    {
      PathMembers(skip, o, c, p);
    }
  }

  /** The sown path starts right after the origin and follows the cycle. */
  lemma DistributedOrder(v: GameValue, pit: Pit)
    requires pit in Side(v.playerTurn) && 1 <= v.pits[pit] <= 12
    ensures var sown := SownPits(v, pit);
      var skip := Opposite(Store(v.playerTurn));
      sown[0] == NextPit(skip, pit) &&
      (forall k :: 0 <= k < |sown| - 1 ==> sown[k + 1] == NextPit(skip, sown[k]))
  {
    SidePit(v.playerTurn, pit);
    var skip := Opposite(Store(v.playerTurn));
    var o := CycleIndex(skip, pit);
    var c := v.pits[pit];
    var sown := SownPits(v, pit);
    PathAt(skip, o, c, 1);
    CycleIsOrdinalOrder(skip, pit);
    forall k | 0 <= k < |sown| - 1 ensures sown[k + 1] == NextPit(skip, sown[k]) {
      PathFollows(skip, o, c, k);
    }
  }

  /** The last-stone rules of a legal sow of c <= 12 stones, stated outright: the turn
      stays exactly when the c-th stone lands in the mover's store; a capture, when
      its test holds, empties the landing pit and the opposite pit into the mover's
      store; otherwise the board is the distribution. The queue grows by c entries
      and the flag and the initial-stone count do not change. */
  lemma SowLastStone(v: GameValue, pit: Pit)
    requires pit in Side(v.playerTurn) && 1 <= v.pits[pit] <= 12
    ensures var r := Sow(v, pit).value;
      var d := Distributed(v, pit);
      var sown := SownPits(v, pit);
      var last := sown[|sown| - 1];
      var store := Store(v.playerTurn);
      r.stoneSequence == v.stoneSequence + sown &&
      |r.stoneSequence| == |v.stoneSequence| + v.pits[pit] &&
      r.isGameOver == v.isGameOver && r.initStones == v.initStones &&
      (r.playerTurn == v.playerTurn <==> last == store) &&
      (last != store ==> r.playerTurn == Other(v.playerTurn)) &&
      r.pits[pit] == 0 &&
      (!CaptureApplies(d, last, v.playerTurn) ==> r.pits == d) &&
      (CaptureApplies(d, last, v.playerTurn) ==>
         last != store &&
         r.pits[last] == 0 && r.pits[Opposite(last)] == 0 &&
         r.pits[store] == d[store] + 1 + d[Opposite(last)] &&
         forall p: Pit :: p != last && p != Opposite(last) && p != store ==> r.pits[p] == d[p])
  {
    SidePit(v.playerTurn, pit);
    SowClosedForm(v, pit);
    DistributedOrigin(v, pit);
    var d := Distributed(v, pit);
    var sown := SownPits(v, pit);
    var last := sown[|sown| - 1];
    var store := Store(v.playerTurn);
    assert last in sown;
    if CaptureApplies(d, last, v.playerTurn) {
      CaptureIsLegal(d, last, v.playerTurn, store);
      CaptureFrame(d, last, store);
      assert pit != Opposite(last) by {
        SidePit(v.playerTurn, last);
      }
    }
  }

  /** The distribution empties the origin, and the sown path never returns to it and
      never reaches the opponent's store. */
  lemma DistributedOrigin(v: GameValue, pit: Pit)
    requires pit in Side(v.playerTurn) && 1 <= v.pits[pit] <= 12
    ensures Distributed(v, pit)[pit] == 0 && pit !in SownPits(v, pit)
    ensures Opposite(Store(v.playerTurn)) !in SownPits(v, pit)
  {
    SidePit(v.playerTurn, pit);
    var skip := Opposite(Store(v.playerTurn));
    var o := CycleIndex(skip, pit);
    assert Gap(o, o) == 13;
    PathMembers(skip, o, v.pits[pit], pit);
    PathMembers(skip, o, v.pits[pit], skip);
  }

  /** Extra turn: with four stones in A3 and A to move, the last stone lands in
      MANCALA_A and A moves again. */
  lemma ExtraTurnExample(v: GameValue)
    requires v.playerTurn == A && v.pits[A3] == 4
    ensures Sow(v, A3).value.playerTurn == A
    ensures Sow(v, A3).value.pits[MANCALA_A] == v.pits[MANCALA_A] + 1
  {
    SowableSpec(v.pits, A);
    SowLastStone(v, A3);
    DistributedSpec(v, A3);
    assert SownPits(v, A3) == [A4, A5, A6, MANCALA_A];
  }

  /** The capture needs the last pit on the mover's side: with three stones in A5 and A
      to move, the last stone lands alone in B1 across from a non-empty A6, yet nothing
      is captured and the turn passes to B. */
  lemma NoCaptureOnOpponentSide(v: GameValue)
    requires v.playerTurn == A && v.pits == [0, 0, 0, 0, 3, 0, 0, 0, 0, 0, 0, 0, 0, 0]
    ensures Sow(v, A5).value.pits == [0, 0, 0, 0, 0, 1, 1, 1, 0, 0, 0, 0, 0, 0]
    ensures Sow(v, A5).value.playerTurn == B
  {
    SowClosedForm(v, A5);
    assert SownPits(v, A5) == [A6, MANCALA_A, B1];
    var d := Distributed(v, A5);
    assert d == [0, 0, 0, 0, 0, 1, 1, 1, 0, 0, 0, 0, 0, 0] by {
      assert forall i :: 0 <= i < 14 ==> d[i] == [0, 0, 0, 0, 0, 1, 1, 1, 0, 0, 0, 0, 0, 0][i];
    }
    assert !CaptureApplies(d, B1, A);
  }

  // ---------------------------------------------------------------------------
  // End of the game
  // ---------------------------------------------------------------------------

  /** checkIfGameEnded: on a side found empty, sweep the other side and mark the game over. */
  function CheckIfGameEnded(v: GameValue): (bool, GameValue)
  {
    var (ended, b) := EndCheck(v.pits);
    if ended then (true, v.(pits := b, isGameOver := true)) else (false, v)
  }

  /** The game ends exactly when a side is empty; if one side only is empty the other
      side's stones go to its own store; if it does not end, nothing changes; no stone
      is lost; a second call finds the game over and changes no pit. */
  lemma CheckIfGameEndedSpec(v: GameValue)
    ensures var (ended, r) := CheckIfGameEnded(v);
      (ended <==> SideEmpty(v.pits, A) || SideEmpty(v.pits, B)) &&
      (!ended ==> r == v) &&
      (ended ==> r.isGameOver && SideEmpty(r.pits, A) && SideEmpty(r.pits, B)) &&
      (SideEmpty(v.pits, A) && SideEmpty(v.pits, B) ==> r == v.(isGameOver := true)) &&
      Sum(r.pits) == Sum(v.pits) &&
      r.playerTurn == v.playerTurn && r.stoneSequence == v.stoneSequence &&
      (ended ==> CheckIfGameEnded(r) == (true, r))
  {
    EndCheckSpec(v.pits);
    if EndCheck(v.pits).0 {
      EndCheckEmptiesSides(v.pits);
      EndCheckIdempotent(v.pits);
    }
  }

  /** When exactly one side is empty, the other side's remaining stones go to that
      other side's own store and the empty side's store is untouched. */
  lemma CheckIfGameEndedSweep(v: GameValue, pl: Player)
    requires !SideEmpty(v.pits, pl) && SideEmpty(v.pits, Other(pl))
    ensures var (ended, r) := CheckIfGameEnded(v);
      ended && r.isGameOver &&
      r.pits[Store(pl)] == v.pits[Store(pl)] + SumOver(v.pits, SideOrder(pl)) &&
      r.pits[Store(Other(pl))] == v.pits[Store(Other(pl))]
  {
    EndCheckSweeps(v.pits, pl);
  }

  /** A game that is not over has a move for the player to act. */
  lemma NotEndedHasMove(v: GameValue)
    requires !CheckIfGameEnded(v).0
    ensures SowablePits(v) != []
  {
    EndCheckSpec(v.pits);
    SowableSpec(v.pits, v.playerTurn);
  }

  // ---------------------------------------------------------------------------
  // Saving the previous state when the opponent is the computer
  // ---------------------------------------------------------------------------

  /** The transition of shouldISaveGameState's state machine; a state outside 0..3
      matches no case and is kept. */
  function NextFiniteState(fs: int, isHuman: bool): (r: int)
    ensures 0 <= fs <= 3 ==> 0 <= r <= 3
    ensures fs == 1 ==> r == 2 || r == 3
    ensures isHuman && 0 <= fs <= 3 && fs != 1 ==> r == 0
  {
    if fs == 0 then (if isHuman then 0 else 1)
    else if fs == 1 then (if isHuman then 2 else 3)
    else if fs == 2 then (if isHuman then 0 else 1)
    else if fs == 3 then (if isHuman then 0 else 3)
    else fs
  }

  /** Whether the new state asks for a snapshot. */
  predicate SavesIn(fs: int)
  {
    fs == 0 || fs == 1
  }

  /** From state 1 the machine never saves; from 3 a computer move keeps not saving. */
  lemma FiniteStateSaves(fs: int, isHuman: bool)
    requires 0 <= fs <= 3
    ensures fs == 1 ==> !SavesIn(NextFiniteState(fs, isHuman))
    ensures fs == 3 && !isHuman ==> !SavesIn(NextFiniteState(fs, isHuman))
    ensures fs != 1 ==> (SavesIn(NextFiniteState(fs, isHuman)) <==> fs != 3 || isHuman)
  {
  }

  // ---------------------------------------------------------------------------
  // Setting up a game
  // ---------------------------------------------------------------------------

  /** The pits after emptyAllPits and populatePits(n). */
  function SetupBoard(n: int): Board
  {
    Populate(EmptyBoard, n)
  }

  /** A new game holds n stones in each of the twelve small pits, none in the stores,
      12 * n in all. */
  lemma SetupBoardSpec(n: nat)
    ensures forall p: Pit :: p in SmallPits ==> SetupBoard(n)[p] == n
    ensures SetupBoard(n)[MANCALA_A] == 0 && SetupBoard(n)[MANCALA_B] == 0
    ensures Sum(SetupBoard(n)) == 12 * n
  {
    PopulateSum(EmptyBoard, n);
    EmptyBoardEmpty();
  }
}
