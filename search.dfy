/** The depth-limited minimax of src/MancalaModel.java. Each recursive call works on
    its own copy of the state, so the recursion is a function of state values; the
    top-level search is a loop over the sowable pits of the model's current state. */
module Search {
  import opened Pits
  import opened Sums
  import opened BoardOps
  import opened Wrappers
  import opened Rules
  import GameState

  /** The extreme values of a Java int, used as the initial best scores. */
  const INT_MIN: int := -0x8000_0000
  const INT_MAX: int := 0x7fff_ffff

  /** Java's int division by two, which truncates toward zero. */
  function JavaHalf(x: int): (r: int)
    ensures x >= 0 ==> r == x / 2
    ensures 2 * r <= x + 1 && x - 1 <= 2 * r
    ensures (x >= 0 ==> r >= 0) && (x <= 0 ==> r <= 0)
    ensures x <= 0 ==> x <= 2 * r
  {
    if x >= 0 then x / 2 else -((-x) / 2)
  }

  /** A move with its score, as the Java Pair<Pit, Integer>; the pit is absent when no
      move has beaten the initial score. */
  datatype Scored = Scored(move: Option<Pit>, score: int)

  /** A pit the mover can sow without the iterator running out. */
  predicate Movable(s: GameValue, p: Pit)
  {
    p != Opposite(Store(s.playerTurn))
  }

  /** The store difference from the maximizer's point of view. */
  function Score(t: GameValue, maximizer: Player): int
  {
    var d := t.pits[MANCALA_A] as int - t.pits[MANCALA_B] as int;
    if maximizer == A then d else -d
  }

  /** Whether the search stops after a move: no depth left, the game has ended, or one
      store holds more than half of all the stones the game started with. The stores
      are read after the sow and before the end-of-game sweep. */
  predicate Terminal(t: GameValue, depth: nat)
  {
    var total := t.initStones * 12;
    depth == 0 || CheckIfGameEnded(t).0
    || t.pits[MANCALA_A] > JavaHalf(total) || t.pits[MANCALA_B] > JavaHalf(total)
  }

  /** minimax(state, pitMove, maximizer, depth): make the move on a copy, score it if
      the search stops there, otherwise take the best reply for whoever moves next. */
  function Child(s: GameValue, pitMove: Pit, maximizer: Player, depth: nat): Scored
    requires Movable(s, pitMove)
    decreases depth, 2, 0
  {
    AfterMove(Sow(s, pitMove).value, pitMove, maximizer, depth)
  }

  /** The second half of minimax: the state t after the move on pitMove is scored if
      the search stops there, otherwise searched one level down for whoever moves. */
  function AfterMove(t: GameValue, pitMove: Pit, maximizer: Player, depth: nat): Scored
    decreases depth, 1, 0
  {
    if Terminal(t, depth) then Scored(Some(pitMove), Score(t, maximizer))
    else
      SowablesMovable(t);
      if t.playerTurn == maximizer then MaxOver(t, SowablePits(t), maximizer, depth - 1, Scored(None, INT_MIN))
      else MinOver(t, SowablePits(t), maximizer, depth - 1, Scored(None, INT_MAX))
  }

  /** The maximizing loop: a reply replaces the best so far only with a strictly
      greater score. */
  function MaxOver(s: GameValue, pits: seq<Pit>, maximizer: Player, depth: nat, best: Scored): Scored
    requires forall p :: p in pits ==> Movable(s, p)
    decreases depth + 1, 0, |pits|
  {
    if pits == [] then best
    else
      var move := Child(s, pits[0], maximizer, depth);
      MaxOver(s, pits[1..], maximizer, depth,
              if move.score > best.score then Scored(Some(pits[0]), move.score) else best)
  }

  /** The minimizing loop: a reply replaces the best so far only with a strictly
      smaller score. */
  function MinOver(s: GameValue, pits: seq<Pit>, maximizer: Player, depth: nat, best: Scored): Scored
    requires forall p :: p in pits ==> Movable(s, p)
    decreases depth + 1, 0, |pits|
  {
    if pits == [] then best
    else
      var move := Child(s, pits[0], maximizer, depth);
      MinOver(s, pits[1..], maximizer, depth,
              if move.score < best.score then Scored(Some(pits[0]), move.score) else best)
  }

  /** minimax(depth): no move once the game is over; otherwise the first of the mover's
      sowable pits with the greatest score, searched to the same depth. */
  function BestMove(s: GameValue, depth: nat): Option<Pit>
  {
    if s.isGameOver then None
    else
      SowablesMovable(s);
      MaxOver(s, SowablePits(s), s.playerTurn, depth, Scored(None, INT_MIN)).move
  }

  lemma SowablesMovable(s: GameValue)
    ensures forall p :: p in SowablePits(s) ==> Movable(s, p)
  {
    SowableSpec(s.pits, s.playerTurn);
  }

  // ---------------------------------------------------------------------------
  // The folds pick the first best reply
  // ---------------------------------------------------------------------------

  /** The maximizing loop ends with the greatest of the initial score and every
      reply's score; when a reply wins, it is the first reply reaching that score. */
  lemma {:induction false} MaxOverIsMax(s: GameValue, pits: seq<Pit>, maximizer: Player, depth: nat, best: Scored)
    requires forall p :: p in pits ==> Movable(s, p)
    ensures var r := MaxOver(s, pits, maximizer, depth, best);
      r.score >= best.score &&
      (forall k :: 0 <= k < |pits| ==> Child(s, pits[k], maximizer, depth).score <= r.score) &&
      (r == best ||
       exists k :: 0 <= k < |pits| && r == Scored(Some(pits[k]), Child(s, pits[k], maximizer, depth).score) &&
         r.score > best.score &&
         forall i :: 0 <= i < k ==> Child(s, pits[i], maximizer, depth).score < r.score)
  {
    MaxOverIsMaxBound(s, pits, maximizer, depth, best);
    var k := MaxOverIsMaxWitness(s, pits, maximizer, depth, best);
  }

  lemma {:induction false} MaxOverIsMaxBound(s: GameValue, pits: seq<Pit>, maximizer: Player, depth: nat, best: Scored)
    requires forall p :: p in pits ==> Movable(s, p)
    ensures var r := MaxOver(s, pits, maximizer, depth, best);
      r.score >= best.score &&
      (forall k :: 0 <= k < |pits| ==> Child(s, pits[k], maximizer, depth).score <= r.score)
    decreases |pits|
  {
    if pits != [] {
      var move := Child(s, pits[0], maximizer, depth);
      var best' := if move.score > best.score then Scored(Some(pits[0]), move.score) else best;
      MaxOverIsMaxBound(s, pits[1..], maximizer, depth, best');
      var r := MaxOver(s, pits, maximizer, depth, best);
      assert r == MaxOver(s, pits[1..], maximizer, depth, best');
      forall k | 0 <= k < |pits| ensures Child(s, pits[k], maximizer, depth).score <= r.score {
        if k > 0 {
          assert pits[k] == pits[1..][k - 1];
        }
      }
    }
  }

  lemma {:induction false} MaxOverIsMaxWitness(s: GameValue, pits: seq<Pit>, maximizer: Player, depth: nat, best: Scored)
      returns (k: int)
    requires forall p :: p in pits ==> Movable(s, p)
    ensures var r := MaxOver(s, pits, maximizer, depth, best);
      r == best ||
      (0 <= k < |pits| && r == Scored(Some(pits[k]), Child(s, pits[k], maximizer, depth).score) &&
       r.score > best.score &&
       forall i :: 0 <= i < k ==> Child(s, pits[i], maximizer, depth).score < r.score)
    decreases |pits|
  {
    k := -1;
    if pits != [] {
      var move := Child(s, pits[0], maximizer, depth);
      var best' := if move.score > best.score then Scored(Some(pits[0]), move.score) else best;
      var k' := MaxOverIsMaxWitness(s, pits[1..], maximizer, depth, best');
      var r := MaxOver(s, pits, maximizer, depth, best);
      assert r == MaxOver(s, pits[1..], maximizer, depth, best');
      if r != best {
        if r == best' {
          k := 0;
        } else {
          k := k' + 1;
          forall i | 0 <= i < k ensures Child(s, pits[i], maximizer, depth).score < r.score {
            if i > 0 {
              assert pits[i] == pits[1..][i - 1];
            }
          }
          assert pits[k] == pits[1..][k'];
        }
      }
    }
  }

  /** The minimizing loop ends with the smallest of the initial score and every
      reply's score; when a reply wins, it is the first reply reaching that score. */
  lemma {:induction false} MinOverIsMin(s: GameValue, pits: seq<Pit>, maximizer: Player, depth: nat, best: Scored)
    requires forall p :: p in pits ==> Movable(s, p)
    ensures var r := MinOver(s, pits, maximizer, depth, best);
      r.score <= best.score &&
      (forall k :: 0 <= k < |pits| ==> Child(s, pits[k], maximizer, depth).score >= r.score) &&
      (r == best ||
       exists k :: 0 <= k < |pits| && r == Scored(Some(pits[k]), Child(s, pits[k], maximizer, depth).score) &&
         r.score < best.score &&
         forall i :: 0 <= i < k ==> Child(s, pits[i], maximizer, depth).score > r.score)
  {
    MinOverIsMinBound(s, pits, maximizer, depth, best);
    var k := MinOverIsMinWitness(s, pits, maximizer, depth, best);
  }

  lemma {:induction false} MinOverIsMinBound(s: GameValue, pits: seq<Pit>, maximizer: Player, depth: nat, best: Scored)
    requires forall p :: p in pits ==> Movable(s, p)
    ensures var r := MinOver(s, pits, maximizer, depth, best);
      r.score <= best.score &&
      (forall k :: 0 <= k < |pits| ==> Child(s, pits[k], maximizer, depth).score >= r.score)
    decreases |pits|
  {
    if pits != [] {
      var move := Child(s, pits[0], maximizer, depth);
      var best' := if move.score < best.score then Scored(Some(pits[0]), move.score) else best;
      MinOverIsMinBound(s, pits[1..], maximizer, depth, best');
      var r := MinOver(s, pits, maximizer, depth, best);
      assert r == MinOver(s, pits[1..], maximizer, depth, best');
      forall k | 0 <= k < |pits| ensures Child(s, pits[k], maximizer, depth).score >= r.score {
        if k > 0 {
          assert pits[k] == pits[1..][k - 1];
        }
      }
    }
  }

  lemma {:induction false} MinOverIsMinWitness(s: GameValue, pits: seq<Pit>, maximizer: Player, depth: nat, best: Scored)
      returns (k: int)
    requires forall p :: p in pits ==> Movable(s, p)
    ensures var r := MinOver(s, pits, maximizer, depth, best);
      r == best ||
      (0 <= k < |pits| && r == Scored(Some(pits[k]), Child(s, pits[k], maximizer, depth).score) &&
       r.score < best.score &&
       forall i :: 0 <= i < k ==> Child(s, pits[i], maximizer, depth).score > r.score)
    decreases |pits|
  {
    k := -1;
    if pits != [] {
      var move := Child(s, pits[0], maximizer, depth);
      var best' := if move.score < best.score then Scored(Some(pits[0]), move.score) else best;
      var k' := MinOverIsMinWitness(s, pits[1..], maximizer, depth, best');
      var r := MinOver(s, pits, maximizer, depth, best);
      assert r == MinOver(s, pits[1..], maximizer, depth, best');
      if r != best {
        if r == best' {
          k := 0;
        } else {
          k := k' + 1;
          forall i | 0 <= i < k ensures Child(s, pits[i], maximizer, depth).score > r.score {
            if i > 0 {
              assert pits[i] == pits[1..][i - 1];
            }
          }
          assert pits[k] == pits[1..][k'];
        }
      }
    }
  }

  // ---------------------------------------------------------------------------
  // Scores are bounded by the stones on the board
  // ---------------------------------------------------------------------------

  /** A store difference is no larger in size than the number of stones. */
  lemma ScoreBounded(t: GameValue, maximizer: Player)
    ensures -Sum(t.pits) <= Score(t, maximizer) <= Sum(t.pits)
  {
    SumPair(t.pits, MANCALA_A, MANCALA_B);
  }

  /** Every searched move ends with a pit and a score no larger in size than the
      number of stones, as long as that number is below the Java int maximum. */
  lemma {:induction false} ChildBounded(s: GameValue, pitMove: Pit, maximizer: Player, depth: nat)
    requires Movable(s, pitMove) && Sum(s.pits) < INT_MAX
    ensures var r := Child(s, pitMove, maximizer, depth);
      r.move.Some? && -Sum(s.pits) <= r.score <= Sum(s.pits)
    decreases depth, 2, 0
  {
    var t := Sow(s, pitMove).value;
    assert Sum(t.pits) == Sum(s.pits) by {
      SowConserves(s, pitMove);
    }
    AfterMoveBounded(t, pitMove, maximizer, depth);
  }

  /** The same bound for the state reached by the move. */
  lemma {:induction false} AfterMoveBounded(t: GameValue, pitMove: Pit, maximizer: Player, depth: nat)
    requires Sum(t.pits) < INT_MAX
    ensures var r := AfterMove(t, pitMove, maximizer, depth);
      r.move.Some? && -Sum(t.pits) <= r.score <= Sum(t.pits)
    decreases depth, 1, 0
  {
    if Terminal(t, depth) {
      ScoreBounded(t, maximizer);
    } else {
      SowablesMovable(t);
      NotEndedHasMove(t);
      if t.playerTurn == maximizer {
        MaxOverBounded(t, SowablePits(t), maximizer, depth - 1, Scored(None, INT_MIN));
      } else {
        MinOverBounded(t, SowablePits(t), maximizer, depth - 1, Scored(None, INT_MAX));
      }
    }
  }

  /** A non-empty maximizing loop from the initial score, or any loop from a bounded
      best, ends with a pit and a bounded score. */
  lemma {:induction false} MaxOverBounded(s: GameValue, pits: seq<Pit>, maximizer: Player, depth: nat, best: Scored)
    requires forall p :: p in pits ==> Movable(s, p)
    requires Sum(s.pits) < INT_MAX
    requires best == Scored(None, INT_MIN) || (best.move.Some? && -Sum(s.pits) <= best.score <= Sum(s.pits))
    requires pits != [] || best.move.Some?
    ensures var r := MaxOver(s, pits, maximizer, depth, best);
      r.move.Some? && -Sum(s.pits) <= r.score <= Sum(s.pits)
    decreases depth + 1, 0, |pits|
  {
    if pits != [] {
      ChildBounded(s, pits[0], maximizer, depth);
      SumNat(s.pits);
      var move := Child(s, pits[0], maximizer, depth);
      var best' := if move.score > best.score then Scored(Some(pits[0]), move.score) else best;
      MaxOverBounded(s, pits[1..], maximizer, depth, best');
    }
  }

  lemma {:induction false} MinOverBounded(s: GameValue, pits: seq<Pit>, maximizer: Player, depth: nat, best: Scored)
    requires forall p :: p in pits ==> Movable(s, p)
    requires Sum(s.pits) < INT_MAX
    requires best == Scored(None, INT_MAX) || (best.move.Some? && -Sum(s.pits) <= best.score <= Sum(s.pits))
    requires pits != [] || best.move.Some?
    ensures var r := MinOver(s, pits, maximizer, depth, best);
      r.move.Some? && -Sum(s.pits) <= r.score <= Sum(s.pits)
    decreases depth + 1, 0, |pits|
  {
    if pits != [] {
      ChildBounded(s, pits[0], maximizer, depth);
      SumNat(s.pits);
      var move := Child(s, pits[0], maximizer, depth);
      var best' := if move.score < best.score then Scored(Some(pits[0]), move.score) else best;
      MinOverBounded(s, pits[1..], maximizer, depth, best');
    }
  }

  // ---------------------------------------------------------------------------
  // The best move
  // ---------------------------------------------------------------------------

  /** There is no best move exactly when the game is over or the mover has no
      sowable pit. */
  lemma BestMoveExists(s: GameValue, depth: nat)
    requires Sum(s.pits) < INT_MAX
    ensures BestMove(s, depth).None? <==> s.isGameOver || SowablePits(s) == []
  {
    SowablesMovable(s);
    if !s.isGameOver && SowablePits(s) != [] {
      MaxOverBounded(s, SowablePits(s), s.playerTurn, depth, Scored(None, INT_MIN));
    }
  }

  /** The best move is a sowable pit of the mover whose score no other sowable pit
      beats, and no earlier pit reaches. */
  lemma BestMoveIsBest(s: GameValue, depth: nat)
    requires Sum(s.pits) < INT_MAX && BestMove(s, depth).Some?
    ensures var p := BestMove(s, depth).value;
      p in SowablePits(s) && p in Side(s.playerTurn) && s.pits[p] > 0 &&
      (forall q :: q in Side(s.playerTurn) && s.pits[q] > 0 ==>
         Child(s, q, s.playerTurn, depth).score <= Child(s, p, s.playerTurn, depth).score) &&
      (forall q :: q in Side(s.playerTurn) && s.pits[q] > 0 && q < p ==>
         Child(s, q, s.playerTurn, depth).score < Child(s, p, s.playerTurn, depth).score)
  {
    var p := BestMove(s, depth).value;
    BestMoveSowable(s, depth);
    forall q | q in Side(s.playerTurn) && s.pits[q] > 0
      ensures Child(s, q, s.playerTurn, depth).score <= Child(s, p, s.playerTurn, depth).score
      ensures q < p ==> Child(s, q, s.playerTurn, depth).score < Child(s, p, s.playerTurn, depth).score
    {
      BestMoveBeats(s, depth, q);
    }
  }

  /** The best move is one of the sowable pits. */
  lemma BestMoveSowable(s: GameValue, depth: nat)
    requires BestMove(s, depth).Some?
    ensures var p := BestMove(s, depth).value;
      p in SowablePits(s) && p in Side(s.playerTurn) && s.pits[p] > 0
  {
    SowablesMovable(s);
    var pits := SowablePits(s);
    var init := Scored(None, INT_MIN);
    MaxOverIsMax(s, pits, s.playerTurn, depth, init);
    SowableMember(s.pits, s.playerTurn, BestMove(s, depth).value);
  }

  /** No sowable pit scores more than the best move, and none before it scores as much. */
  lemma BestMoveBeats(s: GameValue, depth: nat, q: Pit)
    requires BestMove(s, depth).Some? && q in Side(s.playerTurn) && s.pits[q] > 0
    ensures var p := BestMove(s, depth).value;
      Movable(s, p) && Movable(s, q) &&
      Child(s, q, s.playerTurn, depth).score <= Child(s, p, s.playerTurn, depth).score &&
      (q < p ==> Child(s, q, s.playerTurn, depth).score < Child(s, p, s.playerTurn, depth).score)
  {
    SowablesMovable(s);
    var pits := SowablePits(s);
    var init := Scored(None, INT_MIN);
    var r := MaxOver(s, pits, s.playerTurn, depth, init);
    MaxOverIsMax(s, pits, s.playerTurn, depth, init);
    var k :| 0 <= k < |pits| && r == Scored(Some(pits[k]), Child(s, pits[k], s.playerTurn, depth).score) &&
      r.score > init.score &&
      forall i :: 0 <= i < k ==> Child(s, pits[i], s.playerTurn, depth).score < r.score;
    SowableMember(s.pits, s.playerTurn, q);
    var m :| 0 <= m < |pits| && pits[m] == q;
    assert Child(s, q, s.playerTurn, depth).score <= r.score;
    if q < pits[k] {
      if m >= k {
        SowableSorted(s.pits, s.playerTurn, k, m);
      }
      assert m < k;
    }
  }

  // ---------------------------------------------------------------------------
  // The model object
  // ---------------------------------------------------------------------------

  class MancalaModel {
    var state: GameState.MancalaGameState

    /** A new model holds a new game. */
    constructor ()
      ensures fresh(state) && fresh(state.pits) && state.Valid()
      ensures state.Snapshot() == NewGame()
    {
      state := new GameState.MancalaGameState();
    }

    /** The state saved for undo. */
    function GetPreviousState(): Option<GameValue>
      reads this, state
    {
      state.previousState
    }

    /** minimax(depth): the search loop over the current state's sowable pits; each pit
        is searched on a copy of the state, with the player to move as maximizer. */
    method Minimax(depth: nat) returns (best: Option<Pit>)
      requires state.Valid()
      ensures best == BestMove(state.Snapshot(), depth)
    {
      if state.isGameOver {
        return None;
      }
      var maximizer := state.playerTurn;
      var s := state.Snapshot();
      var bestMove := Scored(None, INT_MIN);
      var pits := state.GetSowablePits();
      SowablesMovable(s);
      for i := 0 to |pits|
        invariant MaxOver(s, pits[i..], maximizer, depth, bestMove)
               == MaxOver(s, pits, maximizer, depth, Scored(None, INT_MIN))
      {
        var copy := new GameState.MancalaGameState.Copy(state);
        var move := Child(copy.Snapshot(), pits[i], maximizer, depth);
        if move.score > bestMove.score {
          bestMove := Scored(Some(pits[i]), move.score);
        }
        assert pits[i..][1..] == pits[i + 1..];
      }
      assert pits[|pits|..] == [];
      return bestMove.move;
    }
  }
}
