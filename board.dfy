/** Board-level operations that both versions of the game state (the one under
    src/ and the older one at the repository root) contain verbatim: the sowing
    cycle of the pit iterator, moving stones between pits, listing the sowable
    pits and the end-of-game sweep. */
module BoardOps {
  import opened Pits
  import opened Sums

  /** Stone counts of the fourteen pits, indexed by ordinal. */
  type Board = b: seq<nat> | |b| == 14 witness [0, 0, 0, 0, 0, 0, 0, 0, 0, 0, 0, 0, 0, 0]

  // ---------------------------------------------------------------------------
  // The sowing cycle: the enum set of every pit except the skipped store
  // (the opponent's), iterated in ordinal order and restarted at its end.
  // ---------------------------------------------------------------------------

  /** The i-th pit of the cycle that leaves out store `skip`. */
  function CyclePit(skip: Pit, i: nat): (p: Pit)
    requires skip in Mancalas && i < 13
    ensures p != skip
  {
    if i < skip then i else i + 1
  }

  /** Where pit p stands in the cycle that leaves out `skip`. */
  function CycleIndex(skip: Pit, p: Pit): (i: nat)
    requires skip in Mancalas && p != skip
    ensures i < 13 && CyclePit(skip, i) == p
  {
    if p < skip then p else p - 1
  }

  lemma CycleIndexOfPit(skip: Pit, i: nat)
    requires skip in Mancalas && i < 13
    ensures CycleIndex(skip, CyclePit(skip, i)) == i
  {
  }

  /** One step of the iterator: after the last pit of the set it starts again at the first. */
  function NextIndex(j: nat): (k: nat)
    requires j < 13
    ensures k < 13
  {
    if j == 12 then 0 else j + 1
  }

  /** The ordinal successor of p, wrapping from MANCALA_B to A1 and stepping over `skip`. */
  function NextPit(skip: Pit, p: Pit): Pit
    requires skip in Mancalas
  {
    var q: Pit := if p == 13 then 0 else p + 1;
    if q == skip then (if q == 13 then 0 else q + 1) else q
  }

  /** The iterator visits the pits in ordinal order, wrapping, without the skipped store. */
  lemma CycleIsOrdinalOrder(skip: Pit, p: Pit)
    requires skip in Mancalas && p != skip
    ensures CyclePit(skip, NextIndex(CycleIndex(skip, p))) == NextPit(skip, p)
  {
  }

  /** Number of iterator steps from cursor j until index o comes up again (13 when j == o). */
  function Gap(j: nat, o: nat): (g: nat)
    requires j < 13 && o < 13
    ensures 1 <= g <= 13
    ensures g == 13 <==> j == o
  {
    if o > j then o - j else o - j + 13
  }

  lemma GapStep(j: nat, o: nat)
    requires j < 13 && o < 13
    ensures NextIndex(j) == o <==> Gap(j, o) == 1
    ensures NextIndex(j) != o ==> Gap(NextIndex(j), o) == Gap(j, o) - 1
  {
  }

  /** The cursor k steps after j. */
  function Advance(j: nat, k: nat): (r: nat)
    requires j < 13 && k <= 13
    ensures r < 13
  {
    if j + k < 13 then j + k else j + k - 13
  }

  /** The pits that n consecutive iterator steps from cursor j return, in order. */
  function Path(skip: Pit, j: nat, n: nat): (r: seq<Pit>)
    requires skip in Mancalas && j < 13
    ensures |r| == n
    decreases n
  {
    if n == 0 then [] else [CyclePit(skip, NextIndex(j))] + Path(skip, NextIndex(j), n - 1)
  }

  /** The k-th pit of a path is the one k steps ahead of the start. */
  lemma {:induction false} PathAt(skip: Pit, j: nat, n: nat, k: nat)
    requires skip in Mancalas && j < 13 && 1 <= k <= n <= 13
    ensures Path(skip, j, n)[k - 1] == CyclePit(skip, Advance(j, k))
    decreases k
  {
    if k > 1 {
      PathAt(skip, NextIndex(j), n - 1, k - 1);
    }
  }

  /** Membership in a path of at most 13 steps. */
  lemma {:induction false} PathMembers(skip: Pit, j: nat, n: nat, p: Pit)
    requires skip in Mancalas && j < 13 && n <= 13
    ensures p in Path(skip, j, n) <==> p != skip && Gap(j, CycleIndex(skip, p)) <= n
    decreases n
  {
    if n > 0 {
      var j' := NextIndex(j);
      CycleIndexOfPit(skip, j');
      PathMembers(skip, j', n - 1, p);
      if p != skip {
        GapStep(j, CycleIndex(skip, p));
      }
    }
  }

  /** The pits of a path of at most 13 steps are distinct. */
  lemma PathDistinct(skip: Pit, j: nat, n: nat)
    requires skip in Mancalas && j < 13 && n <= 13
    ensures forall k, m :: 0 <= k < m < n ==> Path(skip, j, n)[k] != Path(skip, j, n)[m]
  {
    forall k, m | 0 <= k < m < n ensures Path(skip, j, n)[k] != Path(skip, j, n)[m] {
      PathAt(skip, j, n, k + 1);
      PathAt(skip, j, n, m + 1);
      AdvanceDistinct(skip, j, k + 1, m + 1);
    }
  }

  /** Each pit of a path after the first is the ordinal successor of the one before. */
  lemma PathFollows(skip: Pit, j: nat, n: nat, k: nat)
    requires skip in Mancalas && j < 13 && n <= 13 && k + 1 < n
    ensures Path(skip, j, n)[k + 1] == NextPit(skip, Path(skip, j, n)[k])
  {
    PathAt(skip, j, n, k + 1);
    PathAt(skip, j, n, k + 2);
    var p := CyclePit(skip, Advance(j, k + 1));
    CycleIndexOfPit(skip, Advance(j, k + 1));
    CycleIsOrdinalOrder(skip, p);
    assert NextIndex(Advance(j, k + 1)) == Advance(j, k + 2);
  }

  /** Fewer than 13 steps apart, the iterator returns different pits. */
  lemma AdvanceDistinct(skip: Pit, j: nat, k: nat, m: nat)
    requires skip in Mancalas && j < 13 && 1 <= k < m <= 13
    ensures CyclePit(skip, Advance(j, k)) != CyclePit(skip, Advance(j, m))
  {
    CycleIndexOfPit(skip, Advance(j, k));
    CycleIndexOfPit(skip, Advance(j, m));
  }

  // ---------------------------------------------------------------------------
  // Moving stones
  // ---------------------------------------------------------------------------

  /** Poll one stone from `from` and offer it to `to`. */
  function Move(b: Board, from: Pit, to: Pit): (r: Board)
    requires b[from] > 0
    ensures from != to ==> r[from] == b[from] - 1 && r[to] == b[to] + 1
    ensures from == to ==> r == b
  {
    b[from := b[from] - 1][to := b[from := b[from] - 1][to] + 1]
  }

  /** A move keeps the stone count and touches no pit but its two ends. */
  lemma MoveSpec(b: Board, from: Pit, to: Pit)
    requires b[from] > 0
    ensures Sum(Move(b, from, to)) == Sum(b)
    ensures forall p: Pit :: p != from && p != to ==> Move(b, from, to)[p] == b[p]
  {
    SumUpdate(b, from, b[from] - 1);
    SumUpdate(b[from := b[from] - 1], to, b[from := b[from] - 1][to] + 1);
  }

  /** Empty pit `from` and offer every stone it held to `to`. */
  function EmptyInto(b: Board, from: Pit, to: Pit): (r: Board)
    requires from != to
    ensures r[from] == 0 && r[to] == b[to] + b[from]
  {
    b[from := 0][to := b[to] + b[from]]
  }

  /** Emptying one pit into another touches no other pit. */
  lemma EmptyIntoFrame(b: Board, from: Pit, to: Pit)
    requires from != to
    ensures forall p: Pit :: p != from && p != to ==> EmptyInto(b, from, to)[p] == b[p]
  {
  }

  /** Emptying one pit into another keeps the stone count. */
  lemma EmptyIntoSum(b: Board, from: Pit, to: Pit)
    requires from != to
    ensures Sum(EmptyInto(b, from, to)) == Sum(b)
  {
    SumUpdate(b, from, 0);
    SumUpdate(b[from := 0], to, b[to] + b[from]);
  }

  /** A capture: the stone in `cur` and then every stone of the opposite pit go to `store`. */
  function Capture(b: Board, cur: Pit, store: Pit): (r: Board)
    requires b[cur] > 0 && cur != store && Opposite(cur) != store
    ensures r[cur] == b[cur] - 1 && r[Opposite(cur)] == 0
    ensures r[store] == b[store] + 1 + b[Opposite(cur)]
  {
    OppositeInvolution(cur);
    EmptyInto(Move(b, cur, store), Opposite(cur), store)
  }

  /** A capture touches no pit but the landing pit, its opposite and the store. */
  lemma CaptureFrame(b: Board, cur: Pit, store: Pit)
    requires b[cur] > 0 && cur != store && Opposite(cur) != store
    ensures forall p: Pit :: p != cur && p != Opposite(cur) && p != store ==> Capture(b, cur, store)[p] == b[p]
  {
    OppositeInvolution(cur);
    MoveSpec(b, cur, store);
    EmptyIntoFrame(Move(b, cur, store), Opposite(cur), store);
  }

  /** A capture keeps the stone count. */
  lemma CaptureSum(b: Board, cur: Pit, store: Pit)
    requires b[cur] > 0 && cur != store && Opposite(cur) != store
    ensures Sum(Capture(b, cur, store)) == Sum(b)
  {
    OppositeInvolution(cur);
    MoveSpec(b, cur, store);
    EmptyIntoSum(Move(b, cur, store), Opposite(cur), store);
  }

  // ---------------------------------------------------------------------------
  // Sowable pits
  // ---------------------------------------------------------------------------

  /** The pits of ps that hold stones, in the order of ps. */
  function NonEmpty(b: Board, ps: seq<Pit>): (r: seq<Pit>)
    decreases |ps|
  {
    if ps == [] then []
    else NonEmpty(b, ps[..|ps| - 1]) + (if b[ps[|ps| - 1]] > 0 then [ps[|ps| - 1]] else [])
  }

  lemma {:induction false} NonEmptyMembers(b: Board, ps: seq<Pit>)
    ensures forall p :: p in NonEmpty(b, ps) <==> p in ps && b[p] > 0
    ensures |NonEmpty(b, ps)| <= |ps|
    decreases |ps|
  {
    if ps != [] {
      var init := ps[..|ps| - 1];
      NonEmptyMembers(b, init);
      assert ps == init + [ps[|ps| - 1]];
      assert forall p :: p in ps <==> p in init || p == ps[|ps| - 1];
    }
  }

  /** Filtering keeps an increasing order increasing. */
  lemma {:induction false} NonEmptySorted(b: Board, ps: seq<Pit>)
    requires forall i, k :: 0 <= i < k < |ps| ==> ps[i] < ps[k]
    ensures forall i, k :: 0 <= i < k < |NonEmpty(b, ps)| ==> NonEmpty(b, ps)[i] < NonEmpty(b, ps)[k]
    decreases |ps|
  {
    if ps != [] {
      var init, last := ps[..|ps| - 1], ps[|ps| - 1];
      NonEmptySorted(b, init);
      NonEmptyMembers(b, init);
      var r := NonEmpty(b, init);
      forall q | q in r ensures q < last {
        var i :| 0 <= i < |init| && init[i] == q;
      }
      var full := NonEmpty(b, ps);
      assert full == r + (if b[last] > 0 then [last] else []);
      forall i, k | 0 <= i < k < |full| ensures full[i] < full[k] {
        assert full[i] == r[i] && r[i] in r;
        if k < |r| {
          assert full[k] == r[k];
        }
      }
    }
  }

  /** The current player's side pits that are not empty, in ordinal order. */
  function Sowable(b: Board, turn: Player): seq<Pit>
  {
    NonEmpty(b, SideOrder(turn))
  }

  predicate SideEmpty(b: Board, pl: Player)
  {
    forall i :: 0 <= i < 6 ==> b[SideOrder(pl)[i]] == 0
  }

  /** Exactly the mover's non-empty side pits, in ordinal order; never a store
      and never a pit of the opponent. */
  lemma SowableSpec(b: Board, turn: Player)
    ensures forall p :: p in Sowable(b, turn) <==> p in Side(turn) && b[p] > 0
    ensures forall p :: p in Sowable(b, turn) ==> p !in Mancalas && p !in Side(Other(turn))
    ensures forall i, k :: 0 <= i < k < |Sowable(b, turn)| ==> Sowable(b, turn)[i] < Sowable(b, turn)[k]
    ensures Sowable(b, turn) == [] <==> SideEmpty(b, turn)
    ensures |Sowable(b, turn)| <= 6
  {
    SideOrderMatches(turn);
    SidesPartition();
    NonEmptyMembers(b, SideOrder(turn));
    NonEmptySorted(b, SideOrder(turn));
    if Sowable(b, turn) == [] {
      forall i | 0 <= i < 6 ensures b[SideOrder(turn)[i]] == 0 {
        var p := SideOrder(turn)[i];
        assert p in SideOrder(turn);
        assert p !in Sowable(b, turn);
      }
    }
    if Sowable(b, turn) != [] {
      var p := Sowable(b, turn)[0];
      assert p in Sowable(b, turn);
      var i :| 0 <= i < 6 && SideOrder(turn)[i] == p;
    }
  }

  /** The sowable pits are listed in increasing order. */
  lemma SowableSorted(b: Board, turn: Player, i: nat, k: nat)
    requires i < k < |Sowable(b, turn)|
    ensures Sowable(b, turn)[i] < Sowable(b, turn)[k]
  {
    SowableSpec(b, turn);
  }

  /** A pit is sowable exactly when it is on the mover's side and holds stones. */
  lemma SowableMember(b: Board, turn: Player, p: Pit)
    ensures p in Sowable(b, turn) <==> p in Side(turn) && b[p] > 0
  {
    SowableSpec(b, turn);
  }

  // ---------------------------------------------------------------------------
  // End of the game
  // ---------------------------------------------------------------------------

  /** Total of the counts of the pits listed in ps. */
  function SumOver(b: Board, ps: seq<Pit>): nat
    decreases |ps|
  {
    if ps == [] then 0 else SumOver(b, ps[..|ps| - 1]) + b[ps[|ps| - 1]]
  }

  /** Empty each pit of ps, in order, into `store`. */
  function Sweep(b: Board, ps: seq<Pit>, store: Pit): Board
    requires store !in ps
    decreases |ps|
  {
    if ps == [] then b
    else
      assert store !in ps[..|ps| - 1] by { assert forall p :: p in ps[..|ps| - 1] ==> p in ps; }
      EmptyInto(Sweep(b, ps[..|ps| - 1], store), ps[|ps| - 1], store)
  }

  /** A sweep keeps the stone count. */
  lemma {:induction false} SweepSum(b: Board, ps: seq<Pit>, store: Pit)
    requires store !in ps
    ensures Sum(Sweep(b, ps, store)) == Sum(b)
    decreases |ps|
  {
    if ps != [] {
      assert store !in ps[..|ps| - 1] by { assert forall p :: p in ps[..|ps| - 1] ==> p in ps; }
      SweepSum(b, ps[..|ps| - 1], store);
      EmptyIntoSum(Sweep(b, ps[..|ps| - 1], store), ps[|ps| - 1], store);
    }
  }

  /** Sweeping distinct pits empties each of them and adds their total to the store. */
  lemma {:induction false} SweepSpec(b: Board, ps: seq<Pit>, store: Pit)
    requires store !in ps
    requires forall i, k :: 0 <= i < k < |ps| ==> ps[i] != ps[k]
    ensures forall p :: p in ps ==> Sweep(b, ps, store)[p] == 0
    ensures Sweep(b, ps, store)[store] == b[store] + SumOver(b, ps)
    ensures forall p: Pit :: p !in ps && p != store ==> Sweep(b, ps, store)[p] == b[p]
  {
    if ps != [] {
      var init, last := ps[..|ps| - 1], ps[|ps| - 1];
      assert store !in init by { assert forall p :: p in init ==> p in ps; }
      SweepSpec(b, init, store);
      assert last !in init by {
        forall i | 0 <= i < |init| ensures init[i] != last { assert init[i] == ps[i]; }
      }
      assert forall p :: p in ps <==> p in init || p == last by { assert ps == init + [last]; }
      assert SumOver(b, init) + b[last] == SumOver(b, ps);
    }
  }

  /** checkIfGameEnded on the pits alone: whether the game is over, and the board after the sweep. */
  function EndCheck(b: Board): (bool, Board)
  {
    var sideAEmpty := SideEmpty(b, A);
    var sideBEmpty := SideEmpty(b, B);
    if !sideAEmpty && sideBEmpty then
      (true, Sweep(b, SideAOrder, MANCALA_A))
    else if sideAEmpty && !sideBEmpty then
      (true, Sweep(b, SideBOrder, MANCALA_B))
    else if sideAEmpty && sideBEmpty then
      (true, b)
    else
      (false, b)
  }

  /** The game is over exactly when a side is empty; when it is not over, or when
      both sides are already empty, nothing moves. No stone is created or lost. */
  lemma EndCheckSpec(b: Board)
    ensures EndCheck(b).0 <==> SideEmpty(b, A) || SideEmpty(b, B)
    ensures !EndCheck(b).0 ==> EndCheck(b).1 == b
    ensures SideEmpty(b, A) && SideEmpty(b, B) ==> EndCheck(b).1 == b
    ensures Sum(EndCheck(b).1) == Sum(b)
  {
    SweepSum(b, SideAOrder, MANCALA_A);
    SweepSum(b, SideBOrder, MANCALA_B);
  }

  /** Sweeping one side into a store empties that side and leaves the other pits alone. */
  lemma SweepSide(b: Board, pl: Player)
    ensures var r := Sweep(b, SideOrder(pl), Store(pl));
      r[Store(pl)] == b[Store(pl)] + SumOver(b, SideOrder(pl)) &&
      r[Store(Other(pl))] == b[Store(Other(pl))] &&
      SideEmpty(r, pl) &&
      forall p :: p in Side(Other(pl)) ==> r[p] == b[p]
  {
    SideOrderMatches(pl);
    SidesPartition();
    SweepSpec(b, SideOrder(pl), Store(pl));
  }

  /** If only one side is empty, the other side's stones go to that other side's own
      store, the empty side's store keeps its count, and every small pit ends empty. */
  lemma EndCheckSweeps(b: Board, pl: Player)
    requires !SideEmpty(b, pl) && SideEmpty(b, Other(pl))
    ensures var r := EndCheck(b).1;
      EndCheck(b).0 &&
      r[Store(pl)] == b[Store(pl)] + SumOver(b, SideOrder(pl)) &&
      r[Store(Other(pl))] == b[Store(Other(pl))] &&
      SideEmpty(r, A) && SideEmpty(r, B)
  {
    SweepSide(b, pl);
    var r := EndCheck(b).1;
    assert r == Sweep(b, SideOrder(pl), Store(pl));
    SideOrderMatches(Other(pl));
    forall i | 0 <= i < 6 ensures r[SideOrder(Other(pl))[i]] == 0 {
      assert SideOrder(Other(pl))[i] in Side(Other(pl));
    }
  }

  /** After a check that ends the game both sides are empty. */
  lemma EndCheckEmptiesSides(b: Board)
    requires EndCheck(b).0
    ensures SideEmpty(EndCheck(b).1, A) && SideEmpty(EndCheck(b).1, B)
  {
    if !SideEmpty(b, A) && SideEmpty(b, B) {
      EndCheckSweeps(b, A);
    } else if SideEmpty(b, A) && !SideEmpty(b, B) {
      EndCheckSweeps(b, B);
    }
  }

  /** A second check finds the game over and moves nothing. */
  lemma EndCheckIdempotent(b: Board)
    requires EndCheck(b).0
    ensures EndCheck(EndCheck(b).1) == (true, EndCheck(b).1)
  {
    EndCheckEmptiesSides(b);
  }

  // ---------------------------------------------------------------------------
  // A sow of at most twelve stones, in closed form
  // ---------------------------------------------------------------------------

  /** The board once the n stones of `origin` (cursor j) have left it, one for each
      of the next n pits of the cycle. */
  function Spread(b: Board, skip: Pit, j: nat, origin: Pit, n: nat): (r: Board)
    requires skip in Mancalas && j < 13 && origin != skip
  {
    seq(14, i requires 0 <= i < 14 =>
      if i == origin then 0
      else if i != skip && Gap(j, CycleIndex(skip, i)) <= n then b[i] + 1
      else b[i])
  }

  /** Nothing is spread yet: only the origin's count differs. */
  lemma SpreadNone(b: Board, skip: Pit, j: nat, origin: Pit)
    requires skip in Mancalas && j < 13 && origin != skip && b[origin] == 0
    ensures Spread(b, skip, j, origin, 0) == b
  {
  }

  /** While the origin cannot be reached again, a stone taken from it lands elsewhere
      and the origin still cannot be reached by the stones left. */
  lemma SpreadNext(b: Board, origin: Pit, skip: Pit, j: nat, n: nat)
    requires skip in Mancalas && origin != skip && j < 13
    requires b[origin] == n >= 2 && Gap(j, CycleIndex(skip, origin)) > n
    ensures CyclePit(skip, NextIndex(j)) != origin
    ensures Move(b, origin, CyclePit(skip, NextIndex(j)))[origin] == n - 1
    ensures Gap(NextIndex(j), CycleIndex(skip, origin)) > n - 1
  {
    GapStep(j, CycleIndex(skip, origin));
    CycleIndexOfPit(skip, NextIndex(j));
  }

  /** Dropping the first stone and spreading the rest from the next cursor gives the same board. */
  lemma SpreadStep(b: Board, skip: Pit, j: nat, origin: Pit, n: nat)
    requires skip in Mancalas && j < 13 && origin != skip
    requires b[origin] == n >= 1 && Gap(j, CycleIndex(skip, origin)) > n
    ensures CyclePit(skip, NextIndex(j)) != origin
    ensures Spread(Move(b, origin, CyclePit(skip, NextIndex(j))), skip, NextIndex(j), origin, n - 1)
         == Spread(b, skip, j, origin, n)
  {
    var j' := NextIndex(j);
    var cur := CyclePit(skip, j');
    CycleIndexOfPit(skip, j');
    GapStep(j, CycleIndex(skip, origin));
    var b1 := Move(b, origin, cur);
    var lhs := Spread(b1, skip, j', origin, n - 1);
    var rhs := Spread(b, skip, j, origin, n);
    forall i | 0 <= i < 14 ensures lhs[i] == rhs[i] {
      if i != origin && i != skip {
        GapStep(j, CycleIndex(skip, i));
      }
    }
  }
  // ---------------------------------------------------------------------------
  // Populating
  // ---------------------------------------------------------------------------

  const EmptyBoard: Board := [0, 0, 0, 0, 0, 0, 0, 0, 0, 0, 0, 0, 0, 0]

  /** The empty board holds no stone anywhere. */
  lemma EmptyBoardEmpty()
    ensures forall p: Pit :: EmptyBoard[p] == 0
    ensures Sum(EmptyBoard) == 0
  {
    assert EmptyBoard == seq(14, _ => 0);
    SumConstant(14, 0);
  }

  /** populatePits(n): n more stones in every small pit; the inner loop runs n times,
      so a negative n adds nothing. */
  function Populate(b: Board, n: int): Board
  {
    PopulatePrefix(b, if n > 0 then n else 0, 14)
  }

  /** The pits once the small pits below ordinal q have received k stones each. */
  function PopulatePrefix(b: Board, k: nat, q: nat): Board
  {
    seq(14, i requires 0 <= i < 14 => if i < q && i != MANCALA_A && i != MANCALA_B then b[i] + k else b[i])
  }

  /** The number of small pits below ordinal q. */
  function SmallBelow(q: nat): nat
    requires q <= 14
  {
    q - (if q > MANCALA_A then 1 else 0) - (if q > MANCALA_B then 1 else 0)
  }

  /** Passing ordinal q adds k stones when q is a small pit and none at a store. */
  lemma SmallBelowStep(k: nat, q: nat)
    requires q < 14
    ensures k * SmallBelow(q + 1) == k * SmallBelow(q) + (if q == MANCALA_A || q == MANCALA_B then 0 else k)
  {
    var d := if q == MANCALA_A || q == MANCALA_B then 0 else 1;
    assert SmallBelow(q + 1) == SmallBelow(q) + d;
    assert k * (SmallBelow(q) + d) == k * SmallBelow(q) + k * d;
  }

  lemma {:induction false} PopulatePrefixSum(b: Board, k: nat, q: nat)
    requires q <= 14
    ensures Sum(PopulatePrefix(b, k, q)) == Sum(b) + k * SmallBelow(q)
  {
    if q == 0 {
      assert PopulatePrefix(b, k, 0) == b;
    } else {
      var prev := PopulatePrefix(b, k, q - 1);
      PopulatePrefixSum(b, k, q - 1);
      var p := q - 1;
      SmallBelowStep(k, p);
      if p == MANCALA_A || p == MANCALA_B {
        assert PopulatePrefix(b, k, q) == prev;
      } else {
        assert PopulatePrefix(b, k, q) == prev[p := prev[p] + k];
        SumUpdate(prev, p, prev[p] + k);
      }
    }
  }

  /** Populating adds n stones to each of the twelve small pits, 12 * n in all, and
      leaves the stores as they are. */
  lemma PopulateSum(b: Board, n: int)
    ensures var k: nat := if n > 0 then n else 0;
      Sum(Populate(b, n)) == Sum(b) + 12 * k &&
      (forall p: Pit :: p in SmallPits ==> Populate(b, n)[p] == b[p] + k) &&
      Populate(b, n)[MANCALA_A] == b[MANCALA_A] && Populate(b, n)[MANCALA_B] == b[MANCALA_B]
  {
    PopulatePrefixSum(b, if n > 0 then n else 0, 14);
  }
}
