/** The raw-data model of the older, root-level MancalaModel.java: fourteen integer
    counts, indexed by pit ordinal, that can be cleared and set up. */
module LegacyModel {
  import opened Pits
  import opened Sums
  import opened BoardOps

  /** Fourteen zero counts, as a freshly allocated Java int[14] holds. */
  const Zeros: seq<int> := seq(14, _ => 0)

  /** The small-pit ordinals are 0..5 and 7..12. */
  predicate SmallIndex(i: int)
  {
    0 <= i < 6 || 7 <= i < 13
  }

  /** The counts once every small pit has been set to n, the stores are left alone. */
  function Populated(s: seq<int>, n: int): seq<int>
    requires |s| == 14
  {
    seq(14, i requires 0 <= i < 14 => if SmallIndex(i) then n else s[i])
  }

  class MancalaModel {
    const pits: array<int>

    ghost predicate Valid()
      reads this
    {
      pits.Length == 14
    }

    constructor ()
      ensures Valid() && fresh(pits)
      ensures pits[..] == Zeros
    {
      pits := new int[14](_ => 0);
      new;
      assert pits[..] == Zeros;
    }

    /** Set every pit, stores included, to zero. */
    method EmptyPits()
      requires Valid()
      modifies pits
      ensures pits[..] == Zeros
    {
      for i := 0 to 14
        invariant forall k :: 0 <= k < i ==> pits[k] == 0
      {
        pits[i] := 0;
      }
      assert pits[..] == Zeros;
    }

    /** Set each small pit of side A, then each of side B, to initStones. */
    method PopulateStones(initStones: int)
      requires Valid()
      modifies pits
      ensures pits[..] == Populated(old(pits[..]), initStones)
    {
      for i := 0 to 6
        invariant forall k :: 0 <= k < i ==> pits[k] == initStones
        invariant forall k :: i <= k < 14 ==> pits[k] == old(pits[k])
      {
        pits[i] := initStones;
      }
      for i := 7 to 13
        invariant forall k :: 0 <= k < 6 || 7 <= k < i ==> pits[k] == initStones
        invariant pits[6] == old(pits[6])
        invariant forall k :: i <= k < 14 ==> pits[k] == old(pits[k])
      {
        pits[i] := initStones;
      }
      assert pits[..] == Populated(old(pits[..]), initStones);
    }
  }

  /** Setting up leaves every small pit at n and both stores as they were, so doing it
      twice is the same as doing it once. */
  lemma PopulatedSpec(s: seq<int>, n: int)
    requires |s| == 14
    ensures forall p: Pit :: p in SmallPits ==> Populated(s, n)[p] == n
    ensures Populated(s, n)[MANCALA_A] == s[MANCALA_A] && Populated(s, n)[MANCALA_B] == s[MANCALA_B]
    ensures Populated(Populated(s, n), n) == Populated(s, n)
  {
  }

  /** A cleared board set up with n stones a pit holds 12 * n stones, all in the small
      pits: both stores stay at zero. */
  lemma PopulatedTotal(n: int)
    ensures Sum(Populated(Zeros, n)) == 12 * n
    ensures Populated(Zeros, n)[MANCALA_A] == 0 && Populated(Zeros, n)[MANCALA_B] == 0
  {
    var half := seq(6, _ => n);
    assert Populated(Zeros, n) == half + [0] + half + [0];
    SumAppend(half + [0] + half, [0]);
    SumAppend(half + [0], half);
    SumAppend(half, [0]);
    SumConstant(6, n);
  }

  /** For a non-negative count the integer board agrees with the stone-level set-up of a
      cleared game state. */
  lemma PopulatedAgrees(n: nat)
    ensures Populated(Zeros, n) == Populate(EmptyBoard, n)
  {
  }
}
