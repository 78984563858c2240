/** Totals of stone counts. */
module Sums {

  function Sum(s: seq<int>): int
  {
    if s == [] then 0 else s[0] + Sum(s[1..])
  }

  /** Overwriting one entry changes the total by the difference. */
  lemma {:induction false} SumUpdate(s: seq<int>, i: nat, x: int)
    requires i < |s|
    ensures Sum(s[i := x]) == Sum(s) - s[i] + x
  {
    if i == 0 {
      assert s[i := x][1..] == s[1..];
    } else {
      SumUpdate(s[1..], i - 1, x);
      assert s[i := x][1..] == s[1..][i - 1 := x];
    }
  }

  lemma {:induction false} SumAppend(s: seq<int>, t: seq<int>)
    ensures Sum(s + t) == Sum(s) + Sum(t)
  {
    if s == [] {
      assert s + t == t;
    } else {
      SumAppend(s[1..], t);
      assert (s + t)[1..] == s[1..] + t;
    }
  }

  /** A sequence of naturals has a natural total that bounds each entry. */
  lemma {:induction false} SumNat(s: seq<nat>)
    ensures Sum(s) >= 0
    ensures forall i :: 0 <= i < |s| ==> s[i] <= Sum(s)
  {
    if s != [] {
      SumNat(s[1..]);
      forall i | 0 < i < |s| ensures s[i] <= Sum(s) {
        assert s[i] == s[1..][i - 1];
      }
    }
  }

  /** Two distinct entries of a sequence of naturals together do not exceed its total. */
  lemma {:induction false} SumPair(s: seq<nat>, i: nat, k: nat)
    requires i < |s| && k < |s| && i != k
    ensures s[i] + s[k] <= Sum(s)
  {
    SumUpdate(s, i, 0);
    SumNat(s[i := 0]);
    assert s[i := 0][k] == s[k];
  }

  /** k copies of n total k * n. */
  lemma {:induction false} SumConstant(k: nat, n: int)
    ensures Sum(seq(k, _ => n)) == k * n
  {
    if k > 0 {
      SumConstant(k - 1, n);
      assert seq(k, _ => n)[1..] == seq(k - 1, _ => n);
    }
  }
}
