/** Sums of natural weights over the first n indices, for aggregates over a table kept as a sequence. */
module IndexedSums {
  function SumTo(n: nat, w: nat -> nat): nat {
    if n == 0 then 0 else SumTo(n - 1, w) + w(n - 1)
  }

  lemma {:induction false} SumMono(n: nat, v: nat -> nat, w: nat -> nat)
    requires forall i: nat | i < n :: v(i) <= w(i)
    ensures SumTo(n, v) <= SumTo(n, w)
    ensures SumTo(n, v) == SumTo(n, w) <==> forall i: nat | i < n :: v(i) == w(i)
  {
    if n > 0 {
      SumMono(n - 1, v, w);
    }
  }

  lemma SumCongruent(n: nat, v: nat -> nat, w: nat -> nat)
    requires forall i: nat | i < n :: v(i) == w(i)
    ensures SumTo(n, v) == SumTo(n, w)
  {
    SumMono(n, v, w);
  }

  lemma {:induction false} SumBalanced(n: nat, u: nat -> nat, v: nat -> nat, w: nat -> nat, x: nat -> nat)
    requires forall i: nat | i < n :: u(i) + v(i) == w(i) + x(i)
    ensures SumTo(n, u) + SumTo(n, v) == SumTo(n, w) + SumTo(n, x)
  {
    if n > 0 {
      SumBalanced(n - 1, u, v, w, x);
    }
  }

  /** Changing the weight of one index changes the sum by the difference. */
  lemma {:induction false} SumChangedAt(n: nat, v: nat -> nat, w: nat -> nat, k: nat)
    requires k < n && forall i: nat | i < n && i != k :: v(i) == w(i)
    ensures SumTo(n, w) == SumTo(n, v) - v(k) + w(k)
  {
    if k == n - 1 {
      SumCongruent(n - 1, v, w);
    } else {
      SumChangedAt(n - 1, v, w, k);
    }
  }

  lemma {:induction false} TermAtMostSum(n: nat, w: nat -> nat, k: nat)
    requires k < n
    ensures w(k) <= SumTo(n, w)
  {
    if k < n - 1 {
      TermAtMostSum(n - 1, w, k);
    }
  }

  lemma SumZero(n: nat, w: nat -> nat)
    ensures SumTo(n, w) == 0 <==> forall i: nat | i < n :: w(i) == 0
  {
    SumMono(n, (i: nat) => 0, w);
    ZeroSum(n);
  }

  lemma {:induction false} ZeroSum(n: nat)
    ensures SumTo(n, (i: nat) => 0) == 0
  {
    if n > 0 {
      ZeroSum(n - 1);
      SumCongruent(n - 1, (i: nat) => 0, (i: nat) => 0);
    }
  }

  /** A sum of zeros and ones counts the ones. */
  lemma {:induction false} SumCounts(n: nat, w: nat -> nat)
    requires forall i: nat | i < n :: w(i) <= 1
    ensures SumTo(n, w) == |set i: nat | i < n && w(i) == 1|
  {
    if n > 0 {
      SumCounts(n - 1, w);
      OneMoreIndex(n, w);
    }
  }

  lemma OneMoreIndex(n: nat, w: nat -> nat)
    requires n > 0
    ensures |set i: nat | i < n && w(i) == 1|
            == |set i: nat | i < n - 1 && w(i) == 1| + if w(n - 1) == 1 then 1 else 0
  {
    var before, after := set i: nat | i < n - 1 && w(i) == 1, set i: nat | i < n && w(i) == 1;
    if w(n - 1) == 1 {
      assert after == before + {n - 1};
    } else {
      assert after == before;
    }
  }

  /** The same for integer amounts of either sign. */
  function IntSumTo(n: nat, w: nat -> int): int {
    if n == 0 then 0 else IntSumTo(n - 1, w) + w(n - 1)
  }

  lemma {:induction false} IntSumCongruent(n: nat, v: nat -> int, w: nat -> int)
    requires forall i: nat | i < n :: v(i) == w(i)
    ensures IntSumTo(n, v) == IntSumTo(n, w)
  {
    if n > 0 {
      IntSumCongruent(n - 1, v, w);
    }
  }
}
