/** Finite sums and counts over an index range, with the rearrangements that
    the dense simulators rely on. */
module Sums {

  function Sum(n: nat, f: nat -> real): real {
    if n == 0 then 0.0 else Sum(n - 1, f) + f(n - 1)
  }

  function Count(n: nat, p: nat -> bool): (c: nat)
    ensures c <= n
  {
    if n == 0 then 0 else Count(n - 1, p) + (if p(n - 1) then 1 else 0)
  }

  lemma {:induction false} SumCongruent(n: nat, f: nat -> real, g: nat -> real)
    requires forall i :: 0 <= i < n ==> f(i) == g(i)
    ensures Sum(n, f) == Sum(n, g)
  {
    if n > 0 { SumCongruent(n - 1, f, g); }
  }

  lemma {:induction false} CountCongruent(n: nat, p: nat -> bool, q: nat -> bool)
    requires forall i :: 0 <= i < n ==> p(i) == q(i)
    ensures Count(n, p) == Count(n, q)
  {
    if n > 0 { CountCongruent(n - 1, p, q); }
  }

  /** A linear combination of two summands, termwise. */
  lemma {:induction false} SumLinear(n: nat, f: nat -> real, g: nat -> real, h: nat -> real, a: real, b: real)
    requires forall i :: 0 <= i < n ==> h(i) == a * f(i) + b * g(i)
    ensures Sum(n, h) == a * Sum(n, f) + b * Sum(n, g)
  {
    if n > 0 {
      SumLinear(n - 1, f, g, h, a, b);
      assert a * Sum(n, f) == a * Sum(n - 1, f) + a * f(n - 1);
      assert b * Sum(n, g) == b * Sum(n - 1, g) + b * g(n - 1);
    }
  }

  lemma {:induction false} SumZero(n: nat, f: nat -> real)
    requires forall i :: 0 <= i < n ==> f(i) == 0.0
    ensures Sum(n, f) == 0.0
  {
    if n > 0 { SumZero(n - 1, f); }
  }

  /** A summand that vanishes everywhere but at k. */
  lemma {:induction false} SumPoint(n: nat, f: nat -> real, k: nat)
    requires k < n && forall i :: 0 <= i < n && i != k ==> f(i) == 0.0
    ensures Sum(n, f) == f(k)
  {
    if k == n - 1 { SumZero(n - 1, f); } else { SumPoint(n - 1, f, k); }
  }

  /** Row and column sums of a rectangular table. */
  function RowSum(t: (nat, nat) -> real, n: nat): nat -> real { (i: nat) => Sum(n, RowOf(t, i)) }

  function ColumnSum(t: (nat, nat) -> real, m: nat): nat -> real { (j: nat) => Sum(m, ColumnOf(t, j)) }

  function RowOf(t: (nat, nat) -> real, i: nat): nat -> real { (j: nat) => t(i, j) }

  function ColumnOf(t: (nat, nat) -> real, j: nat): nat -> real { (i: nat) => t(i, j) }

  lemma {:induction false} SumSwap(m: nat, n: nat, t: (nat, nat) -> real)
    ensures Sum(m, RowSum(t, n)) == Sum(n, ColumnSum(t, m))
    decreases m
  {
    if m == 0 {
      SumZero(n, ColumnSum(t, 0));
    } else {
      SumSwap(m - 1, n, t);
      SumLinear(n, ColumnSum(t, m - 1), RowOf(t, m - 1), ColumnSum(t, m), 1.0, 1.0);
    }
  }

  function Permuted(pi: nat -> nat, f: nat -> real): nat -> real { (i: nat) => f(pi(i)) }

  function Indicator(pi: nat -> nat, f: nat -> real): (nat, nat) -> real {
    (i: nat, j: nat) => if pi(i) == j then f(j) else 0.0
  }

  /** `pi` maps [0, n) to itself and undoes itself. */
  ghost predicate Involution(n: nat, pi: nat -> nat) {
    && (forall i :: 0 <= i < n ==> pi(i) < n)
    && (forall i {:trigger pi(pi(i))} :: 0 <= i < n ==> pi(pi(i)) == i)
  }

  lemma SumPermuted(n: nat, pi: nat -> nat, f: nat -> real)
    requires Involution(n, pi)
    ensures Sum(n, Permuted(pi, f)) == Sum(n, f)
  {
    var t := Indicator(pi, f);
    forall i | 0 <= i < n ensures RowSum(t, n)(i) == Permuted(pi, f)(i) {
      SumPoint(n, RowOf(t, i), pi(i));
    }
    SumCongruent(n, RowSum(t, n), Permuted(pi, f));
    forall j | 0 <= j < n ensures ColumnSum(t, n)(j) == f(j) {
      SumPoint(n, ColumnOf(t, j), pi(j));
    }
    SumCongruent(n, ColumnSum(t, n), f);
    SumSwap(n, n, t);
  }

  function PairTotal(pi: nat -> nat, f: nat -> real): nat -> real { (i: nat) => f(i) + f(pi(i)) }

  lemma PairSum(n: nat, pi: nat -> nat, f: nat -> real)
    requires Involution(n, pi)
    ensures Sum(n, PairTotal(pi, f)) == 2.0 * Sum(n, f)
  {
    SumPermuted(n, pi, f);
    SumLinear(n, f, Permuted(pi, f), PairTotal(pi, f), 1.0, 1.0);
  }

  /** Two summands that agree on every pair {i, pi(i)} have equal sums. */
  lemma SumByPairs(n: nat, pi: nat -> nat, f: nat -> real, g: nat -> real)
    requires Involution(n, pi)
    requires forall i :: 0 <= i < n ==> PairTotal(pi, f)(i) == PairTotal(pi, g)(i)
    ensures Sum(n, f) == Sum(n, g)
  {
    PairSum(n, pi, f);
    PairSum(n, pi, g);
    SumCongruent(n, PairTotal(pi, f), PairTotal(pi, g));
  }

  ghost predicate InImage(m: nat, g: nat -> nat, i: nat) {
    exists k :: 0 <= k < m && g(k) == i
  }

  /** Walking down from n, every position is the next value of `g` or a zero of `f`. */
  ghost predicate Supports(n: nat, m: nat, g: nat -> nat, f: nat -> real) {
    if n == 0 then m == 0
    else if m > 0 && g(m - 1) == n - 1 then Supports(n - 1, m - 1, g, f)
    else f(n - 1) == 0.0 && Supports(n - 1, m, g, f)
  }

  lemma {:induction false} IncreasingSupports(n: nat, m: nat, g: nat -> nat, f: nat -> real)
    requires forall k :: 0 <= k < m ==> g(k) < n
    requires forall j, k :: 0 <= j < k < m ==> g(j) < g(k)
    requires forall i {:trigger InImage(m, g, i)} :: 0 <= i < n && !InImage(m, g, i) ==> f(i) == 0.0
    ensures Supports(n, m, g, f)
  {
    assert g(0) >= 0;
    if n == 0 {
    } else if m > 0 && g(m - 1) == n - 1 {
      forall i: nat | i < n - 1 && !InImage(m - 1, g, i) ensures f(i) == 0.0 {
        assert !InImage(m, g, i);
      }
      IncreasingSupports(n - 1, m - 1, g, f);
    } else {
      forall k: nat | k < m ensures g(k) != n - 1 { assert k == m - 1 || g(k) < g(m - 1); }
      assert !InImage(m, g, n - 1);
      IncreasingSupports(n - 1, m, g, f);
    }
  }

  /** A sum supported on the image of an increasing map is a sum over its domain. */
  lemma {:induction false} SumSupported(n: nat, m: nat, g: nat -> nat, f: nat -> real)
    requires Supports(n, m, g, f)
    ensures Sum(n, f) == Sum(m, Permuted(g, f))
    decreases n
  {
    if n > 0 {
      SumSupported(n - 1, if m > 0 && g(m - 1) == n - 1 then m - 1 else m, g, f);
    }
  }

  /** Counting over [0, 2m) in adjacent pairs: each pair holds `k` hits when its
      parent is a hit and none otherwise. */
  lemma {:induction false} CountPairs(m: nat, p: nat -> bool, q: nat -> bool, k: nat)
    requires forall y :: 0 <= y < m ==>
      (if p(2 * y) then 1 else 0) + (if p(2 * y + 1) then 1 else 0) == (if q(y) then k else 0)
    ensures Count(2 * m, p) == k * Count(m, q)
  {
    if m > 0 {
      CountPairs(m - 1, p, q, k);
      var y := m - 1;
      assert Count(2 * m, p) == Count(2 * y, p) + (if p(2 * y) then 1 else 0) + (if p(2 * y + 1) then 1 else 0);
      assert k * (Count(y, q) + 1) == k * Count(y, q) + k;
    }
  }
}
