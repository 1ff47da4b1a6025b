/** Popcount totals over all words of a width: the 64-bit loop against the closed
    forms, and exactly when the accumulator is wide enough. */
module Hamming {
  import opened Bits

  function PopcountTotal(count: nat): nat {
    if count == 0 then 0 else PopcountTotal(count - 1) + Popcount(count - 1)
  }

  function Squared(x: nat): nat { x * x }

  function SquareTotal(count: nat): nat {
    if count == 0 then 0 else SquareTotal(count - 1) + Squared(Popcount(count - 1))
  }

  /** Pairing 2y with 2y + 1 doubles the range and adds one bit to half of it. */
  lemma {:induction false} TotalDoubles(m: nat)
    ensures PopcountTotal(2 * m) == 2 * PopcountTotal(m) + m
  {
    if m > 0 {
      TotalDoubles(m - 1);
      assert PopcountTotal(2 * m) == PopcountTotal(2 * (m - 1)) + Popcount(2 * m - 2) + Popcount(2 * m - 1);
      LowBit(m - 1);
    }
  }

  lemma LowBit(y: nat)
    ensures Popcount(2 * y) == Popcount(y) && Popcount(2 * y + 1) == Popcount(y) + 1
  {
  }

  lemma {:induction false} SquaresDouble(m: nat)
    ensures SquareTotal(2 * m) == 2 * SquareTotal(m) + 2 * PopcountTotal(m) + m
  {
    if m > 0 {
      SquaresDouble(m - 1);
      var a, b, p := Popcount(2 * m - 2), Popcount(2 * m - 1), Popcount(m - 1);
      LowBit(m - 1);
      LastTwo(m, a, b);
      NextSquare(p, b);
    }
  }

  lemma LastTwo(m: nat, a: nat, b: nat)
    requires m > 0 && a == Popcount(2 * m - 2) && b == Popcount(2 * m - 1)
    ensures SquareTotal(2 * m) == SquareTotal(2 * (m - 1)) + Squared(a) + Squared(b)
  {
    assert SquareTotal(2 * m) == SquareTotal(2 * m - 1) + Squared(b);
    assert SquareTotal(2 * m - 1) == SquareTotal(2 * m - 2) + Squared(a);
  }

  lemma NextSquare(p: nat, q: nat)
    requires q == p + 1
    ensures Squared(q) == Squared(p) + 2 * p + 1
  {
  }

  /** Twice the total is n * 2^n. */
  lemma {:induction false} TotalClosed(n: nat)
    ensures 2 * PopcountTotal(Pow2(n)) == n * Pow2(n)
  {
    if n == 0 {
      assert PopcountTotal(1) == PopcountTotal(0) + Popcount(0);
    } else {
      TotalClosed(n - 1);
      TotalDoubles(Pow2(n - 1));
      ClosedStep(n - 1, Pow2(n - 1));
    }
  }

  lemma ClosedStep(n: nat, p: nat)
    ensures (n + 1) * (2 * p) == 2 * (n * p) + 2 * p
  {
  }

  function Consecutive(n: nat): nat { n * (n + 1) }

  /** Four times the total of squares is n * (n + 1) * 2^n. */
  lemma {:induction false} SquaresClosed(n: nat)
    ensures 4 * SquareTotal(Pow2(n)) == Consecutive(n) * Pow2(n)
  {
    if n == 0 {
      assert SquareTotal(1) == SquareTotal(0) + Squared(Popcount(0));
    } else {
      SquaresClosed(n - 1);
      TotalClosed(n - 1);
      SquaresDouble(Pow2(n - 1));
      SquareStep(n - 1, n, Pow2(n - 1));
    }
  }

  lemma SquareStep(n: nat, m: nat, p: nat)
    requires m == n + 1
    ensures m * (m + 1) * (2 * p) == 2 * (n * m * p) + 4 * (n * p) + 4 * p
  {
    assert m * (m + 1) == n * m + 2 * n + 2 by { assert m * (m + 1) == (n + 1) * (n + 2); }
    assert (n * m + 2 * n + 2) * (2 * p) == 2 * (n * m * p) + 4 * (n * p) + 4 * p;
  }

  // ---------------------------------------------------------------- the closed forms

  function PowerOfTwo(e: int): real
    decreases if e < 0 then -e else e
  {
    if e == 0 then 1.0 else if e > 0 then 2.0 * PowerOfTwo(e - 1) else PowerOfTwo(e + 1) / 2.0
  }

  /** The library's ldexp over exact reals. */
  function Ldexp(x: real, e: int): real { x * PowerOfTwo(e) }

  function ClosedHammingSum(bits: nat): real { Ldexp(bits as real, bits - 1) }

  function ClosedHammingNorm(bits: nat): real { Ldexp(bits as real * (bits + 1) as real, bits - 2) }

  lemma {:induction false} WholePower(e: nat)
    ensures PowerOfTwo(e) == Pow2(e) as real
  {
    if e > 0 { WholePower(e - 1); }
  }

  lemma HalfPower(bits: nat)
    ensures Pow2(bits) as real == 2.0 * PowerOfTwo(bits - 1)
  {
    WholePower(bits);
  }

  lemma QuarterPower(bits: nat)
    ensures Pow2(bits) as real == 4.0 * PowerOfTwo(bits - 2)
  {
    WholePower(bits);
  }

  lemma RealProduct(x: nat, y: nat)
    ensures (x * y) as real == x as real * y as real
  {
  }

  lemma Halved(t: nat, n: nat, p: nat, q: real)
    requires 2 * t == n * p && p as real == 2.0 * q
    ensures t as real == n as real * q
  {
    RealProduct(n, p);
    assert n as real * (2.0 * q) == 2.0 * (n as real * q);
  }

  lemma HalvedPower(t: nat, n: nat)
    requires 2 * t == n * Pow2(n)
    ensures t as real == ClosedHammingSum(n)
  {
    HalfPower(n);
    Halved(t, n, Pow2(n), PowerOfTwo(n - 1));
  }

  lemma Quartered(t: nat, n: nat, p: nat, q: real, x: real)
    requires 4 * t == n * p && p as real == 4.0 * q && x == n as real
    ensures t as real == x * q
  {
    RealProduct(n, p);
    assert n as real * (4.0 * q) == 4.0 * (n as real * q);
  }

  /** The dense loop's exact total is the closed form, for every width. */
  lemma DenseIsClosed(bits: nat)
    ensures PopcountTotal(Pow2(bits)) as real == ClosedHammingSum(bits)
  {
    TotalClosed(bits);
    HalvedPower(PopcountTotal(Pow2(bits)), bits);
  }

  lemma NormFrom(n: nat, c: nat, t: nat, p: nat, q: real, x: real)
    requires c == Consecutive(n) && 4 * t == c * p && p as real == 4.0 * q && x == n as real * (n + 1) as real
    ensures t as real == x * q
  {
    RealProduct(n, n + 1);
    Quartered(t, c, p, q, x);
  }

  lemma QuarteredPower(t: nat, n: nat, c: nat, p: nat)
    requires c == Consecutive(n) && p == Pow2(n) && 4 * t == c * p
    ensures t as real == ClosedHammingNorm(n)
  {
    QuarterPower(n);
    NormFrom(n, c, t, p, PowerOfTwo(n - 2), n as real * (n + 1) as real);
  }

  /** The total of squares is the closed norm, for every width. */
  lemma SquaresAreNorm(bits: nat)
    ensures SquareTotal(Pow2(bits)) as real == ClosedHammingNorm(bits)
  {
    SquaresClosed(bits);
    QuarteredPower(SquareTotal(Pow2(bits)), bits, Consecutive(bits), Pow2(bits));
  }

  // ---------------------------------------------------------------- the 64-bit loop

  /** The total fits 64 bits exactly up to width 59. */
  lemma AccumulatorFits(bits: nat)
    ensures PopcountTotal(Pow2(bits)) < Pow2(WORD_BITS) <==> bits <= 59
  {
    TotalClosed(bits);
    var half := Pow2(58);
    if bits <= 59 {
      Pow2Monotone(bits, 59);
      Product(bits, 59, Pow2(bits), Pow2(59));
      assert 59 * Pow2(59) < 2 * Pow2(64) by { Doublings(59); }
    } else {
      Pow2Monotone(60, bits);
      Product(60, bits, Pow2(60), Pow2(bits));
      assert 60 * Pow2(60) >= 2 * Pow2(64) by { Doublings(60); }
    }
  }

  lemma Product(a: nat, b: nat, x: nat, y: nat)
    requires a <= b && x <= y
    ensures a * x <= b * y
  {
    assert a * x <= a * y <= b * y;
  }

  lemma Doublings(n: nat)
    ensures Pow2(n + 4) == 16 * Pow2(n) && Pow2(n + 5) == 32 * Pow2(n)
  {
    Pow2Sum(4, n);
    Pow2Sum(5, n);
    assert Pow2(4) == 16 && Pow2(5) == 32;
  }

  /** A 64-bit unsigned accumulator. */
  function Wrapped(x: nat): nat { x % Pow2(WORD_BITS) }

  /** The loop with its wrapping accumulator; exact exactly when the total fits. */
  method DenseHammingSum(bits: nat) returns (sum: nat)
    requires bits < WORD_BITS
    ensures sum == Wrapped(PopcountTotal(Pow2(bits)))
    ensures sum as real == ClosedHammingSum(bits) <==> bits <= 59
  {
    var count := Pow2(bits);
    sum := 0;
    for index := 0 to count
      invariant sum == Wrapped(PopcountTotal(index))
    {
      WrapAdd(PopcountTotal(index), Popcount(index), Pow2(WORD_BITS));
      sum := Wrapped(sum + Popcount(index));
    }
    WrapShows(bits, sum);
  }

  lemma WrapShows(bits: nat, sum: nat)
    requires sum == Wrapped(PopcountTotal(Pow2(bits)))
    ensures sum as real == ClosedHammingSum(bits) <==> bits <= 59
  {
    DenseIsClosed(bits);
    AccumulatorFits(bits);
    RemainderKeeps(PopcountTotal(Pow2(bits)), Pow2(WORD_BITS));
  }

  lemma RemainderKeeps(x: nat, m: nat)
    requires m > 0
    ensures x % m == x <==> x < m
  {
  }

  lemma WrapAdd(x: nat, y: nat, m: nat)
    requires m > 0
    ensures (x % m + y) % m == (x + y) % m
  {
    var r := x % m + y;
    assert x == (x / m) * m + x % m;
    assert r == (r / m) * m + r % m;
    assert (x / m) * m + (r / m) * m == (x / m + r / m) * m;
    RemainderUnique(x + y, m, x / m + r / m, r % m);
  }
}
