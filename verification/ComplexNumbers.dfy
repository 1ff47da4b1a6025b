/** Exact complex amplitudes as pairs of reals. */
module ComplexNumbers {

  datatype Complex = Complex(re: real, im: real)

  const ZERO: Complex := Complex(0.0, 0.0)

  const ONE: Complex := Complex(1.0, 0.0)

  function Add(a: Complex, b: Complex): Complex { Complex(a.re + b.re, a.im + b.im) }

  function Sub(a: Complex, b: Complex): Complex { Complex(a.re - b.re, a.im - b.im) }

  function Neg(a: Complex): Complex { Complex(-a.re, -a.im) }

  function Mul(a: Complex, b: Complex): Complex {
    Complex(a.re * b.re - a.im * b.im, a.re * b.im + a.im * b.re)
  }

  function Scale(a: Complex, s: real): Complex { Complex(a.re * s, a.im * s) }

  function Conjugate(a: Complex): Complex { Complex(a.re, -a.im) }

  function Norm2(a: Complex): real { a.re * a.re + a.im * a.im }

  /** One and zero as factors. */
  lemma Units(z: Complex)
    ensures Mul(ONE, z) == z && Mul(z, ONE) == z && Mul(ZERO, z) == ZERO && Mul(z, ZERO) == ZERO
  {
  }

  /** Zero as a summand. */
  lemma Zeros(z: Complex)
    ensures Add(z, ZERO) == z && Add(ZERO, z) == z
  {
  }

  lemma Commute(x: Complex, y: Complex)
    ensures Mul(x, y) == Mul(y, x)
  {
  }

  lemma Distribute(a: Complex, b: Complex, c: Complex)
    ensures Mul(a, Add(b, c)) == Add(Mul(a, b), Mul(a, c))
    ensures Mul(Add(b, c), a) == Add(Mul(b, a), Mul(c, a))
  {
  }

  lemma Associate(a: Complex, b: Complex, c: Complex)
    ensures Mul(Mul(a, b), c) == Mul(a, Mul(b, c))
  {
  }

  lemma Norm2Product(a: Complex, b: Complex)
    ensures Norm2(Mul(a, b)) == Norm2(a) * Norm2(b)
  {
    var p, q, r, s := a.re, a.im, b.re, b.im;
    assert (p * r - q * s) * (p * r - q * s) == (p * r) * (p * r) - 2.0 * ((p * r) * (q * s)) + (q * s) * (q * s);
    assert (p * s + q * r) * (p * s + q * r) == (p * s) * (p * s) + 2.0 * ((p * s) * (q * r)) + (q * r) * (q * r);
  }

  function SumC(n: nat, f: nat -> Complex): Complex {
    if n == 0 then ZERO else Add(SumC(n - 1, f), f(n - 1))
  }

  lemma {:induction false} SumCCongruent(n: nat, f: nat -> Complex, g: nat -> Complex)
    requires forall i :: 0 <= i < n ==> f(i) == g(i)
    ensures SumC(n, f) == SumC(n, g)
  {
    if n > 0 { SumCCongruent(n - 1, f, g); }
  }

  lemma {:induction false} SumCFactor(n: nat, f: nat -> Complex, g: nat -> Complex, w: Complex)
    requires forall i :: 0 <= i < n ==> g(i) == Mul(f(i), w)
    ensures SumC(n, g) == Mul(SumC(n, f), w)
  {
    if n > 0 {
      SumCFactor(n - 1, f, g, w);
      Distribute(w, SumC(n - 1, f), f(n - 1));
    }
  }

  /** A sum over [0, m + n) is a sum over [0, m) and one shifted by m. */
  lemma {:induction false} SumCSplit(m: nat, n: nat, f: nat -> Complex, low: nat -> Complex, high: nat -> Complex)
    requires forall i :: 0 <= i < m ==> low(i) == f(i)
    requires forall i :: 0 <= i < n ==> high(i) == f(m + i)
    ensures SumC(m + n, f) == Add(SumC(m, low), SumC(n, high))
    decreases n
  {
    if n == 0 { SumCCongruent(m, low, f); } else { SumCSplit(m, n - 1, f, low, high); }
  }

  lemma {:induction false} SumCZero(n: nat, f: nat -> Complex)
    requires forall i :: 0 <= i < n ==> f(i) == ZERO
    ensures SumC(n, f) == ZERO
  {
    if n > 0 { SumCZero(n - 1, f); }
  }

  /** A summand that vanishes everywhere but at k. */
  lemma {:induction false} SumCPoint(n: nat, f: nat -> Complex, k: nat)
    requires k < n && forall i :: 0 <= i < n && i != k ==> f(i) == ZERO
    ensures SumC(n, f) == f(k)
  {
    if k == n - 1 { SumCZero(n - 1, f); } else { SumCPoint(n - 1, f, k); }
  }

  function RowSumC(t: (nat, nat) -> Complex, n: nat): nat -> Complex { (i: nat) => SumC(n, RowC(t, i)) }

  function ColumnSumC(t: (nat, nat) -> Complex, m: nat): nat -> Complex { (j: nat) => SumC(m, ColumnC(t, j)) }

  function RowC(t: (nat, nat) -> Complex, i: nat): nat -> Complex { (j: nat) => t(i, j) }

  function ColumnC(t: (nat, nat) -> Complex, j: nat): nat -> Complex { (i: nat) => t(i, j) }

  lemma {:induction false} SumCAdd(n: nat, f: nat -> Complex, g: nat -> Complex, h: nat -> Complex)
    requires forall i :: 0 <= i < n ==> h(i) == Add(f(i), g(i))
    ensures SumC(n, h) == Add(SumC(n, f), SumC(n, g))
  {
    if n > 0 { SumCAdd(n - 1, f, g, h); }
  }

  lemma {:induction false} SumCSwap(m: nat, n: nat, t: (nat, nat) -> Complex)
    ensures SumC(m, RowSumC(t, n)) == SumC(n, ColumnSumC(t, m))
    decreases m
  {
    if m == 0 {
      SumCZero(n, ColumnSumC(t, 0));
    } else {
      SumCSwap(m - 1, n, t);
      SumCAdd(n, ColumnSumC(t, m - 1), RowC(t, m - 1), ColumnSumC(t, m));
    }
  }
}
