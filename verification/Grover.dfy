/** Dense Grover iteration, the two-amplitude search that compresses it, and the
    logarithmic rotation that jumps over many iterations at once. */
module Grover {
  import opened Bits
  import opened Sums
  import opened Vectors
  import opened ComplexNumbers

  // ---------------------------------------------------------------- the dense iteration

  /** Whether index i is negated an odd number of times. */
  predicate Negated(marked: seq<nat>, i: nat) {
    if marked == [] then false
    else Negated(marked[..|marked| - 1], i) != (marked[|marked| - 1] == i)
  }

  function Signed(state: seq<Complex>, marked: seq<nat>): (r: seq<Complex>)
    ensures |r| == |state|
  {
    seq(|state|, i requires 0 <= i < |state| => if Negated(marked, i) then Neg(state[i]) else state[i])
  }

  function RealPart(state: seq<Complex>): nat -> real { (i: nat) => if i < |state| then state[i].re else 0.0 }

  function ImaginaryPart(state: seq<Complex>): nat -> real { (i: nat) => if i < |state| then state[i].im else 0.0 }

  /** 2 / size times the component sums. */
  function TwiceMean(state: seq<Complex>): Complex
    requires state != []
  {
    Complex(TwicePart(Sum(|state|, RealPart(state)), |state| as real),
      TwicePart(Sum(|state|, ImaginaryPart(state)), |state| as real))
  }

  function TwicePart(total: real, size: real): real
    requires size > 0.0
  {
    2.0 * total * (1.0 / size)
  }

  function Reflected(state: seq<Complex>): (r: seq<Complex>)
    requires state != []
    ensures |r| == |state|
  {
    seq(|state|, i requires 0 <= i < |state| => Sub(TwiceMean(state), state[i]))
  }

  function Iterated(state: seq<Complex>, marked: seq<nat>): (r: seq<Complex>)
    requires state != []
    ensures |r| == |state|
  {
    Reflected(Signed(state, marked))
  }

  method FlipMarked(amplitudes: array<Complex>, marked: seq<nat>)
    requires forall k :: 0 <= k < |marked| ==> marked[k] < amplitudes.Length
    modifies amplitudes
    ensures amplitudes[..] == Signed(old(amplitudes[..]), marked)
  {
    ghost var was := amplitudes[..];
    for k := 0 to |marked|
      invariant amplitudes[..] == Signed(was, marked[..k])
    {
      assert marked[..k + 1][..k] == marked[..k];
      amplitudes[marked[k]] := Neg(amplitudes[marked[k]]);
    }
    assert marked[..|marked|] == marked;
  }

  method ReflectAboutMean(amplitudes: array<Complex>)
    requires amplitudes.Length > 0
    modifies amplitudes
    ensures amplitudes[..] == Reflected(old(amplitudes[..]))
  {
    ghost var was := amplitudes[..];
    var sumRe, sumIm := 0.0, 0.0;
    for i := 0 to amplitudes.Length
      invariant sumRe == Sum(i, RealPart(was)) && sumIm == Sum(i, ImaginaryPart(was))
    {
      sumRe := sumRe + amplitudes[i].re;
      sumIm := sumIm + amplitudes[i].im;
    }
    var inverse := 1.0 / amplitudes.Length as real;
    var twiceMean := Complex(2.0 * sumRe * inverse, 2.0 * sumIm * inverse);
    assert twiceMean == TwiceMean(was);
    for i := 0 to amplitudes.Length
      invariant forall j :: 0 <= j < amplitudes.Length ==>
        amplitudes[j] == (if j < i then Sub(twiceMean, was[j]) else was[j])
    {
      amplitudes[i] := Sub(twiceMean, amplitudes[i]);
    }
  }

  method DenseIteration(amplitudes: array<Complex>, marked: seq<nat>)
    requires amplitudes.Length > 0 && forall k :: 0 <= k < |marked| ==> marked[k] < amplitudes.Length
    modifies amplitudes
    ensures amplitudes[..] == Iterated(old(amplitudes[..]), marked)
  {
    FlipMarked(amplitudes, marked);
    ReflectAboutMean(amplitudes);
  }

  // ---------------------------------------------------------------- the norm

  function Square(f: nat -> real): nat -> real { (i: nat) => f(i) * f(i) }

  function Minus(t: real, f: nat -> real): nat -> real { (i: nat) => t - f(i) }

  /** The squared norm, component by component. */
  lemma NormByParts(state: seq<Complex>)
    ensures SquaredNorm(state) == Sum(|state|, Square(RealPart(state))) + Sum(|state|, Square(ImaginaryPart(state)))
  {
    SumLinear(|state|, Square(RealPart(state)), Square(ImaginaryPart(state)), Norms(state), 1.0, 1.0);
  }

  lemma SquareOfDifference(t: real, x: real)
    ensures (t - x) * (t - x) == t * t - 2.0 * (t * x) + x * x
  {
  }

  lemma {:induction false} ReflectSquares(n: nat, f: nat -> real, t: real)
    ensures Sum(n, Square(Minus(t, f))) == ReflectedTotal(n as real, t, Sum(n, f), Sum(n, Square(f)))
  {
    if n > 0 {
      ReflectSquares(n - 1, f, t);
      ExtendTotals((n - 1) as real, t, Sum(n - 1, f), Sum(n - 1, Square(f)), f(n - 1),
        n as real, Sum(n, f), Sum(n, Square(f)));
    }
  }

  /** The right-hand side of ReflectSquares after n summands. */
  function ReflectedTotal(n: real, t: real, total: real, squares: real): real {
    n * (t * t) - 2.0 * (t * total) + squares
  }

  lemma ExtendTotals(n: real, t: real, total: real, squares: real, x: real, m: real, sum: real, all: real)
    requires m == n + 1.0 && sum == total + x && all == squares + x * x
    ensures ReflectedTotal(n, t, total, squares) + (t - x) * (t - x) == ReflectedTotal(m, t, sum, all)
  {
    SquareOfDifference(t, x);
    assert (n + 1.0) * (t * t) == n * (t * t) + t * t;
    assert t * (total + x) == t * total + t * x;
  }

  /** Reflecting about the mean preserves a component's sum of squares. */
  lemma ReflectKeepsSquares(n: nat, f: nat -> real, t: real)
    requires n > 0 && t == TwicePart(Sum(n, f), n as real)
    ensures Sum(n, Square(Minus(t, f))) == Sum(n, Square(f))
  {
    ReflectSquares(n, f, t);
    MeanCancels(n as real, Sum(n, f), t);
  }

  lemma MeanCancels(n: real, total: real, t: real)
    requires n > 0.0 && t == 2.0 * total * (1.0 / n)
    ensures n * (t * t) == 2.0 * (t * total)
  {
    assert n * t == 2.0 * total;
    assert n * (t * t) == (n * t) * t;
  }

  /** One component through the whole iteration: sign flips, then reflection. */
  lemma ComponentKeepsSquares(n: nat, f: nat -> real, g: nat -> real, h: nat -> real, t: real)
    requires n > 0 && t == TwicePart(Sum(n, g), n as real)
    requires forall i :: 0 <= i < n ==> g(i) == f(i) || g(i) == -f(i)
    requires forall i :: 0 <= i < n ==> h(i) == t - g(i)
    ensures Sum(n, Square(h)) == Sum(n, Square(f))
  {
    SumCongruent(n, Square(h), Square(Minus(t, g)));
    ReflectKeepsSquares(n, g, t);
    SumCongruent(n, Square(g), Square(f));
  }

  /** Every iteration preserves the squared norm, whatever the marked list. */
  lemma IterationKeepsNorm(state: seq<Complex>, marked: seq<nat>)
    requires state != []
    ensures SquaredNorm(Iterated(state, marked)) == SquaredNorm(state)
  {
    var flipped := Signed(state, marked);
    var next := Reflected(flipped);
    ComponentKeepsSquares(|state|, RealPart(state), RealPart(flipped), RealPart(next), TwiceMean(flipped).re);
    ComponentKeepsSquares(|state|, ImaginaryPart(state), ImaginaryPart(flipped), ImaginaryPart(next),
      TwiceMean(flipped).im);
    NormByParts(state);
    NormByParts(next);
  }

  // ---------------------------------------------------------------- two amplitude classes

  ghost predicate DistinctIn(marked: seq<nat>, size: nat) {
    && (forall i :: 0 <= i < |marked| ==> marked[i] < size)
    && (forall i, j :: 0 <= i < j < |marked| ==> marked[i] != marked[j])
  }

  /** One shared amplitude on the marked states and one on the others. */
  ghost predicate TwoLevel(state: seq<Complex>, marked: seq<nat>, u: Complex, w: Complex) {
    forall i :: 0 <= i < |state| ==> state[i] == (if i in marked then u else w)
  }

  lemma {:induction false} NegatedOnce(marked: seq<nat>, size: nat, i: nat)
    requires DistinctIn(marked, size)
    ensures Negated(marked, i) == (i in marked)
  {
    if marked != [] {
      var front, last := marked[..|marked| - 1], marked[|marked| - 1];
      NegatedOnce(front, size, i);
      assert i in marked <==> i in front || i == last;
      assert last !in front;
    }
  }

  function Level(marked: seq<nat>, u: real, w: real): nat -> real { (i: nat) => if i in marked then u else w }

  function Spike(k: nat, x: real): nat -> real { (i: nat) => if i == k then x else 0.0 }

  lemma {:induction false} SumConstant(n: nat, f: nat -> real, w: real)
    requires forall i :: 0 <= i < n ==> f(i) == w
    ensures Sum(n, f) == n as real * w
  {
    if n > 0 {
      SumConstant(n - 1, f, w);
      assert n as real == (n - 1) as real + 1.0;
      assert n as real * w == (n - 1) as real * w + w;
    }
  }

  lemma LevelSplit(marked: seq<nat>, size: nat, u: real, w: real)
    requires marked != [] && DistinctIn(marked, size)
    ensures var front, last := marked[..|marked| - 1], marked[|marked| - 1];
      Sum(size, Level(marked, u, w)) == Sum(size, Level(front, u, w)) + (u - w)
  {
    var front, last := marked[..|marked| - 1], marked[|marked| - 1];
    assert last !in front && forall i :: i in marked <==> i in front || i == last;
    SumLinear(size, Level(front, u, w), Spike(last, u - w), Level(marked, u, w), 1.0, 1.0);
    SumPoint(size, Spike(last, u - w), last);
  }

  lemma {:induction false} SumLevel(n: nat, marked: seq<nat>, u: real, w: real)
    requires DistinctIn(marked, n)
    ensures Sum(n, Level(marked, u, w)) == LevelTotal(n as real * w, |marked|, u - w)
    decreases |marked|
  {
    if marked == [] {
      SumConstant(n, Level(marked, u, w), w);
    } else {
      SumLevel(n, marked[..|marked| - 1], u, w);
      LevelSplit(marked, n, u, w);
      OneMore(|marked| - 1, n as real * w, u - w);
    }
  }

  /** n entries at w, k of them raised by d. */
  function LevelTotal(base: real, k: nat, d: real): real { base + k as real * d }

  lemma OneMore(k: nat, base: real, d: real)
    ensures LevelTotal(base, k, d) + d == LevelTotal(base, k + 1, d)
  {
    assert (k + 1) as real * d == k as real * d + d;
  }

  /** One component of the mean of a two-level state. */
  function MeanPart(u: real, w: real, marked: real, size: real): real
    requires size > 0.0
  {
    u * (marked / size) + w * ((size - marked) / size)
  }

  /** One component after the oracle negates u and diffusion reflects both. */
  function MarkedPart(u: real, w: real, marked: real, size: real): real
    requires size > 0.0
  {
    MeanPart(-u, w, marked, size) * 2.0 - -u
  }

  function UnmarkedPart(u: real, w: real, marked: real, size: real): real
    requires size > 0.0
  {
    MeanPart(-u, w, marked, size) * 2.0 - w
  }

  /** Oracle then diffusion on the two amplitudes. */
  function CompressedStep(p: (Complex, Complex), marked: nat, size: nat): (Complex, Complex)
    requires size > 0
  {
    var m, n := marked as real, size as real;
    (Complex(MarkedPart(p.0.re, p.1.re, m, n), MarkedPart(p.0.im, p.1.im, m, n)),
     Complex(UnmarkedPart(p.0.re, p.1.re, m, n), UnmarkedPart(p.0.im, p.1.im, m, n)))
  }

  lemma MeanComponent(total: real, n: real, k: real, u: real, w: real)
    requires n > 0.0 && total == n * w + k * (u - w)
    ensures TwicePart(total, n) == MeanPart(u, w, k, n) * 2.0
  {
    var i := 1.0 / n;
    assert k / n == k * i && (n - k) / n == (n - k) * i;
    assert total == k * u + (n - k) * w;
    assert total * i == u * (k * i) + w * ((n - k) * i);
  }

  lemma LevelMean(total: real, n: nat, k: nat, u: real, w: real)
    requires n > 0 && total == LevelTotal(n as real * w, k, u - w)
    ensures TwicePart(total, n as real) == MeanPart(u, w, k as real, n as real) * 2.0
  {
    MeanComponent(total, n as real, k as real, u, w);
  }

  lemma ComponentMean(n: nat, f: nat -> real, marked: seq<nat>, u: real, w: real)
    requires n > 0 && DistinctIn(marked, n) && forall i :: 0 <= i < n ==> f(i) == (if i in marked then u else w)
    ensures TwicePart(Sum(n, f), n as real) == MeanPart(u, w, |marked| as real, n as real) * 2.0
  {
    SumCongruent(n, f, Level(marked, u, w));
    SumLevel(n, marked, u, w);
    LevelMean(Sum(n, f), n, |marked|, u, w);
  }

  lemma TwiceMeanOfTwoLevel(state: seq<Complex>, marked: seq<nat>, u: Complex, w: Complex)
    requires state != [] && DistinctIn(marked, |state|) && TwoLevel(state, marked, u, w)
    ensures var m, n := |marked| as real, |state| as real;
      TwiceMean(state) == Complex(MeanPart(u.re, w.re, m, n) * 2.0, MeanPart(u.im, w.im, m, n) * 2.0)
  {
    ComponentMean(|state|, RealPart(state), marked, u.re, w.re);
    ComponentMean(|state|, ImaginaryPart(state), marked, u.im, w.im);
  }

  /** One dense iteration maps two-level states to two-level states by the
      compressed recurrence. */
  lemma IterationCompresses(state: seq<Complex>, marked: seq<nat>, p: (Complex, Complex))
    requires state != [] && DistinctIn(marked, |state|) && TwoLevel(state, marked, p.0, p.1)
    ensures var q := CompressedStep(p, |marked|, |state|); TwoLevel(Iterated(state, marked), marked, q.0, q.1)
  {
    var flipped := Signed(state, marked);
    forall i | 0 <= i < |state| ensures flipped[i] == (if i in marked then Neg(p.0) else p.1) {
      NegatedOnce(marked, |state|, i);
    }
    TwiceMeanOfTwoLevel(flipped, marked, Neg(p.0), p.1);
  }

  function DenseRun(state: seq<Complex>, marked: seq<nat>, k: nat): (r: seq<Complex>)
    requires state != []
    ensures |r| == |state|
  {
    if k == 0 then state else Iterated(DenseRun(state, marked, k - 1), marked)
  }

  /** One component of the marked and unmarked amplitudes after k iterations. */
  function MarkedRun(u: real, w: real, marked: real, size: real, k: nat): real
    requires size > 0.0
    decreases k
  {
    if k == 0 then u
      else MarkedPart(MarkedRun(u, w, marked, size, k - 1), UnmarkedRun(u, w, marked, size, k - 1), marked, size)
  }

  function UnmarkedRun(u: real, w: real, marked: real, size: real, k: nat): real
    requires size > 0.0
    decreases k
  {
    if k == 0 then w
      else UnmarkedPart(MarkedRun(u, w, marked, size, k - 1), UnmarkedRun(u, w, marked, size, k - 1), marked, size)
  }

  function CompressedRun(p: (Complex, Complex), marked: nat, size: nat, k: nat): (Complex, Complex)
    requires size > 0
  {
    var m, n := marked as real, size as real;
    (Complex(MarkedRun(p.0.re, p.1.re, m, n, k), MarkedRun(p.0.im, p.1.im, m, n, k)),
     Complex(UnmarkedRun(p.0.re, p.1.re, m, n, k), UnmarkedRun(p.0.im, p.1.im, m, n, k)))
  }

  /** A run is one compressed step after another, so iterating once is one oracle and
      one diffusion. */
  lemma RunIsSteps(p: (Complex, Complex), marked: nat, size: nat, k: nat)
    requires size > 0
    ensures CompressedRun(p, marked, size, 0) == p
    ensures CompressedRun(p, marked, size, k + 1) == CompressedStep(CompressedRun(p, marked, size, k), marked, size)
  {
  }

  /** From a state with equal amplitudes, any number of dense iterations keeps the
      marked amplitudes equal and the unmarked amplitudes equal. */
  lemma {:induction false} DenseRunCompresses(state: seq<Complex>, marked: seq<nat>, a: Complex, k: nat)
    requires state != [] && DistinctIn(marked, |state|) && forall i :: 0 <= i < |state| ==> state[i] == a
    ensures var q := CompressedRun((a, a), |marked|, |state|, k); TwoLevel(DenseRun(state, marked, k), marked, q.0, q.1)
    ensures SquaredNorm(DenseRun(state, marked, k)) == SquaredNorm(state)
  {
    if k > 0 {
      DenseRunCompresses(state, marked, a, k - 1);
      IterationCompresses(DenseRun(state, marked, k - 1), marked, CompressedRun((a, a), |marked|, |state|, k - 1));
      IterationKeepsNorm(DenseRun(state, marked, k - 1), marked);
    }
  }

  // ---------------------------------------------------------------- the rotation

  /** A plane rotation (cos, sin) as the complex number cos + i sin. */
  function Power(z: Complex, k: nat): Complex {
    if k == 0 then ONE else Mul(Power(z, k - 1), z)
  }

  lemma {:induction false} PowerSplit(z: Complex, a: nat, b: nat)
    ensures Power(z, a + b) == Mul(Power(z, a), Power(z, b))
    decreases b
  {
    if b == 0 {
      Units(Power(z, a));
    } else {
      PowerSplit(z, a, b - 1);
      Associate(Power(z, a), Power(z, b - 1), z);
    }
  }

  lemma {:induction false} PowerOfSquare(z: Complex, k: nat)
    ensures Power(Mul(z, z), k) == Power(z, 2 * k)
  {
    if k > 0 {
      PowerOfSquare(z, k - 1);
      Associate(Power(z, 2 * k - 2), z, z);
      assert Power(z, 2 * k - 1) == Mul(Power(z, 2 * k - 2), z);
      assert Power(z, 2 * k) == Mul(Power(z, 2 * k - 1), z);
    }
  }

  lemma {:induction false} PowerNorm(z: Complex, k: nat)
    requires Norm2(z) == 1.0
    ensures Norm2(Power(z, k)) == 1.0
  {
    if k > 0 {
      PowerNorm(z, k - 1);
      Norm2Product(Power(z, k - 1), z);
    }
  }

  /** Square-and-multiply on the rotation. */
  method RotationPower(base: Complex, count: nat) returns (result: Complex, ghost products: nat)
    ensures result == Power(base, count)
    ensures products == Products(count) <= 2 * BitWidth(count)
  {
    result, products := ONE, 0;
    ProductsCounted(count);
    var square, exponent := base, count;
    Units(Power(base, count));
    while exponent != 0
      invariant Mul(result, Power(square, exponent)) == Power(base, count)
      invariant products + Products(exponent) == Products(count)
      decreases exponent
    {
      PowerHalves(square, exponent, result);
      if exponent % 2 == 1 {
        result, products := Mul(result, square), products + 1;
      }
      exponent := exponent / 2;
      if exponent != 0 {
        square, products := Mul(square, square), products + 1;
      }
    }
    Units(result);
  }

  lemma PowerHalves(z: Complex, e: nat, r: Complex)
    requires e > 0
    ensures Mul(r, Power(z, e)) == Mul(if e % 2 == 1 then Mul(r, z) else r, Power(Mul(z, z), e / 2))
    ensures e / 2 == 0 ==> Power(Mul(z, z), e / 2) == Power(z, e / 2)
  {
    PowerOfSquare(z, e / 2);
    if e % 2 == 1 {
      assert e == 1 + 2 * (e / 2);
      PowerSplit(z, 1, 2 * (e / 2));
      Units(z);
      assert Power(z, 1) == Mul(Power(z, 0), z);
      Associate(r, z, Power(z, 2 * (e / 2)));
    }
  }

  function Turn(c: real, s: real, x: real, y: real): real { x * c + y * s }

  lemma TurnTwice(c: real, s: real, d: real, t: real, x: real, y: real)
    ensures Turn(d, t, Turn(c, s, x, y), Turn(-s, c, x, y)) == Turn(c * d - s * t, c * t + s * d, x, y)
    ensures Turn(-t, d, Turn(c, s, x, y), Turn(-s, c, x, y)) == Turn(-(c * t + s * d), c * d - s * t, x, y)
  {
  }

  /** The square roots of the class sizes, and the rotation they define. */
  ghost predicate Roots(r: real, q: real, marked: nat, size: nat) {
    0 < marked < size && r > 0.0 && q > 0.0 && r * r == marked as real && q * q == size as real - marked as real
  }

  /** (cos 2t, sin 2t) for sin^2 t = marked / size. */
  function GroverRotation(r: real, q: real, size: nat): Complex
    requires size > 0
  {
    Complex(1.0 - 2.0 * (r * r / size as real), 2.0 * (r * q / size as real))
  }

  /** An amplitude times the square root of its class size. */
  function Weighted(x: real, root: real): real { x * root }

  lemma StepComponent(u: real, w: real, r: real, q: real, m: real, n: real, d: real, t: real)
    requires n > 0.0 && r * r == m && q * q == n - m
    requires d == 1.0 - 2.0 * (r * r / n) && t == 2.0 * (r * q / n)
    ensures Weighted(MarkedPart(u, w, m, n), r) == Turn(d, t, Weighted(u, r), Weighted(w, q))
    ensures Weighted(UnmarkedPart(u, w, m, n), q) == Turn(-t, d, Weighted(u, r), Weighted(w, q))
  {
    var i := 1.0 / n;
    var a, b := m * i, (n - m) * i;
    assert m / n == a && (n - m) / n == b && r * r / n == a && r * q / n == (r * q) * i;
    assert a + b == 1.0;
    assert (w * q) * ((r * q) * i) == w * (q * q) * (r * i) == w * b * r;
    assert (u * r) * ((r * q) * i) == u * (r * r) * (q * i) == u * a * q;
    assert ((-u * a + w * b) * 2.0 - -u) * r == u * r * (1.0 - 2.0 * a) + 2.0 * (w * b * r);
    assert ((-u * a + w * b) * 2.0 - w) * q == -2.0 * (u * a * q) + w * q * (2.0 * b - 1.0);
    assert 2.0 * b - 1.0 == 1.0 - 2.0 * a;
  }

  lemma RotationStep(c: real, s: real, d: real, t: real, x: real, y: real, a: real, b: real, p: real, q: real,
    z: Complex)
    requires a == Turn(c, s, x, y) && b == Turn(-s, c, x, y) && p == Turn(d, t, a, b) && q == Turn(-t, d, a, b)
    requires z == Mul(Complex(c, s), Complex(d, t))
    ensures p == Turn(z.re, z.im, x, y) && q == Turn(-z.im, z.re, x, y)
  {
    TurnTwice(c, s, d, t, x, y);
  }

  /** k compressed steps are the k-th power of one rotation of the weighted pair. */
  lemma {:induction false} RunIsRotation(u: real, w: real, r: real, q: real, marked: nat, size: nat, k: nat)
    requires Roots(r, q, marked, size)
    ensures var z := Power(GroverRotation(r, q, size), k);
      && Weighted(MarkedRun(u, w, marked as real, size as real, k), r) ==
        Turn(z.re, z.im, Weighted(u, r), Weighted(w, q))
      && Weighted(UnmarkedRun(u, w, marked as real, size as real, k), q) ==
        Turn(-z.im, z.re, Weighted(u, r), Weighted(w, q))
    decreases k
  {
    if k == 0 {
      NoTurn(Weighted(u, r), Weighted(w, q));
    } else {
      var m, n := marked as real, size as real;
      var g, z := GroverRotation(r, q, size), Power(GroverRotation(r, q, size), k - 1);
      RunIsRotation(u, w, r, q, marked, size, k - 1);
      StepComponent(MarkedRun(u, w, m, n, k - 1), UnmarkedRun(u, w, m, n, k - 1), r, q, m, n, g.re, g.im);
      RotationStep(z.re, z.im, g.re, g.im, Weighted(u, r), Weighted(w, q),
        Weighted(MarkedRun(u, w, m, n, k - 1), r), Weighted(UnmarkedRun(u, w, m, n, k - 1), q),
        Weighted(MarkedRun(u, w, m, n, k), r), Weighted(UnmarkedRun(u, w, m, n, k), q), Mul(z, g));
    }
  }

  lemma NoTurn(x: real, y: real)
    ensures Turn(1.0, 0.0, x, y) == x && Turn(-0.0, 1.0, x, y) == y
  {
  }

  lemma TurnKeepsNorm(c: real, s: real, x: real, y: real)
    requires c * c + s * s == 1.0
    ensures Turn(c, s, x, y) * Turn(c, s, x, y) + Turn(-s, c, x, y) * Turn(-s, c, x, y) == x * x + y * y
  {
    var cc, ss, cs := c * c, s * s, c * s;
    assert (x * c + y * s) * (x * c + y * s) == x * x * cc + 2.0 * (x * y * cs) + y * y * ss;
    assert (x * -s + y * c) * (x * -s + y * c) == x * x * ss - 2.0 * (x * y * cs) + y * y * cc;
    assert x * x * cc + x * x * ss == x * x * (cc + ss);
    assert y * y * cc + y * y * ss == y * y * (cc + ss);
  }

  /** The total weight of the two classes never changes, so rescaling a
      normalised search by its norm afterwards does nothing. */
  lemma RunKeepsWeight(u: real, w: real, r: real, q: real, marked: nat, size: nat, k: nat)
    requires Roots(r, q, marked, size)
    ensures var m, n := marked as real, size as real;
      var a, b := Weighted(MarkedRun(u, w, m, n, k), r), Weighted(UnmarkedRun(u, w, m, n, k), q);
      a * a + b * b == Weighted(u, r) * Weighted(u, r) + Weighted(w, q) * Weighted(w, q)
  {
    var z := Power(GroverRotation(r, q, size), k);
    RunIsRotation(u, w, r, q, marked, size, k);
    RotationIsUnit(r, q, marked, size);
    PowerNorm(GroverRotation(r, q, size), k);
    TurnKeepsNorm(z.re, z.im, Weighted(u, r), Weighted(w, q));
  }

  lemma RotationIsUnit(r: real, q: real, marked: nat, size: nat)
    requires Roots(r, q, marked, size)
    ensures Norm2(GroverRotation(r, q, size)) == 1.0
  {
    var n := size as real;
    var x, y := r * r / n, r * q / n;
    var z := q * q / n;
    assert x + z == 1.0;
    assert y * y == x * z by {
      var i := 1.0 / n;
      assert y == r * q * i && x == r * r * i && z == q * q * i;
      assert (r * q * i) * (r * q * i) == (r * r * i) * (q * q * i);
    }
    UnitFromHalves(x, y, z);
  }

  lemma UnitFromHalves(x: real, y: real, z: real)
    requires x + z == 1.0 && y * y == x * z
    ensures (1.0 - 2.0 * x) * (1.0 - 2.0 * x) + (2.0 * y) * (2.0 * y) == 1.0
  {
    assert (1.0 - 2.0 * x) * (1.0 - 2.0 * x) == 1.0 - 4.0 * x + 4.0 * (x * x);
    assert (2.0 * y) * (2.0 * y) == 4.0 * (y * y);
    assert x * z == x * (1.0 - x) == x - x * x;
  }

  /** The two-amplitude search state; square roots are passed in as exact reals. */
  class GroverSearch {
    const markedCount: nat
    const spaceSize: nat
    var marked: Complex
    var unmarked: Complex

    constructor (markedCount: nat, spaceSize: nat, amplitude: real)
      requires 0 < markedCount < spaceSize
      ensures this.markedCount == markedCount && this.spaceSize == spaceSize
      ensures marked == unmarked == Complex(amplitude, 0.0)
    {
      this.markedCount, this.spaceSize := markedCount, spaceSize;
      marked, unmarked := Complex(amplitude, 0.0), Complex(amplitude, 0.0);
    }

    method ApplyOracle()
      modifies this
      ensures marked == Neg(old(marked)) && unmarked == old(unmarked)
    {
      marked := Neg(marked);
    }

    method ApplyDiffusion()
      requires 0 < markedCount < spaceSize
      modifies this
      ensures var m, n := markedCount as real, spaceSize as real;
        var re, im := MeanPart(old(marked).re, old(unmarked).re, m, n),
          MeanPart(old(marked).im, old(unmarked).im, m, n);
        && marked == Complex(re * 2.0 - old(marked).re, im * 2.0 - old(marked).im)
        && unmarked == Complex(re * 2.0 - old(unmarked).re, im * 2.0 - old(unmarked).im)
    {
      var m, n := markedCount as real, spaceSize as real;
      var mean := Complex(MeanPart(marked.re, unmarked.re, m, n), MeanPart(marked.im, unmarked.im, m, n));
      marked := Sub(Scale(mean, 2.0), marked);
      unmarked := Sub(Scale(mean, 2.0), unmarked);
    }

    /** One iteration of the source's oracle and diffusion is one compressed step. */
    method ApplyIteration()
      requires 0 < markedCount < spaceSize
      modifies this
      ensures (marked, unmarked) == CompressedStep((old(marked), old(unmarked)), markedCount, spaceSize)
    {
      ApplyOracle();
      ApplyDiffusion();
    }

    /** A number of rotation products logarithmic in `count` does what `count` iterations
        do.  Dividing by
        the rotation's norm is left out because that norm is exactly one. */
    method Iterate(count: nat, r: real, q: real) returns (ghost products: nat)
      requires Roots(r, q, markedCount, spaceSize)
      modifies this
      ensures (marked, unmarked) == CompressedRun((old(marked), old(unmarked)), markedCount, spaceSize, count)
      ensures products == Products(count) <= 2 * BitWidth(count)
    {
      var base := GroverRotation(r, q, spaceSize);
      var z;
      z, products := RotationPower(base, count);
      RotationIsUnit(r, q, markedCount, spaceSize);
      PowerNorm(base, count);
      assert Norm2(z) == 1.0;
      ghost var m, n := markedCount as real, spaceSize as real;
      RunIsRotation(marked.re, unmarked.re, r, q, markedCount, spaceSize, count);
      RunIsRotation(marked.im, unmarked.im, r, q, markedCount, spaceSize, count);
      Undivide(MarkedRun(marked.re, unmarked.re, m, n, count), r);
      Undivide(MarkedRun(marked.im, unmarked.im, m, n, count), r);
      Undivide(UnmarkedRun(marked.re, unmarked.re, m, n, count), q);
      Undivide(UnmarkedRun(marked.im, unmarked.im, m, n, count), q);
      var u, w := Complex(Weighted(marked.re, r), Weighted(marked.im, r)),
        Complex(Weighted(unmarked.re, q), Weighted(unmarked.im, q));
      marked := Complex(Unweighted(Turn(z.re, z.im, u.re, w.re), r), Unweighted(Turn(z.re, z.im, u.im, w.im), r));
      unmarked := Complex(Unweighted(Turn(-z.im, z.re, u.re, w.re), q), Unweighted(Turn(-z.im, z.re, u.im, w.im), q));
    }
  }

  function Unweighted(x: real, root: real): real
    requires root > 0.0
  {
    x / root
  }

  lemma Undivide(x: real, r: real)
    requires r > 0.0
    ensures Unweighted(Weighted(x, r), r) == x
  {
  }

  /** The benchmark's comparison: after the same number of iterations from the
      uniform state the fast search holds every dense amplitude. */
  method FastMatchesDense(amplitudes: array<Complex>, marked: seq<nat>, count: nat, uniform: real, r: real, q: real)
    returns (search: GroverSearch)
    requires DistinctIn(marked, amplitudes.Length) && Roots(r, q, |marked|, amplitudes.Length)
    requires forall i :: 0 <= i < amplitudes.Length ==> amplitudes[i] == Complex(uniform, 0.0)
    modifies amplitudes
    ensures forall i :: 0 <= i < amplitudes.Length ==>
      amplitudes[i] == (if i in marked then search.marked else search.unmarked)
  {
    ghost var start := amplitudes[..];
    for k := 0 to count
      invariant amplitudes[..] == DenseRun(start, marked, k)
    {
      DenseIteration(amplitudes, marked);
    }
    search := new GroverSearch(|marked|, amplitudes.Length, uniform);
    ghost var products := search.Iterate(count, r, q);
    DenseRunCompresses(start, marked, Complex(uniform, 0.0), count);
    assert TwoLevel(amplitudes[..], marked, search.marked, search.unmarked);
  }
}
