/** Amplitude vectors: basis vectors, linear combinations and squared norms. */
module Vectors {
  import opened ComplexNumbers
  import opened Sums

  function Blend(a: Complex, x: Complex, b: Complex, y: Complex): Complex { Add(Mul(a, x), Mul(b, y)) }

  function BlendAll(a: Complex, x: seq<Complex>, b: Complex, y: seq<Complex>): (r: seq<Complex>)
    requires |x| == |y|
    ensures |r| == |x|
  {
    seq(|x|, i requires 0 <= i < |x| => Blend(a, x[i], b, y[i]))
  }

  lemma BlendMul(a: Complex, x: Complex, b: Complex, y: Complex, t: Complex)
    ensures Mul(Blend(a, x, b, y), t) == Blend(a, Mul(x, t), b, Mul(y, t))
    ensures Mul(t, Blend(a, x, b, y)) == Blend(a, Mul(t, x), b, Mul(t, y))
  {
    Distribute(t, Mul(a, x), Mul(b, y));
    Associate(a, x, t);
    Associate(b, y, t);
    Commute(t, Blend(a, x, b, y));
    Commute(t, x);
    Commute(t, y);
  }

  lemma BlendAdd(a: Complex, x: Complex, b: Complex, y: Complex, u: Complex, v: Complex)
    ensures Add(Blend(a, x, b, y), Blend(a, u, b, v)) == Blend(a, Add(x, u), b, Add(y, v))
  {
    Distribute(a, x, u);
    Distribute(b, y, v);
  }

  lemma BlendScale(a: Complex, x: Complex, b: Complex, y: Complex, s: real)
    ensures Scale(Blend(a, x, b, y), s) == Blend(a, Scale(x, s), b, Scale(y, s))
  {
    ScaleMul(a, x, s);
    ScaleMul(b, y, s);
    ScaleAdd(Mul(a, x), Mul(b, y), s);
  }

  lemma ScaleMul(a: Complex, x: Complex, s: real)
    ensures Scale(Mul(a, x), s) == Mul(a, Scale(x, s))
  {
  }

  lemma ScaleAdd(x: Complex, y: Complex, s: real)
    ensures Scale(Add(x, y), s) == Add(Scale(x, s), Scale(y, s))
    ensures Scale(Sub(x, y), s) == Sub(Scale(x, s), Scale(y, s))
  {
  }

  lemma BlendSub(a: Complex, x: Complex, b: Complex, y: Complex, u: Complex, v: Complex)
    ensures Sub(Blend(a, x, b, y), Blend(a, u, b, v)) == Blend(a, Sub(x, u), b, Sub(y, v))
  {
    DistributeSub(a, x, u);
    DistributeSub(b, y, v);
  }

  lemma DistributeSub(a: Complex, x: Complex, y: Complex)
    ensures Mul(a, Sub(x, y)) == Sub(Mul(a, x), Mul(a, y))
  {
  }

  /** All amplitude one on index j. */
  function BasisVector(d: nat, j: nat): (v: seq<Complex>)
    ensures |v| == d
  {
    seq(d, i => if i == j then ONE else ZERO)
  }

  /** Two amplitudes, the rest zero. */
  function Pair(d: nat, x: nat, a: Complex, y: nat, b: Complex): (v: seq<Complex>)
    ensures |v| == d
  {
    seq(d, i => if i == x then a else if i == y then b else ZERO)
  }

  function Norms(state: seq<Complex>): nat -> real { (x: nat) => if x < |state| then Norm2(state[x]) else 0.0 }

  function SquaredNorm(state: seq<Complex>): real { Sum(|state|, Norms(state)) }
}
