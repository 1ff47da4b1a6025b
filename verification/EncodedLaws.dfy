/** The logical gates by their matrices and by what they do to measured values: norms
    kept, and the direction a rotation turns Z. */
module EncodedLaws {
  import opened Bits
  import opened Sums
  import opened ComplexNumbers
  import opened Vectors
  import opened Encoded

  // ---------------------------------------------------------------- columns of the logical gates

  /** p is b with qubit q set. */
  ghost predicate Raised(b: nat, p: nat, q: nat) {
    !Bit(b, q) && Bit(p, q) && forall j: nat :: j != q ==> Bit(b, j) == Bit(p, j)
  }

  lemma RaisedIsPartner(b: nat, p: nat, q: nat, n: nat)
    requires Raised(b, p, q) && b < Pow2(n) && p < Pow2(n) && q < n
    ensures b != p && Xor(b, Pow2(q)) == p && Xor(p, Pow2(q)) == b
  {
    OneBitUpdate(XorOp, b, q, n);
    OneBitUpdate(XorOp, p, q, n);
    SameBits(Xor(b, Pow2(q)), p, n);
    SameBits(Xor(p, Pow2(q)), b, n);
  }

  lemma RyLinear(a: Complex, u: Complex, b: Complex, v: Complex, w: Complex, z: Complex, c: real, s: real)
    ensures Sub(Scale(Blend(a, u, b, v), c), Scale(Blend(a, w, b, z), s)) ==
      Blend(a, Sub(Scale(u, c), Scale(w, s)), b, Sub(Scale(v, c), Scale(z, s)))
    ensures Add(Scale(Blend(a, w, b, z), s), Scale(Blend(a, u, b, v), c)) ==
      Blend(a, Add(Scale(w, s), Scale(u, c)), b, Add(Scale(z, s), Scale(v, c)))
  {
    BlendScale(a, u, b, v, c);
    BlendScale(a, w, b, z, s);
    BlendSub(a, Scale(u, c), b, Scale(v, c), Scale(w, s), Scale(z, s));
    BlendAdd(a, Scale(w, s), b, Scale(z, s), Scale(u, c), Scale(v, c));
  }

  /** Every logical gate is linear in the register. */
  lemma LogicalLinear(g: Gate, a: Complex, u: seq<Complex>, b: Complex, v: seq<Complex>, block: nat)
    requires |u| == |v| && block > 0
    ensures LogicalApplied(g, BlendAll(a, u, b, v), block) ==
      BlendAll(a, LogicalApplied(g, u, block), b, LogicalApplied(g, v, block))
  {
    forall x: nat | x < |u|
      ensures LogicalAfter(g, BlendAll(a, u, b, v), block, x) ==
        Blend(a, LogicalAfter(g, u, block, x), b, LogicalAfter(g, v, block, x))
    {
      match g
      case Ry(q, c, s) =>
        var y := Xor(x, Pow2(q));
        if y < |u| { RyLinear(a, u[x], b, v[x], u[y], v[y], c, s); }
      case Rz(p, zero, one) =>
        BlendMul(a, u[x], b, v[x], if Bit(x, p / block) then one else zero);
      case Cnot(_, _) =>
    }
  }

  lemma ClearColumn(c: real, s: real)
    ensures Sub(Scale(ONE, c), Scale(ZERO, s)) == Complex(c, 0.0)
    ensures Add(Scale(ONE, s), Scale(ZERO, c)) == Complex(s, 0.0)
  {
  }

  lemma SetColumn(c: real, s: real)
    ensures Sub(Scale(ZERO, c), Scale(ONE, s)) == Complex(-s, 0.0)
    ensures Add(Scale(ZERO, s), Scale(ONE, c)) == Complex(c, 0.0)
  {
  }

  lemma ZeroColumn(c: real, s: real)
    ensures Sub(Scale(ZERO, c), Scale(ZERO, s)) == ZERO == Add(Scale(ZERO, s), Scale(ZERO, c))
  {
  }

  lemma RyAt(q: nat, c: real, s: real, block: nat, r: seq<Complex>, i: nat, a: Complex, b: Complex)
    requires block > 0 && i < |r| && Xor(i, Pow2(q)) < |r| && r[i] == a && r[Xor(i, Pow2(q))] == b
    ensures LogicalApplied(Ry(q, c, s), r, block)[i] ==
      if Bit(i, q) then Add(Scale(b, s), Scale(a, c)) else Sub(Scale(a, c), Scale(b, s))
  {
  }

  lemma RyZero(q: nat, c: real, s: real, block: nat, r: seq<Complex>, i: nat)
    requires block > 0 && i < |r| && Xor(i, Pow2(q)) < |r| && r[i] == ZERO && r[Xor(i, Pow2(q))] == ZERO
    ensures LogicalApplied(Ry(q, c, s), r, block)[i] == ZERO
  {
    ZeroColumn(c, s);
    RyAt(q, c, s, block, r, i, ZERO, ZERO);
  }

  /** A register that lives on one pair is rotated on that pair. */
  lemma RyPair(q: nat, c: real, s: real, block: nat, n: nat, r: seq<Complex>, b: nat, p: nat,
    x: Complex, y: Complex, u: Complex, w: Complex)
    requires u == Sub(Scale(x, c), Scale(y, s)) && w == Add(Scale(x, s), Scale(y, c))
    requires block > 0 && q < n && b < Pow2(n) && p < Pow2(n) && Raised(b, p, q)
    requires |r| == Pow2(n) && r[b] == x && r[p] == y
    requires forall k :: 0 <= k < |r| && k != b && k != p ==> r[k] == ZERO
    ensures LogicalApplied(Ry(q, c, s), r, block) == Pair(Pow2(n), b, u, p, w)
  {
    var next := LogicalApplied(Ry(q, c, s), r, block);
    RaisedIsPartner(b, p, q, n);
    RyAt(q, c, s, block, r, b, x, y);
    RyAt(q, c, s, block, r, p, y, x);
    forall i: nat | i < Pow2(n) && i != b && i != p ensures next[i] == ZERO {
      PairedBits(i, q, n);
      RyZero(q, c, s, block, r, i);
    }
  }

  /** The rotation sends a clear qubit to c clear plus s set. */
  lemma RyOnClear(q: nat, c: real, s: real, block: nat, n: nat, b: nat, p: nat)
    requires block > 0 && q < n && b < Pow2(n) && p < Pow2(n) && Raised(b, p, q)
    ensures LogicalApplied(Ry(q, c, s), BasisVector(Pow2(n), b), block) ==
      Pair(Pow2(n), b, Complex(c, 0.0), p, Complex(s, 0.0))
  {
    ClearColumn(c, s);
    RyPair(q, c, s, block, n, BasisVector(Pow2(n), b), b, p, ONE, ZERO, Complex(c, 0.0), Complex(s, 0.0));
  }

  /** The rotation sends a set qubit to -s clear plus c set. */
  lemma RyOnSet(q: nat, c: real, s: real, block: nat, n: nat, b: nat, p: nat)
    requires block > 0 && q < n && b < Pow2(n) && p < Pow2(n) && Raised(b, p, q)
    ensures LogicalApplied(Ry(q, c, s), BasisVector(Pow2(n), p), block) ==
      Pair(Pow2(n), b, Complex(-s, 0.0), p, Complex(c, 0.0))
  {
    SetColumn(c, s);
    RyPair(q, c, s, block, n, BasisVector(Pow2(n), p), b, p, ZERO, ONE, Complex(-s, 0.0), Complex(c, 0.0));
  }

  /** The physical phase multiplies a basis state by the phase of its logical bit. */
  lemma RzOnBasis(p: nat, zero: Complex, one: Complex, block: nat, d: nat, b: nat)
    requires block > 0 && b < d
    ensures LogicalApplied(Rz(p, zero, one), BasisVector(d, b), block) ==
      Pair(d, b, if Bit(b, p / block) then one else zero, b, ZERO)
  {
    forall i: nat | i < d
      ensures LogicalApplied(Rz(p, zero, one), BasisVector(d, b), block)[i] ==
        Pair(d, b, if Bit(b, p / block) then one else zero, b, ZERO)[i]
    {
      Units(if Bit(i, p / block) then one else zero);
    }
  }

  /** A clear control leaves a basis state; a set one flips its target bit. */
  lemma CnotOnBasis(control: nat, target: nat, block: nat, n: nat, b: nat, p: nat)
    requires block > 0 && control < n && target < n && control != target && b < Pow2(n) && p < Pow2(n)
    requires forall j: nat :: Bit(p, j) == (if j == target && Bit(b, control) then !Bit(b, j) else Bit(b, j))
    ensures LogicalApplied(Cnot(control, target), BasisVector(Pow2(n), b), block) == BasisVector(Pow2(n), p)
  {
    forall i: nat | i < Pow2(n)
      ensures LogicalApplied(Cnot(control, target), BasisVector(Pow2(n), b), block)[i] == BasisVector(Pow2(n), p)[i]
    {
      FlippedFits(i, control, target, n);
      FlippedFits(b, control, target, n);
      SameBits(Flipped(b, control, target), p, n);
      FlippedTwice(i, control, target, n);
      FlippedTwice(b, control, target, n);
    }
  }

  lemma FlippedTwice(b: nat, control: nat, target: nat, n: nat)
    requires b < Pow2(n) && control < n && target < n && control != target
    ensures Flipped(b, control, target) < Pow2(n) && Flipped(Flipped(b, control, target), control, target) == b
  {
    FlippedFits(b, control, target, n);
    FlippedFits(Flipped(b, control, target), control, target, n);
    SameBits(Flipped(Flipped(b, control, target), control, target), b, n);
  }

  // ---------------------------------------------------------------- Z and X on the register

  /** Twice the real part of conj(r[b]) * r[b with q set], on the clear side of each pair. */
  function Coherence(r: seq<Complex>, q: nat): nat -> real {
    (b: nat) =>
      if b < |r| && !Bit(b, q) && Xor(b, Pow2(q)) < |r| then 2.0 * Mul(Conjugate(r[b]), r[Xor(b, Pow2(q))]).re else 0.0
  }

  function XExpectation(r: seq<Complex>, q: nat): real { Sum(|r|, Coherence(r, q)) }

  function Flip(q: nat): nat -> nat { (b: nat) => Xor(b, Pow2(q)) }

  lemma FlipInvolution(q: nat, n: nat)
    requires q < n
    ensures Involution(Pow2(n), Flip(q))
  {
    forall b: nat | b < Pow2(n) ensures Flip(q)(b) < Pow2(n) && Flip(q)(Flip(q)(b)) == b { PairedBits(b, q, n); }
  }

  /** k of the signed weight less m of the coherence. */
  function TurnedValue(k: real, m: real, z: real, x: real): real { k * z - m * x }

  lemma TurnedValues(k: real, m: real, a: real, u: real, b: real, v: real)
    ensures TurnedValue(k, m, a, u) + TurnedValue(k, m, b, v) == TurnedValue(k, m, a + b, u + v)
  {
  }

  /** One component of a rotated pair: how its signed weight turns. */
  lemma TurnedComponent(z: real, o: real, c: real, s: real, x: real, y: real, k: real, m: real, d: real, w: real)
    requires x == z * c - o * s && y == z * s + o * c && k == c * c - s * s && m == 2.0 * (c * s)
    requires d == z * z - o * o && w == 2.0 * (z * o)
    ensures x * x - y * y == TurnedValue(k, m, d, w)
  {
    assert x * x == z * z * (c * c) - 2.0 * (z * o) * (c * s) + o * o * (s * s);
    assert y * y == z * z * (s * s) + 2.0 * (z * o) * (c * s) + o * o * (c * c);
  }

  lemma KeptComponent(z: real, o: real, c: real, s: real, x: real, y: real)
    requires x == z * c - o * s && y == z * s + o * c && c * c + s * s == 1.0
    ensures x * x + y * y == z * z + o * o
  {
    assert x * x == z * z * (c * c) - 2.0 * (z * o) * (c * s) + o * o * (s * s);
    assert y * y == z * z * (s * s) + 2.0 * (z * o) * (c * s) + o * o * (c * c);
    assert z * z * (c * c) + z * z * (s * s) == z * z * (c * c + s * s);
    assert o * o * (c * c) + o * o * (s * s) == o * o * (c * c + s * s);
  }

  /** The signed weights turned against the coherences, index by index. */
  function Turned(r: seq<Complex>, q: nat, k: real, m: real): nat -> real {
    (x: nat) => TurnedValue(k, m, Signed(r, q)(x), Coherence(r, q)(x))
  }

  lemma TurnedPair(z: Complex, o: Complex, c: real, s: real, x: Complex, y: Complex, k: real, m: real, d: real, w: real)
    requires x == Sub(Scale(z, c), Scale(o, s)) && y == Add(Scale(z, s), Scale(o, c))
    requires k == c * c - s * s && m == 2.0 * (c * s)
    requires d == Norm2(z) - Norm2(o) && w == 2.0 * Mul(Conjugate(z), o).re
    ensures Norm2(x) - Norm2(y) == TurnedValue(k, m, d, w)
  {
    var d1, d2 := z.re * z.re - o.re * o.re, z.im * z.im - o.im * o.im;
    var w1, w2 := 2.0 * (z.re * o.re), 2.0 * (z.im * o.im);
    TurnedComponent(z.re, o.re, c, s, x.re, y.re, k, m, d1, w1);
    TurnedComponent(z.im, o.im, c, s, x.im, y.im, k, m, d2, w2);
    TurnedValues(k, m, d1, w1, d2, w2);
    NormDifference(z, o, d1, d2);
    NormDifference(x, y, TurnedValue(k, m, d1, w1), TurnedValue(k, m, d2, w2));
    CrossPart(z, o, w1, w2);
  }

  lemma NormDifference(x: Complex, y: Complex, a: real, b: real)
    requires a == x.re * x.re - y.re * y.re && b == x.im * x.im - y.im * y.im
    ensures Norm2(x) - Norm2(y) == a + b
  {
  }

  lemma CrossPart(z: Complex, o: Complex, a: real, b: real)
    requires a == 2.0 * (z.re * o.re) && b == 2.0 * (z.im * o.im)
    ensures 2.0 * Mul(Conjugate(z), o).re == a + b
  {
  }

  /** The amplitudes of one pair before and after. */
  lemma RotatedPairAt(q: nat, c: real, s: real, block: nat, r: seq<Complex>, n: nat, b: nat)
    requires block > 0 && q < n && |r| == Pow2(n) && b < Pow2(n) && !Bit(b, q)
    ensures var p := Xor(b, Pow2(q));
      && p < Pow2(n) && Bit(p, q) && Xor(p, Pow2(q)) == b
      && LogicalApplied(Ry(q, c, s), r, block)[b] == Sub(Scale(r[b], c), Scale(r[p], s))
      && LogicalApplied(Ry(q, c, s), r, block)[p] == Add(Scale(r[b], s), Scale(r[p], c))
  {
    PairedBits(b, q, n);
    RyAt(q, c, s, block, r, b, r[b], r[Xor(b, Pow2(q))]);
    RyAt(q, c, s, block, r, Xor(b, Pow2(q)), r[Xor(b, Pow2(q))], r[b]);
  }

  lemma SignedPair(r: seq<Complex>, q: nat, b: nat, p: nat)
    requires b < |r| && p < |r| && !Bit(b, q) && Bit(p, q)
    ensures Signed(r, q)(b) == Norm2(r[b]) && Signed(r, q)(p) == -Norm2(r[p])
  {
  }

  lemma CoherencePair(r: seq<Complex>, q: nat, b: nat, p: nat)
    requires b < |r| && p < |r| && !Bit(b, q) && Bit(p, q) && Xor(b, Pow2(q)) == p
    ensures Coherence(r, q)(b) == 2.0 * Mul(Conjugate(r[b]), r[p]).re && Coherence(r, q)(p) == 0.0
  {
  }

  lemma TurnedClear(q: nat, c: real, s: real, block: nat, r: seq<Complex>, n: nat, b: nat, k: real, m: real)
    requires block > 0 && q < n && |r| == Pow2(n) && b < Pow2(n) && !Bit(b, q)
    requires k == c * c - s * s && m == 2.0 * (c * s)
    ensures var next, p := LogicalApplied(Ry(q, c, s), r, block), Xor(b, Pow2(q));
      Signed(next, q)(b) + Signed(next, q)(p) == Turned(r, q, k, m)(b) + Turned(r, q, k, m)(p)
  {
    var next, p := LogicalApplied(Ry(q, c, s), r, block), Xor(b, Pow2(q));
    RotatedPairAt(q, c, s, block, r, n, b);
    PairValues(r, next, q, b, p, c, s, k, m);
  }

  lemma PairValues(r: seq<Complex>, next: seq<Complex>, q: nat, b: nat, p: nat, c: real, s: real, k: real, m: real)
    requires |next| == |r| && b < |r| && p < |r| && !Bit(b, q) && Bit(p, q) && Xor(b, Pow2(q)) == p
    requires next[b] == Sub(Scale(r[b], c), Scale(r[p], s)) && next[p] == Add(Scale(r[b], s), Scale(r[p], c))
    requires k == c * c - s * s && m == 2.0 * (c * s)
    ensures Signed(next, q)(b) + Signed(next, q)(p) == Turned(r, q, k, m)(b) + Turned(r, q, k, m)(p)
  {
    SignedPair(next, q, b, p);
    SignedPair(r, q, b, p);
    CoherencePair(r, q, b, p);
    TurnedPair(r[b], r[p], c, s, next[b], next[p], k, m, Signed(r, q)(b) + Signed(r, q)(p),
      Coherence(r, q)(b) + Coherence(r, q)(p));
    TurnedValues(k, m, Signed(r, q)(b), Coherence(r, q)(b), Signed(r, q)(p), Coherence(r, q)(p));
  }

  lemma TurnedAt(q: nat, c: real, s: real, block: nat, r: seq<Complex>, n: nat, b: nat, k: real, m: real)
    requires block > 0 && q < n && |r| == Pow2(n) && b < Pow2(n) && k == c * c - s * s && m == 2.0 * (c * s)
    ensures PairTotal(Flip(q), Signed(LogicalApplied(Ry(q, c, s), r, block), q))(b) ==
            PairTotal(Flip(q), Turned(r, q, k, m))(b)
  {
    PairedBits(b, q, n);
    if Bit(b, q) {
      TurnedClear(q, c, s, block, r, n, Xor(b, Pow2(q)), k, m);
    } else {
      TurnedClear(q, c, s, block, r, n, b, k, m);
    }
  }

  /** The logical rotation turns Z towards minus X: with half-angle cosine c and sine s,
      Z becomes (c^2 - s^2) Z - 2cs X. */
  lemma RyTurnsZ(q: nat, c: real, s: real, block: nat, r: seq<Complex>, n: nat, k: real, m: real)
    requires block > 0 && q < n && |r| == Pow2(n) && k == c * c - s * s && m == 2.0 * (c * s)
    ensures ZExpectation(LogicalApplied(Ry(q, c, s), r, block), q) ==
      TurnedValue(k, m, ZExpectation(r, q), XExpectation(r, q))
  {
    RyPairs(q, c, s, block, r, n, k, m);
    FlipInvolution(q, n);
    SumByPairs(Pow2(n), Flip(q), Signed(LogicalApplied(Ry(q, c, s), r, block), q), Turned(r, q, k, m));
    TurnedTotal(|r|, r, q, k, m);
  }

  lemma RyPairs(q: nat, c: real, s: real, block: nat, r: seq<Complex>, n: nat, k: real, m: real)
    requires block > 0 && q < n && |r| == Pow2(n) && k == c * c - s * s && m == 2.0 * (c * s)
    ensures forall b: nat :: b < Pow2(n) ==>
      PairTotal(Flip(q), Signed(LogicalApplied(Ry(q, c, s), r, block), q))(b) ==
      PairTotal(Flip(q), Turned(r, q, k, m))(b)
  {
    forall b: nat | b < Pow2(n)
      ensures PairTotal(Flip(q), Signed(LogicalApplied(Ry(q, c, s), r, block), q))(b) ==
        PairTotal(Flip(q), Turned(r, q, k, m))(b)
    {
      TurnedAt(q, c, s, block, r, n, b, k, m);
    }
  }

  lemma {:induction false} TurnedTotal(n: nat, r: seq<Complex>, q: nat, k: real, m: real)
    ensures Sum(n, Turned(r, q, k, m)) == TurnedValue(k, m, Sum(n, Signed(r, q)), Sum(n, Coherence(r, q)))
  {
    if n > 0 {
      TurnedTotal(n - 1, r, q, k, m);
      TurnedValues(k, m, Sum(n - 1, Signed(r, q)), Sum(n - 1, Coherence(r, q)), Signed(r, q)(n - 1),
        Coherence(r, q)(n - 1));
    }
  }

  /** The same for the dense simulation, measured at any physical member of the block. */
  lemma DenseRyTurnsZ(state: seq<Complex>, next: seq<Complex>, register: seq<Complex>, logical: nat, block: nat,
    q: nat, c: real, s: real, k: real, m: real, physical: nat)
    requires Encodes(state, register, logical, block) && q < logical && |next| == |state|
    requires DenseStep(Ry(q, c, s), state, next, logical, block) && k == c * c - s * s && m == 2.0 * (c * s)
    requires physical < logical * block && physical / block == q
    ensures ZExpectation(next, physical) ==
      TurnedValue(k, m, ZExpectation(state, physical), XExpectation(register, q))
  {
    StepRefines(Ry(q, c, s), state, next, register, logical, block);
    ZExpectationRefines(state, register, logical, block, physical);
    ZExpectationRefines(next, LogicalApplied(Ry(q, c, s), register, block), logical, block, physical);
    RyTurnsZ(q, c, s, block, register, logical, k, m);
  }

  // ---------------------------------------------------------------- Z on basis states

  lemma UnitNorms()
    ensures Norm2(ONE) == 1.0 && Norm2(ZERO) == 0.0
  {
  }

  function SignOf(bit: bool, w: real): real { if bit then -w else w }

  lemma SignedAt(v: seq<Complex>, q: nat, i: nat, w: real)
    requires i < |v| && Norm2(v[i]) == w
    ensures Signed(v, q)(i) == SignOf(Bit(i, q), w)
  {
  }

  lemma NormIs(v: seq<Complex>, i: nat, on: bool)
    requires i < |v| && v[i] == (if on then ONE else ZERO)
    ensures Norm2(v[i]) == (if on then 1.0 else 0.0)
  {
    assert v[i].im == 0.0;
    if on { assert v[i].re == 1.0; } else { assert v[i].re == 0.0; }
  }

  lemma UnitSigned(v: seq<Complex>, q: nat, i: nat, w: real)
    requires i < |v| && (if w == 0.0 then v[i] == ZERO else w == 1.0 && v[i] == ONE)
    ensures Signed(v, q)(i) == SignOf(Bit(i, q), w)
  {
    NormIs(v, i, w == 1.0);
    SignedAt(v, q, i, w);
  }

  lemma ZOfUnit(v: seq<Complex>, x: nat, q: nat)
    requires x < |v| && v[x] == ONE && forall i :: 0 <= i < |v| && i != x ==> v[i] == ZERO
    ensures Sum(|v|, Signed(v, q)) == SignOf(Bit(x, q), 1.0)
  {
    forall i: nat | i < |v| ensures Signed(v, q)(i) == SignOf(Bit(i, q), if i == x then 1.0 else 0.0) {
      UnitSigned(v, q, i, if i == x then 1.0 else 0.0);
    }
    SumPoint(|v|, Signed(v, q), x);
  }

  /** Z is one on a clear qubit and minus one on a set one. */
  lemma ZOfBasis(d: nat, x: nat, q: nat)
    requires x < d
    ensures ZExpectation(BasisVector(d, x), q) == (if Bit(x, q) then -1.0 else 1.0)
  {
    ZOfUnit(BasisVector(d, x), x, q);
  }

  function Share(z: real, a: Complex): real { z * Norm2(a) }

  /** Z of each basis state times the norm it carries. */
  function ZShare(state: seq<Complex>, q: nat): nat -> real {
    (x: nat) => if x < |state| then Share(ZExpectation(BasisVector(|state|, x), q), state[x]) else 0.0
  }

  lemma SignedIsShare(state: seq<Complex>, q: nat, x: nat, z: real)
    requires x < |state| && z == (if Bit(x, q) then -1.0 else 1.0)
    ensures Signed(state, q)(x) == Share(z, state[x])
  {
  }

  lemma ZShareAt(state: seq<Complex>, q: nat, x: nat, z: real)
    requires x < |state| && z == ZExpectation(BasisVector(|state|, x), q)
    ensures ZShare(state, q)(x) == Share(z, state[x])
  {
  }

  /** Z adds up basis state by basis state. */
  lemma ZIsDiagonal(state: seq<Complex>, q: nat)
    ensures ZExpectation(state, q) == Sum(|state|, ZShare(state, q))
  {
    forall x: nat | x < |state| ensures Signed(state, q)(x) == ZShare(state, q)(x) {
      ZOfBasis(|state|, x, q);
      ZShareAt(state, q, x, if Bit(x, q) then -1.0 else 1.0);
      SignedIsShare(state, q, x, if Bit(x, q) then -1.0 else 1.0);
    }
    SumCongruent(|state|, Signed(state, q), ZShare(state, q));
  }

  // ---------------------------------------------------------------- norms

  /** Unit angles and unit phases. */
  ghost predicate UnitGate(g: Gate) {
    match g
    case Ry(_, c, s) => c * c + s * s == 1.0
    case Rz(_, zero, one) => Norm2(zero) == 1.0 && Norm2(one) == 1.0
    case Cnot(_, _) => true
  }

  lemma KeptPair(z: Complex, o: Complex, c: real, s: real, x: Complex, y: Complex)
    requires x == Sub(Scale(z, c), Scale(o, s)) && y == Add(Scale(z, s), Scale(o, c)) && c * c + s * s == 1.0
    ensures Norm2(x) + Norm2(y) == Norm2(z) + Norm2(o)
  {
    KeptComponent(z.re, o.re, c, s, x.re, y.re);
    KeptComponent(z.im, o.im, c, s, x.im, y.im);
  }

  lemma KeptAt(q: nat, c: real, s: real, block: nat, r: seq<Complex>, n: nat, b: nat)
    requires block > 0 && q < n && |r| == Pow2(n) && b < Pow2(n) && c * c + s * s == 1.0
    ensures PairTotal(Flip(q), Norms(LogicalApplied(Ry(q, c, s), r, block)))(b) == PairTotal(Flip(q), Norms(r))(b)
  {
    var next := LogicalApplied(Ry(q, c, s), r, block);
    PairedBits(b, q, n);
    var z := if Bit(b, q) then Xor(b, Pow2(q)) else b;
    var p := Xor(z, Pow2(q));
    RotatedPairAt(q, c, s, block, r, n, z);
    KeptPair(r[z], r[p], c, s, next[z], next[p]);
  }

  lemma RyKeepsNorm(q: nat, c: real, s: real, block: nat, r: seq<Complex>, n: nat)
    requires block > 0 && q < n && |r| == Pow2(n) && c * c + s * s == 1.0
    ensures SquaredNorm(LogicalApplied(Ry(q, c, s), r, block)) == SquaredNorm(r)
  {
    var next := LogicalApplied(Ry(q, c, s), r, block);
    FlipInvolution(q, n);
    forall b: nat | b < Pow2(n) ensures PairTotal(Flip(q), Norms(next))(b) == PairTotal(Flip(q), Norms(r))(b) {
      KeptAt(q, c, s, block, r, n, b);
    }
    SumByPairs(Pow2(n), Flip(q), Norms(next), Norms(r));
  }

  lemma RzKeepsNorm(p: nat, zero: Complex, one: Complex, block: nat, r: seq<Complex>)
    requires block > 0 && Norm2(zero) == 1.0 && Norm2(one) == 1.0
    ensures SquaredNorm(LogicalApplied(Rz(p, zero, one), r, block)) == SquaredNorm(r)
  {
    var next := LogicalApplied(Rz(p, zero, one), r, block);
    forall b: nat | b < |r| ensures Norms(next)(b) == Norms(r)(b) {
      PhaseNorm(r[b], if Bit(b, p / block) then one else zero);
    }
    SumCongruent(|r|, Norms(next), Norms(r));
  }

  lemma PhaseNorm(a: Complex, p: Complex)
    requires Norm2(p) == 1.0
    ensures Norm2(Mul(a, p)) == Norm2(a)
  {
    Norm2Product(a, p);
  }

  function FlipTarget(control: nat, target: nat): nat -> nat { (b: nat) => Flipped(b, control, target) }

  lemma CnotKeepsNorm(control: nat, target: nat, block: nat, r: seq<Complex>, n: nat)
    requires block > 0 && control < n && target < n && control != target && |r| == Pow2(n)
    ensures SquaredNorm(LogicalApplied(Cnot(control, target), r, block)) == SquaredNorm(r)
  {
    var next, pi := LogicalApplied(Cnot(control, target), r, block), FlipTarget(control, target);
    forall b: nat | b < Pow2(n)
      ensures pi(b) < Pow2(n) && pi(pi(b)) == b && Norms(next)(b) == Permuted(pi, Norms(r))(b)
    {
      FlippedTwice(b, control, target, n);
    }
    SumCongruent(Pow2(n), Norms(next), Permuted(pi, Norms(r)));
    SumPermuted(Pow2(n), pi, Norms(r));
  }

  lemma LogicalKeepsNorm(g: Gate, block: nat, r: seq<Complex>, n: nat)
    requires block > 0 && ValidGate(g, n, block) && UnitGate(g) && |r| == Pow2(n)
    ensures SquaredNorm(LogicalApplied(g, r, block)) == SquaredNorm(r)
  {
    match g
    case Ry(q, c, s) => RyKeepsNorm(q, c, s, block, r, n);
    case Rz(p, zero, one) => RzKeepsNorm(p, zero, one, block, r);
    case Cnot(control, target) => CnotKeepsNorm(control, target, block, r, n);
  }

  /** The physical norm is the register's. */
  lemma EncodedNorm(state: seq<Complex>, register: seq<Complex>, logical: nat, block: nat)
    requires Encodes(state, register, logical, block)
    ensures SquaredNorm(state) == SquaredNorm(register)
  {
    var g := SpreadMap(logical, block);
    forall i | 0 <= i < |state| && !IsCodeword(i, logical, block) ensures Norms(state)(i) == 0.0 {
      assert state[i] == ZERO && Norm2(ZERO) == 0.0;
    }
    SpreadSupports(Norms(state), logical, block);
    SumSupported(|state|, Pow2(logical), g, Norms(state));
    forall b: nat | b < Pow2(logical) ensures Permuted(g, Norms(state))(b) == Norms(register)(b) {
      SpreadFits(b, logical, block);
      assert state[Spread(b, logical, block)] == LogicalPart(state, logical, block)[b];
    }
    SumCongruent(Pow2(logical), Permuted(g, Norms(state)), Norms(register));
  }

  /** Any dense run of unit gates on an encoded state keeps the squared norm. */
  lemma {:induction false} DenseRunKeepsNorm(gates: seq<Gate>, states: seq<seq<Complex>>, register: seq<Complex>,
    logical: nat, block: nat, k: nat)
    requires block > 0 && DenseRun(gates, states, logical, block) && Encodes(states[0], register, logical, block)
    requires (forall i :: 0 <= i < |gates| ==> UnitGate(gates[i])) && k <= |gates|
    ensures SquaredNorm(states[k]) == SquaredNorm(states[0])
    decreases k
  {
    if k > 0 {
      DenseRunKeepsNorm(gates, states, register, logical, block, k - 1);
      var r := EncodedAt(gates, states, register, logical, block, k - 1);
      var g := gates[k - 1];
      StepRefines(g, states[k - 1], states[k], r, logical, block);
      LogicalKeepsNorm(g, block, r, logical);
      EncodedNorm(states[k - 1], r, logical, block);
      EncodedNorm(states[k], LogicalApplied(g, r, block), logical, block);
    }
  }

  lemma {:induction false} EncodedAt(gates: seq<Gate>, states: seq<seq<Complex>>, register: seq<Complex>,
    logical: nat, block: nat, k: nat) returns (r: seq<Complex>)
    requires block > 0 && DenseRun(gates, states, logical, block) && Encodes(states[0], register, logical, block)
    requires k <= |gates|
    ensures Encodes(states[k], r, logical, block)
    decreases k
  {
    if k == 0 {
      r := register;
    } else {
      var p := EncodedAt(gates, states, register, logical, block, k - 1);
      StepRefines(gates[k - 1], states[k - 1], states[k], p, logical, block);
      r := LogicalApplied(gates[k - 1], p, block);
    }
  }
}
