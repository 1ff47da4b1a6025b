/** The matrices of the dense excitation gates, column by column: what each gate does
    to every basis state, and that it is linear. */
module ExcitationLaws {
  import opened Bits
  import opened Sums
  import opened ComplexNumbers
  import opened Vectors
  import opened Excitation

  lemma LeadLinear(a: Complex, u: Complex, b: Complex, v: Complex, w: Complex, z: Complex, c: real, s: real, p: Complex)
    ensures LeadAmplitude(Blend(a, u, b, v), Blend(a, w, b, z), c, s, p) ==
      Blend(a, LeadAmplitude(u, w, c, s, p), b, LeadAmplitude(v, z, c, s, p))
  {
    var q := Conjugate(p);
    BlendScale(a, u, b, v, c);
    BlendMul(a, w, b, z, q);
    BlendScale(a, Mul(q, w), b, Mul(q, z), s);
    BlendSub(a, Scale(u, c), b, Scale(v, c), Scale(Mul(q, w), s), Scale(Mul(q, z), s));
  }

  lemma FollowLinear(a: Complex, u: Complex, b: Complex, v: Complex, w: Complex, z: Complex, c: real, s: real,
    p: Complex)
    ensures FollowAmplitude(Blend(a, u, b, v), Blend(a, w, b, z), c, s, p) ==
      Blend(a, FollowAmplitude(u, w, c, s, p), b, FollowAmplitude(v, z, c, s, p))
  {
    BlendMul(a, u, b, v, p);
    BlendScale(a, Mul(p, u), b, Mul(p, v), s);
    BlendScale(a, w, b, z, c);
    BlendAdd(a, Scale(Mul(p, u), s), b, Scale(Mul(p, v), s), Scale(w, c), Scale(z, c));
  }

  /** Every gate is linear in the state. */
  lemma GateLinear(g: Gate, a: Complex, u: seq<Complex>, b: Complex, v: seq<Complex>)
    requires |u| == |v|
    ensures Applied(g, BlendAll(a, u, b, v)) == BlendAll(a, Applied(g, u), b, Applied(g, v))
  {
    forall x | 0 <= x < |u|
      ensures Applied(g, BlendAll(a, u, b, v))[x] == Blend(a, Applied(g, u)[x], b, Applied(g, v)[x])
    {
      match g
      case ModePhase(_, phase) =>
        BlendMul(a, u[x], b, v[x], phase);
      case Givens(left, right, c, s, phase) =>
        var y := Partner(x, left, right);
        if y < |u| {
          LeadLinear(a, u[x], b, v[x], u[y], v[y], c, s, phase);
          FollowLinear(a, u[y], b, v[y], u[x], v[x], c, s, phase);
        }
    }
  }

  lemma PhaseAt(mode: nat, phase: Complex, d: nat, x: nat, i: nat)
    requires x < d && i < d
    ensures Applied(ModePhase(mode, phase), BasisVector(d, x))[i] ==
      (if i != x then ZERO else if Bit(x, mode) then phase else ONE)
  {
    Units(phase);
  }

  /** The mode phase multiplies exactly the basis states with the mode set. */
  lemma PhaseOnBasis(mode: nat, phase: Complex, d: nat, x: nat)
    requires x < d
    ensures Applied(ModePhase(mode, phase), BasisVector(d, x)) ==
      Pair(d, x, if Bit(x, mode) then phase else ONE, x, ZERO)
  {
    forall i: nat | i < d
      ensures Applied(ModePhase(mode, phase), BasisVector(d, x))[i] ==
        Pair(d, x, if Bit(x, mode) then phase else ONE, x, ZERO)[i]
    {
      PhaseAt(mode, phase, d, x, i);
    }
  }

  /** y is x with the excitation on `left` moved to `right`. */
  ghost predicate Moved(x: nat, y: nat, left: nat, right: nat) {
    && Bit(x, left) && !Bit(x, right) && !Bit(y, left) && Bit(y, right)
    && forall j: nat :: j != left && j != right ==> Bit(x, j) == Bit(y, j)
  }

  lemma MovedIsPartner(x: nat, y: nat, left: nat, right: nat, n: nat)
    requires Moved(x, y, left, right) && x < Pow2(n) && y < Pow2(n) && left < n && right < n
    ensures x != y && Partner(x, left, right) == y && Partner(y, left, right) == x
  {
    MovedBits(x, left, right, n);
    MovedBits(y, right, left, n);
    SameBits(Partner(x, left, right), y, n);
    SameBits(Partner(y, left, right), x, n);
  }

  lemma Products(p: Complex, r: real)
    ensures Mul(p, ONE) == p && Mul(p, ZERO) == ZERO && Scale(ZERO, r) == ZERO && Scale(ONE, r) == Complex(r, 0.0)
  {
    Units(p);
  }

  lemma LeadingColumn(c: real, s: real, p: Complex)
    ensures LeadAmplitude(ONE, ZERO, c, s, p) == Complex(c, 0.0) && FollowAmplitude(ONE, ZERO, c, s, p) == Scale(p, s)
  {
    Products(p, c);
    Products(Conjugate(p), s);
  }

  lemma MovedColumn(c: real, s: real, p: Complex)
    ensures LeadAmplitude(ZERO, ONE, c, s, p) == Scale(Conjugate(p), -s)
    ensures FollowAmplitude(ZERO, ONE, c, s, p) == Complex(c, 0.0)
  {
    Products(p, s);
    Products(Conjugate(p), s);
  }

  lemma ZeroColumn(c: real, s: real, p: Complex)
    ensures LeadAmplitude(ZERO, ZERO, c, s, p) == ZERO == FollowAmplitude(ZERO, ZERO, c, s, p)
  {
    Products(p, s);
    Products(Conjugate(p), s);
  }

  lemma RotatedAt(left: nat, right: nat, c: real, s: real, p: Complex, v: seq<Complex>, i: nat, a: Complex, b: Complex)
    requires i < |v| && Partner(i, left, right) < |v| && v[i] == a && v[Partner(i, left, right)] == b
    ensures Applied(Givens(left, right, c, s, p), v)[i] ==
      if Leads(i, left, right) then LeadAmplitude(a, b, c, s, p)
      else if Leads(i, right, left) then FollowAmplitude(b, a, c, s, p)
      else a
  {
  }

  lemma RotatedZero(left: nat, right: nat, c: real, s: real, p: Complex, v: seq<Complex>, i: nat)
    requires i < |v| && Partner(i, left, right) < |v| && v[i] == ZERO && v[Partner(i, left, right)] == ZERO
    ensures Applied(Givens(left, right, c, s, p), v)[i] == ZERO
  {
    ZeroColumn(c, s, p);
    RotatedAt(left, right, c, s, p, v, i, ZERO, ZERO);
  }

  /** Away from the pair of x and y, a vector that lives on it stays zero. */
  lemma RotatedAway(left: nat, right: nat, c: real, s: real, p: Complex, n: nat, x: nat, y: nat, v: seq<Complex>,
    i: nat)
    requires Moved(x, y, left, right) && x < Pow2(n) && y < Pow2(n) && left < n && right < n
    requires |v| == Pow2(n) && i < |v| && i != x && i != y
    requires forall k :: 0 <= k < |v| && k != x && k != y ==> v[k] == ZERO
    ensures Applied(Givens(left, right, c, s, p), v)[i] == ZERO
  {
    PartnerFacts(i, left, right, n);
    MovedIsPartner(x, y, left, right, n);
    RotatedZero(left, right, c, s, p, v, i);
  }

  /** On the pair itself: the leading amplitude and the moved one. */
  lemma RotatedPair(left: nat, right: nat, c: real, s: real, p: Complex, n: nat, x: nat, y: nat,
    v: seq<Complex>, a: Complex, b: Complex, u: Complex, w: Complex)
    requires u == LeadAmplitude(a, b, c, s, p) && w == FollowAmplitude(a, b, c, s, p)
    requires Moved(x, y, left, right) && x < Pow2(n) && y < Pow2(n) && left < n && right < n
    requires |v| == Pow2(n) && v[x] == a && v[y] == b
    requires forall k :: 0 <= k < |v| && k != x && k != y ==> v[k] == ZERO
    ensures Applied(Givens(left, right, c, s, p), v) == Pair(Pow2(n), x, u, y, w)
  {
    var next := Applied(Givens(left, right, c, s, p), v);
    MovedIsPartner(x, y, left, right, n);
    RotatedAt(left, right, c, s, p, v, x, a, b);
    RotatedAt(left, right, c, s, p, v, y, b, a);
    forall i: nat | i < Pow2(n) && i != x && i != y ensures next[i] == ZERO {
      RotatedAway(left, right, c, s, p, n, x, y, v, i);
    }
  }

  lemma FromLeading(left: nat, right: nat, c: real, s: real, phase: Complex, n: nat, x: nat, y: nat)
    requires Moved(x, y, left, right) && x < Pow2(n) && y < Pow2(n) && left < n && right < n
    ensures Applied(Givens(left, right, c, s, phase), BasisVector(Pow2(n), x)) ==
      Pair(Pow2(n), x, Complex(c, 0.0), y, Scale(phase, s))
  {
    LeadingColumn(c, s, phase);
    RotatedPair(left, right, c, s, phase, n, x, y, BasisVector(Pow2(n), x), ONE, ZERO, Complex(c, 0.0),
      Scale(phase, s));
  }

  lemma FromMoved(left: nat, right: nat, c: real, s: real, phase: Complex, n: nat, x: nat, y: nat)
    requires Moved(x, y, left, right) && x < Pow2(n) && y < Pow2(n) && left < n && right < n
    ensures Applied(Givens(left, right, c, s, phase), BasisVector(Pow2(n), y)) ==
      Pair(Pow2(n), x, Scale(Conjugate(phase), -s), y, Complex(c, 0.0))
  {
    MovedColumn(c, s, phase);
    RotatedPair(left, right, c, s, phase, n, x, y, BasisVector(Pow2(n), y), ZERO, ONE,
      Scale(Conjugate(phase), -s), Complex(c, 0.0));
  }

  /** On an excitation at `left` the rotation keeps c and moves s times the phase to
      `right`; on the moved state it keeps c and moves -s times the conjugate back. */
  lemma GivensOnPair(left: nat, right: nat, c: real, s: real, phase: Complex, n: nat, x: nat, y: nat)
    requires Moved(x, y, left, right) && x < Pow2(n) && y < Pow2(n) && left < n && right < n
    ensures Applied(Givens(left, right, c, s, phase), BasisVector(Pow2(n), x)) ==
      Pair(Pow2(n), x, Complex(c, 0.0), y, Scale(phase, s))
    ensures Applied(Givens(left, right, c, s, phase), BasisVector(Pow2(n), y)) ==
      Pair(Pow2(n), x, Scale(Conjugate(phase), -s), y, Complex(c, 0.0))
  {
    FromLeading(left, right, c, s, phase, n, x, y);
    FromMoved(left, right, c, s, phase, n, x, y);
  }

  lemma FixedAt(left: nat, right: nat, c: real, s: real, p: Complex, n: nat, x: nat, i: nat)
    requires x < Pow2(n) && left < n && right < n && Bit(x, left) == Bit(x, right) && i < Pow2(n)
    ensures Applied(Givens(left, right, c, s, p), BasisVector(Pow2(n), x))[i] == BasisVector(Pow2(n), x)[i]
  {
    PartnerFacts(i, left, right, n);
    if i == x {
      RotatedAt(left, right, c, s, p, BasisVector(Pow2(n), x), i, ONE, ONE);
    } else {
      RotatedZero(left, right, c, s, p, BasisVector(Pow2(n), x), i);
    }
  }

  /** Basis states with both modes set, or both clear, stay as they are. */
  lemma GivensFixes(left: nat, right: nat, c: real, s: real, phase: Complex, n: nat, x: nat)
    requires x < Pow2(n) && left < n && right < n && Bit(x, left) == Bit(x, right)
    ensures Applied(Givens(left, right, c, s, phase), BasisVector(Pow2(n), x)) == BasisVector(Pow2(n), x)
  {
    forall i: nat | i < Pow2(n)
      ensures Applied(Givens(left, right, c, s, phase), BasisVector(Pow2(n), x))[i] == BasisVector(Pow2(n), x)[i]
    {
      FixedAt(left, right, c, s, phase, n, x, i);
    }
  }

  // ---------------------------------------------------------------- occupation

  lemma UnitNorms(w: real)
    ensures w * Norm2(ONE) == w && w * Norm2(ZERO) == 0.0
  {
  }

  lemma WeightedBasis(d: nat, x: nat, w: nat -> real, i: nat)
    requires x < d && i < d
    ensures Weighted(BasisVector(d, x), w)(i) == (if i == x then w(x) else 0.0)
  {
    UnitNorms(w(i));
  }

  /** On a basis state the occupation of a mode is its bit. */
  lemma OccupationOfBasis(d: nat, x: nat, mode: nat)
    requires x < d
    ensures Occupation(BasisVector(d, x), mode) == (if Bit(x, mode) then 1.0 else 0.0)
  {
    var f := Weighted(BasisVector(d, x), OnMode(mode));
    forall i: nat | i < d ensures f(i) == (if i == x then OnMode(mode)(x) else 0.0) {
      WeightedBasis(d, x, OnMode(mode), i);
    }
    SumPoint(d, f, x);
  }

  function Share(o: real, a: Complex): real { o * Norm2(a) }

  /** The occupation of each basis state times the norm it carries. */
  function OccupationShare(state: seq<Complex>, mode: nat): nat -> real {
    (x: nat) => if x < |state| then Share(Occupation(BasisVector(|state|, x), mode), state[x]) else 0.0
  }

  lemma WeightedIsShare(state: seq<Complex>, w: nat -> real, x: nat, o: real)
    requires x < |state| && o == w(x)
    ensures Weighted(state, w)(x) == Share(o, state[x])
  {
  }

  lemma ShareAt(state: seq<Complex>, mode: nat, x: nat, o: real)
    requires x < |state| && o == Occupation(BasisVector(|state|, x), mode)
    ensures OccupationShare(state, mode)(x) == Share(o, state[x])
  {
  }

  /** Occupation adds up basis state by basis state. */
  lemma OccupationIsDiagonal(state: seq<Complex>, mode: nat)
    ensures Occupation(state, mode) == Sum(|state|, OccupationShare(state, mode))
  {
    forall x: nat | x < |state| ensures Weighted(state, OnMode(mode))(x) == OccupationShare(state, mode)(x) {
      OccupationOfBasis(|state|, x, mode);
      ShareAt(state, mode, x, OnMode(mode)(x));
      WeightedIsShare(state, OnMode(mode), x, OnMode(mode)(x));
    }
    SumCongruent(|state|, Weighted(state, OnMode(mode)), OccupationShare(state, mode));
  }
}
