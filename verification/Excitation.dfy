/** Dense fixed-excitation simulation: in-place mode phases and Givens rotations,
    the sectors they keep and the occupations they conserve. */
module Excitation {
  import opened Bits
  import opened Sums
  import opened ComplexNumbers

  /** Real and complex parameters of a gate, as exact unit vectors. */
  ghost predicate UnitAngle(c: real, s: real) { c * c + s * s == 1.0 }

  ghost predicate UnitPhase(p: Complex) { Norm2(p) == 1.0 }

  // ---------------------------------------------------------------- the pairing of basis states

  predicate Leads(x: nat, left: nat, right: nat) { Bit(x, left) && !Bit(x, right) }

  /** `(basis ^ left_bit) | right_bit` on a leading state, and back. */
  function Partner(x: nat, left: nat, right: nat): nat {
    if Leads(x, left, right) then Or(Xor(x, Pow2(left)), Pow2(right))
    else if Leads(x, right, left) then Or(Xor(x, Pow2(right)), Pow2(left))
    else x
  }

  lemma MovedBits(x: nat, from: nat, to: nat, n: nat)
    requires x < Pow2(n) && from < n && to < n && Leads(x, from, to)
    ensures var y := Or(Xor(x, Pow2(from)), Pow2(to));
      && y < Pow2(n)
      && (forall j: nat :: Bit(y, j) == (if j == from then false else if j == to then true else Bit(x, j)))
      && Popcount(y) == Popcount(x)
  {
    var z := Xor(x, Pow2(from));
    var y := Or(z, Pow2(to));
    OneBitUpdate(XorOp, x, from, n);
    OneBitUpdate(OrOp, z, to, n);
    BitTotalSet(z, x, from, n);
    BitTotalSet(z, y, to, n);
    PopcountIsBitTotal(x, n);
    PopcountIsBitTotal(y, n);
  }

  /** Setting one clear bit adds one to the count. */
  lemma {:induction false} BitTotalSet(x: nat, y: nat, i: nat, n: nat)
    requires !Bit(x, i) && Bit(y, i) && forall j: nat :: j != i ==> Bit(x, j) == Bit(y, j)
    ensures BitTotal(y, n) == BitTotal(x, n) + (if i < n then 1 else 0)
  {
    if n > 0 { BitTotalSet(x, y, i, n - 1); }
  }

  lemma PartnerFacts(x: nat, left: nat, right: nat, n: nat)
    requires x < Pow2(n) && left < n && right < n
    ensures Partner(x, left, right) < Pow2(n) && Popcount(Partner(x, left, right)) == Popcount(x)
    ensures Leads(Partner(x, left, right), left, right) == Leads(x, right, left)
    ensures Leads(Partner(x, left, right), right, left) == Leads(x, left, right)
    ensures Partner(Partner(x, left, right), left, right) == x
  {
    var y := Partner(x, left, right);
    if Leads(x, left, right) {
      MovedBits(x, left, right, n);
      MovedBits(y, right, left, n);
    } else if Leads(x, right, left) {
      MovedBits(x, right, left, n);
      MovedBits(y, left, right, n);
    }
    SameBits(Partner(y, left, right), x, n);
  }

  // ---------------------------------------------------------------- gates on state vectors

  /** The two amplitudes of a rotated pair; `a` sits on the leading state. */
  function LeadAmplitude(a: Complex, b: Complex, c: real, s: real, phase: Complex): Complex {
    Sub(Scale(a, c), Scale(Mul(Conjugate(phase), b), s))
  }

  function FollowAmplitude(a: Complex, b: Complex, c: real, s: real, phase: Complex): Complex {
    Add(Scale(Mul(phase, a), s), Scale(b, c))
  }

  datatype Gate =
    | ModePhase(mode: nat, phase: Complex)
    | Givens(left: nat, right: nat, c: real, s: real, phase: Complex)

  ghost predicate ValidGate(g: Gate, n: nat) {
    match g
    case ModePhase(mode, phase) => mode < n && UnitPhase(phase)
    case Givens(left, right, c, s, phase) => left < n && right < n && UnitAngle(c, s) && UnitPhase(phase)
  }

  /** Amplitude x after the gate, from the amplitudes before it. */
  function After(g: Gate, state: seq<Complex>, x: nat): Complex
    requires x < |state|
  {
    match g
    case ModePhase(mode, phase) => if Bit(x, mode) then Mul(state[x], phase) else state[x]
    case Givens(left, right, c, s, phase) =>
      var y := Partner(x, left, right);
      if y >= |state| then state[x]
      else if Leads(x, left, right) then LeadAmplitude(state[x], state[y], c, s, phase)
      else if Leads(x, right, left) then FollowAmplitude(state[y], state[x], c, s, phase)
      else state[x]
  }

  function Applied(g: Gate, state: seq<Complex>): (next: seq<Complex>)
    ensures |next| == |state|
  {
    seq(|state|, x requires 0 <= x < |state| => After(g, state, x))
  }

  method DensePhase(state: array<Complex>, mode: nat, phase: Complex)
    modifies state
    ensures state[..] == Applied(ModePhase(mode, phase), old(state[..]))
  {
    for basis := 0 to state.Length
      invariant forall x :: 0 <= x < state.Length ==>
        state[x] == (if x < basis then After(ModePhase(mode, phase), old(state[..]), x) else old(state[x]))
    {
      MaskTest(basis, mode);
      if And(basis, Pow2(mode)) != 0 {
        state[basis] := Mul(state[basis], phase);
      }
    }
  }

  /** In place: each pair is rewritten once, when the loop meets its leading state. */
  method DenseGivens(state: array<Complex>, left: nat, right: nat, c: real, s: real, phase: Complex, ghost n: nat)
    requires state.Length == Pow2(n) && left < n && right < n
    modifies state
    ensures state[..] == Applied(Givens(left, right, c, s, phase), old(state[..]))
  {
    ghost var was := state[..];
    ghost var g := Givens(left, right, c, s, phase);
    for basis := 0 to state.Length
      invariant forall x :: 0 <= x < state.Length ==>
        state[x] == (if Written(x, left, right, basis) then After(g, was, x) else was[x])
    {
      MaskTest(basis, left);
      MaskTest(basis, right);
      if And(basis, Pow2(left)) != 0 && And(basis, Pow2(right)) == 0 {
        var partner := Or(Xor(basis, Pow2(left)), Pow2(right));
        PartnerFacts(basis, left, right, n);
        assert partner == Partner(basis, left, right);
        var a, b := state[basis], state[partner];
        state[basis] := LeadAmplitude(a, b, c, s, phase);
        state[partner] := FollowAmplitude(a, b, c, s, phase);
      }
      forall x | 0 <= x < state.Length
        ensures Written(x, left, right, basis + 1) ==
          (Written(x, left, right, basis) ||
          (Leads(basis, left, right) && (x == basis || x == Partner(basis, left, right))))
      {
        WrittenStep(x, left, right, basis, n);
      }
    }
    forall x | 0 <= x < |was| ensures state[x] == After(g, was, x) {
      PartnerFacts(x, left, right, n);
    }
  }

  /** Whether the pair of x has been rewritten when the loop stands at `basis`. */
  ghost predicate Written(x: nat, left: nat, right: nat, basis: nat) {
    (Leads(x, left, right) && x < basis) || (Leads(x, right, left) && Partner(x, left, right) < basis)
  }

  lemma WrittenStep(x: nat, left: nat, right: nat, basis: nat, n: nat)
    requires x < Pow2(n) && basis < Pow2(n) && left < n && right < n
    ensures Written(x, left, right, basis + 1) <==>
      Written(x, left, right, basis) || (Leads(basis, left, right) && (x == basis || x == Partner(basis, left, right)))
  {
    PartnerFacts(x, left, right, n);
    PartnerFacts(basis, left, right, n);
  }

  method DenseOccupation(state: array<Complex>, mode: nat) returns (total: real)
    ensures total == Occupation(state[..], mode)
  {
    total := 0.0;
    for basis := 0 to state.Length
      invariant total == Sum(basis, Weighted(state[..], OnMode(mode)))
    {
      MaskTest(basis, mode);
      if And(basis, Pow2(mode)) != 0 {
        total := total + Norm2(state[basis]);
      }
    }
  }

  // ---------------------------------------------------------------- conservation

  function Weighted(state: seq<Complex>, w: nat -> real): nat -> real {
    (x: nat) => if x < |state| then w(x) * Norm2(state[x]) else 0.0
  }

  function WeightedNorm(state: seq<Complex>, w: nat -> real): real { Sum(|state|, Weighted(state, w)) }

  function OnMode(mode: nat): nat -> real { (x: nat) => if Bit(x, mode) then 1.0 else 0.0 }

  function InSector(k: nat): nat -> real { (x: nat) => if Popcount(x) == k then 1.0 else 0.0 }

  function Excitations(): nat -> real { (x: nat) => Popcount(x) as real }

  function Occupation(state: seq<Complex>, mode: nat): real { WeightedNorm(state, OnMode(mode)) }

  /** Squared norm carried by the basis states of Hamming weight k. */
  function SectorNorm(state: seq<Complex>, k: nat): real { WeightedNorm(state, InSector(k)) }

  lemma RotationKeepsNorm(p: real, q: real, c: real, s: real, x: real, y: real)
    requires UnitAngle(c, s) && x == p * c - q * s && y == p * s + q * c
    ensures x * x + y * y == p * p + q * q
  {
    var cc, ss, cs := c * c, s * s, c * s;
    assert x * x == p * p * cc - 2.0 * (p * q * cs) + q * q * ss;
    assert y * y == p * p * ss + 2.0 * (p * q * cs) + q * q * cc;
    assert p * p * cc + p * p * ss == p * p * (cc + ss);
    assert q * q * cc + q * q * ss == q * q * (cc + ss);
  }

  lemma RotatedNorm(a: Complex, u: Complex, c: real, s: real, x: Complex, y: Complex)
    requires UnitAngle(c, s)
    requires x.re == a.re * c - u.re * s && y.re == a.re * s + u.re * c
    requires x.im == a.im * c - u.im * s && y.im == a.im * s + u.im * c
    ensures Norm2(x) + Norm2(y) == Norm2(a) + Norm2(u)
  {
    RotationKeepsNorm(a.re, u.re, c, s, x.re, y.re);
    RotationKeepsNorm(a.im, u.im, c, s, x.im, y.im);
  }

  lemma ConjugateCancels(phase: Complex, b: Complex)
    requires UnitPhase(phase)
    ensures Mul(phase, Mul(Conjugate(phase), b)) == b
    ensures Mul(Conjugate(phase), Mul(phase, b)) == b
  {
    Associate(phase, Conjugate(phase), b);
    Associate(Conjugate(phase), phase, b);
    assert Mul(phase, Conjugate(phase)) == ONE;
    assert Mul(Conjugate(phase), phase) == ONE;
  }

  lemma MulScale(p: Complex, a: Complex, s: real)
    ensures Mul(p, Scale(a, s)) == Scale(Mul(p, a), s)
  {
  }

  /** The rotated pair written with u = conj(phase) * b instead of b. */
  lemma FollowAligned(a: Complex, b: Complex, c: real, s: real, phase: Complex)
    requires UnitPhase(phase)
    ensures var u := Mul(Conjugate(phase), b);
      FollowAmplitude(a, b, c, s, phase) == Mul(phase, Add(Scale(a, s), Scale(u, c)))
  {
    var u := Mul(Conjugate(phase), b);
    ConjugateCancels(phase, b);
    Distribute(phase, Scale(a, s), Scale(u, c));
    MulScale(phase, a, s);
    MulScale(phase, u, c);
  }

  lemma PairNorm(a: Complex, b: Complex, c: real, s: real, phase: Complex)
    requires UnitAngle(c, s) && UnitPhase(phase)
    ensures Norm2(LeadAmplitude(a, b, c, s, phase)) + Norm2(FollowAmplitude(a, b, c, s, phase)) == Norm2(a) + Norm2(b)
  {
    var u := Mul(Conjugate(phase), b);
    var v := Add(Scale(a, s), Scale(u, c));
    FollowAligned(a, b, c, s, phase);
    Norm2Product(phase, v);
    Norm2Product(Conjugate(phase), b);
    assert Norm2(Conjugate(phase)) == 1.0;
    assert Norm2(FollowAmplitude(a, b, c, s, phase)) == Norm2(v) && Norm2(u) == Norm2(b);
    RotatedNorm(a, u, c, s, LeadAmplitude(a, b, c, s, phase), v);
  }

  function PartnerMap(left: nat, right: nat): nat -> nat { (x: nat) => Partner(x, left, right) }

  lemma PartnerInvolution(left: nat, right: nat, n: nat)
    requires left < n && right < n
    ensures Involution(Pow2(n), PartnerMap(left, right))
  {
    forall x | 0 <= x < Pow2(n)
      ensures PartnerMap(left, right)(x) < Pow2(n) && PartnerMap(left, right)(PartnerMap(left, right)(x)) == x
    {
      PartnerFacts(x, left, right, n);
    }
  }

  /** A weight no gate can tell apart: equal on both states of every pair. */
  ghost predicate Symmetric(w: nat -> real, n: nat) {
    forall x, y :: 0 <= x < Pow2(n) && 0 <= y < Pow2(n) && Popcount(x) == Popcount(y) ==> w(x) == w(y)
  }

  lemma PairWeight(state: seq<Complex>, next: seq<Complex>, w: nat -> real, x: nat, y: nat)
    requires |state| == |next| && x < |state| && y < |state| && w(x) == w(y)
    requires Norm2(next[x]) + Norm2(next[y]) == Norm2(state[x]) + Norm2(state[y])
    ensures Weighted(next, w)(x) + Weighted(next, w)(y) == Weighted(state, w)(x) + Weighted(state, w)(y)
  {
    SameWeightPair(w(x), w(y), Norm2(next[x]), Norm2(next[y]), Norm2(state[x]), Norm2(state[y]));
  }

  lemma SameWeightPair(v: real, w: real, a: real, b: real, c: real, d: real)
    requires v == w && a + b == c + d
    ensures v * a + w * b == v * c + w * d
  {
    assert v * a + v * b == v * (a + b) == v * (c + d) == v * c + v * d;
  }

  lemma PairKeepsNorm(left: nat, right: nat, c: real, s: real, phase: Complex, state: seq<Complex>, n: nat, x: nat)
    requires |state| == Pow2(n) && left < n && right < n && UnitAngle(c, s) && UnitPhase(phase)
    requires x < Pow2(n) && Partner(x, left, right) < Pow2(n)
    ensures var next := Applied(Givens(left, right, c, s, phase), state);
            var y := Partner(x, left, right);
            Norm2(next[x]) + Norm2(next[y]) == Norm2(state[x]) + Norm2(state[y])
  {
    var y := Partner(x, left, right);
    PartnerFacts(x, left, right, n);
    if Leads(x, left, right) { PairNorm(state[x], state[y], c, s, phase); }
    if Leads(x, right, left) { PairNorm(state[y], state[x], c, s, phase); }
  }

  /** Every gate conserves every weighting by excitation number. */
  lemma GateConserves(g: Gate, state: seq<Complex>, n: nat, w: nat -> real)
    requires |state| == Pow2(n) && ValidGate(g, n) && Symmetric(w, n)
    ensures WeightedNorm(Applied(g, state), w) == WeightedNorm(state, w)
  {
    var f, h := Weighted(Applied(g, state), w), Weighted(state, w);
    match g
    case ModePhase(mode, phase) =>
      forall x | 0 <= x < |state| ensures f(x) == h(x) {
        Norm2Product(state[x], phase);
      }
      SumCongruent(|state|, f, h);
    case Givens(left, right, c, s, phase) =>
      var pi := PartnerMap(left, right);
      PartnerInvolution(left, right, n);
      forall x | 0 <= x < |state| ensures PairTotal(pi, f)(x) == PairTotal(pi, h)(x) {
        PartnerFacts(x, left, right, n);
        PairKeepsNorm(left, right, c, s, phase, state, n, x);
        PairWeight(state, Applied(g, state), w, x, Partner(x, left, right));
      }
      SumByPairs(|state|, pi, f, h);
  }

  function Run(gates: seq<Gate>, state: seq<Complex>): (final: seq<Complex>)
    ensures |final| == |state|
  {
    if gates == [] then state else Run(gates[1..], Applied(gates[0], state))
  }

  lemma {:induction false} RunConserves(gates: seq<Gate>, state: seq<Complex>, n: nat, w: nat -> real)
    requires |state| == Pow2(n) && Symmetric(w, n) && forall i :: 0 <= i < |gates| ==> ValidGate(gates[i], n)
    ensures WeightedNorm(Run(gates, state), w) == WeightedNorm(state, w)
  {
    if gates != [] {
      GateConserves(gates[0], state, n, w);
      RunConserves(gates[1..], Applied(gates[0], state), n, w);
    }
  }

  /** The norm inside every Hamming-weight sector never changes. */
  lemma SectorsConserved(gates: seq<Gate>, state: seq<Complex>, n: nat, k: nat)
    requires |state| == Pow2(n) && forall i :: 0 <= i < |gates| ==> ValidGate(gates[i], n)
    ensures SectorNorm(Run(gates, state), k) == SectorNorm(state, k)
  {
    RunConserves(gates, state, n, InSector(k));
  }

  function OccupationOf(state: seq<Complex>): nat -> real { (mode: nat) => Occupation(state, mode) }

  /** Sum of dense_occupation over all modes. */
  function TotalOccupation(state: seq<Complex>, n: nat): real { Sum(n, OccupationOf(state)) }

  function OccupationTable(state: seq<Complex>): (nat, nat) -> real {
    (mode: nat, x: nat) => Weighted(state, OnMode(mode))(x)
  }

  /** k excitations carried by a state of squared norm v. */
  function Share(k: nat, v: real): real { k as real * v }

  lemma TimesIndicator(w: real, v: real, b: bool)
    requires w == (if b then 1.0 else 0.0)
    ensures w * v == (if b then v else 0.0)
  {
  }

  lemma NextMode(k: nat, m: nat, v: real, b: bool)
    requires m == k + Digit(b)
    ensures Share(m, v) == Share(k, v) + (if b then v else 0.0)
  {
    assert m as real == k as real + (if b then 1.0 else 0.0);
  }

  lemma {:induction false} ModesOfState(x: nat, n: nat, state: seq<Complex>)
    requires x < |state|
    ensures Sum(n, ColumnOf(OccupationTable(state), x)) == Share(BitTotal(x, n), Norm2(state[x]))
  {
    if n > 0 {
      ModesOfState(x, n - 1, state);
      var v := Norm2(state[x]);
      TimesIndicator(OnMode(n - 1)(x), v, Bit(x, n - 1));
      assert Weighted(state, OnMode(n - 1))(x) == (if Bit(x, n - 1) then v else 0.0);
      assert ColumnOf(OccupationTable(state), x)(n - 1) == OccupationTable(state)(n - 1, x);
      NextMode(BitTotal(x, n - 1), BitTotal(x, n), v, Bit(x, n - 1));
    }
  }

  lemma TotalOccupationIsExcitation(state: seq<Complex>, n: nat)
    requires |state| == Pow2(n)
    ensures TotalOccupation(state, n) == WeightedNorm(state, Excitations())
  {
    SumSwap(n, |state|, OccupationTable(state));
    OccupationRows(state, n);
    OccupationColumns(state, n);
  }

  lemma OccupationRows(state: seq<Complex>, n: nat)
    ensures Sum(n, RowSum(OccupationTable(state), |state|)) == TotalOccupation(state, n)
  {
    var t := OccupationTable(state);
    forall mode: nat | mode < n ensures RowSum(t, |state|)(mode) == OccupationOf(state)(mode) {
      SumCongruent(|state|, RowOf(t, mode), Weighted(state, OnMode(mode)));
    }
    SumCongruent(n, RowSum(t, |state|), OccupationOf(state));
  }

  lemma ColumnAt(state: seq<Complex>, n: nat, x: nat)
    requires |state| == Pow2(n) && x < |state|
    ensures Sum(n, ColumnOf(OccupationTable(state), x)) == Weighted(state, Excitations())(x)
  {
    ModesOfState(x, n, state);
    PopcountIsBitTotal(x, n);
    ExcitationShare(state, x);
  }

  lemma ExcitationShare(state: seq<Complex>, x: nat)
    requires x < |state|
    ensures Weighted(state, Excitations())(x) == Share(Popcount(x), Norm2(state[x]))
  {
    WeightedShare(state, x, Excitations(), Popcount(x));
  }

  lemma WeightedShare(state: seq<Complex>, x: nat, w: nat -> real, count: nat)
    requires x < |state| && w(x) == count as real
    ensures Weighted(state, w)(x) == Share(count, Norm2(state[x]))
  {
  }

  lemma OccupationColumns(state: seq<Complex>, n: nat)
    requires |state| == Pow2(n)
    ensures Sum(|state|, ColumnSum(OccupationTable(state), n)) == WeightedNorm(state, Excitations())
  {
    var t := OccupationTable(state);
    forall x: nat | x < |state|
      ensures ColumnSum(t, n)(x) == Weighted(state, Excitations())(x)
    {
      ColumnAt(state, n, x);
    }
    SumCongruent(|state|, ColumnSum(t, n), Weighted(state, Excitations()));
  }

  /** Any gate sequence conserves the expected number of excitations. */
  lemma OccupationConserved(gates: seq<Gate>, state: seq<Complex>, n: nat)
    requires |state| == Pow2(n) && forall i :: 0 <= i < |gates| ==> ValidGate(gates[i], n)
    ensures TotalOccupation(Run(gates, state), n) == TotalOccupation(state, n)
  {
    RunConserves(gates, state, n, Excitations());
    TotalOccupationIsExcitation(state, n);
    TotalOccupationIsExcitation(Run(gates, state), n);
  }

  // ---------------------------------------------------------------- reversal

  lemma LeadRestored(a: Complex, u: Complex, c: real, s: real, x: Complex, y: Complex)
    requires UnitAngle(c, s) && x == Sub(Scale(a, c), Scale(u, s)) && y == Add(Scale(a, s), Scale(u, c))
    ensures Add(Scale(x, c), Scale(y, s)) == a
  {
    RealRotationUndone(a.re, u.re, c, s, x.re, y.re);
    RealRotationUndone(a.im, u.im, c, s, x.im, y.im);
  }

  lemma FollowRestored(a: Complex, u: Complex, c: real, s: real, x: Complex, y: Complex)
    requires UnitAngle(c, s) && x == Sub(Scale(a, c), Scale(u, s)) && y == Add(Scale(a, s), Scale(u, c))
    ensures Sub(Scale(y, c), Scale(x, s)) == u
  {
    RealRotationUndone(a.re, u.re, c, s, x.re, y.re);
    RealRotationUndone(a.im, u.im, c, s, x.im, y.im);
  }

  lemma RealRotationUndone(p: real, q: real, c: real, s: real, x: real, y: real)
    requires UnitAngle(c, s) && x == p * c - q * s && y == p * s + q * c
    ensures x * c + y * s == p && y * c - x * s == q
  {
    assert x * c + y * s == p * (c * c + s * s);
    assert y * c - x * s == q * (c * c + s * s);
  }

  lemma MinusScale(a: Complex, w: Complex, s: real)
    ensures Add(Scale(a, -s), w) == Sub(w, Scale(a, s)) && Sub(w, Scale(a, -s)) == Add(w, Scale(a, s))
  {
  }

  lemma PairUndone(a: Complex, b: Complex, c: real, s: real, phase: Complex)
    requires UnitAngle(c, s) && UnitPhase(phase)
    ensures var x, y := LeadAmplitude(a, b, c, s, phase), FollowAmplitude(a, b, c, s, phase);
      LeadAmplitude(x, y, c, -s, phase) == a && FollowAmplitude(x, y, c, -s, phase) == b
  {
    var u := Mul(Conjugate(phase), b);
    var x, v := Sub(Scale(a, c), Scale(u, s)), Add(Scale(a, s), Scale(u, c));
    var y := FollowAmplitude(a, b, c, s, phase);
    FollowAligned(a, b, c, s, phase);
    ConjugateCancels(phase, v);
    ConjugateCancels(phase, b);
    LeadRestored(a, u, c, s, x, v);
    FollowRestored(a, u, c, s, x, v);
    LeadUndone(x, y, v, a, c, s, phase);
    FollowAligned(x, y, c, -s, phase);
    MinusScale(x, Scale(v, c), s);
  }

  lemma LeadUndone(x: Complex, y: Complex, v: Complex, a: Complex, c: real, s: real, phase: Complex)
    requires Mul(Conjugate(phase), y) == v && Add(Scale(x, c), Scale(v, s)) == a
    ensures LeadAmplitude(x, y, c, -s, phase) == a
  {
    MinusScale(v, Scale(x, c), s);
  }

  /** The opposite angle with the same phase undoes a Givens rotation exactly. */
  lemma GivensUndone(left: nat, right: nat, c: real, s: real, phase: Complex, state: seq<Complex>, n: nat)
    requires |state| == Pow2(n) && left < n && right < n && UnitAngle(c, s) && UnitPhase(phase)
    ensures Applied(Givens(left, right, c, -s, phase), Applied(Givens(left, right, c, s, phase), state)) == state
  {
    var next := Applied(Givens(left, right, c, s, phase), state);
    forall x | 0 <= x < |state| ensures After(Givens(left, right, c, -s, phase), next, x) == state[x] {
      var y := Partner(x, left, right);
      PartnerFacts(x, left, right, n);
      if Leads(x, left, right) { PairUndone(state[x], state[y], c, s, phase); }
      if Leads(x, right, left) { PairUndone(state[y], state[x], c, s, phase); }
    }
  }
}
