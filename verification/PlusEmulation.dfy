/** Emulating a basis input by a gate prefix on the uniform plus state. */
module PlusEmulation {
  import opened Bits
  import opened Circuits
  import opened ComplexNumbers
  import opened Vectors

  type State = seq<Complex>

  /** Any semantics of the gate set, as a map on states. */
  type Semantics = (Operation, State) -> State

  function SignFlip(q: nat, state: State): (r: State)
    ensures |r| == |state|
  {
    seq(|state|, i requires 0 <= i < |state| => if Bit(i, q) then Neg(state[i]) else state[i])
  }

  /** The amplitude that differs from index i only at qubit q. */
  function Partner(i: nat, q: nat): nat { Xor(i, Pow2(q)) }

  lemma PartnerInside(i: nat, q: nat, n: nat)
    requires i < Pow2(n) && q < n
    ensures Partner(i, q) < Pow2(n)
    ensures forall j: nat :: Bit(Partner(i, q), j) == (if j == q then !Bit(i, q) else Bit(i, j))
  {
    OneBitUpdate(XorOp, i, q, n);
  }

  function HadamardAt(s: real, n: nat, q: nat, state: State, i: nat): Complex
    requires |state| == Pow2(n) && q < n && i < Pow2(n)
  {
    PartnerInside(i, q, n);
    var p := state[Partner(i, q)];
    Scale(if Bit(i, q) then Sub(p, state[i]) else Add(state[i], p), s)
  }

  function Hadamard(s: real, n: nat, q: nat, state: State): (r: State)
    requires |state| == Pow2(n) && q < n
    ensures |r| == |state|
  {
    seq(Pow2(n), i requires 0 <= i < Pow2(n) => HadamardAt(s, n, q, state, i))
  }

  /** The semantics reads H and Z as usual, with s standing for 1/sqrt(2); every other
      gate is arbitrary. */
  ghost predicate Standard(apply: Semantics, s: real, n: nat) {
    (forall q: nat, state: State {:trigger apply(Gate(H, q), state)} :: q < n && |state| == Pow2(n) ==>
      apply(Gate(H, q), state) == Hadamard(s, n, q, state))
    && (forall q: nat, state: State {:trigger apply(Gate(Z, q), state)} :: q < n && |state| == Pow2(n) ==>
      apply(Gate(Z, q), state) == SignFlip(q, state))
  }

  function Run(apply: Semantics, operations: seq<Operation>, state: State): State
    decreases |operations|
  {
    if operations == [] then state else Run(apply, operations[1..], apply(operations[0], state))
  }

  lemma {:induction false} RunSplit(apply: Semantics, first: seq<Operation>, second: seq<Operation>, state: State)
    ensures Run(apply, first + second, state) == Run(apply, second, Run(apply, first, state))
    decreases |first|
  {
    if first == [] {
      assert first + second == second;
    } else {
      assert (first + second)[1..] == first[1..] + second;
      RunSplit(apply, first[1..], second, apply(first[0], state));
    }
  }

  // ---------------------------------------------------------------- the prefix

  function Prepare(qubit: nat, bit: nat): seq<Operation> {
    if bit != 0 then [Gate(Z, qubit), Gate(H, qubit)] else [Gate(H, qubit)]
  }

  /** The prefix for the first k input bits. */
  function Prefix(input: seq<nat>, k: nat): seq<Operation>
    requires k <= |input|
  {
    if k == 0 then [] else Prefix(input, k - 1) + Prepare(k - 1, input[k - 1])
  }

  method PlusEmulation(input: seq<nat>, operations: seq<Operation>) returns (result: seq<Operation>)
    ensures result == Prefix(input, |input|) + operations
  {
    result := [];
    for qubit := 0 to |input|
      invariant result == Prefix(input, qubit)
    {
      if input[qubit] != 0 {
        result := result + [Gate(Z, qubit)];
      }
      result := result + [Gate(H, qubit)];
    }
    result := result + operations;
  }

  // ---------------------------------------------------------------- from plus to basis

  function Power(s: real, k: nat): real { if k == 0 then 1.0 else s * Power(s, k - 1) }

  function PlusState(s: real, n: nat): (state: State)
    ensures |state| == Pow2(n)
  {
    seq(Pow2(n), _ => Complex(Power(s, n), 0.0))
  }

  /** Index i carries the first k input bits. */
  ghost predicate Carries(i: nat, input: seq<nat>, k: nat)
    requires k <= |input|
  {
    forall q :: 0 <= q < k ==> Bit(i, q) == (input[q] != 0)
  }

  /** After k qubits: s^(n-k) on the indices that carry the first k bits. */
  ghost predicate Partial(state: State, s: real, n: nat, input: seq<nat>, k: nat) {
    |state| == Pow2(n) && k <= n == |input|
    && forall i {:trigger state[i]} :: 0 <= i < |state| ==>
      state[i] == if Carries(i, input, k) then Complex(Power(s, n - k), 0.0) else ZERO
  }

  /** The index whose bit q is input bit q. */
  function InputIndex(input: seq<nat>, k: nat): (i: nat)
    requires k <= |input|
    ensures i < Pow2(k)
  {
    if k == 0 then 0 else InputIndex(input, k - 1) + Digit(input[k - 1] != 0) * Pow2(k - 1)
  }

  lemma {:induction false} IndexCarries(input: seq<nat>, k: nat)
    requires k <= |input|
    ensures Carries(InputIndex(input, k), input, k)
  {
    if k > 0 {
      IndexCarries(input, k - 1);
      var low, high := InputIndex(input, k - 1), Digit(input[k - 1] != 0);
      forall q: nat | q < k
        ensures Bit(low + high * Pow2(k - 1), q) == (input[q] != 0)
      {
        StackedBit(low, high, k - 1, q);
      }
    }
  }

  lemma OnlyIndexCarries(i: nat, n: nat, input: seq<nat>)
    requires n == |input| && i < Pow2(n)
    ensures Carries(i, input, n) <==> i == InputIndex(input, n)
  {
    IndexCarries(input, n);
    if Carries(i, input, n) { SameBits(i, InputIndex(input, n), n); }
  }

  /** The computational basis state of the input bits. */
  function BasisState(n: nat, input: seq<nat>): (state: State)
    requires n == |input|
    ensures |state| == Pow2(n)
  {
    BasisVector(Pow2(n), InputIndex(input, n))
  }

  lemma PartnerCarries(i: nat, input: seq<nat>, k: nat, n: nat)
    requires i < Pow2(n) && k < n == |input|
    ensures Partner(i, k) < Pow2(n) && Carries(Partner(i, k), input, k) == Carries(i, input, k)
    ensures Carries(i, input, k + 1) == (Carries(i, input, k) && Bit(i, k) == (input[k] != 0))
  {
    PartnerInside(i, k, n);
  }

  /** Half the weight from each of two equal amplitudes. */
  lemma Merge(s: real, v: real, w: real)
    requires 2.0 * (s * s) == 1.0 && v == s * w
    ensures (v + v) * s == w
  {
    assert (v + v) * s == 2.0 * (s * s) * w;
  }

  /** The entries just before the Hadamard: equal pairs, the set one negated for a one bit. */
  ghost predicate Signed(state: State, s: real, n: nat, input: seq<nat>, k: nat) {
    |state| == Pow2(n) && k < n == |input|
    && forall i {:trigger state[i]} :: 0 <= i < |state| ==>
      state[i] == (if !Carries(i, input, k) then ZERO
                   else if input[k] != 0 && Bit(i, k) then Complex(-Power(s, n - k), 0.0)
                   else Complex(Power(s, n - k), 0.0))
  }

  lemma FlipSigns(state: State, s: real, n: nat, input: seq<nat>, k: nat)
    requires Partial(state, s, n, input, k) && k < n
    ensures Signed(if input[k] != 0 then SignFlip(k, state) else state, s, n, input, k)
  {
  }

  lemma MergePairs(state: State, s: real, n: nat, input: seq<nat>, k: nat)
    requires Signed(state, s, n, input, k) && 2.0 * (s * s) == 1.0
    ensures Partial(Hadamard(s, n, k, state), s, n, input, k + 1)
  {
    forall i: nat | i < Pow2(n)
      ensures HadamardAt(s, n, k, state, i) ==
        if Carries(i, input, k + 1) then Complex(Power(s, n - k - 1), 0.0) else ZERO
    {
      MergeAt(state, s, n, input, k, i);
    }
  }

  lemma MergeAt(state: State, s: real, n: nat, input: seq<nat>, k: nat, i: nat)
    requires Signed(state, s, n, input, k) && 2.0 * (s * s) == 1.0 && i < Pow2(n)
    ensures HadamardAt(s, n, k, state, i) ==
      if Carries(i, input, k + 1) then Complex(Power(s, n - k - 1), 0.0) else ZERO
  {
    PartnerInside(i, k, n);
    PartnerCarries(i, input, k, n);
    Merge(s, Power(s, n - k), Power(s, n - k - 1));
  }

  lemma PrepareStep(apply: Semantics, state: State, s: real, n: nat, input: seq<nat>, k: nat)
    requires Standard(apply, s, n) && 2.0 * (s * s) == 1.0 && Partial(state, s, n, input, k) && k < n
    ensures Partial(Run(apply, Prepare(k, input[k]), state), s, n, input, k + 1)
  {
    var before := if input[k] != 0 then SignFlip(k, state) else state;
    FlipSigns(state, s, n, input, k);
    MergePairs(before, s, n, input, k);
    assert [Gate(Z, k), Gate(H, k)][1..] == [Gate(H, k)] && [Gate(H, k)][1..] == [];
    assert Run(apply, [Gate(H, k)], before) == apply(Gate(H, k), before);
  }

  lemma {:induction false} PrefixPrepares(apply: Semantics, s: real, n: nat, input: seq<nat>, k: nat)
    requires Standard(apply, s, n) && 2.0 * (s * s) == 1.0 && k <= n == |input|
    ensures Partial(Run(apply, Prefix(input, k), PlusState(s, n)), s, n, input, k)
  {
    if k > 0 {
      PrefixPrepares(apply, s, n, input, k - 1);
      RunSplit(apply, Prefix(input, k - 1), Prepare(k - 1, input[k - 1]), PlusState(s, n));
      PrepareStep(apply, Run(apply, Prefix(input, k - 1), PlusState(s, n)), s, n, input, k - 1);
    }
  }

  /** The whole prefix turns the plus state into the basis state of the input. */
  lemma PrefixGivesBasis(apply: Semantics, s: real, n: nat, input: seq<nat>)
    requires Standard(apply, s, n) && 2.0 * (s * s) == 1.0 && n == |input|
    ensures Run(apply, Prefix(input, n), PlusState(s, n)) == BasisState(n, input)
  {
    var final := Run(apply, Prefix(input, n), PlusState(s, n));
    PrefixPrepares(apply, s, n, input, n);
    forall i: nat | i < Pow2(n) ensures final[i] == BasisState(n, input)[i] { OnlyIndexCarries(i, n, input); }
  }

  /** The emulated circuit on the plus state is the original circuit on the basis state. */
  lemma EmulationIsExact(apply: Semantics, s: real, n: nat, input: seq<nat>, operations: seq<Operation>)
    requires Standard(apply, s, n) && 2.0 * (s * s) == 1.0 && n == |input|
    ensures Run(apply, Prefix(input, n) + operations, PlusState(s, n)) == Run(apply, operations, BasisState(n, input))
  {
    PrefixGivesBasis(apply, s, n, input);
    RunSplit(apply, Prefix(input, n), operations, PlusState(s, n));
  }
}
