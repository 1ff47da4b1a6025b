/** Repetition encoding: a dense simulation of every physical qubit refines a
    simulation of the logical register alone. */
module Encoded {
  import opened Bits
  import opened Sums
  import opened ComplexNumbers
  import opened Layout

  // ---------------------------------------------------------------- codewords

  /** Each logical bit copied over its block of `block` physical bits. */
  function Spread(basis: nat, logical: nat, block: nat): nat {
    if logical == 0 then 0
    else (if basis % 2 == 1 then Pow2(block) - 1 else 0) + Spread(basis / 2, logical - 1, block) * Pow2(block)
  }

  lemma NextBlock(l: nat, block: nat)
    ensures (l + 1) * block == l * block + block
  {
  }

  lemma {:induction false} SpreadFits(basis: nat, logical: nat, block: nat)
    ensures Spread(basis, logical, block) < Pow2(logical * block)
    decreases logical
  {
    if logical > 0 {
      SpreadFits(basis / 2, logical - 1, block);
      NextBlock(logical - 1, block);
      Pow2Sum((logical - 1) * block, block);
      BlockFits(Spread(basis / 2, logical - 1, block), Pow2((logical - 1) * block), Pow2(block));
    }
  }

  lemma BlockFits(high: nat, top: nat, p: nat)
    requires high < top && p > 0
    ensures p - 1 + high * p < top * p
  {
    assert (top - high - 1) * p >= 0;
    assert top * p == high * p + p + (top - high - 1) * p;
  }

  lemma {:induction false} SpreadBit(basis: nat, logical: nat, block: nat, l: nat, o: nat)
    requires l < logical && o < block
    ensures Bit(Spread(basis, logical, block), l * block + o) == Bit(basis, l)
    decreases logical
  {
    var low := if basis % 2 == 1 then Pow2(block) - 1 else 0;
    StackedBit(low, Spread(basis / 2, logical - 1, block), block, l * block + o);
    if l == 0 {
      OnesBit(block, o);
      ZeroBits(o);
    } else {
      NextBlock(l - 1, block);
      SpreadBit(basis / 2, logical - 1, block, l - 1, o);
    }
  }

  lemma {:induction false} SpreadIncreasing(a: nat, b: nat, logical: nat, block: nat)
    requires a < b < Pow2(logical) && block > 0
    ensures Spread(a, logical, block) < Spread(b, logical, block)
    decreases logical
  {
    var p := Pow2(block);
    assert p >= 2;
    var x, y := Spread(a / 2, logical - 1, block), Spread(b / 2, logical - 1, block);
    if a / 2 < b / 2 {
      SpreadIncreasing(a / 2, b / 2, logical - 1, block);
      BlockFits(x, y, p);
    }
  }

  /** `low | (high << k)` adds when low fits below k. */
  lemma OrAbove(low: nat, high: nat, k: nat, n: nat)
    requires low < Pow2(k) && low + high * Pow2(k) < Pow2(n)
    ensures Or(low, Shl(high, k)) == low + high * Pow2(k)
  {
    var x, y := Or(low, Shl(high, k)), low + high * Pow2(k);
    forall i: nat ensures Bit(x, i) == Bit(y, i) {
      CombineBit(OrOp, low, Shl(high, k), i);
      ShlBit(high, k, i);
      StackedBit(low, high, k, i);
      if k <= i { HighBitsClear(low, k, i); }
    }
    forall i: nat | n <= i ensures !Bit(x, i) { HighBitsClear(y, n, i); }
    FitsWhenHighBitsClear(x, n);
    SameBits(x, y, n);
  }

  /** One more logical qubit adds one more block on top. */
  lemma {:induction false} SpreadNext(basis: nat, l: nat, block: nat)
    ensures Spread(basis, l + 1, block) ==
            Spread(basis, l, block) + (if Bit(basis, l) then (Pow2(block) - 1) * Pow2(l * block) else 0)
    decreases l
  {
    if l > 0 {
      SpreadNext(basis / 2, l - 1, block);
      NextBlock(l - 1, block);
      Pow2Sum((l - 1) * block, block);
      Distributed(Spread(basis / 2, l - 1, block), Pow2(block) - 1, Pow2((l - 1) * block), Pow2(block));
    } else {
      assert Spread(basis / 2, 0, block) * Pow2(block) == 0;
      assert Pow2(0 * block) == 1;
    }
  }

  lemma Distributed(x: nat, a: nat, q: nat, p: nat)
    ensures (x + a * q) * p == x * p + a * (q * p)
  {
    assert (a * q) * p == a * (q * p);
  }

  /** The mask accumulated by the source, block by block. */
  method CodewordMask(logical: nat, block: nat, basis: nat) returns (mask: nat)
    ensures mask == Spread(basis, logical, block)
  {
    mask := 0;
    var ones := Pow2(block) - 1;
    for l := 0 to logical
      invariant mask == Spread(basis, l, block)
    {
      SpreadNext(basis, l, block);
      if Bit(basis, l) {
        SpreadFits(basis, l, block);
        SpreadFits(basis, l + 1, block);
        OrAbove(mask, ones, l * block, (l + 1) * block);
        mask := Or(mask, Shl(ones, l * block));
      }
    }
  }

  lemma Locate(i: nat, logical: nat, block: nat)
    requires i < logical * block
    ensures block > 0 && i / block < logical && i == (i / block) * block + i % block
  {
    assert block == 0 ==> logical * block == 0;
    assert i == block * (i / block) + i % block;
    if i / block >= logical { BlockAbove(logical, i / block, block); }
  }

  lemma BlockAbove(a: nat, b: nat, block: nat)
    requires a <= b
    ensures a * block <= b * block
  {
    assert (b - a) * block >= 0;
  }

  // ---------------------------------------------------------------- the encoding relation

  ghost predicate IsCodeword(i: nat, logical: nat, block: nat) {
    exists b :: 0 <= b < Pow2(logical) && Spread(b, logical, block) == i
  }

  /** The amplitudes sitting on codewords. */
  ghost function LogicalPart(state: seq<Complex>, logical: nat, block: nat): (r: seq<Complex>)
    requires |state| == Pow2(logical * block)
    ensures |r| == Pow2(logical)
  {
    seq(Pow2(logical),
      b requires 0 <= b < Pow2(logical) => SpreadFits(b, logical, block); state[Spread(b, logical, block)])
  }

  /** `state` is `register` on the codewords and zero everywhere else. */
  ghost predicate Encodes(state: seq<Complex>, register: seq<Complex>, logical: nat, block: nat) {
    && block > 0 && |state| == Pow2(logical * block) && LogicalPart(state, logical, block) == register
    && (forall i {:trigger IsCodeword(i, logical, block)} ::
          0 <= i < |state| && !IsCodeword(i, logical, block) ==> state[i] == ZERO)
  }

  // ---------------------------------------------------------------- logical gates

  datatype Gate =
    | Ry(qubit: nat, c: real, s: real)
    | Rz(physical: nat, zero: Complex, one: Complex)
    | Cnot(control: nat, target: nat)

  predicate ValidGate(g: Gate, logical: nat, block: nat) {
    match g
    case Ry(q, _, _) => q < logical
    case Rz(p, _, _) => p < logical * block
    case Cnot(c, t) => c < logical && t < logical && c != t
  }

  function Flipped(b: nat, control: nat, target: nat): nat {
    if Bit(b, control) then Xor(b, Pow2(target)) else b
  }

  /** The register simulation: a physical Rz acts on the block's logical qubit. */
  function LogicalAfter(g: Gate, r: seq<Complex>, block: nat, b: nat): Complex
    requires block > 0 && b < |r|
  {
    match g
    case Ry(q, c, s) =>
      var partner := Xor(b, Pow2(q));
      if partner >= |r| then r[b]
      else if Bit(b, q) then Add(Scale(r[partner], s), Scale(r[b], c))
      else Sub(Scale(r[b], c), Scale(r[partner], s))
    case Rz(p, zero, one) => Mul(r[b], if Bit(b, p / block) then one else zero)
    case Cnot(c, t) => if Flipped(b, c, t) < |r| then r[Flipped(b, c, t)] else r[b]
  }

  function LogicalApplied(g: Gate, r: seq<Complex>, block: nat): (next: seq<Complex>)
    requires block > 0
    ensures |next| == |r|
  {
    seq(|r|, b requires 0 <= b < |r| => LogicalAfter(g, r, block, b))
  }

  // ---------------------------------------------------------------- dense gates

  /** Where transversal CNOT sends a physical basis state, offset by offset. */
  function Destination(x: nat, block: nat, control: nat, target: nat, upto: nat): nat {
    if upto == 0 then x
    else
      var d := Destination(x, block, control, target, upto - 1);
      if Bit(x, control * block + (upto - 1)) then Xor(d, Pow2(target * block + (upto - 1))) else d
  }

  /** What one dense gate may do to the physical state. */
  ghost predicate DenseStep(g: Gate, state: seq<Complex>, next: seq<Complex>, logical: nat, block: nat)
    requires block > 0 && |state| == |next| == Pow2(logical * block)
  {
    match g
    case Ry(_, _, _) =>
      && LogicalPart(next, logical, block) == LogicalApplied(g, LogicalPart(state, logical, block), block)
      && (forall i :: 0 <= i < |state| && !IsCodeword(i, logical, block) ==> next[i] == state[i])
    case Rz(p, zero, one) =>
      forall i :: 0 <= i < |state| ==> next[i] == Mul(state[i], if Bit(i, p) then one else zero)
    case Cnot(c, t) =>
      forall i :: 0 <= i < |state| ==>
        Destination(i, block, c, t, block) < |state| && next[i] == state[Destination(i, block, c, t, block)]
  }

  method DensePhysicalRz(state: array<Complex>, physical: nat, zero: Complex, one: Complex, ghost logical: nat,
    ghost block: nat)
    requires block > 0 && state.Length == Pow2(logical * block)
    modifies state
    ensures DenseStep(Rz(physical, zero, one), old(state[..]), state[..], logical, block)
  {
    for basis := 0 to state.Length
      invariant forall i :: 0 <= i < state.Length ==>
        state[i] == (if i < basis then Mul(old(state[i]), if Bit(i, physical) then one else zero) else old(state[i]))
    {
      state[basis] := Mul(state[basis], if Bit(basis, physical) then one else zero);
    }
  }

  lemma {:induction false} DestinationBits(x: nat, block: nat, control: nat, target: nat, upto: nat, i: nat)
    requires upto <= block && control != target
    ensures Bit(Destination(x, block, control, target, upto), i) ==
      (if target * block <= i < target * block + upto && Bit(x, control * block + (i - target * block)) then !Bit(x, i)
        else Bit(x, i))
    decreases upto
  {
    if upto > 0 {
      DestinationBits(x, block, control, target, upto - 1, i);
      var d := Destination(x, block, control, target, upto - 1);
      CombineBit(XorOp, d, Pow2(target * block + (upto - 1)), i);
      Pow2Bit(target * block + (upto - 1), i);
    }
  }

  lemma DestinationFits(x: nat, block: nat, control: nat, target: nat, logical: nat)
    requires target < logical && control != target && x < Pow2(logical * block)
    ensures Destination(x, block, control, target, block) < Pow2(logical * block)
  {
    var n, d := logical * block, Destination(x, block, control, target, block);
    BlockAbove(target + 1, logical, block);
    NextBlock(target, block);
    forall i: nat | n <= i ensures !Bit(d, i) {
      DestinationBits(x, block, control, target, block, i);
      HighBitsClear(x, n, i);
    }
    FitsWhenHighBitsClear(d, n);
  }

  lemma DestinationTwice(x: nat, block: nat, control: nat, target: nat, i: nat)
    requires block > 0 && control != target
    ensures var d := Destination(x, block, control, target, block);
      Bit(Destination(d, block, control, target, block), i) == Bit(x, i)
  {
    DestinationBits(Destination(x, block, control, target, block), block, control, target, block, i);
    DestinationBits(x, block, control, target, block, i);
    if target * block <= i < target * block + block {
      DestinationBits(x, block, control, target, block, control * block + (i - target * block));
      OtherBlock(control, target, i - target * block, block);
    }
  }

  lemma DestinationFacts(x: nat, block: nat, control: nat, target: nat, logical: nat)
    requires block > 0 && control < logical && target < logical && control != target && x < Pow2(logical * block)
    ensures var d := Destination(x, block, control, target, block);
      d < Pow2(logical * block) && Destination(d, block, control, target, block) == x
  {
    var d := Destination(x, block, control, target, block);
    var back := Destination(d, block, control, target, block);
    DestinationFits(x, block, control, target, logical);
    DestinationFits(d, block, control, target, logical);
    forall i: nat ensures Bit(back, i) == Bit(x, i) { DestinationTwice(x, block, control, target, i); }
    SameBits(back, x, logical * block);
  }

  lemma OtherBlock(control: nat, target: nat, o: nat, block: nat)
    requires control != target && o < block
    ensures !(target * block <= control * block + o < target * block + block)
  {
    if target * block <= control * block + o < target * block + block {
      CellUnique(control, o, target, control * block + o - target * block, block);
    }
  }

  method TransversalDestination(basis: nat, block: nat, control: nat, target: nat) returns (destination: nat)
    ensures destination == Destination(basis, block, control, target, block)
  {
    destination := basis;
    for offset := 0 to block
      invariant destination == Destination(basis, block, control, target, offset)
    {
      if Bit(basis, control * block + offset) {
        destination := Xor(destination, Pow2(target * block + offset));
      }
    }
  }

  /** Entries written once the basis states below `upto` are moved. */
  ghost predicate Moved(output: seq<Complex>, state: seq<Complex>, block: nat, control: nat, target: nat, upto: nat) {
    |output| == |state| && forall i {:trigger output[i]} :: 0 <= i < |state| ==>
      var d := Destination(i, block, control, target, block);
      d < |state| && output[i] == if d < upto then state[d] else ZERO
  }

  lemma MoveOne(was: seq<Complex>, now: seq<Complex>, state: seq<Complex>, block: nat, control: nat, target: nat,
    basis: nat, logical: nat, d: nat)
    requires block > 0 && |state| == Pow2(logical * block) && control < logical && target < logical && control != target
    requires basis < |state| && Moved(was, state, block, control, target, basis)
    requires d == Destination(basis, block, control, target, block)
    ensures d < |state|
    ensures now == was[d := Add(was[d], state[basis])] ==> Moved(now, state, block, control, target, basis + 1)
  {
    DestinationFacts(basis, block, control, target, logical);
    if now == was[d := Add(was[d], state[basis])] {
      forall i | 0 <= i < |state| ensures var e := Destination(i, block, control, target, block);
        e < |state| && now[i] == if e < basis + 1 then state[e] else ZERO
      {
        DestinationFacts(i, block, control, target, logical);
      }
    }
  }

  method DenseTransversalCnot(state: array<Complex>, block: nat, control: nat, target: nat, ghost logical: nat)
    returns (output: array<Complex>)
    requires block > 0 && state.Length == Pow2(logical * block)
    requires control < logical && target < logical && control != target
    ensures fresh(output) && output.Length == state.Length
    ensures DenseStep(Cnot(control, target), state[..], output[..], logical, block)
  {
    output := new Complex[state.Length](_ => ZERO);
    forall i: nat | i < state.Length ensures Destination(i, block, control, target, block) < state.Length {
      DestinationFacts(i, block, control, target, logical);
    }
    for basis := 0 to state.Length
      invariant Moved(output[..], state[..], block, control, target, basis)
    {
      ghost var was := output[..];
      var destination := TransversalDestination(basis, block, control, target);
      MoveOne(was, was, state[..], block, control, target, basis, logical, destination);
      output[destination] := Add(output[destination], state[basis]);
      MoveOne(was, output[..], state[..], block, control, target, basis, logical, destination);
    }
  }

  /** Rotates codeword pairs in place; every other amplitude is left alone. */
  method DenseLogicalRy(state: array<Complex>, logical: nat, block: nat, qubit: nat, c: real, s: real)
    requires block > 0 && qubit < logical && state.Length == Pow2(logical * block)
    modifies state
    ensures DenseStep(Ry(qubit, c, s), old(state[..]), state[..], logical, block)
  {
    ghost var was := state[..];
    ghost var register := LogicalPart(was, logical, block);
    var dimension := Pow2(logical);
    for basis := 0 to dimension
      invariant forall b :: 0 <= b < dimension ==>
        LogicalPart(state[..], logical, block)[b] ==
          (if Rotated(b, qubit, basis) then LogicalAfter(Ry(qubit, c, s), register, block, b) else register[b])
      invariant forall i :: 0 <= i < state.Length && !IsCodeword(i, logical, block) ==> state[i] == was[i]
    {
      ghost var before := state[..];
      PairedBits(basis, qubit, logical);
      if !Bit(basis, qubit) {
        var partner := Or(basis, Pow2(qubit));
        var zeroIndex := CodewordMask(logical, block, basis);
        var oneIndex := CodewordMask(logical, block, partner);
        SpreadFits(basis, logical, block);
        SpreadFits(partner, logical, block);
        var zero, one := state[zeroIndex], state[oneIndex];
        state[zeroIndex] := Sub(Scale(zero, c), Scale(one, s));
        state[oneIndex] := Add(Scale(zero, s), Scale(one, c));
        SpreadIncreasing(basis, partner, logical, block);
        CodewordWrite(before, state[..], logical, block, basis, partner);
      }
      forall b | 0 <= b < dimension
        ensures Rotated(b, qubit, basis + 1) ==
          (Rotated(b, qubit, basis) || (!Bit(basis, qubit) && (b == basis || b == Xor(basis, Pow2(qubit)))))
      {
        PairedBits(b, qubit, logical);
      }
    }
    forall b | 0 <= b < dimension ensures Rotated(b, qubit, dimension) {
      PairedBits(b, qubit, logical);
    }
    assert LogicalPart(state[..], logical, block) == LogicalApplied(Ry(qubit, c, s), register, block);
  }

  /** Whether the pair of b has been rotated when the loop stands at `basis`. */
  ghost predicate Rotated(b: nat, qubit: nat, basis: nat) {
    if Bit(b, qubit) then Xor(b, Pow2(qubit)) < basis else b < basis
  }

  lemma PairedBits(b: nat, qubit: nat, logical: nat)
    requires b < Pow2(logical) && qubit < logical
    ensures var p := Xor(b, Pow2(qubit));
      && p < Pow2(logical) && Xor(p, Pow2(qubit)) == b && Bit(p, qubit) == !Bit(b, qubit)
      && (!Bit(b, qubit) ==> Or(b, Pow2(qubit)) == p && b < p)
  {
    var p, q := Xor(b, Pow2(qubit)), Or(b, Pow2(qubit));
    OneBitUpdate(XorOp, b, qubit, logical);
    OneBitUpdate(OrOp, b, qubit, logical);
    Pow2Monotone(qubit, logical);
    XorCancel(b, Pow2(qubit), logical);
    if !Bit(b, qubit) {
      SameBits(p, q, logical);
      SetGrows(b, q, qubit);
    }
  }

  /** Writing two codeword cells changes those two logical amplitudes only. */
  lemma CodewordWrite(before: seq<Complex>, now: seq<Complex>, logical: nat, block: nat, x: nat, y: nat)
    requires block > 0 && |before| == |now| == Pow2(logical * block) && x < Pow2(logical) && y < Pow2(logical)
    requires forall i :: 0 <= i < |before| && i != Spread(x, logical, block) && i != Spread(y, logical, block) ==>
      now[i] == before[i]
    ensures forall b :: 0 <= b < Pow2(logical) && b != x && b != y ==>
      LogicalPart(now, logical, block)[b] == LogicalPart(before, logical, block)[b]
    ensures forall i :: 0 <= i < |before| && !IsCodeword(i, logical, block) ==> now[i] == before[i]
  {
    forall b | 0 <= b < Pow2(logical) && b != x && b != y
      ensures LogicalPart(now, logical, block)[b] == LogicalPart(before, logical, block)[b]
    {
      SpreadFits(b, logical, block);
      SpreadInjective(b, x, logical, block);
      SpreadInjective(b, y, logical, block);
    }
  }

  lemma SpreadInjective(a: nat, b: nat, logical: nat, block: nat)
    requires a < Pow2(logical) && b < Pow2(logical) && block > 0
    ensures Spread(a, logical, block) == Spread(b, logical, block) <==> a == b
  {
    if a < b { SpreadIncreasing(a, b, logical, block); }
    if b < a { SpreadIncreasing(b, a, logical, block); }
  }

  // ---------------------------------------------------------------- refinement

  lemma PhaseBit(b: nat, logical: nat, block: nat, physical: nat)
    requires physical < logical * block
    ensures block > 0 && Bit(Spread(b, logical, block), physical) == Bit(b, physical / block)
  {
    Locate(physical, logical, block);
    SpreadBit(b, logical, block, physical / block, physical % block);
  }

  lemma FlippedFits(b: nat, control: nat, target: nat, logical: nat)
    requires b < Pow2(logical) && control < logical && target < logical && control != target
    ensures Flipped(b, control, target) < Pow2(logical)
    ensures forall j: nat ::
      Bit(Flipped(b, control, target), j) == (if j == target && Bit(b, control) then !Bit(b, j) else Bit(b, j))
  {
    OneBitUpdate(XorOp, b, target, logical);
  }

  /** Transversal CNOT permutes codewords as CNOT permutes logical basis states. */
  lemma CodewordDestination(b: nat, logical: nat, block: nat, control: nat, target: nat)
    requires block > 0 && b < Pow2(logical) && control < logical && target < logical && control != target
    ensures Destination(Spread(b, logical, block), block, control, target, block) ==
      Spread(Flipped(b, control, target), logical, block)
  {
    var x, n := Spread(b, logical, block), logical * block;
    var d, y := Destination(x, block, control, target, block), Spread(Flipped(b, control, target), logical, block);
    SpreadFits(b, logical, block);
    SpreadFits(Flipped(b, control, target), logical, block);
    DestinationFacts(x, block, control, target, logical);
    forall i: nat | i < n
      ensures Bit(d, i) == Bit(y, i)
    {
      CodewordDestinationAt(b, logical, block, control, target, i);
    }
    SameBits(d, y, n);
  }

  lemma CodewordDestinationAt(b: nat, logical: nat, block: nat, control: nat, target: nat, i: nat)
    requires b < Pow2(logical) && control < logical && target < logical && control != target && i < logical * block
    ensures Bit(Destination(Spread(b, logical, block), block, control, target, block), i) ==
            Bit(Spread(Flipped(b, control, target), logical, block), i)
  {
    Locate(i, logical, block);
    CodewordDestinationBit(b, logical, block, control, target, i / block, i % block);
  }

  lemma CodewordDestinationBit(b: nat, logical: nat, block: nat, control: nat, target: nat, l: nat, o: nat)
    requires b < Pow2(logical) && control < logical && target < logical && control != target
    requires l < logical && o < block
    ensures Bit(Destination(Spread(b, logical, block), block, control, target, block), l * block + o) ==
            Bit(Spread(Flipped(b, control, target), logical, block), l * block + o)
  {
    var x, i := Spread(b, logical, block), l * block + o;
    DestinationBits(x, block, control, target, block, i);
    SpreadBit(b, logical, block, l, o);
    SpreadBit(Flipped(b, control, target), logical, block, l, o);
    FlippedFits(b, control, target, logical);
    if target * block <= i < target * block + block {
      CellUnique(l, o, target, i - target * block, block);
      SpreadBit(b, logical, block, control, o);
    } else {
      assert l != target;
    }
  }

  lemma CnotKeepsOffCode(i: nat, logical: nat, block: nat, control: nat, target: nat)
    requires block > 0 && i < Pow2(logical * block) && control < logical && target < logical && control != target
    ensures IsCodeword(Destination(i, block, control, target, block), logical, block) ==> IsCodeword(i, logical, block)
  {
    var d := Destination(i, block, control, target, block);
    DestinationFacts(i, block, control, target, logical);
    if IsCodeword(d, logical, block) {
      var b :| 0 <= b < Pow2(logical) && Spread(b, logical, block) == d;
      CodewordDestination(b, logical, block, control, target);
      FlippedFits(b, control, target, logical);
    }
  }

  /** Every dense gate commutes with the encoding and keeps its support. */
  lemma StepRefines(g: Gate, state: seq<Complex>, next: seq<Complex>, register: seq<Complex>, logical: nat, block: nat)
    requires Encodes(state, register, logical, block) && ValidGate(g, logical, block)
    requires |next| == |state| && DenseStep(g, state, next, logical, block)
    ensures Encodes(next, LogicalApplied(g, register, block), logical, block)
  {
    match g
    case Ry(_, _, _) =>
    case Rz(p, zero, one) =>
      forall b | 0 <= b < Pow2(logical)
        ensures LogicalPart(next, logical, block)[b] == LogicalAfter(g, register, block, b)
      {
        SpreadFits(b, logical, block);
        PhaseBit(b, logical, block, p);
      }
    case Cnot(c, t) =>
      forall b | 0 <= b < Pow2(logical)
        ensures LogicalPart(next, logical, block)[b] == LogicalAfter(g, register, block, b)
      {
        SpreadFits(b, logical, block);
        FlippedFits(b, c, t, logical);
        SpreadFits(Flipped(b, c, t), logical, block);
        CodewordDestination(b, logical, block, c, t);
      }
      forall i | 0 <= i < |next| && !IsCodeword(i, logical, block) ensures next[i] == ZERO {
        CnotKeepsOffCode(i, logical, block, c, t);
      }
  }

  /** A dense simulation: one physical state before each gate and one at the end. */
  ghost predicate DenseRun(gates: seq<Gate>, states: seq<seq<Complex>>, logical: nat, block: nat)
    requires block > 0
  {
    && |states| == |gates| + 1
    && (forall i :: 0 <= i < |states| ==> |states[i]| == Pow2(logical * block))
    && (forall i :: 0 <= i < |gates| ==>
      ValidGate(gates[i], logical, block) && DenseStep(gates[i], states[i], states[i + 1], logical, block))
  }

  function LogicalRun(gates: seq<Gate>, register: seq<Complex>, block: nat): (final: seq<Complex>)
    requires block > 0
    ensures |final| == |register|
  {
    if gates == [] then register
    else LogicalApplied(gates[|gates| - 1], LogicalRun(gates[..|gates| - 1], register, block), block)
  }

  /** Any sequence of dense gates on an encoded state ends in the encoding of the
      logical run: the dense simulator refines the register simulator. */
  lemma {:induction false} RunRefines(gates: seq<Gate>, states: seq<seq<Complex>>, register: seq<Complex>, logical: nat,
    block: nat)
    requires block > 0 && DenseRun(gates, states, logical, block) && Encodes(states[0], register, logical, block)
    ensures Encodes(states[|gates|], LogicalRun(gates, register, block), logical, block)
    decreases |gates|
  {
    if gates != [] {
      var n := |gates| - 1;
      RunRefines(gates[..n], states[..n + 1], register, logical, block);
      StepRefines(gates[n], states[n], states[n + 1], LogicalRun(gates[..n], register, block), logical, block);
    }
  }

  // ---------------------------------------------------------------- measurement

  function Signed(state: seq<Complex>, qubit: nat): nat -> real {
    (x: nat) => if x < |state| then (if Bit(x, qubit) then -Norm2(state[x]) else Norm2(state[x])) else 0.0
  }

  function ZExpectation(state: seq<Complex>, qubit: nat): real { Sum(|state|, Signed(state, qubit)) }

  method DenseZExpectation(state: array<Complex>, physical: nat) returns (total: real)
    ensures total == ZExpectation(state[..], physical)
  {
    total := 0.0;
    for basis := 0 to state.Length
      invariant total == Sum(basis, Signed(state[..], physical))
    {
      total := total + (if Bit(basis, physical) then -1.0 else 1.0) * Norm2(state[basis]);
    }
  }

  function SpreadMap(logical: nat, block: nat): nat -> nat { (b: nat) => Spread(b, logical, block) }

  lemma ImageIsCodewords(i: nat, logical: nat, block: nat)
    ensures IsCodeword(i, logical, block) ==> InImage(Pow2(logical), SpreadMap(logical, block), i)
  {
    if IsCodeword(i, logical, block) {
      var b :| 0 <= b < Pow2(logical) && Spread(b, logical, block) == i;
      assert SpreadMap(logical, block)(b) == i;
    }
  }

  lemma SpreadSupports(f: nat -> real, logical: nat, block: nat)
    requires block > 0
    requires forall i :: 0 <= i < Pow2(logical * block) && !IsCodeword(i, logical, block) ==> f(i) == 0.0
    ensures Supports(Pow2(logical * block), Pow2(logical), SpreadMap(logical, block), f)
  {
    var g := SpreadMap(logical, block);
    forall b | 0 <= b < Pow2(logical) ensures g(b) < Pow2(logical * block) { SpreadFits(b, logical, block); }
    forall a, b | 0 <= a < b < Pow2(logical) ensures g(a) < g(b) { SpreadIncreasing(a, b, logical, block); }
    forall i | 0 <= i < Pow2(logical * block) && !InImage(Pow2(logical), g, i) ensures f(i) == 0.0 {
      ImageIsCodewords(i, logical, block);
    }
    IncreasingSupports(Pow2(logical * block), Pow2(logical), g, f);
  }

  /** Z on any physical member of a block reads the block's logical qubit. */
  lemma ZExpectationRefines(state: seq<Complex>, register: seq<Complex>, logical: nat, block: nat, physical: nat)
    requires Encodes(state, register, logical, block) && physical < logical * block
    ensures ZExpectation(state, physical) == ZExpectation(register, physical / block)
  {
    SignedOnCodewords(state, register, logical, block, physical, physical / block);
    SignedOffCode(state, register, logical, block, physical);
    SumSupported(|state|, Pow2(logical), SpreadMap(logical, block), Signed(state, physical));
  }

  lemma SignedOffCode(state: seq<Complex>, register: seq<Complex>, logical: nat, block: nat, physical: nat)
    requires Encodes(state, register, logical, block)
    ensures Supports(|state|, Pow2(logical), SpreadMap(logical, block), Signed(state, physical))
  {
    forall i | 0 <= i < Pow2(logical * block) && !IsCodeword(i, logical, block)
      ensures Signed(state, physical)(i) == 0.0
    {
    }
    SpreadSupports(Signed(state, physical), logical, block);
  }

  lemma SignedOnCodewords(state: seq<Complex>, register: seq<Complex>, logical: nat, block: nat, physical: nat, l: nat)
    requires Encodes(state, register, logical, block) && physical < logical * block && l == physical / block
    ensures Sum(Pow2(logical), Permuted(SpreadMap(logical, block), Signed(state, physical))) ==
      ZExpectation(register, l)
  {
    var f := Permuted(SpreadMap(logical, block), Signed(state, physical));
    forall b: nat | b < Pow2(logical) ensures f(b) == Signed(register, l)(b) {
      SignedAgrees(state, register, logical, block, physical, b);
    }
    SumCongruent(Pow2(logical), f, Signed(register, l));
  }

  lemma SignedAgrees(state: seq<Complex>, register: seq<Complex>, logical: nat, block: nat, physical: nat, b: nat)
    requires Encodes(state, register, logical, block) && physical < logical * block && b < Pow2(logical)
    ensures Signed(state, physical)(Spread(b, logical, block)) == Signed(register, physical / block)(b)
  {
    SpreadFits(b, logical, block);
    PhaseBit(b, logical, block, physical);
    assert state[Spread(b, logical, block)] == LogicalPart(state, logical, block)[b];
  }

  /** After any dense run all physical Z expectations inside a block agree. */
  lemma BlockAgrees(gates: seq<Gate>, states: seq<seq<Complex>>, register: seq<Complex>, logical: nat, block: nat,
    p: nat, q: nat)
    requires block > 0 && DenseRun(gates, states, logical, block) && Encodes(states[0], register, logical, block)
    requires p < logical * block && q < logical * block && p / block == q / block
    ensures ZExpectation(states[|gates|], p) == ZExpectation(states[|gates|], q)
            == ZExpectation(LogicalRun(gates, register, block), p / block)
  {
    RunRefines(gates, states, register, logical, block);
    ZExpectationRefines(states[|gates|], LogicalRun(gates, register, block), logical, block, p);
    ZExpectationRefines(states[|gates|], LogicalRun(gates, register, block), logical, block, q);
  }

  // ---------------------------------------------------------------- the encoded plus state

  /** Every codeword gets the same amplitude; the result encodes the plus register. */
  method DensePlus(logical: nat, block: nat, scale: real) returns (state: array<Complex>)
    requires block > 0
    ensures Encodes(state[..], seq(Pow2(logical), _ => Complex(scale, 0.0)), logical, block)
  {
    state := new Complex[Pow2(logical * block)](_ => ZERO);
    var dimension := Pow2(logical);
    forall b: nat | b < dimension ensures Spread(b, logical, block) < state.Length { SpreadFits(b, logical, block); }
    for basis := 0 to dimension
      invariant forall b :: 0 <= b < dimension ==>
        LogicalPart(state[..], logical, block)[b] == (if b < basis then Complex(scale, 0.0) else ZERO)
      invariant forall i :: 0 <= i < state.Length && !IsCodeword(i, logical, block) ==> state[i] == ZERO
    {
      ghost var before := state[..];
      var mask := CodewordMask(logical, block, basis);
      SpreadFits(basis, logical, block);
      state[mask] := Complex(scale, 0.0);
      CodewordWrite(before, state[..], logical, block, basis, basis);
    }
  }
}
