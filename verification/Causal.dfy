/** The backward light cone of a query: the naive pass, what deleting the other
    operations preserves, and the indexed slice that must agree with it. */
module Causal {
  import opened Circuits

  function Operands(op: Operation): set<nat> {
    if TwoQubit(op.code) then {op.first, op.second} else {op.first}
  }

  predicate Fits(ops: seq<Operation>, qubits: nat) {
    forall i :: 0 <= i < |ops| ==> ops[i].first < qubits && (TwoQubit(ops[i].code) ==> ops[i].second < qubits)
  }

  /** The qubits marked active once the backward pass has consumed all of `ops`. */
  function Active(ops: seq<Operation>, query: set<nat>): set<nat> {
    if ops == [] then query
    else
      var a := Active(ops[1..], query);
      if Operands(ops[0]) !! a then a else a + Operands(ops[0])
  }

  predicate Kept(ops: seq<Operation>, query: set<nat>, i: nat)
    requires i < |ops|
  {
    !(Operands(ops[i]) !! Active(ops[i + 1..], query))
  }

  /** The retained operations, in circuit order. */
  function Slice(ops: seq<Operation>, query: set<nat>): seq<Operation> {
    if ops == [] then []
    else (if Kept(ops, query, 0) then [ops[0]] else []) + Slice(ops[1..], query)
  }

  method NaiveCausalCount(qubits: nat, operations: seq<Operation>, query: nat) returns (retained: nat)
    requires query < qubits && Fits(operations, qubits)
    ensures retained == |Slice(operations, {query})|
  {
    var active := new bool[qubits](_ => false);
    active[query] := true;
    retained := 0;
    var cursor := |operations|;
    assert operations[cursor..] == [];
    while cursor > 0
      invariant 0 <= cursor <= |operations|
      invariant forall q :: 0 <= q < qubits ==> active[q] == (q in Active(operations[cursor..], {query}))
      invariant retained == |Slice(operations[cursor..], {query})|
    {
      cursor := cursor - 1;
      var operation := operations[cursor];
      assert operations[cursor..][0] == operation && operations[cursor..][1..] == operations[cursor + 1..];
      var first := operation.first;
      if TwoQubit(operation.code) {
        var second := operation.second;
        if active[first] || active[second] {
          active[first] := true;
          active[second] := true;
          retained := retained + 1;
        }
      } else if active[first] {
        retained := retained + 1;
      }
    }
    assert operations[0..] == operations;
  }

  // ---------------------------------------------------------------- what the slice preserves

  /** Any meaning in which an operation reads and writes only its own operands. */
  datatype Semantics<!V> = Semantics(
    one: (OperationCode, Parameter, V) -> V,
    two: (OperationCode, Parameter, V, V) -> (V, V))

  function Apply<V>(m: Semantics<V>, op: Operation, s: seq<V>): (t: seq<V>)
    requires op.first < |s| && (TwoQubit(op.code) ==> op.second < |s|)
    ensures |t| == |s|
  {
    if TwoQubit(op.code) then
      var (a, b) := m.two(op.code, op.parameter, s[op.first], s[op.second]);
      s[op.first := a][op.second := b]
    else s[op.first := m.one(op.code, op.parameter, s[op.first])]
  }

  function Run<V>(m: Semantics<V>, ops: seq<Operation>, s: seq<V>): (t: seq<V>)
    requires Fits(ops, |s|)
    ensures |t| == |s|
  {
    if ops == [] then s else Run(m, ops[1..], Apply(m, ops[0], s))
  }

  lemma {:induction false} SliceFits(ops: seq<Operation>, query: set<nat>, qubits: nat)
    requires Fits(ops, qubits)
    ensures Fits(Slice(ops, query), qubits)
  {
    if ops != [] { SliceFits(ops[1..], query, qubits); }
  }

  /** Two states that agree on the light cone give the query qubits the same
      final values, one under the whole circuit and one under the slice. */
  lemma {:induction false} ConeDetermines<V>(m: Semantics<V>, ops: seq<Operation>, query: set<nat>, s: seq<V>,
    t: seq<V>)
    requires |s| == |t| && Fits(ops, |s|) && Fits(Slice(ops, query), |s|)
    requires forall q :: q in query ==> q < |s|
    requires forall a :: a in Active(ops, query) && a < |s| ==> s[a] == t[a]
    ensures forall q :: q in query ==> Run(m, ops, s)[q] == Run(m, Slice(ops, query), t)[q]
  {
    if ops == [] {
    } else {
      var op, rest := ops[0], ops[1..];
      SliceFits(rest, query, |s|);
      if Kept(ops, query, 0) {
        assert Slice(ops, query)[1..] == Slice(rest, query);
        ConeDetermines(m, rest, query, Apply(m, op, s), Apply(m, op, t));
      } else {
        assert Slice(ops, query) == Slice(rest, query);
        ConeDetermines(m, rest, query, Apply(m, op, s), t);
      }
    }
  }

  /** Deleting every operation that the pass does not retain leaves the query
      qubits' final values unchanged, from every initial state. */
  lemma SlicePreservesQuery<V>(m: Semantics<V>, ops: seq<Operation>, query: set<nat>, s: seq<V>)
    requires Fits(ops, |s|) && forall q :: q in query ==> q < |s|
    ensures Fits(Slice(ops, query), |s|)
    ensures forall q :: q in query ==> Run(m, ops, s)[q] == Run(m, Slice(ops, query), s)[q]
  {
    SliceFits(ops, query, |s|);
    ConeDetermines(m, ops, query, s, s);
  }

  /** Conjugation of observables by gates: a gate fixes every observable whose
      support misses its operands, and grows a support by its operands at most. */
  ghost predicate Local<O(!new)>(conjugate: (Operation, O) -> O, support: O -> set<nat>) {
    && (forall op, o :: support(o) !! Operands(op) ==> conjugate(op, o) == o)
    && (forall op, o :: support(conjugate(op, o)) <= support(o) + Operands(op))
  }

  /** The observable pulled back through the circuit, last gate first. */
  function PullBack<O>(conjugate: (Operation, O) -> O, ops: seq<Operation>, o: O): O {
    if ops == [] then o else conjugate(ops[0], PullBack(conjugate, ops[1..], o))
  }

  /** The same in the Heisenberg picture, where gates may entangle: the pulled
      back observable, hence its expectation in every state, is unchanged. */
  lemma {:induction false} SlicePreservesObservable<O(!new)>(conjugate: (Operation, O) -> O,
    support: O -> set<nat>, ops: seq<Operation>, query: set<nat>, o: O)
    requires Local(conjugate, support) && support(o) <= query
    ensures PullBack(conjugate, Slice(ops, query), o) == PullBack(conjugate, ops, o)
    ensures support(PullBack(conjugate, ops, o)) <= Active(ops, query)
  {
    if ops != [] {
      SlicePreservesObservable(conjugate, support, ops[1..], query, o);
      if Kept(ops, query, 0) {
        assert Slice(ops, query)[1..] == Slice(ops[1..], query);
      } else {
        assert Slice(ops, query) == Slice(ops[1..], query);
      }
    }
  }

  // ---------------------------------------------------------------- reachability

  /** A worldline visits one qubit between consecutive operations and changes
      qubit only across a two-qubit operation that acts on both. */
  ghost predicate Worldline(ops: seq<Operation>, w: seq<nat>, from: nat, to: nat) {
    && |w| == |ops| + 1 && w[0] == from && w[|ops|] == to
    && forall i :: 0 <= i < |ops| ==> w[i] == w[i + 1] || (w[i] in Operands(ops[i]) && w[i + 1] in Operands(ops[i]))
  }

  /** The active set is exactly the set of qubits with a worldline into the query. */
  lemma {:induction false} ActiveIsReachable(ops: seq<Operation>, query: set<nat>, a: nat)
    ensures a in Active(ops, query) <==> exists w, q :: q in query && Worldline(ops, w, a, q)
  {
    if a in Active(ops, query) { WorldlineExists(ops, query, a); }
    forall w, q | q in query && Worldline(ops, w, a, q) ensures a in Active(ops, query) {
      WorldlineActive(ops, query, w, a, q);
    }
  }

  lemma {:induction false} WorldlineActive(ops: seq<Operation>, query: set<nat>, w: seq<nat>, a: nat, q: nat)
    requires q in query && Worldline(ops, w, a, q)
    ensures a in Active(ops, query)
  {
    if ops != [] {
      WorldlineActive(ops[1..], query, w[1..], w[1], q);
    }
  }

  lemma {:induction false} WorldlineExists(ops: seq<Operation>, query: set<nat>, a: nat)
    requires a in Active(ops, query)
    ensures exists w, q :: q in query && Worldline(ops, w, a, q)
  {
    if ops == [] {
      assert Worldline(ops, [a], a, a);
    } else {
      var rest := Active(ops[1..], query);
      var b := if a in rest then a else var b :| b in Operands(ops[0]) && b in rest; b;
      WorldlineExists(ops[1..], query, b);
      var w, q :| q in query && Worldline(ops[1..], w, b, q);
      assert Worldline(ops, [a] + w, a, q);
    }
  }

  // ---------------------------------------------------------------- concatenation and the layered carrier

  lemma {:induction false} Concatenate(a: seq<Operation>, b: seq<Operation>, query: set<nat>)
    ensures Active(a + b, query) == Active(a, Active(b, query))
    ensures |Slice(a + b, query)| == |Slice(a, Active(b, query))| + |Slice(b, query)|
  {
    if a == [] {
      assert a + b == b;
    } else {
      Concatenate(a[1..], b, query);
      assert (a + b)[1..] == a[1..] + b;
    }
  }

  /** The wires 0, …, m. */
  function Upto(m: nat): set<nat> {
    if m == 0 then {0} else Upto(m - 1) + {m}
  }

  lemma {:induction false} UptoHolds(m: nat, q: nat)
    ensures q in Upto(m) <==> q <= m
  {
    if m > 0 { UptoHolds(m - 1, q); }
  }

  /** A gate on wires j, j+1 meets {0..k} exactly when j <= k. */
  lemma UptoTouch(k: nat, j: nat)
    ensures {j, j + 1} !! Upto(k) <==> k < j
    ensures j < k ==> Upto(k) + {j, j + 1} == Upto(k)
    ensures j == k ==> Upto(k) + {j, j + 1} == Upto(k + 1)
  {
    UptoHolds(k, j);
    UptoHolds(k, j + 1);
  }

  function Prefix(h: nat): seq<Operation> { seq(h, _ => Gate(H, 0)) }

  /** CNOTs from wire k to k+1 for k = j, …, n-2. */
  function ChainFrom(j: nat, n: nat): seq<Operation>
    decreases n - j
  {
    if j + 1 >= n then [] else [Operation(Cnot, j, j + 1, Finite(0.0))] + ChainFrom(j + 1, n)
  }

  function Layers(count: nat, n: nat): seq<Operation> {
    if count == 0 then [] else Layers(count - 1, n) + ChainFrom(0, n)
  }

  function Carrier(h: nat, layers: nat, n: nat): seq<Operation> { Prefix(h) + Layers(layers, n) }

  lemma {:induction false} ChainAt(j: nat, n: nat, q: nat)
    requires j < n
    ensures |ChainFrom(j, n)| == n - 1 - j
    ensures q < n - 1 - j ==> ChainFrom(j, n)[q] == Operation(Cnot, j + q, j + q + 1, Finite(0.0))
    decreases n - j
  {
    if j + 1 < n { ChainAt(j + 1, n, if q == 0 then 0 else q - 1); }
  }

  lemma {:induction false} LayersAt(count: nat, n: nat, l: nat, q: nat)
    requires n > 0
    ensures |Layers(count, n)| == count * (n - 1)
    ensures l < count && q < n - 1 ==> l * (n - 1) + q < count * (n - 1)
    ensures l < count && q < n - 1 ==> Layers(count, n)[l * (n - 1) + q] == Operation(Cnot, q, q + 1, Finite(0.0))
    decreases count
  {
    if count > 0 {
      LayersAt(count - 1, n, l, q);
      ChainAt(0, n, q);
      assert count * (n - 1) == (count - 1) * (n - 1) + (n - 1);
    }
  }

  /** The carrier by position: h Hadamards on wire 0, then layer by layer CNOTs down the wires. */
  lemma CarrierAt(h: nat, layers: nat, n: nat, i: nat, l: nat, q: nat)
    requires n > 0
    ensures |Carrier(h, layers, n)| == h + layers * (n - 1)
    ensures i < h ==> Carrier(h, layers, n)[i] == Gate(H, 0)
    ensures l < layers && q < n - 1 ==> l * (n - 1) + q < layers * (n - 1)
    ensures l < layers && q < n - 1 ==>
      Carrier(h, layers, n)[h + (l * (n - 1) + q)] == Operation(Cnot, q, q + 1, Finite(0.0))
  {
    LayersAt(layers, n, l, q);
  }

  method BuildCarrier(h: nat, layers: nat, qubits: nat) returns (operations: seq<Operation>)
    ensures operations == Carrier(h, layers, qubits)
  {
    operations := [];
    for index := 0 to h
      invariant operations == Prefix(index)
    {
      operations := operations + [Gate(H, 0)];
    }
    for layer := 0 to layers
      invariant operations == Carrier(h, layer, qubits)
    {
      ghost var before := operations;
      var qubit := 0;
      while qubit + 1 < qubits
        invariant 0 <= qubit && (qubit + 1 <= qubits || qubit == 0)
        invariant operations + ChainFrom(qubit, qubits) == before + ChainFrom(0, qubits)
      {
        operations := operations + [Operation(Cnot, qubit, qubit + 1, Finite(0.0))];
        qubit := qubit + 1;
      }
      assert operations == before + ChainFrom(0, qubits);
    }
  }

  function Least(a: nat, b: nat): nat { if a <= b then a else b }

  /** One layer widens the cone {0..m} by one wire and retains its first gates. */
  lemma {:induction false} LayerCone(j: nat, n: nat, m: nat)
    requires 0 < n && j < n && m < n
    ensures Active(ChainFrom(j, n), Upto(m)) == (if j <= m then Upto(Least(m + 1, n - 1)) else Upto(m))
    ensures |Slice(ChainFrom(j, n), Upto(m))| == (if j <= m then Least(m + 1, n - 1) - j else 0)
    decreases n - j
  {
    if j + 1 < n {
      LayerCone(j + 1, n, m);
      FirstGate(j, n, if j + 1 <= m then Least(m + 1, n - 1) else m, Upto(m));
    }
  }

  /** The chain's first gate on an active set {0..k} of the gates behind it. */
  lemma FirstGate(j: nat, n: nat, k: nat, query: set<nat>)
    requires j + 1 < n && Active(ChainFrom(j + 1, n), query) == Upto(k)
    ensures k < j ==> Active(ChainFrom(j, n), query) == Upto(k)
    ensures k == j ==> Active(ChainFrom(j, n), query) == Upto(j + 1)
    ensures j < k ==> Active(ChainFrom(j, n), query) == Upto(k)
    ensures |Slice(ChainFrom(j, n), query)| == |Slice(ChainFrom(j + 1, n), query)| + (if j <= k then 1 else 0)
  {
    assert ChainFrom(j, n)[1..] == ChainFrom(j + 1, n);
    assert Operands(ChainFrom(j, n)[0]) == {j, j + 1};
    UptoTouch(k, j);
  }

  /** Gates retained by `layers` layers: 1 + 2 + … capped at the layer's own length. */
  function Retained(layers: nat, n: nat): nat
    requires n > 0
  {
    if layers == 0 then 0 else Retained(layers - 1, n) + Least(layers, n - 1)
  }

  /** The cone of `layers` layers, read from the end of the circuit. */
  lemma {:induction false} LayersCone(layers: nat, n: nat, m: nat)
    requires m < n
    ensures Active(Layers(layers, n), Upto(m)) == Upto(Least(m + layers, n - 1))
    ensures |Slice(Layers(layers, n), Upto(m))| == RetainedFrom(layers, n, m)
  {
    if layers > 0 {
      LayersCone(layers - 1, n, Least(m + 1, n - 1));
      LastLayer(layers, n, m);
    }
  }

  lemma LastLayer(layers: nat, n: nat, m: nat)
    requires m < n && layers > 0
    ensures Active(Layers(layers, n), Upto(m)) == Active(Layers(layers - 1, n), Upto(Least(m + 1, n - 1)))
    ensures |Slice(Layers(layers, n), Upto(m))| ==
      |Slice(Layers(layers - 1, n), Upto(Least(m + 1, n - 1)))| + Least(m + 1, n - 1)
  {
    LayerCone(0, n, m);
    Concatenate(Layers(layers - 1, n), ChainFrom(0, n), Upto(m));
  }

  function RetainedFrom(layers: nat, n: nat, m: nat): nat
    requires m < n
  {
    if layers == 0 then 0 else Least(m + 1, n - 1) + RetainedFrom(layers - 1, n, Least(m + 1, n - 1))
  }

  lemma {:induction false} RetainedFromSum(layers: nat, n: nat, m: nat)
    requires m < n
    ensures RetainedFrom(layers, n, m) + Retained(m, n) == Retained(m + layers, n)
    decreases layers
  {
    if layers > 0 {
      if m + 1 < n {
        RetainedFromSum(layers - 1, n, m + 1);
      } else {
        RetainedFromSum(layers - 1, n, m);
        Saturated(m + layers - 1, n);
      }
    }
  }

  lemma Saturated(k: nat, n: nat)
    requires n > 0 && k + 1 >= n
    ensures Retained(k + 1, n) == Retained(k, n) + n - 1
  {
  }

  lemma {:induction false} PrefixCone(h: nat, m: nat)
    ensures Active(Prefix(h), Upto(m)) == Upto(m) && |Slice(Prefix(h), Upto(m))| == h
  {
    if h > 0 {
      UptoHolds(m, 0);
      assert Prefix(h)[1..] == Prefix(h - 1);
      PrefixCone(h - 1, m);
    }
  }

  /** The capped sum is triangular exactly while no layer is capped. */
  lemma {:induction false} Triangle(layers: nat, n: nat)
    requires n > 0
    ensures 2 * Retained(layers, n) <= layers * (layers + 1)
    ensures 2 * Retained(layers, n) == layers * (layers + 1) <==> layers < n
  {
    if layers > 0 {
      Triangle(layers - 1, n);
      assert layers * (layers + 1) == (layers - 1) * layers + 2 * layers;
    }
  }

  lemma {:induction false} EvenProduct(k: nat)
    ensures (k * (k + 1)) % 2 == 0
  {
    if k > 0 {
      EvenProduct(k - 1);
      assert k * (k + 1) == (k - 1) * k + 2 * k;
    }
  }

  lemma CapShows(layers: nat, n: nat)
    requires n > 0
    ensures Retained(layers, n) == layers * (layers + 1) / 2 <==> layers <= n - 1
  {
    Triangle(layers, n);
    EvenProduct(layers);
  }

  lemma ConeStart(layers: nat, n: nat)
    requires n > 0
    ensures Active(Layers(layers, n), {0}) == Upto(Least(layers, n - 1))
    ensures |Slice(Layers(layers, n), {0})| == RetainedFrom(layers, n, 0)
  {
    assert Upto(0) == {0};
    LayersCone(layers, n, 0);
  }

  /** The carrier's active set for qubit 0: the wires the layers have reached. */
  lemma CarrierActive(h: nat, layers: nat, n: nat)
    requires n > 0
    ensures Active(Carrier(h, layers, n), {0}) == Upto(Least(layers, n - 1))
  {
    ConeStart(layers, n);
    PrefixCone(h, Least(layers, n - 1));
    Concatenate(Prefix(h), Layers(layers, n), {0});
  }

  lemma CarrierRetained(h: nat, layers: nat, n: nat)
    requires n > 0
    ensures |Slice(Carrier(h, layers, n), {0})| == h + RetainedFrom(layers, n, 0)
  {
    ConeStart(layers, n);
    PrefixCone(h, Least(layers, n - 1));
    Concatenate(Prefix(h), Layers(layers, n), {0});
  }

  /** What the pass counts on the carrier; the closed form is that count exactly while
      the cone has not outgrown the register. */
  lemma CarrierCount(h: nat, layers: nat, n: nat)
    requires n > 0
    ensures |Slice(Carrier(h, layers, n), {0})| == h + Retained(layers, n)
    ensures |Slice(Carrier(h, layers, n), {0})| == h + layers * (layers + 1) / 2 <==> layers <= n - 1
  {
    CarrierRetained(h, layers, n);
    RetainedFromSum(layers, n, 0);
    CapShows(layers, n);
  }
}
