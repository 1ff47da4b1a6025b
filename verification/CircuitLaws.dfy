/** What the operation codes mean, code by code, and that the classifications the
    slicer rests on agree with it. */
module CircuitLaws {
  import opened Causal
  import opened Circuits

  /** The meaning of each kind of code; every gate may be any function. */
  datatype Gates<!V> = Gates(
    fixed: (OperationCode, V) -> V,
    turned: (OperationCode, Parameter, V) -> V,
    noisy: (OperationCode, Parameter, V) -> V,
    controlled: (V, V) -> (V, V),
    phased: (V, V) -> (V, V))

  predicate OnRegister(op: Operation, n: nat) {
    match op.code
    case Cnot => op.first < n && op.second < n
    case Cz => op.first < n && op.second < n
    case Swap => op.first < n && op.second < n
    case _ => op.first < n
  }

  /** One operation, read off its code: a swap exchanges two wires, a controlled gate
      reads and writes both, every other code touches its first wire only. */
  function StepByCode<V>(g: Gates<V>, op: Operation, s: seq<V>): (t: seq<V>)
    requires OnRegister(op, |s|)
    ensures |t| == |s|
  {
    match op.code
    case Swap => s[op.first := s[op.second]][op.second := s[op.first]]
    case Cnot => var (a, b) := g.controlled(s[op.first], s[op.second]); s[op.first := a][op.second := b]
    case Cz => var (a, b) := g.phased(s[op.first], s[op.second]); s[op.first := a][op.second := b]
    case Rx => s[op.first := g.turned(Rx, op.parameter, s[op.first])]
    case Ry => s[op.first := g.turned(Ry, op.parameter, s[op.first])]
    case Rz => s[op.first := g.turned(Rz, op.parameter, s[op.first])]
    case BitFlipTrajectory => s[op.first := g.noisy(op.code, op.parameter, s[op.first])]
    case PhaseFlipTrajectory => s[op.first := g.noisy(op.code, op.parameter, s[op.first])]
    case DepolarizingTrajectory => s[op.first := g.noisy(op.code, op.parameter, s[op.first])]
    case AmplitudeDampingTrajectory => s[op.first := g.noisy(op.code, op.parameter, s[op.first])]
    case _ => s[op.first := g.fixed(op.code, s[op.first])]
  }

  predicate AllOnRegister(ops: seq<Operation>, n: nat) { forall i :: 0 <= i < |ops| ==> OnRegister(ops[i], n) }

  function RunByCode<V>(g: Gates<V>, ops: seq<Operation>, s: seq<V>): (t: seq<V>)
    requires AllOnRegister(ops, |s|)
    ensures |t| == |s|
  {
    if ops == [] then s else RunByCode(g, ops[1..], StepByCode(g, ops[0], s))
  }

  // ---------------------------------------------------------------- the slicer's reading of the codes

  function OneWire<V>(g: Gates<V>): (OperationCode, Parameter, V) -> V {
    (code: OperationCode, p: Parameter, v: V) =>
      match code
      case Rx => g.turned(code, p, v)
      case Ry => g.turned(code, p, v)
      case Rz => g.turned(code, p, v)
      case BitFlipTrajectory => g.noisy(code, p, v)
      case PhaseFlipTrajectory => g.noisy(code, p, v)
      case DepolarizingTrajectory => g.noisy(code, p, v)
      case AmplitudeDampingTrajectory => g.noisy(code, p, v)
      case _ => g.fixed(code, v)
  }

  function TwoWires<V>(g: Gates<V>): (OperationCode, Parameter, V, V) -> (V, V) {
    (code: OperationCode, p: Parameter, v: V, w: V) =>
      match code
      case Cnot => g.controlled(v, w)
      case Cz => g.phased(v, w)
      case _ => (w, v)
  }

  function AsSemantics<V>(g: Gates<V>): Semantics<V> { Semantics(OneWire(g), TwoWires(g)) }

  lemma RegisterFits(ops: seq<Operation>, n: nat)
    ensures AllOnRegister(ops, n) <==> Fits(ops, n)
  {
    forall i | 0 <= i < |ops|
      ensures OnRegister(ops[i], n) <==> ops[i].first < n && (TwoQubit(ops[i].code) ==> ops[i].second < n)
    {
    }
    if AllOnRegister(ops, n) {
      forall i | 0 <= i < |ops| ensures ops[i].first < n && (TwoQubit(ops[i].code) ==> ops[i].second < n) {
        assert OnRegister(ops[i], n);
      }
    }
  }

  lemma StepsAgree<V>(g: Gates<V>, op: Operation, s: seq<V>)
    requires OnRegister(op, |s|)
    ensures TwoQubit(op.code) ==> op.second < |s|
    ensures StepByCode(g, op, s) == Apply(AsSemantics(g), op, s)
  {
  }

  lemma {:induction false} RunsAgree<V>(g: Gates<V>, ops: seq<Operation>, s: seq<V>)
    requires AllOnRegister(ops, |s|)
    ensures Fits(ops, |s|) && RunByCode(g, ops, s) == Run(AsSemantics(g), ops, s)
    decreases |ops|
  {
    RegisterFits(ops, |s|);
    if ops != [] {
      assert OnRegister(ops[0], |s|);
      StepsAgree(g, ops[0], s);
      RunsAgree(g, ops[1..], StepByCode(g, ops[0], s));
    }
  }

  /** Whatever the gates mean, the slice keeps every query value of a run by code. */
  lemma SliceKeepsRunByCode<V>(g: Gates<V>, ops: seq<Operation>, query: set<nat>, s: seq<V>)
    requires AllOnRegister(ops, |s|) && forall q :: q in query ==> q < |s|
    ensures AllOnRegister(Slice(ops, query), |s|)
    ensures forall q :: q in query ==> RunByCode(g, Slice(ops, query), s)[q] == RunByCode(g, ops, s)[q]
  {
    RunsAgree(g, ops, s);
    SlicePreservesQuery(AsSemantics(g), ops, query, s);
    RegisterFits(Slice(ops, query), |s|);
    RunsAgree(g, Slice(ops, query), s);
  }

  // ---------------------------------------------------------------- the codes one by one

  lemma OneOperation(op: Operation, query: set<nat>)
    ensures Active([op], query) == (if Operands(op) !! query then query else query + Operands(op))
  {
    assert [op][1..] == [];
    assert Active([], query) == query;
  }

  /** Activity crosses a two-wire gate in both directions, and no other code. */
  lemma ActivityCrosses(code: OperationCode, a: nat, b: nat, p: Parameter)
    requires a != b
    ensures a in Active([Operation(code, a, b, p)], {b}) <==> code.Cnot? || code.Cz? || code.Swap?
    ensures b in Active([Operation(code, a, b, p)], {a}) <==> code.Cnot? || code.Cz? || code.Swap?
  {
    OneOperation(Operation(code, a, b, p), {a});
    OneOperation(Operation(code, a, b, p), {b});
  }

  /** Gates that hand back the parameter they were given. */
  function ShowAngle(): Gates<Parameter> {
    Gates((c: OperationCode, v: Parameter) => v, (c: OperationCode, p: Parameter, v: Parameter) => p,
      (c: OperationCode, p: Parameter, v: Parameter) => v, (v: Parameter, w: Parameter) => (v, w),
      (v: Parameter, w: Parameter) => (v, w))
  }

  function ShowNoise(): Gates<Parameter> {
    ShowAngle().(turned := (c: OperationCode, p: Parameter, v: Parameter) => v,
      noisy := (c: OperationCode, p: Parameter, v: Parameter) => p)
  }

  /** The rotations are the codes whose gate may read the angle, and the trajectories
      those whose noise may read it; each can show on the first wire. */
  lemma ParameterReaders(code: OperationCode, v: Parameter, w: Parameter, p: Parameter)
    requires p != v && v == w
    ensures Rotation(code) <==> StepByCode(ShowAngle(), Operation(code, 0, 1, p), [v, w]) != [v, w]
    ensures Trajectory(code) <==> StepByCode(ShowNoise(), Operation(code, 0, 1, p), [v, w]) != [v, w]
  {
    assert [v, w][0 := p][0] == p;
    assert [v, w][0 := v] == [v, w];
    assert [v, w][0 := w][1 := v] == [v, w];
    assert [v, w][0 := v][1 := w] == [v, w];
  }

  /** A gate before a swap reaches the query through it: both operations are kept. */
  lemma SwapBringsItsPartner(p: Parameter)
    ensures Slice([Gate(H, 1), Operation(Swap, 0, 1, p)], {0}) == [Gate(H, 1), Operation(Swap, 0, 1, p)]
  {
    var swap := Operation(Swap, 0, 1, p);
    var ops := [Gate(H, 1), swap];
    assert ops[1..] == [swap] && [swap][1..] == [];
    OneOperation(swap, {0});
    assert Slice([], {0}) == [] && Active([], {0}) == {0};
    assert 0 in Operands(swap) && 1 in Operands(Gate(H, 1)) && 1 in Active([swap], {0});
    assert Slice([swap], {0}) == [swap];
  }
}
