/** The causal operation index: per-wire predecessor links answer a query by a
    depth-first walk, and the slice is renumbered onto the wires it touches.
    The walk selects exactly what the naive backward pass retains. */
module CausalIndex {
  import opened Causal
  import opened Circuits
  import opened Outcomes

  datatype Link = Nowhere | At(index: nat)

  datatype Index = Index(
    qubits: nat,
    operations: seq<Operation>,
    predecessors: seq<(Link, Link)>,
    lastOperation: seq<Link>)

  datatype CausalSlice = CausalSlice(globalQubits: seq<nat>, localQuery: seq<nat>, operations: seq<Operation>)

  /** The last operation before position k that touches wire b. */
  function LastTouch(ops: seq<Operation>, k: nat, b: nat): (l: Link)
    requires k <= |ops|
    ensures l.At? ==> l.index < k && b in Operands(ops[l.index])
    ensures forall i :: 0 <= i < k && (l.At? ==> l.index < i) ==> b !in Operands(ops[i])
  {
    if k == 0 then Nowhere
    else if b in Operands(ops[k - 1]) then At(k - 1)
    else LastTouch(ops, k - 1, b)
  }

  function Predecessors(ops: seq<Operation>, i: nat): (Link, Link)
    requires i < |ops|
  {
    (LastTouch(ops, i, ops[i].first), if TwoQubit(ops[i].code) then LastTouch(ops, i, ops[i].second) else Nowhere)
  }

  ghost predicate Valid(x: Index) {
    && |x.predecessors| == |x.operations| && |x.lastOperation| == x.qubits
    && (forall i :: 0 <= i < |x.operations| ==> Acceptable(x.operations[i], x.qubits))
    && (forall i :: 0 <= i < |x.operations| ==> x.predecessors[i] == Predecessors(x.operations, i))
    && (forall b :: 0 <= b < x.qubits ==> x.lastOperation[b] == LastTouch(x.operations, |x.operations|, b))
  }

  /** Recording an operation on its operands advances every wire's last touch. */
  lemma TouchStep(ops: seq<Operation>, index: nat, before: seq<Link>, after: seq<Link>)
    requires index < |ops| && |before| == |after| && ops[index].first < |before|
    requires (TwoQubit(ops[index].code) ==> ops[index].second < |before|)
    requires forall b :: 0 <= b < |before| ==> before[b] == LastTouch(ops, index, b)
    requires after ==
      (if TwoQubit(ops[index].code) then before[ops[index].second := At(index)]
      else before)[ops[index].first := At(index)]
    ensures forall b :: 0 <= b < |after| ==> after[b] == LastTouch(ops, index + 1, b)
  {
  }

  /** Accepts exactly the unitary operations on the register; says if two-qubit. */
  method ValidateOperation(operation: Operation, qubits: nat) returns (r: Outcome<bool>)
    ensures r.Success? <==> Acceptable(operation, qubits)
    ensures r.Success? ==> r.value == TwoQubit(operation.code)
  {
    if operation.first >= qubits {
      return Thrown("Causal index operation target is out of range");
    }
    var pair := TwoQubit(operation.code);
    if pair && (operation.second >= qubits || operation.first == operation.second) {
      return Thrown("Causal index two-qubit operation support is invalid");
    }
    if Rotation(operation.code) && operation.parameter.NonFinite? {
      return Thrown("Causal index rotation parameter must be finite");
    }
    if Trajectory(operation.code) {
      return Thrown("Causal index supports unitary circuit operations only");
    }
    return Success(pair);
  }

  method BuildIndex(qubits: nat, operations: seq<Operation>) returns (r: Outcome<Index>)
    ensures r.Success? <==> qubits > 0 && forall i :: 0 <= i < |operations| ==> Acceptable(operations[i], qubits)
    ensures r.Success? ==> Valid(r.value) && r.value.qubits == qubits && r.value.operations == operations
  {
    if qubits == 0 {
      return Thrown("Causal index qubit count is zero or exceeds configured/index cap");
    }
    var last: seq<Link> := seq(qubits, _ => Nowhere);
    var predecessors: seq<(Link, Link)> := [];
    for index := 0 to |operations|
      invariant |predecessors| == index && |last| == qubits
      invariant forall i :: 0 <= i < index ==> Acceptable(operations[i], qubits)
      invariant forall i :: 0 <= i < index ==> predecessors[i] == Predecessors(operations, i)
      invariant forall b :: 0 <= b < qubits ==> last[b] == LastTouch(operations, index, b)
    {
      var operation := operations[index];
      var pair := ValidateOperation(operation, qubits);
      if pair.Thrown? {
        return Thrown(pair.message);
      }
      var back := (last[operation.first], Nowhere);
      ghost var before := last;
      if pair.value {
        back := (back.0, last[operation.second]);
        last := last[operation.second := At(index)];
      }
      last := last[operation.first := At(index)];
      TouchStep(operations, index, before, last);
      predecessors := predecessors + [back];
    }
    return Success(Index(qubits, operations, predecessors, last));
  }

  // ---------------------------------------------------------------- what the walk selects

  ghost predicate LinkIn(l: Link, v: set<nat>) { l.At? ==> l.index in v }

  /** Holds every terminal of the query and every predecessor of its members. */
  ghost predicate Closed(x: Index, query: set<nat>, v: set<nat>)
    requires Valid(x)
  {
    && (forall q :: q in query && q < x.qubits ==> LinkIn(x.lastOperation[q], v))
    && (forall i :: i in v && i < |x.operations| ==>
          LinkIn(x.predecessors[i].0, v) && LinkIn(x.predecessors[i].1, v))
  }

  ghost predicate WithinCone(x: Index, query: set<nat>, v: set<nat>) {
    forall i :: i in v ==> i < |x.operations| && Kept(x.operations, query, i)
  }

  /** A wire active just before position k was last touched by a retained operation. */
  lemma {:induction false} TouchKept(ops: seq<Operation>, query: set<nat>, k: nat, b: nat)
    requires k <= |ops| && b in Active(ops[k..], query)
    ensures var l := LastTouch(ops, k, b); l.At? ==> Kept(ops, query, l.index)
    decreases k
  {
    if k > 0 {
      assert ops[k - 1..][0] == ops[k - 1] && ops[k - 1..][1..] == ops[k..];
      if b !in Operands(ops[k - 1]) { TouchKept(ops, query, k - 1, b); }
    }
  }

  lemma PredecessorsKept(x: Index, query: set<nat>, i: nat)
    requires Valid(x) && i < |x.operations| && Kept(x.operations, query, i)
    ensures forall l :: (l == x.predecessors[i].0 || l == x.predecessors[i].1) && l.At? ==>
              l.index < |x.operations| && Kept(x.operations, query, l.index)
  {
    var ops := x.operations;
    assert ops[i..][0] == ops[i] && ops[i..][1..] == ops[i + 1..];
    assert x.predecessors[i] == Predecessors(ops, i);
    TouchKept(ops, query, i, ops[i].first);
    if TwoQubit(ops[i].code) { TouchKept(ops, query, i, ops[i].second); }
  }

  /** Whatever is closed contains the last touch of every active wire. */
  lemma {:induction false} ClosedHasTouch(x: Index, query: set<nat>, v: set<nat>, k: nat, b: nat)
    requires Valid(x) && Closed(x, query, v) && k <= |x.operations| && b < x.qubits
    requires b in Active(x.operations[k..], query)
    ensures LinkIn(LastTouch(x.operations, k, b), v)
    decreases |x.operations| - k
  {
    var ops := x.operations;
    if k == |ops| {
      assert ops[k..] == [];
      assert x.lastOperation[b] == LastTouch(ops, k, b);
    } else {
      assert ops[k..][0] == ops[k] && ops[k..][1..] == ops[k + 1..];
      assert Acceptable(ops[k], x.qubits);
      if b in Operands(ops[k]) {
        var c :| c in Operands(ops[k]) && c in Active(ops[k + 1..], query);
        ClosedHasTouch(x, query, v, k + 1, c);
        assert LastTouch(ops, k + 1, c) == At(k);
        assert x.predecessors[k] == Predecessors(ops, k);
      } else {
        ClosedHasTouch(x, query, v, k + 1, b);
      }
    }
  }

  /** A closed set inside the cone is the cone. */
  lemma ClosedIsCone(x: Index, query: set<nat>, v: set<nat>, i: nat)
    requires Valid(x) && Closed(x, query, v) && i < |x.operations| && Kept(x.operations, query, i)
    ensures i in v
  {
    var ops := x.operations;
    assert Acceptable(ops[i], x.qubits);
    var c :| c in Operands(ops[i]) && c in Active(ops[i + 1..], query);
    ClosedHasTouch(x, query, v, i + 1, c);
  }

  /** Every link out of `v` and every terminal is in `v` or still on the stack. */
  ghost predicate Pending(x: Index, query: set<nat>, v: set<nat>, stack: seq<nat>)
    requires Valid(x)
  {
    && (forall q :: q in query && q < x.qubits ==> LinkIn(x.lastOperation[q], v + Elements(stack)))
    && (forall i :: i in v && i < |x.operations| ==>
          LinkIn(x.predecessors[i].0, v + Elements(stack)) && LinkIn(x.predecessors[i].1, v + Elements(stack)))
  }

  function Elements(s: seq<nat>): set<nat> { set i | i in s }

  /** Every index below n. */
  function Below(n: nat): set<nat> {
    if n == 0 then {} else Below(n - 1) + {n - 1}
  }

  lemma {:induction false} BelowHolds(n: nat, i: nat)
    ensures i in Below(n) <==> i < n
  {
    if n > 0 { BelowHolds(n - 1, i); }
  }

  function Pushed(stack: seq<nat>, l: Link): seq<nat> {
    if l.At? then stack + [l.index] else stack
  }

  lemma PushedElements(stack: seq<nat>, l: Link)
    ensures Elements(Pushed(stack, l)) == Elements(stack) + (if l.At? then {l.index} else {})
  {
  }

  /** A visited top can simply be dropped. */
  lemma DropStep(x: Index, query: set<nat>, v: set<nat>, stack: seq<nat>, index: nat)
    requires Valid(x) && WithinCone(x, query, Elements(stack + [index])) && Pending(x, query, v, stack + [index])
    requires index in v
    ensures Pending(x, query, v, stack) && WithinCone(x, query, Elements(stack))
  {
    assert Elements(stack + [index]) == Elements(stack) + {index};
    assert v + Elements(stack + [index]) == v + Elements(stack);
  }

  /** The stack after the top is visited: its two predecessors pushed. */
  function Advanced(x: Index, stack: seq<nat>, index: nat): seq<nat>
    requires index < |x.predecessors|
  {
    Pushed(Pushed(stack, x.predecessors[index].0), x.predecessors[index].1)
  }

  lemma AdvancedElements(x: Index, stack: seq<nat>, index: nat)
    requires index < |x.predecessors|
    ensures var back := x.predecessors[index];
      Elements(Advanced(x, stack, index)) ==
        Elements(stack) + (if back.0.At? then {back.0.index} else {}) + (if back.1.At? then {back.1.index} else {})
  {
    PushedElements(stack, x.predecessors[index].0);
    PushedElements(Pushed(stack, x.predecessors[index].0), x.predecessors[index].1);
  }

  /** Pushing a retained link keeps the stack inside the cone. */
  lemma PushStaysInside(x: Index, query: set<nat>, stack: seq<nat>, l: Link)
    requires WithinCone(x, query, Elements(stack))
    requires l.At? ==> l.index < |x.operations| && Kept(x.operations, query, l.index)
    ensures WithinCone(x, query, Elements(Pushed(stack, l)))
  {
    PushedElements(stack, l);
  }

  lemma VisitStaysInside(x: Index, query: set<nat>, v: set<nat>, stack: seq<nat>, index: nat)
    requires Valid(x) && WithinCone(x, query, v) && WithinCone(x, query, Elements(stack + [index]))
    ensures index < |x.operations|
    ensures WithinCone(x, query, v + {index}) && WithinCone(x, query, Elements(Advanced(x, stack, index)))
  {
    assert Elements(stack + [index]) == Elements(stack) + {index};
    assert index in Elements(stack + [index]);
    var back := x.predecessors[index];
    PredecessorsKept(x, query, index);
    PushStaysInside(x, query, stack, back.0);
    PushStaysInside(x, query, Pushed(stack, back.0), back.1);
  }

  /** Visiting the top of the stack keeps every obligation. */
  lemma VisitStep(x: Index, query: set<nat>, v: set<nat>, stack: seq<nat>, index: nat)
    requires Valid(x) && index < |x.operations| && Pending(x, query, v, stack + [index])
    ensures Pending(x, query, v + {index}, Advanced(x, stack, index))
  {
    assert Elements(stack + [index]) == Elements(stack) + {index};
    AdvancedElements(x, stack, index);
  }

  /** What the walk keeps: nothing outside the cone, and every obligation in reach. */
  ghost predicate Sound(x: Index, query: set<nat>, v: set<nat>, stack: seq<nat>)
    requires Valid(x)
  {
    WithinCone(x, query, v) && WithinCone(x, query, Elements(stack)) && Pending(x, query, v, stack)
  }

  lemma DrainedIsCone(x: Index, query: set<nat>, v: set<nat>)
    requires Valid(x) && Sound(x, query, v, [])
    ensures forall i :: 0 <= i < |x.operations| ==> (i in v <==> Kept(x.operations, query, i))
  {
    assert v + Elements([]) == v;
    forall i | 0 <= i < |x.operations| && Kept(x.operations, query, i) ensures i in v {
      ClosedIsCone(x, query, v, i);
    }
  }

  lemma TopStep(x: Index, query: set<nat>, v: set<nat>, stack: seq<nat>, index: nat)
    requires Valid(x) && Sound(x, query, v, stack + [index])
    ensures index in v ==> Sound(x, query, v, stack)
    ensures index < |x.operations| && index in Below(|x.operations|)
    ensures Sound(x, query, v + {index}, Advanced(x, stack, index))
  {
    if index in v { DropStep(x, query, v, stack, index); }
    VisitStaysInside(x, query, v, stack, index);
    VisitStep(x, query, v, stack, index);
    BelowHolds(|x.operations|, index);
  }

  /** Popping a stack and visiting its top, or dropping it, keeps the walk sound; a visit
      leaves fewer operations to visit. */
  lemma PopStep(x: Index, query: set<nat>, v: set<nat>, stack: seq<nat>)
    requires Valid(x) && Sound(x, query, v, stack) && stack != []
    ensures var index, rest := stack[|stack| - 1], stack[..|stack| - 1];
      && index < |x.operations|
      && (index in v ==> Sound(x, query, v, rest))
      && Sound(x, query, v + {index}, Advanced(x, rest, index))
      && (index !in v ==> Below(|x.operations|) - (v + {index}) < Below(|x.operations|) - v)
  {
    var index, rest := stack[|stack| - 1], stack[..|stack| - 1];
    assert stack == rest + [index];
    TopStep(x, query, v, rest, index);
    assert index !in v ==> index in Below(|x.operations|) - v;
  }

  /** The depth-first walk over predecessor links. */
  method Walk(x: Index, terminals: seq<nat>, ghost query: set<nat>) returns (visited: set<nat>)
    requires Valid(x) && Sound(x, query, {}, terminals)
    ensures WithinCone(x, query, visited)
    ensures forall i :: 0 <= i < |x.operations| ==> (i in visited <==> Kept(x.operations, query, i))
  {
    visited := {};
    var stack := terminals;
    while stack != []
      invariant Sound(x, query, visited, stack)
      decreases Below(|x.operations|) - visited, |stack|
    {
      PopStep(x, query, visited, stack);
      var index := stack[|stack| - 1];
      stack := stack[..|stack| - 1];
      if index !in visited {
        visited := visited + {index};
        stack := Advanced(x, stack, index);
      }
    }
    DrainedIsCone(x, query, visited);
  }

  // ---------------------------------------------------------------- the renumbered slice

  /** Members of v in [lo, hi), in increasing order: what sorting distinct indices yields. */
  function Ascending(v: set<nat>, lo: nat, hi: nat): seq<nat>
    decreases hi - lo
  {
    if lo >= hi then [] else (if lo in v then [lo] else []) + Ascending(v, lo + 1, hi)
  }

  lemma {:induction false} AscendingHolds(v: set<nat>, lo: nat, hi: nat)
    ensures forall q :: q in Ascending(v, lo, hi) <==> q in v && lo <= q < hi
    ensures forall i, j :: 0 <= i < j < |Ascending(v, lo, hi)| ==> Ascending(v, lo, hi)[i] < Ascending(v, lo, hi)[j]
    decreases hi - lo
  {
    if lo < hi {
      AscendingHolds(v, lo + 1, hi);
      var rest := Ascending(v, lo + 1, hi);
      forall j | 0 <= j < |rest| ensures lo < rest[j] { assert rest[j] in rest; }
    }
  }

  lemma AscendingBelow(v: set<nat>, lo: nat, hi: nat)
    ensures forall j :: 0 <= j < |Ascending(v, lo, hi)| ==> Ascending(v, lo, hi)[j] < hi
  {
    AscendingHolds(v, lo, hi);
    forall j | 0 <= j < |Ascending(v, lo, hi)| ensures Ascending(v, lo, hi)[j] < hi {
      assert Ascending(v, lo, hi)[j] in Ascending(v, lo, hi);
    }
  }

  function Pick(ops: seq<Operation>, idx: seq<nat>): (r: seq<Operation>)
    requires forall k :: 0 <= k < |idx| ==> idx[k] < |ops|
    ensures |r| == |idx|
  {
    if idx == [] then [] else [ops[idx[0]]] + Pick(ops, idx[1..])
  }

  lemma {:induction false} PickIsSlice(ops: seq<Operation>, query: set<nat>, v: set<nat>, k: nat)
    requires k <= |ops| && forall i :: 0 <= i < |ops| ==> (i in v <==> Kept(ops, query, i))
    ensures forall j :: 0 <= j < |Ascending(v, k, |ops|)| ==> Ascending(v, k, |ops|)[j] < |ops|
    ensures Pick(ops, Ascending(v, k, |ops|)) == Slice(ops[k..], query)
    decreases |ops| - k
  {
    AscendingBelow(v, k, |ops|);
    if k < |ops| {
      PickIsSlice(ops, query, v, k + 1);
      assert ops[k..][0] == ops[k] && ops[k..][1..] == ops[k + 1..];
      if k in v {
        assert Ascending(v, k, |ops|)[1..] == Ascending(v, k + 1, |ops|);
        assert Slice(ops[k..], query) == [ops[k]] + Slice(ops[k + 1..], query);
      } else {
        assert Ascending(v, k, |ops|) == Ascending(v, k + 1, |ops|);
        assert Slice(ops[k..], query) == Slice(ops[k + 1..], query);
      }
    }
  }

  function Wires(ops: seq<Operation>): set<nat> {
    if ops == [] then {} else Operands(ops[0]) + Wires(ops[1..])
  }

  /** Index of q in the sorted wire list. */
  function Position(wires: seq<nat>, q: nat): (k: nat)
    requires q in wires
    ensures k < |wires| && wires[k] == q
  {
    if wires[0] == q then 0 else 1 + Position(wires[1..], q)
  }

  predicate Covers(wires: seq<nat>, ops: seq<Operation>) {
    forall i :: 0 <= i < |ops| ==> ops[i].first in wires && (TwoQubit(ops[i].code) ==> ops[i].second in wires)
  }

  function Renumber(wires: seq<nat>, op: Operation): Operation
    requires Covers(wires, [op])
  {
    assert [op][0] == op;
    var local := op.(first := Position(wires, op.first));
    if TwoQubit(op.code) then local.(second := Position(wires, op.second)) else local
  }

  function RenumberAll(wires: seq<nat>, ops: seq<Operation>): (r: seq<Operation>)
    requires Covers(wires, ops)
    ensures |r| == |ops| && Fits(r, |wires|)
  {
    if ops == [] then []
    else
      assert Covers(wires, [ops[0]]) && Covers(wires, ops[1..]);
      [Renumber(wires, ops[0])] + RenumberAll(wires, ops[1..])
  }

  lemma {:induction false} WiresCovered(ops: seq<Operation>, wires: seq<nat>)
    requires forall q :: q in Wires(ops) ==> q in wires
    ensures Covers(wires, ops)
  {
    if ops != [] {
      WiresCovered(ops[1..], wires);
      assert ops[0].first in Wires(ops) && (TwoQubit(ops[0].code) ==> ops[0].second in Wires(ops));
      forall i | 0 <= i < |ops| ensures ops[i].first in wires && (TwoQubit(ops[i].code) ==> ops[i].second in wires) {
        assert i > 0 ==> ops[i] == ops[1..][i - 1];
      }
    }
  }

  lemma {:induction false} WiresFit(ops: seq<Operation>, qubits: nat)
    requires Fits(ops, qubits)
    ensures forall q :: q in Wires(ops) ==> q < qubits
  {
    if ops != [] { WiresFit(ops[1..], qubits); }
  }

  /** The slice a query must get back. */
  ghost predicate Answers(x: Index, queries: seq<nat>, r: CausalSlice) {
    var kept := Slice(x.operations, Elements(queries));
    && (forall i, j :: 0 <= i < j < |r.globalQubits| ==> r.globalQubits[i] < r.globalQubits[j])
    && (forall q :: q in r.globalQubits <==> q in queries || q in Wires(kept))
    && |r.localQuery| == |queries|
    && (forall k :: 0 <= k < |queries| ==>
          r.localQuery[k] < |r.globalQubits| && r.globalQubits[r.localQuery[k]] == queries[k])
    && Covers(r.globalQubits, kept) && r.operations == RenumberAll(r.globalQubits, kept)
  }

  predicate Distinct(queries: seq<nat>, qubits: nat) {
    && (forall k :: 0 <= k < |queries| ==> queries[k] < qubits)
    && (forall i, j :: 0 <= i < j < |queries| ==> queries[i] != queries[j])
  }

  method SliceQuery(x: Index, queries: seq<nat>) returns (r: Outcome<CausalSlice>)
    requires Valid(x)
    ensures r.Success? <==> Distinct(queries, x.qubits)
    ensures r.Success? ==> Answers(x, queries, r.value)
  {
    if !Distinct(queries, x.qubits) {
      return Thrown("Causal index query qubit is out of range or duplicated");
    }
    ghost var query := Elements(queries);
    var terminals := [];
    for k := 0 to |queries|
      invariant forall i :: 0 <= i < k ==> LinkIn(x.lastOperation[queries[i]], Elements(terminals))
      invariant WithinCone(x, query, Elements(terminals))
    {
      var link := x.lastOperation[queries[k]];
      assert x.operations[|x.operations|..] == [] && queries[k] in query;
      TouchKept(x.operations, query, |x.operations|, queries[k]);
      PushedElements(terminals, link);
      terminals := Pushed(terminals, link);
    }
    assert Pending(x, query, {}, terminals);
    var visited := Walk(x, terminals, query);
    var selected := Ascending(visited, 0, |x.operations|);
    PickIsSlice(x.operations, query, visited, 0);
    assert x.operations[0..] == x.operations;
    var kept := Pick(x.operations, selected);
    SliceFits(x.operations, query, x.qubits);
    WiresFit(kept, x.qubits);
    var wires := Ascending(Elements(queries) + Wires(kept), 0, x.qubits);
    AscendingHolds(Elements(queries) + Wires(kept), 0, x.qubits);
    WiresCovered(kept, wires);
    var localQuery := seq(|queries|, k requires 0 <= k < |queries| => Position(wires, queries[k]));
    return Success(CausalSlice(wires, localQuery, RenumberAll(wires, kept)));
  }

  function Restrict<V>(s: seq<V>, wires: seq<nat>): (t: seq<V>)
    requires forall k :: 0 <= k < |wires| ==> wires[k] < |s|
    ensures |t| == |wires|
  {
    seq(|wires|, k requires 0 <= k < |wires| => s[wires[k]])
  }

  lemma RenumberStep<V>(m: Semantics<V>, op: Operation, wires: seq<nat>, s: seq<V>)
    requires Covers(wires, [op]) && forall k :: 0 <= k < |wires| ==> wires[k] < |s|
    requires forall i, j :: 0 <= i < j < |wires| ==> wires[i] < wires[j]
    ensures op.first < |s| && (TwoQubit(op.code) ==> op.second < |s|)
    ensures Restrict(Apply(m, op, s), wires) == Apply(m, Renumber(wires, op), Restrict(s, wires))
  {
    assert [op][0] == op;
  }

  /** Renumbering commutes with execution on the retained wires. */
  lemma {:induction false} RenumberedRun<V>(m: Semantics<V>, ops: seq<Operation>, wires: seq<nat>, s: seq<V>)
    requires Covers(wires, ops) && forall k :: 0 <= k < |wires| ==> wires[k] < |s|
    requires forall i, j :: 0 <= i < j < |wires| ==> wires[i] < wires[j]
    ensures Fits(ops, |s|)
    ensures Restrict(Run(m, ops, s), wires) == Run(m, RenumberAll(wires, ops), Restrict(s, wires))
  {
    if ops != [] {
      assert Covers(wires, [ops[0]]) && Covers(wires, ops[1..]);
      RenumberStep(m, ops[0], wires, s);
      assert RenumberAll(wires, ops)[1..] == RenumberAll(wires, ops[1..]);
      RenumberedRun(m, ops[1..], wires, Apply(m, ops[0], s));
    }
  }

  /** Running the small circuit on the retained wires gives every query qubit the
      value it has after the whole circuit. */
  lemma IndexedSliceSimulates<V>(x: Index, queries: seq<nat>, r: CausalSlice, m: Semantics<V>, s: seq<V>)
    requires Valid(x) && Distinct(queries, x.qubits) && Answers(x, queries, r) && |s| == x.qubits
    ensures Fits(x.operations, |s|) && Fits(r.operations, |r.globalQubits|)
    ensures forall k :: 0 <= k < |r.globalQubits| ==> r.globalQubits[k] < |s|
    ensures forall k :: 0 <= k < |queries| ==>
      r.localQuery[k] < |r.globalQubits| &&
      Run(m, r.operations, Restrict(s, r.globalQubits))[r.localQuery[k]] == Run(m, x.operations, s)[queries[k]]
  {
    var query := Elements(queries);
    SlicePreservesQuery(m, x.operations, query, s);
    WiresFit(Slice(x.operations, query), x.qubits);
    forall k | 0 <= k < |r.globalQubits| ensures r.globalQubits[k] < |s| {
      assert r.globalQubits[k] in r.globalQubits;
    }
    RenumberedRun(m, Slice(x.operations, query), r.globalQubits, s);
    forall k | 0 <= k < |queries|
      ensures Run(m, r.operations, Restrict(s, r.globalQubits))[r.localQuery[k]] == Run(m, x.operations, s)[queries[k]]
    {
      assert queries[k] in query;
    }
  }

  /** The benchmark's agreement: for one query wire the index returns as many
      operations as the naive pass counts. */
  method IndexAgreesWithNaive(x: Index, q: nat) returns (r: Outcome<CausalSlice>, retained: nat)
    requires Valid(x) && q < x.qubits
    ensures r.Success? && retained == |r.value.operations| == |Slice(x.operations, {q})|
  {
    assert Elements([q]) == {q};
    r := SliceQuery(x, [q]);
    retained := NaiveCausalCount(x.qubits, x.operations, q);
  }
}
