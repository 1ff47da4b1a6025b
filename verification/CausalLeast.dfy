/** The slice is least: a selection of operations keeps the query's values under every
    semantics if and only if it contains everything the backward pass retains. */
module CausalLeast {
  import opened Causal
  import opened Circuits

  /** The operations whose flag is set, in circuit order. */
  function Selected(ops: seq<Operation>, keep: seq<bool>): seq<Operation>
    requires |keep| == |ops|
  {
    if ops == [] then []
    else if keep[0] then [ops[0]] + Selected(ops[1..], keep[1..])
    else Selected(ops[1..], keep[1..])
  }

  ghost predicate ContainsSlice(ops: seq<Operation>, keep: seq<bool>, query: set<nat>)
    requires |keep| == |ops|
  {
    forall i :: 0 <= i < |ops| && Kept(ops, query, i) ==> keep[i]
  }

  predicate DistinctOperands(ops: seq<Operation>) {
    forall i :: 0 <= i < |ops| && TwoQubit(ops[i].code) ==> ops[i].first != ops[i].second
  }

  lemma {:induction false} SelectedFits(ops: seq<Operation>, keep: seq<bool>, qubits: nat)
    requires |keep| == |ops| && Fits(ops, qubits)
    ensures Fits(Selected(ops, keep), qubits)
    decreases |ops|
  {
    if ops != [] { SelectedFits(ops[1..], keep[1..], qubits); }
  }

  lemma KeptRest(ops: seq<Operation>, query: set<nat>, i: nat)
    requires 0 < i < |ops|
    ensures Kept(ops[1..], query, i - 1) == Kept(ops, query, i)
  {
    assert ops[1..][i..] == ops[i + 1..];
  }

  lemma ContainsRest(ops: seq<Operation>, keep: seq<bool>, query: set<nat>)
    requires |keep| == |ops| > 0 && ContainsSlice(ops, keep, query)
    ensures ContainsSlice(ops[1..], keep[1..], query)
  {
    forall i | 0 <= i < |ops| - 1 && Kept(ops[1..], query, i) ensures keep[1..][i] { KeptRest(ops, query, i + 1); }
  }

  // ---------------------------------------------------------------- containing the slice is enough

  lemma SameHead(op: Operation, rest: seq<Operation>, ops: seq<Operation>, query: set<nat>)
    requires ops != [] && ops[0] == op
    requires Active(rest, query) == Active(ops[1..], query) && Slice(rest, query) == Slice(ops[1..], query)
    ensures Active([op] + rest, query) == Active(ops, query) && Slice([op] + rest, query) == Slice(ops, query)
  {
    assert ([op] + rest)[1..] == rest;
    assert Kept([op] + rest, query, 0) == Kept(ops, query, 0);
  }

  /** A selection that contains the slice has the same slice and the same active set. */
  lemma {:induction false} SameSlice(ops: seq<Operation>, keep: seq<bool>, query: set<nat>)
    requires |keep| == |ops| && ContainsSlice(ops, keep, query)
    ensures Active(Selected(ops, keep), query) == Active(ops, query)
    ensures Slice(Selected(ops, keep), query) == Slice(ops, query)
    decreases |ops|
  {
    if ops != [] {
      var rest := Selected(ops[1..], keep[1..]);
      ContainsRest(ops, keep, query);
      SameSlice(ops[1..], keep[1..], query);
      if keep[0] {
        SameHead(ops[0], rest, ops, query);
      } else {
        assert !Kept(ops, query, 0) && Slice(ops, query) == Slice(ops[1..], query);
      }
    }
  }

  /** Keeping at least the slice keeps every query value, under every semantics. */
  lemma ContainingSuffices<V>(m: Semantics<V>, ops: seq<Operation>, keep: seq<bool>, query: set<nat>, s: seq<V>)
    requires |keep| == |ops| && Fits(ops, |s|) && ContainsSlice(ops, keep, query) && forall q :: q in query ==> q < |s|
    ensures Fits(Selected(ops, keep), |s|)
    ensures forall q :: q in query ==> Run(m, Selected(ops, keep), s)[q] == Run(m, ops, s)[q]
  {
    SelectedFits(ops, keep, |s|);
    SameSlice(ops, keep, query);
    SlicePreservesQuery(m, ops, query, s);
    SlicePreservesQuery(m, Selected(ops, keep), query, s);
  }

  // ---------------------------------------------------------------- dropping any of it shows

  /** Every operation counts itself on its operands, and a pair shares its counts. */
  function Counting(): Semantics<nat> {
    Semantics(CountOne, CountTwo)
  }

  function CountOne(code: OperationCode, parameter: Parameter, v: nat): nat { v + 1 }

  function CountTwo(code: OperationCode, parameter: Parameter, v: nat, w: nat): (nat, nat) { (v + w + 1, v + w + 1) }

  ghost predicate AtMost(s: seq<nat>, t: seq<nat>) {
    |s| == |t| && forall a :: 0 <= a < |s| ==> s[a] <= t[a]
  }

  /** A strict gap at some active wire. */
  ghost predicate GapIn(s: seq<nat>, t: seq<nat>, active: set<nat>)
    requires |s| == |t|
  {
    exists a :: 0 <= a < |s| && a in active && s[a] < t[a]
  }

  /** Applying an operation to both sides keeps a gap, and spreads it to its operands. */
  lemma ApplyBoth(op: Operation, rest: seq<Operation>, query: set<nat>, s: seq<nat>, t: seq<nat>)
    requires AtMost(s, t) && Fits([op] + rest, |s|) && op.first < |s| && (TwoQubit(op.code) ==> op.second < |s|)
    requires TwoQubit(op.code) ==> op.first != op.second
    ensures AtMost(Apply(Counting(), op, s), Apply(Counting(), op, t))
    ensures GapIn(s, t, Active([op] + rest, query)) ==>
      GapIn(Apply(Counting(), op, s), Apply(Counting(), op, t), Active(rest, query))
  {
    var u, v, active := Apply(Counting(), op, s), Apply(Counting(), op, t), Active(rest, query);
    assert ([op] + rest)[1..] == rest;
    if GapIn(s, t, Active([op] + rest, query)) {
      var a :| 0 <= a < |s| && a in Active([op] + rest, query) && s[a] < t[a];
      if a in Operands(op) {
        assert !(Operands(op) !! active);
        var b :| b in Operands(op) && b in active;
        assert u[b] < v[b];
      } else {
        assert u[a] < v[a];
      }
    }
  }

  /** Skipping an operation on one side opens a gap at its operands. */
  lemma SkipOne(op: Operation, rest: seq<Operation>, query: set<nat>, s: seq<nat>, t: seq<nat>)
    requires AtMost(s, t) && op.first < |s| && (TwoQubit(op.code) ==> op.second < |s|)
    requires TwoQubit(op.code) ==> op.first != op.second
    ensures AtMost(s, Apply(Counting(), op, t))
    ensures !(Operands(op) !! Active(rest, query)) ==> GapIn(s, Apply(Counting(), op, t), Active(rest, query))
    ensures GapIn(s, t, Active([op] + rest, query)) ==> GapIn(s, Apply(Counting(), op, t), Active(rest, query))
  {
    var v, active := Apply(Counting(), op, t), Active(rest, query);
    assert ([op] + rest)[1..] == rest;
    if !(Operands(op) !! active) {
      var b :| b in Operands(op) && b in active;
      assert s[b] < v[b];
    } else if GapIn(s, t, Active([op] + rest, query)) {
      var a :| 0 <= a < |s| && a in Active([op] + rest, query) && s[a] < t[a];
      assert s[a] < v[a];
    }
  }

  lemma DroppedRest(ops: seq<Operation>, keep: seq<bool>, query: set<nat>)
    requires |keep| == |ops| > 0 && !ContainsSlice(ops, keep, query)
    ensures !ContainsSlice(ops[1..], keep[1..], query) || (!keep[0] && Kept(ops, query, 0))
  {
    var i: nat :| i < |ops| && Kept(ops, query, i) && !keep[i];
    if i > 0 {
      KeptRest(ops, query, i);
      assert !keep[1..][i - 1];
    }
  }

  lemma RunHead(op: Operation, rest: seq<Operation>, s: seq<nat>)
    requires Fits([op] + rest, |s|) && Fits(rest, |s|) && op.first < |s| && (TwoQubit(op.code) ==> op.second < |s|)
    ensures Run(Counting(), [op] + rest, s) == Run(Counting(), rest, Apply(Counting(), op, s))
  {
    assert ([op] + rest)[1..] == rest;
  }

  /** A gap at an active wire, or a dropped operation of the slice, lowers a query value. */
  lemma {:induction false} GapReachesQuery(ops: seq<Operation>, keep: seq<bool>, query: set<nat>, s: seq<nat>,
    t: seq<nat>)
    requires |keep| == |ops| && Fits(ops, |s|) && DistinctOperands(ops) && AtMost(s, t)
    requires GapIn(s, t, Active(ops, query)) || !ContainsSlice(ops, keep, query)
    ensures Fits(Selected(ops, keep), |s|)
    ensures GapIn(Run(Counting(), Selected(ops, keep), s), Run(Counting(), ops, t), query)
    decreases |ops|
  {
    SelectedFits(ops, keep, |s|);
    if ops == [] {
      assert Active(ops, query) == query && ContainsSlice(ops, keep, query);
    } else {
      var op, rest := ops[0], ops[1..];
      assert ops == [op] + rest;
      if !ContainsSlice(ops, keep, query) { DroppedRest(ops, keep, query); }
      if keep[0] {
        ApplyBoth(op, rest, query, s, t);
        GapReachesQuery(rest, keep[1..], query, Apply(Counting(), op, s), Apply(Counting(), op, t));
        RunHead(op, Selected(rest, keep[1..]), s);
      } else {
        SkipOne(op, rest, query, s, t);
        GapReachesQuery(rest, keep[1..], query, s, Apply(Counting(), op, t));
      }
    }
  }

  ghost predicate PreservesCounts(ops: seq<Operation>, keep: seq<bool>, query: set<nat>, s: seq<nat>)
    requires |keep| == |ops| && Fits(ops, |s|)
  {
    SelectedFits(ops, keep, |s|);
    forall q :: q in query && q < |s| ==> Run(Counting(), Selected(ops, keep), s)[q] == Run(Counting(), ops, s)[q]
  }

  /** A selection counts what the whole circuit counts on the query if and only if it
      contains the slice; with ContainingSuffices, no smaller selection is right for
      every semantics. */
  lemma SliceIsLeast(ops: seq<Operation>, keep: seq<bool>, query: set<nat>, s: seq<nat>)
    requires |keep| == |ops| && Fits(ops, |s|) && DistinctOperands(ops) && forall q :: q in query ==> q < |s|
    ensures PreservesCounts(ops, keep, query, s) <==> ContainsSlice(ops, keep, query)
  {
    if ContainsSlice(ops, keep, query) {
      ContainingSuffices(Counting(), ops, keep, query, s);
    } else {
      GapReachesQuery(ops, keep, query, s, s);
    }
  }
}
