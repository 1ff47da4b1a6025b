/** Small factor graphs with a brute-force marginal: the equality clique and its
    closed form, and the parity graph whose marginal is the packed count. */
module FactorGraph {
  import opened Bits
  import opened ComplexNumbers
  import opened Gf2
  import Sums

  datatype Factor =
    | Dense(scope: seq<nat>, table: seq<Complex>)
    | Sparse(scope: seq<nat>, entries: seq<(nat, Complex)>)

  /** Table position of an assignment: the scope's first variable is the lowest bit. */
  function LocalIndex(scope: seq<nat>, x: nat): (k: nat)
    ensures k < Pow2(|scope|)
  {
    if scope == [] then 0
    else
      var n := |scope| - 1;
      LocalIndex(scope[..n], x) + (if Bit(x, scope[n]) then Pow2(n) else 0)
  }

  function Lookup(entries: seq<(nat, Complex)>, k: nat): Complex {
    if entries == [] then ZERO
    else if entries[|entries| - 1].0 == k then entries[|entries| - 1].1
    else Lookup(entries[..|entries| - 1], k)
  }

  function Value(f: Factor, x: nat): Complex {
    match f
    case Dense(scope, table) => if LocalIndex(scope, x) < |table| then table[LocalIndex(scope, x)] else ZERO
    case Sparse(scope, entries) => Lookup(entries, LocalIndex(scope, x))
  }

  function Weight(fs: seq<Factor>, x: nat): Complex {
    if fs == [] then ONE else Mul(Weight(fs[..|fs| - 1], x), Value(fs[|fs| - 1], x))
  }

  function WeightWhere(fs: seq<Factor>, retained: nat, value: bool): nat -> Complex {
    (x: nat) => if Bit(x, retained) == value then Weight(fs, x) else ZERO
  }

  /** The partition sum over all 2^n assignments with one variable fixed. */
  function Marginal(n: nat, fs: seq<Factor>, retained: nat, value: bool): Complex {
    SumC(Pow2(n), WeightWhere(fs, retained, value))
  }

  lemma {:induction false} LocalIndexBit(scope: seq<nat>, x: nat, j: nat)
    requires j < |scope|
    ensures Bit(LocalIndex(scope, x), j) == Bit(x, scope[j])
  {
    var n := |scope| - 1;
    var low, d := LocalIndex(scope[..n], x), Digit(Bit(x, scope[n]));
    StackedBit(low, d, n, j);
    if j < n { LocalIndexBit(scope[..n], x, j); }
  }

  /** A list of 0/1 indicator factors multiplies to the indicator of all of them. */
  ghost predicate Indicates(fs: seq<Factor>, holds: seq<bool>, x: nat) {
    |fs| == |holds| && forall i :: 0 <= i < |fs| ==> Value(fs[i], x) == (if holds[i] then ONE else ZERO)
  }

  ghost predicate AllTrue(holds: seq<bool>) { forall i :: 0 <= i < |holds| ==> holds[i] }

  lemma {:induction false} IndicatorWeight(fs: seq<Factor>, holds: seq<bool>, x: nat)
    requires Indicates(fs, holds, x)
    ensures Weight(fs, x) == (if AllTrue(holds) then ONE else ZERO)
  {
    if fs == [] {
      assert AllTrue(holds);
    } else {
      var n := |fs| - 1;
      IndicatorWeight(fs[..n], holds[..n], x);
      AllTrueLast(holds);
      WeightStep(fs, x, AllTrue(holds[..n]), holds[n]);
    }
  }

  lemma WeightStep(fs: seq<Factor>, x: nat, a: bool, b: bool)
    requires fs != [] && Weight(fs[..|fs| - 1], x) == (if a then ONE else ZERO)
    requires Value(fs[|fs| - 1], x) == (if b then ONE else ZERO)
    ensures Weight(fs, x) == (if a && b then ONE else ZERO)
  {
    MulIndicators(Weight(fs[..|fs| - 1], x), Value(fs[|fs| - 1], x), a, b);
  }

  lemma AllTrueLast(holds: seq<bool>)
    requires holds != []
    ensures AllTrue(holds) <==> AllTrue(holds[..|holds| - 1]) && holds[|holds| - 1]
  {
    var n := |holds| - 1;
    if AllTrue(holds[..n]) && holds[n] {
      forall i | 0 <= i < |holds| ensures holds[i] { assert i < n ==> holds[..n][i]; }
    }
  }

  lemma MulIndicators(v: Complex, w: Complex, a: bool, b: bool)
    requires v == (if a then ONE else ZERO) && w == (if b then ONE else ZERO)
    ensures Mul(v, w) == (if a && b then ONE else ZERO)
  {
  }

  // ---------------------------------------------------------------- the equality clique

  const EQUALITY: seq<Complex> := [ONE, ZERO, ZERO, ONE]

  function EqualityFactor(pair: (nat, nat)): Factor { Dense([pair.0, pair.1], EQUALITY) }

  /** Holds every pair i < j < n once and nothing else. */
  ghost predicate AllPairs(pairs: seq<(nat, nat)>, n: nat) {
    && (forall k :: 0 <= k < |pairs| ==> pairs[k].0 < pairs[k].1 < n)
    && (forall i, j :: 0 <= i < j < n ==> (i, j) in pairs)
    && Distinct(pairs)
  }

  ghost predicate Distinct(pairs: seq<(nat, nat)>) {
    forall k, l :: 0 <= k < l < |pairs| ==> pairs[k] != pairs[l]
  }

  method EqualityClique(variables: nat, weights: (Complex, Complex))
    returns (graph: seq<Factor>, ghost pairs: seq<(nat, nat)>)
    ensures AllPairs(pairs, variables)
    ensures graph ==
      seq(|pairs|, k requires 0 <= k < |pairs| => EqualityFactor(pairs[k])) + [Dense([0], [weights.0, weights.1])]
  {
    graph, pairs := [], [];
    for first := 0 to variables
      invariant |graph| == |pairs| && forall k :: 0 <= k < |pairs| ==> graph[k] == EqualityFactor(pairs[k])
      invariant forall k :: 0 <= k < |pairs| ==> pairs[k].0 < pairs[k].1 < variables
      invariant forall i, j :: 0 <= i < j < variables && i < first ==> (i, j) in pairs
      invariant Distinct(pairs) && forall k :: 0 <= k < |pairs| ==> pairs[k].0 < first
    {
      for second := first + 1 to variables
        invariant |graph| == |pairs| && forall k :: 0 <= k < |pairs| ==> graph[k] == EqualityFactor(pairs[k])
        invariant forall k :: 0 <= k < |pairs| ==> pairs[k].0 < pairs[k].1 < variables
        invariant forall i, j :: 0 <= i < j < variables && (i < first || (i == first && j < second)) ==> (i, j) in pairs
        invariant Distinct(pairs)
        invariant forall k :: 0 <= k < |pairs| ==> pairs[k].0 < first || (pairs[k].0 == first && pairs[k].1 < second)
      {
        graph := graph + [Dense([first, second], EQUALITY)];
        pairs := pairs + [(first, second)];
      }
    }
    graph := graph + [Dense([0], [weights.0, weights.1])];
  }

  /** The closed form the benchmark compares against. */
  function SpecializedEquality(weights: (Complex, Complex), variables: nat): (Complex, Complex) {
    if variables == 0 then (ZERO, ZERO) else weights
  }

  lemma EqualityValue(pair: (nat, nat), x: nat)
    ensures Value(EqualityFactor(pair), x) == (if Bit(x, pair.0) == Bit(x, pair.1) then ONE else ZERO)
  {
    var scope := [pair.0, pair.1];
    assert scope[..1] == [pair.0] && [pair.0][..0] == [];
    assert LocalIndex([pair.0], x) == Digit(Bit(x, pair.0));
    assert LocalIndex(scope, x) == Digit(Bit(x, pair.0)) + Digit(Bit(x, pair.1)) * 2;
  }

  ghost function Agreements(pairs: seq<(nat, nat)>, x: nat): (holds: seq<bool>)
    ensures |holds| == |pairs|
  {
    seq(|pairs|, k requires 0 <= k < |pairs| => Bit(x, pairs[k].0) == Bit(x, pairs[k].1))
  }

  ghost predicate Uniform(n: nat, x: nat, value: bool) { forall i :: 0 <= i < n ==> Bit(x, i) == value }

  lemma CliqueWeight(n: nat, weights: (Complex, Complex), graph: seq<Factor>, pairs: seq<(nat, nat)>, x: nat,
    value: bool)
    requires n > 0 && AllPairs(pairs, n) && Bit(x, 0) == value
    requires graph ==
      seq(|pairs|, k requires 0 <= k < |pairs| => EqualityFactor(pairs[k])) + [Dense([0], [weights.0, weights.1])]
    ensures Weight(graph, x) == (if Uniform(n, x, value) then (if value then weights.1 else weights.0) else ZERO)
  {
    var front := graph[..|pairs|];
    var holds := Agreements(pairs, x);
    forall k | 0 <= k < |front| ensures Value(front[k], x) == (if holds[k] then ONE else ZERO) {
      EqualityValue(pairs[k], x);
    }
    IndicatorWeight(front, holds, x);
    UniformAgreements(n, pairs, x, value);
    UnaryValue(weights, x);
    assert graph[|pairs|] == Dense([0], [weights.0, weights.1]);
  }

  lemma UnaryValue(weights: (Complex, Complex), x: nat)
    ensures Value(Dense([0], [weights.0, weights.1]), x) == (if Bit(x, 0) then weights.1 else weights.0)
  {
    assert [0][..0] == [];
    assert LocalIndex([0], x) == Digit(Bit(x, 0));
  }

  lemma UniformAgreements(n: nat, pairs: seq<(nat, nat)>, x: nat, value: bool)
    requires n > 0 && AllPairs(pairs, n) && Bit(x, 0) == value
    ensures AllTrue(Agreements(pairs, x)) <==> Uniform(n, x, value)
  {
    if AllTrue(Agreements(pairs, x)) {
      forall i | 0 <= i < n ensures Bit(x, i) == value {
        if i > 0 {
          assert (0, i) in pairs;
          var k :| 0 <= k < |pairs| && pairs[k] == (0, i);
          assert Agreements(pairs, x)[k];
        }
      }
    }
  }

  lemma UniformIs(n: nat, x: nat, value: bool)
    requires x < Pow2(n) && Uniform(n, x, value)
    ensures x == (if value then Pow2(n) - 1 else 0)
  {
    var y := if value then Pow2(n) - 1 else 0;
    forall i: nat | i < n ensures Bit(x, i) == Bit(y, i) {
      OnesBit(n, i);
      ZeroBits(i);
    }
    SameBits(x, y, n);
  }

  /** Summing every pairwise equality and the unary factor over all assignments
      leaves exactly the unary weights, for any number of variables. */
  lemma CliqueMarginal(n: nat, weights: (Complex, Complex), graph: seq<Factor>, pairs: seq<(nat, nat)>)
    requires n > 0 && AllPairs(pairs, n)
    requires graph ==
      seq(|pairs|, k requires 0 <= k < |pairs| => EqualityFactor(pairs[k])) + [Dense([0], [weights.0, weights.1])]
    ensures (Marginal(n, graph, 0, false), Marginal(n, graph, 0, true)) == SpecializedEquality(weights, n)
  {
    forall value: bool ensures Marginal(n, graph, 0, value) == (if value then weights.1 else weights.0) {
      var f := WeightWhere(graph, 0, value);
      var y: nat := if value then Pow2(n) - 1 else 0;
      forall i: nat | i < n ensures Bit(y, i) == value { OnesBit(n, i); ZeroBits(i); }
      CliqueWeight(n, weights, graph, pairs, y, value);
      forall x: nat | x < Pow2(n) && x != y ensures f(x) == ZERO {
        if Bit(x, 0) == value {
          CliqueWeight(n, weights, graph, pairs, x, value);
          if Uniform(n, x, value) { UniformIs(n, x, value); }
        }
      }
      SumCPoint(Pow2(n), f, y);
    }
  }

  // ---------------------------------------------------------------- parity factors

  function ParityCell(k: nat, rhs: bool, coefficient: Complex): Complex {
    if (Popcount(k) % 2 == 1) == rhs then coefficient else ZERO
  }

  /** The indicator table of one parity class. */
  method ParityTable(size: nat, rhs: bool, coefficient: Complex) returns (table: seq<Complex>)
    ensures |table| == size
    ensures forall k :: 0 <= k < size ==> table[k] == ParityCell(k, rhs, coefficient)
  {
    table := [];
    for index := 0 to size
      invariant |table| == index
      invariant forall k :: 0 <= k < index ==> table[k] == ParityCell(k, rhs, coefficient)
    {
      table := table + [if (Popcount(index) % 2 == 1) == rhs then coefficient else ZERO];
    }
  }

  method Sparsify(table: seq<Complex>) returns (entries: seq<(nat, Complex)>)
    ensures forall k :: 0 <= k < |table| ==> Lookup(entries, k) == table[k]
  {
    entries := [];
    for index := 0 to |table|
      invariant forall k :: 0 <= k < index ==> Lookup(entries, k) == table[k]
      invariant forall k :: index <= k < |table| ==> Lookup(entries, k) == ZERO
    {
      ghost var before := entries;
      if table[index].re != 0.0 || table[index].im != 0.0 {
        entries := entries + [(index, table[index])];
        assert entries[..|entries| - 1] == before;
      }
    }
  }

  lemma {:induction false} BitTotalParity(scope: seq<nat>, x: nat, m: nat)
    requires m <= |scope|
    ensures (BitTotal(LocalIndex(scope, x), m) % 2 == 1) == Parity(scope[..m], x)
  {
    if m > 0 {
      BitTotalParity(scope, x, m - 1);
      LocalIndexBit(scope, x, m - 1);
      assert scope[..m][..m - 1] == scope[..m - 1];
    }
  }

  lemma ParityOfIndex(scope: seq<nat>, x: nat)
    ensures (Popcount(LocalIndex(scope, x)) % 2 == 1) == Parity(scope, x)
  {
    PopcountIsBitTotal(LocalIndex(scope, x), |scope|);
    BitTotalParity(scope, x, |scope|);
    assert scope[..|scope|] == scope;
  }

  /** One indicator factor per equation, dense and sparse storage alternating. */
  ghost predicate EncodesSystem(fs: seq<Factor>, es: seq<Equation>) {
    |fs| == |es| && forall i, x: nat :: 0 <= i < |fs| ==> Value(fs[i], x) == (if Holds(es[i], x) then ONE else ZERO)
  }

  method ParityGraph(es: seq<Equation>) returns (fs: seq<Factor>)
    ensures EncodesSystem(fs, es)
    ensures forall i :: 0 <= i < |fs| ==> fs[i].Dense? == (i % 2 == 0)
  {
    fs := [];
    for index := 0 to |es|
      invariant |fs| == index
      invariant forall i, x: nat :: 0 <= i < index ==> Value(fs[i], x) == (if Holds(es[i], x) then ONE else ZERO)
      invariant forall i :: 0 <= i < index ==> fs[i].Dense? == (i % 2 == 0)
    {
      var scope := es[index].variables;
      var table := ParityTable(Pow2(|scope|), es[index].rhs, ONE);
      forall x: nat ensures table[LocalIndex(scope, x)] == (if Holds(es[index], x) then ONE else ZERO) {
        ParityOfIndex(scope, x);
      }
      if index % 2 == 0 {
        fs := fs + [Dense(scope, table)];
      } else {
        var entries := Sparsify(table);
        fs := fs + [Sparse(scope, entries)];
      }
    }
  }

  lemma {:induction false} CountAsSum(n: nat, p: nat -> bool, f: nat -> Complex)
    requires forall x :: 0 <= x < n ==> f(x) == (if p(x) then ONE else ZERO)
    ensures SumC(n, f) == Complex(Sums.Count(n, p) as real, 0.0)
  {
    if n > 0 { CountAsSum(n - 1, p, f); }
  }

  lemma AllHold(es: seq<Equation>, x: nat, holds: seq<bool>)
    requires |holds| == |es| && forall i :: 0 <= i < |es| ==> holds[i] == Holds(es[i], x)
    ensures AllTrue(holds) <==> HoldsAll(es, x)
  {
    if AllTrue(holds) { forall i | 0 <= i < |es| ensures Holds(es[i], x) { assert holds[i]; } }
  }

  lemma SystemWeight(fs: seq<Factor>, es: seq<Equation>, x: nat)
    requires EncodesSystem(fs, es)
    ensures Weight(fs, x) == (if HoldsAll(es, x) then ONE else ZERO)
  {
    var holds := seq(|es|, i requires 0 <= i < |es| => Holds(es[i], x));
    AllHold(es, x, holds);
    IndicatorWeight(fs, holds, x);
  }

  /** The graph's marginal is the number of solutions on each side of the retained
      variable, hence what the packed eliminator returns. */
  lemma ParityGraphCounts(s: System, fs: seq<Factor>, retained: nat, value: bool)
    requires EncodesSystem(fs, s.equations)
    ensures Marginal(s.variableCount, fs, retained, value) ==
            Complex(SolutionCount(s, retained, value) as real, 0.0)
  {
    forall x: nat | x < Pow2(s.variableCount)
      ensures WeightWhere(fs, retained, value)(x) == (if Witnesses(s, retained, value)(x) then ONE else ZERO)
    {
      SystemWeight(fs, s.equations, x);
    }
    CountAsSum(Pow2(s.variableCount), Witnesses(s, retained, value), WeightWhere(fs, retained, value));
  }
}
