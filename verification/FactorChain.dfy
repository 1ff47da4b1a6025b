/** The specialised chain: a forward sum-product sweep over three-variable
    tables, equal to the exponential marginal over the last two variables. */
module FactorChain {
  import opened Bits
  import opened ComplexNumbers
  import opened Vectors

  type Table = t: seq<Complex> | |t| == 8 witness seq(8, _ => ZERO)

  type Message = m: seq<Complex> | |m| == 4 witness seq(4, _ => ZERO)

  const START: Message := [ONE, ONE, ONE, ONE]

  /** The message entry for (b, c) after summing the first `upto` values of a. */
  function Partial(current: Message, t: Table, upto: nat, b: nat, c: nat): Complex
    requires upto <= 2 && b < 2 && c < 2
  {
    if upto == 0 then ZERO
    else Add(Partial(current, t, upto - 1, b, c), Mul(current[upto - 1 + 2 * b], t[upto - 1 + 2 * b + 4 * c]))
  }

  function Transfer(current: Message, t: Table): Message {
    [Partial(current, t, 2, 0, 0), Partial(current, t, 2, 1, 0), Partial(current, t, 2, 0, 1),
      Partial(current, t, 2, 1, 1)]
  }

  function Chain(current: Message, tables: seq<Table>): Message {
    if tables == [] then current
    else Transfer(Chain(current, tables[..|tables| - 1]), tables[|tables| - 1])
  }

  /** Entry (y, z) of the accumulator when the loops stand at (a, b, c). */
  ghost function Due(m: Message, t: Table, a: nat, b: nat, c: nat, y: nat, z: nat): Complex
    requires a <= 2 && y < 2 && z < 2 && (a == 2 ==> b == 0 && c == 0)
  {
    Partial(m, t, if y < b || (y == b && z < c) then a + 1 else a, y, z)
  }

  ghost predicate Progress(next: seq<Complex>, m: Message, t: Table, a: nat, b: nat, c: nat)
    requires a <= 2 && (a == 2 ==> b == 0 && c == 0)
  {
    && |next| == 4
    && next[0] == Due(m, t, a, b, c, 0, 0) && next[1] == Due(m, t, a, b, c, 1, 0)
    && next[2] == Due(m, t, a, b, c, 0, 1) && next[3] == Due(m, t, a, b, c, 1, 1)
  }

  lemma ProgressStep(next: seq<Complex>, m: Message, t: Table, a: nat, b: nat, c: nat)
    requires a < 2 && b < 2 && c < 2 && Progress(next, m, t, a, b, c)
    ensures Progress(next[b + 2 * c := Add(next[b + 2 * c], Mul(m[a + 2 * b], t[a + 2 * b + 4 * c]))], m, t, a, b,
      c + 1)
  {
    assert next[b + 2 * c] == Partial(m, t, a, b, c);
    assert Partial(m, t, a + 1, b, c) == Add(Partial(m, t, a, b, c), Mul(m[a + 2 * b], t[a + 2 * b + 4 * c]));
  }

  method Step(current: array<Complex>, t: Table) returns (next: array<Complex>)
    requires current.Length == 4
    ensures fresh(next) && next.Length == 4 && next[..] == Transfer(current[..], t)
  {
    next := new Complex[4](_ => ZERO);
    ghost var m := current[..];
    for a := 0 to 2
      invariant Progress(next[..], m, t, a, 0, 0)
    {
      for b := 0 to 2
        invariant Progress(next[..], m, t, a, b, 0)
      {
        var prefix := current[a + 2 * b];
        for c := 0 to 2
          invariant Progress(next[..], m, t, a, b, c)
        {
          ProgressStep(next[..], m, t, a, b, c);
          next[b + 2 * c] := Add(next[b + 2 * c], Mul(prefix, t[a + 2 * b + 4 * c]));
        }
      }
    }
  }

  /** Every entry is the exponential sum, not only what the sweep computes. */
  method SpecializedChain(tables: seq<Table>) returns (result: Message)
    ensures result == MarginalTable(tables)
  {
    var current := new Complex[4](_ => ONE);
    assert current[..] == START;
    for k := 0 to |tables|
      invariant current.Length == 4 && current[..] == Chain(START, tables[..k])
    {
      current := Step(current, tables[k]);
      assert tables[..k + 1][..k] == tables[..k];
    }
    assert tables[..|tables|] == tables;
    result := current[..];
    ChainIsMarginal(tables, 0, 0);
    ChainIsMarginal(tables, 1, 0);
    ChainIsMarginal(tables, 0, 1);
    ChainIsMarginal(tables, 1, 1);
  }

  // ---------------------------------------------------------------- the exponential definition

  /** Table cell read by factor k under assignment x (bit v of x is variable v). */
  function CellIndex(x: nat, k: nat): (i: nat)
    ensures i < 8
  {
    Digit(Bit(x, k)) + 2 * Digit(Bit(x, k + 1)) + 4 * Digit(Bit(x, k + 2))
  }

  /** Product of every factor at one assignment. */
  function Weight(tables: seq<Table>, x: nat): Complex {
    if tables == [] then ONE
    else Mul(Weight(tables[..|tables| - 1], x), tables[|tables| - 1][CellIndex(x, |tables| - 1)])
  }

  function WeightWith(tables: seq<Table>, high: nat): nat -> Complex {
    (low: nat) => Weight(tables, Stack(low, high, |tables|))
  }

  /** `high` written above n low bits. */
  function Stack(low: nat, high: nat, n: nat): nat { low + high * Pow2(n) }

  /** Sum over all assignments of the earlier variables, the last two being y and z. */
  function Marginal(tables: seq<Table>, y: nat, z: nat): Complex {
    SumC(Pow2(|tables|), WeightWith(tables, y + 2 * z))
  }

  function MarginalTable(tables: seq<Table>): Message {
    [Marginal(tables, 0, 0), Marginal(tables, 1, 0), Marginal(tables, 0, 1), Marginal(tables, 1, 1)]
  }

  lemma {:induction false} WeightSameBits(tables: seq<Table>, x: nat, y: nat)
    requires forall i :: 0 <= i < |tables| + 2 ==> Bit(x, i) == Bit(y, i)
    ensures Weight(tables, x) == Weight(tables, y)
  {
    if tables != [] { WeightSameBits(tables[..|tables| - 1], x, y); }
  }

  lemma SmallBits(a: nat, b: nat, c: nat)
    requires a < 2 && b < 2 && c < 2
    ensures Bit(a + 2 * b + 4 * c, 0) == (a == 1) && Bit(a + 2 * b + 4 * c, 1) == (b == 1)
    ensures Bit(a + 2 * b + 4 * c, 2) == (c == 1)
  {
    var x := a + 2 * b + 4 * c;
    assert x / 2 == b + 2 * c && (x / 2) / 2 == c;
    assert Bit(x, 1) == Bit(x / 2, 0) && Bit(x, 2) == Bit(x / 2, 1) && Bit(x / 2, 1) == Bit((x / 2) / 2, 0);
  }

  lemma CellStacked(low: nat, a: nat, y: nat, z: nat, n: nat)
    requires a < 2 && y < 2 && z < 2 && low < Pow2(n)
    ensures CellIndex(Stack(low, a + 2 * y + 4 * z, n), n) == a + 2 * y + 4 * z
  {
    SmallBits(a, y, z);
    StackedBit(low, a + 2 * y + 4 * z, n, n);
    StackedBit(low, a + 2 * y + 4 * z, n, n + 1);
    StackedBit(low, a + 2 * y + 4 * z, n, n + 2);
  }

  lemma LowBitsAgree(low: nat, a: nat, y: nat, z: nat, n: nat, i: nat)
    requires a < 2 && y < 2 && z < 2 && low < Pow2(n) && i < n + 2
    ensures Bit(Stack(low, a + 2 * y + 4 * z, n), i) == Bit(Stack(low, a + 2 * y, n), i)
  {
    SmallBits(a, y, z);
    SmallBits(a, y, 0);
    StackedBit(low, a + 2 * y + 4 * z, n, i);
    StackedBit(low, a + 2 * y, n, i);
  }

  lemma WeightLast(tables: seq<Table>, x: nat, w: nat, cell: nat)
    requires tables != [] && CellIndex(x, |tables| - 1) == cell
    requires forall i :: 0 <= i < |tables| + 1 ==> Bit(x, i) == Bit(w, i)
    ensures Weight(tables, x) == Mul(Weight(tables[..|tables| - 1], w), tables[|tables| - 1][cell])
  {
    WeightSameBits(tables[..|tables| - 1], x, w);
  }

  /** Peeling the last table: its cell is fixed by (a, y, z) and the rest of the
      weight does not see z. */
  lemma WeightPeel(tables: seq<Table>, low: nat, a: nat, y: nat, z: nat)
    requires tables != [] && a < 2 && y < 2 && z < 2 && low < Pow2(|tables| - 1)
    ensures Weight(tables, Stack(low, a + 2 * y + 4 * z, |tables| - 1)) ==
            Mul(Weight(tables[..|tables| - 1], Stack(low, a + 2 * y, |tables| - 1)),
              tables[|tables| - 1][a + 2 * y + 4 * z])
  {
    var n := |tables| - 1;
    var x, w := Stack(low, a + 2 * y + 4 * z, n), Stack(low, a + 2 * y, n);
    CellStacked(low, a, y, z, n);
    forall i: nat | i < n + 2 ensures Bit(x, i) == Bit(w, i) { LowBitsAgree(low, a, y, z, n, i); }
    WeightLast(tables, x, w, a + 2 * y + 4 * z);
  }

  lemma Restack(i: nat, y: nat, z: nat, n: nat)
    ensures Stack(i, y + 2 * z, n + 1) == Stack(i, 0 + 2 * y + 4 * z, n)
    ensures Stack(Pow2(n) + i, y + 2 * z, n + 1) == Stack(i, 1 + 2 * y + 4 * z, n)
  {
    var p := Pow2(n);
    assert (y + 2 * z) * (2 * p) == (2 * y + 4 * z) * p;
    assert (1 + 2 * y + 4 * z) * p == p + (2 * y + 4 * z) * p;
  }

  function Scaled(f: nat -> Complex, w: Complex): nat -> Complex { (i: nat) => Mul(f(i), w) }

  function Summand(tables: seq<Table>, a: nat, y: nat, z: nat): nat -> Complex
    requires tables != [] && a < 2 && y < 2 && z < 2
  {
    Scaled(WeightWith(tables[..|tables| - 1], a + 2 * y), tables[|tables| - 1][a + 2 * y + 4 * z])
  }

  lemma WeightHalf(tables: seq<Table>, a: nat, y: nat, z: nat, i: nat, x: nat)
    requires tables != [] && a < 2 && y < 2 && z < 2 && i < Pow2(|tables| - 1)
    requires x == Stack(i, a + 2 * y + 4 * z, |tables| - 1)
    ensures Weight(tables, x) == Summand(tables, a, y, z)(i)
  {
    WeightPeel(tables, i, a, y, z);
  }

  lemma WeightHalves(tables: seq<Table>, y: nat, z: nat, i: nat)
    requires tables != [] && y < 2 && z < 2 && i < Pow2(|tables| - 1)
    ensures var n := |tables| - 1;
      && WeightWith(tables, y + 2 * z)(i) == Summand(tables, 0, y, z)(i)
      && WeightWith(tables, y + 2 * z)(Pow2(n) + i) == Summand(tables, 1, y, z)(i)
  {
    var n := |tables| - 1;
    Restack(i, y, z, n);
    WeightHalf(tables, 0, y, z, i, Stack(i, y + 2 * z, n + 1));
    WeightHalf(tables, 1, y, z, i, Stack(Pow2(n) + i, y + 2 * z, n + 1));
  }

  lemma MarginalHalves(tables: seq<Table>, y: nat, z: nat)
    requires tables != [] && y < 2 && z < 2
    ensures var p := Pow2(|tables| - 1);
      Marginal(tables, y, z) == Add(SumC(p, Summand(tables, 0, y, z)), SumC(p, Summand(tables, 1, y, z)))
  {
    var p := Pow2(|tables| - 1);
    assert Marginal(tables, y, z) == SumC(p + p, WeightWith(tables, y + 2 * z));
    HalvesSplit(tables, y, z, p);
  }

  lemma HalvesSplit(tables: seq<Table>, y: nat, z: nat, p: nat)
    requires tables != [] && y < 2 && z < 2 && p == Pow2(|tables| - 1)
    ensures SumC(p + p, WeightWith(tables, y + 2 * z)) ==
            Add(SumC(p, Summand(tables, 0, y, z)), SumC(p, Summand(tables, 1, y, z)))
  {
    var f, low, high := WeightWith(tables, y + 2 * z), Summand(tables, 0, y, z), Summand(tables, 1, y, z);
    forall i: nat | i < p ensures low(i) == f(i) && high(i) == f(p + i) { WeightHalves(tables, y, z, i); }
    SumCSplit(p, p, f, low, high);
  }

  /** Summing out one more variable is one transfer step. */
  lemma MarginalStep(tables: seq<Table>, y: nat, z: nat)
    requires tables != [] && y < 2 && z < 2
    ensures var front, t := tables[..|tables| - 1], tables[|tables| - 1];
      Marginal(tables, y, z) ==
      Add(Mul(Marginal(front, 0, y), t[0 + 2 * y + 4 * z]), Mul(Marginal(front, 1, y), t[1 + 2 * y + 4 * z]))
  {
    var front, t := tables[..|tables| - 1], tables[|tables| - 1];
    MarginalHalves(tables, y, z);
    SumCFactor(Pow2(|front|), WeightWith(front, 0 + 2 * y), Summand(tables, 0, y, z), t[0 + 2 * y + 4 * z]);
    SumCFactor(Pow2(|front|), WeightWith(front, 1 + 2 * y), Summand(tables, 1, y, z), t[1 + 2 * y + 4 * z]);
  }

  lemma {:induction false} ChainIsMarginal(tables: seq<Table>, y: nat, z: nat)
    requires y < 2 && z < 2
    ensures Chain(START, tables)[y + 2 * z] == Marginal(tables, y, z)
  {
    if tables == [] {
      assert SumC(1, WeightWith(tables, y + 2 * z)) == Add(SumC(0, WeightWith(tables, y + 2 * z)), ONE);
    } else {
      var front, t := tables[..|tables| - 1], tables[|tables| - 1];
      ChainIsMarginal(front, 0, y);
      ChainIsMarginal(front, 1, y);
      MarginalStep(tables, y, z);
      var m := Chain(START, front);
      assert Partial(m, t, 1, y, z) == Mul(m[0 + 2 * y], t[0 + 2 * y + 4 * z]);
      assert Chain(START, tables)[y + 2 * z] == Partial(m, t, 2, y, z);
    }
  }

  // ---------------------------------------------------------------- composition, linearity, rebinding

  /** The sweep may be cut anywhere and resumed from the message. */
  lemma {:induction false} ChainComposes(current: Message, first: seq<Table>, second: seq<Table>)
    ensures Chain(current, first + second) == Chain(Chain(current, first), second)
  {
    if second == [] {
      assert first + second == first;
    } else {
      var n := |second| - 1;
      ChainComposes(current, first, second[..n]);
      assert (first + second)[..|first| + n] == first + second[..n];
    }
  }

  lemma {:induction false} PartialLinear(a: Complex, x: Message, b: Complex, y: Message, t: Table, upto: nat, p: nat,
    q: nat)
    requires upto <= 2 && p < 2 && q < 2
    ensures Partial(BlendAll(a, x, b, y), t, upto, p, q) ==
      Blend(a, Partial(x, t, upto, p, q), b, Partial(y, t, upto, p, q))
  {
    if upto > 0 {
      var i := upto - 1 + 2 * p;
      var w := t[i + 4 * q];
      PartialLinear(a, x, b, y, t, upto - 1, p, q);
      BlendMul(a, x[i], b, y[i], w);
      BlendAdd(a, Partial(x, t, upto - 1, p, q), b, Partial(y, t, upto - 1, p, q), Mul(x[i], w), Mul(y[i], w));
    }
  }

  lemma {:induction false} PartialTableLinear(m: Message, a: Complex, s: Table, b: Complex, t: Table, upto: nat, p: nat,
    q: nat)
    requires upto <= 2 && p < 2 && q < 2
    ensures Partial(m, BlendAll(a, s, b, t), upto, p, q) ==
      Blend(a, Partial(m, s, upto, p, q), b, Partial(m, t, upto, p, q))
  {
    if upto > 0 {
      var i := upto - 1 + 2 * p;
      var j := i + 4 * q;
      PartialTableLinear(m, a, s, b, t, upto - 1, p, q);
      BlendMul(a, s[j], b, t[j], m[i]);
      BlendAdd(a, Partial(m, s, upto - 1, p, q), b, Partial(m, t, upto - 1, p, q), Mul(m[i], s[j]), Mul(m[i], t[j]));
    }
  }

  lemma {:induction false} ChainLinear(a: Complex, x: Message, b: Complex, y: Message, tables: seq<Table>)
    ensures Chain(BlendAll(a, x, b, y), tables) == BlendAll(a, Chain(x, tables), b, Chain(y, tables))
  {
    if tables != [] {
      var front, t := tables[..|tables| - 1], tables[|tables| - 1];
      ChainLinear(a, x, b, y, front);
      forall p, q | 0 <= p < 2 && 0 <= q < 2
        ensures Partial(BlendAll(a, Chain(x, front), b, Chain(y, front)), t, 2, p, q)
                == Blend(a, Partial(Chain(x, front), t, 2, p, q), b, Partial(Chain(y, front), t, 2, p, q))
      {
        PartialLinear(a, Chain(x, front), b, Chain(y, front), t, 2, p, q);
      }
    }
  }

  /** Replacing table k leaves every earlier message as it was. */
  lemma RebindKeepsPrefix(tables: seq<Table>, k: nat, t: Table, j: nat)
    requires j <= k < |tables|
    ensures Chain(START, tables[k := t][..j]) == Chain(START, tables[..j])
    ensures Chain(START, tables[k := t]) == Chain(Transfer(Chain(START, tables[..k]), t), tables[k + 1..])
  {
    assert tables[k := t][..j] == tables[..j];
    assert tables[k := t] == tables[..k] + [t] + tables[k + 1..];
    ChainComposes(START, tables[..k] + [t], tables[k + 1..]);
    assert (tables[..k] + [t])[..k] == tables[..k];
  }

  /** The result is linear in each table separately. */
  lemma TableLinear(tables: seq<Table>, k: nat, a: Complex, s: Table, b: Complex, t: Table)
    requires k < |tables|
    ensures Chain(START, tables[k := BlendAll(a, s, b, t)]) ==
            BlendAll(a, Chain(START, tables[k := s]), b, Chain(START, tables[k := t]))
  {
    var m := Chain(START, tables[..k]);
    RebindKeepsPrefix(tables, k, BlendAll(a, s, b, t), k);
    RebindKeepsPrefix(tables, k, s, k);
    RebindKeepsPrefix(tables, k, t, k);
    forall p, q | 0 <= p < 2 && 0 <= q < 2
      ensures Partial(m, BlendAll(a, s, b, t), 2, p, q) == Blend(a, Partial(m, s, 2, p, q), b, Partial(m, t, 2, p, q))
    {
      PartialTableLinear(m, a, s, b, t, 2, p, q);
    }
    assert Transfer(m, BlendAll(a, s, b, t)) == BlendAll(a, Transfer(m, s), b, Transfer(m, t));
    ChainLinear(a, Transfer(m, s), b, Transfer(m, t), tables[k + 1..]);
  }

  /** The rebinding loop: each point's control sees only its own replacement. */
  method RebindPoints(tables: seq<Table>, k: nat, replacements: seq<Table>) returns (controls: seq<Message>)
    requires k < |tables|
    ensures |controls| == |replacements|
    ensures forall p :: 0 <= p < |replacements| ==> controls[p] == MarginalTable(tables[k := replacements[p]])
  {
    controls := [];
    var updated := tables;
    for point := 0 to |replacements|
      invariant |controls| == point
      invariant |updated| == |tables| && forall i :: 0 <= i < |tables| && i != k ==> updated[i] == tables[i]
      invariant forall p :: 0 <= p < point ==> controls[p] == MarginalTable(tables[k := replacements[p]])
    {
      updated := updated[k := replacements[point]];
      assert updated == tables[k := replacements[point]];
      var control := SpecializedChain(updated);
      controls := controls + [control];
    }
  }
}
