/** Binary tensor trains: contraction with fixed and free positions is the sum over
    every completion. */
module Train {
  import opened Bits
  import opened ComplexNumbers
  import opened Layout

  /** One binary mode: a left x right matrix for each bit value, stored by rows. */
  datatype Core = Core(left: nat, right: nat, zero: seq<Complex>, one: seq<Complex>) {
    predicate Ok() { |zero| == left * right && |one| == left * right }

    function Slice(bit: bool): seq<Complex> { if bit then one else zero }
  }

  datatype Slot = Fixed(bit: bool) | Free

  predicate Chain(rank: nat, cores: seq<Core>)
    decreases |cores|
  {
    if cores == [] then rank == 1
    else cores[0].left == rank && cores[0].Ok() && Chain(cores[0].right, cores[1..])
  }

  function Entry(m: seq<Complex>, l: nat, r: nat, i: nat, j: nat): Complex
    requires |m| == l * r && i < l && j < r
  {
    CellInside(i, j, l, r);
    m[i * r + j]
  }

  /** The terms of one output entry of a row times a matrix. */
  function Term(row: seq<Complex>, m: seq<Complex>, r: nat, j: nat): nat -> Complex
    requires |m| == |row| * r && j < r
  {
    (i: nat) => if i < |row| then Mul(row[i], Entry(m, |row|, r, i, j)) else ZERO
  }

  function RowTimes(row: seq<Complex>, m: seq<Complex>, r: nat): (next: seq<Complex>)
    requires |m| == |row| * r
    ensures |next| == r
  {
    seq(r, j requires 0 <= j < r => SumC(|row|, Term(row, m, r, j)))
  }

  function Plus(x: seq<Complex>, y: seq<Complex>): (z: seq<Complex>)
    requires |x| == |y|
    ensures |z| == |x|
  {
    seq(|x|, i requires 0 <= i < |x| => Add(x[i], y[i]))
  }

  /** The value of the train at one bit string, from a given row. */
  function ValueFrom(row: seq<Complex>, cores: seq<Core>, bits: seq<bool>): Complex
    requires Chain(|row|, cores) && |bits| == |cores|
    decreases |cores|
  {
    if cores == [] then row[0]
    else ValueFrom(RowTimes(row, cores[0].Slice(bits[0]), cores[0].right), cores[1..], bits[1..])
  }

  /** The contraction: a fixed position selects a slice, a free one adds both. */
  function ReduceFrom(row: seq<Complex>, cores: seq<Core>, slots: seq<Slot>): Complex
    requires Chain(|row|, cores) && |slots| == |cores|
    decreases |cores|
  {
    if cores == [] then row[0]
    else
      var m := match slots[0] case Fixed(b) => cores[0].Slice(b) case Free => Plus(cores[0].zero, cores[0].one);
      ReduceFrom(RowTimes(row, m, cores[0].right), cores[1..], slots[1..])
  }

  // ---------------------------------------------------------------- sums over bit strings

  /** The n bits of an index, highest first. */
  function BitsOf(index: nat, n: nat): (bits: seq<bool>)
    ensures |bits| == n
  {
    seq(n, p requires 0 <= p < n => Bit(index, n - 1 - p))
  }

  function AtIndex(n: nat, f: seq<bool> -> Complex): nat -> Complex { (i: nat) => f(BitsOf(i, n)) }

  /** The sum of f over all 2^n bit strings, by index. */
  function SumBits(n: nat, f: seq<bool> -> Complex): Complex { SumC(Pow2(n), AtIndex(n, f)) }

  function After(b: bool, f: seq<bool> -> Complex): seq<bool> -> Complex { (bits: seq<bool>) => f([b] + bits) }

  lemma HighBit(i: nat, n: nat, b: bool)
    requires i < Pow2(n)
    ensures BitsOf(if b then Pow2(n) + i else i, n + 1) == [b] + BitsOf(i, n)
  {
    var index := if b then Pow2(n) + i else i;
    forall p | 0 <= p < n + 1 ensures BitsOf(index, n + 1)[p] == ([b] + BitsOf(i, n))[p] {
      StackedBit(i, Digit(b), n, n - p);
    }
  }

  /** The first bit splits the index range in halves. */
  lemma SumBitsSplit(n: nat, f: seq<bool> -> Complex)
    ensures SumBits(n + 1, f) == Add(SumBits(n, After(false, f)), SumBits(n, After(true, f)))
  {
    var low, high := AtIndex(n, After(false, f)), AtIndex(n, After(true, f));
    forall i: nat | i < Pow2(n) ensures low(i) == AtIndex(n + 1, f)(i) { HighBit(i, n, false); }
    forall i: nat | i < Pow2(n) ensures high(i) == AtIndex(n + 1, f)(Pow2(n) + i) { HighBit(i, n, true); }
    SumCSplit(Pow2(n), Pow2(n), AtIndex(n + 1, f), low, high);
  }

  predicate Matches(slots: seq<Slot>, bits: seq<bool>) {
    |bits| == |slots| && forall p :: 0 <= p < |slots| ==> slots[p] == Free || slots[p].bit == bits[p]
  }

  function Matching(slots: seq<Slot>, f: seq<bool> -> Complex): seq<bool> -> Complex {
    (bits: seq<bool>) => if Matches(slots, bits) then f(bits) else ZERO
  }

  /** The sum of f over the completions of a partial assignment. */
  function CompletionSum(slots: seq<Slot>, f: seq<bool> -> Complex): Complex {
    SumBits(|slots|, Matching(slots, f))
  }

  lemma SumBitsCongruent(n: nat, f: seq<bool> -> Complex, g: seq<bool> -> Complex)
    requires forall bits {:trigger f(bits)} {:trigger g(bits)} :: |bits| == n ==> f(bits) == g(bits)
    ensures SumBits(n, f) == SumBits(n, g)
  {
    forall i: nat | i < Pow2(n) ensures AtIndex(n, f)(i) == AtIndex(n, g)(i) { assert |BitsOf(i, n)| == n; }
    SumCCongruent(Pow2(n), AtIndex(n, f), AtIndex(n, g));
  }

  lemma MatchesFirst(slots: seq<Slot>, b: bool, bits: seq<bool>)
    requires slots != []
    ensures Matches(slots, [b] + bits) == ((slots[0] == Free || slots[0].bit == b) && Matches(slots[1..], bits))
  {
    if Matches(slots, [b] + bits) {
      forall p | 0 <= p < |slots| - 1 ensures slots[1..][p] == Free || slots[1..][p].bit == bits[p] {
        assert slots[p + 1] == Free || slots[p + 1].bit == ([b] + bits)[p + 1];
      }
      assert ([b] + bits)[0] == b;
    }
  }

  /** The half of a completion sum whose first bit is b. */
  function Branch(slots: seq<Slot>, b: bool, f: seq<bool> -> Complex): Complex
    requires slots != []
  {
    if slots[0] == Free || slots[0].bit == b then CompletionSum(slots[1..], After(b, f)) else ZERO
  }

  lemma BranchIsHalf(slots: seq<Slot>, b: bool, f: seq<bool> -> Complex)
    requires slots != []
    ensures SumBits(|slots| - 1, After(b, Matching(slots, f))) == Branch(slots, b, f)
  {
    var n, g := |slots| - 1, After(b, Matching(slots, f));
    if slots[0] == Free || slots[0].bit == b {
      forall bits | |bits| == n
        ensures g(bits) == Matching(slots[1..], After(b, f))(bits)
      {
        MatchesFirst(slots, b, bits);
      }
      SumBitsCongruent(n, g, Matching(slots[1..], After(b, f)));
    } else {
      forall i: nat | i < Pow2(n) ensures AtIndex(n, g)(i) == ZERO { MatchesFirst(slots, b, BitsOf(i, n)); }
      SumCZero(Pow2(n), AtIndex(n, g));
    }
  }

  lemma CompletionSplit(slots: seq<Slot>, f: seq<bool> -> Complex)
    requires slots != []
    ensures CompletionSum(slots, f) == Add(Branch(slots, false, f), Branch(slots, true, f))
  {
    SumBitsSplit(|slots| - 1, Matching(slots, f));
    BranchIsHalf(slots, false, f);
    BranchIsHalf(slots, true, f);
  }

  lemma NoSlots(slots: seq<Slot>, f: seq<bool> -> Complex)
    requires |slots| == 0
    ensures CompletionSum(slots, f) == f([])
  {
    assert BitsOf(0, 0) == [];
    assert SumC(1, AtIndex(0, Matching(slots, f))) == Add(ZERO, AtIndex(0, Matching(slots, f))(0));
  }

  lemma CompletionCongruent(slots: seq<Slot>, f: seq<bool> -> Complex, g: seq<bool> -> Complex)
    requires forall bits {:trigger f(bits)} {:trigger g(bits)} :: |bits| == |slots| ==> f(bits) == g(bits)
    ensures CompletionSum(slots, f) == CompletionSum(slots, g)
  {
    SumBitsCongruent(|slots|, Matching(slots, f), Matching(slots, g));
  }

  // ---------------------------------------------------------------- contraction is linear

  lemma RowTimesAdd(x: seq<Complex>, y: seq<Complex>, m: seq<Complex>, r: nat)
    requires |x| == |y| && |m| == |x| * r
    ensures RowTimes(Plus(x, y), m, r) == Plus(RowTimes(x, m, r), RowTimes(y, m, r))
  {
    forall j: nat | j < r
      ensures SumC(|x|, Term(Plus(x, y), m, r, j)) == Add(SumC(|x|, Term(x, m, r, j)), SumC(|y|, Term(y, m, r, j)))
    {
      forall i: nat | i < |x| ensures Term(Plus(x, y), m, r, j)(i) == Add(Term(x, m, r, j)(i), Term(y, m, r, j)(i)) {
        Distribute(Entry(m, |x|, r, i, j), x[i], y[i]);
      }
      SumCAdd(|x|, Term(x, m, r, j), Term(y, m, r, j), Term(Plus(x, y), m, r, j));
    }
  }

  lemma MatrixAdd(row: seq<Complex>, m: seq<Complex>, n: seq<Complex>, r: nat)
    requires |m| == |n| == |row| * r
    ensures RowTimes(row, Plus(m, n), r) == Plus(RowTimes(row, m, r), RowTimes(row, n, r))
  {
    forall j: nat | j < r
      ensures SumC(|row|, Term(row, Plus(m, n), r, j)) ==
        Add(SumC(|row|, Term(row, m, r, j)), SumC(|row|, Term(row, n, r, j)))
    {
      forall i: nat | i < |row|
        ensures Term(row, Plus(m, n), r, j)(i) == Add(Term(row, m, r, j)(i), Term(row, n, r, j)(i))
      {
        CellInside(i, j, |row|, r);
        Distribute(row[i], Entry(m, |row|, r, i, j), Entry(n, |row|, r, i, j));
      }
      SumCAdd(|row|, Term(row, m, r, j), Term(row, n, r, j), Term(row, Plus(m, n), r, j));
    }
  }

  lemma {:induction false} ReduceAdd(x: seq<Complex>, y: seq<Complex>, cores: seq<Core>, slots: seq<Slot>)
    requires |x| == |y| && Chain(|x|, cores) && |slots| == |cores|
    ensures ReduceFrom(Plus(x, y), cores, slots) == Add(ReduceFrom(x, cores, slots), ReduceFrom(y, cores, slots))
    decreases |cores|
  {
    if cores != [] {
      var m := match slots[0] case Fixed(b) => cores[0].Slice(b) case Free => Plus(cores[0].zero, cores[0].one);
      RowTimesAdd(x, y, m, cores[0].right);
      ReduceAdd(RowTimes(x, m, cores[0].right), RowTimes(y, m, cores[0].right), cores[1..], slots[1..]);
    }
  }

  function Values(row: seq<Complex>, cores: seq<Core>): seq<bool> -> Complex
    requires Chain(|row|, cores)
  {
    (bits: seq<bool>) => if |bits| == |cores| then ValueFrom(row, cores, bits) else ZERO
  }

  lemma BranchValues(row: seq<Complex>, cores: seq<Core>, slots: seq<Slot>, b: bool)
    requires Chain(|row|, cores) && |slots| == |cores| > 0
    ensures CompletionSum(slots[1..], After(b, Values(row, cores))) ==
            CompletionSum(slots[1..], Values(RowTimes(row, cores[0].Slice(b), cores[0].right), cores[1..]))
  {
    var g := Values(RowTimes(row, cores[0].Slice(b), cores[0].right), cores[1..]);
    forall bits | |bits| == |slots[1..]| ensures After(b, Values(row, cores))(bits) == g(bits) {
      assert ([b] + bits)[1..] == bits;
    }
    CompletionCongruent(slots[1..], After(b, Values(row, cores)), g);
  }

  function NextRow(row: seq<Complex>, cores: seq<Core>, b: bool): (next: seq<Complex>)
    requires Chain(|row|, cores) && cores != []
    ensures Chain(|next|, cores[1..])
  {
    RowTimes(row, cores[0].Slice(b), cores[0].right)
  }

  lemma FreeStep(row: seq<Complex>, cores: seq<Core>, slots: seq<Slot>)
    requires Chain(|row|, cores) && |slots| == |cores| > 0 && slots[0] == Free
    ensures ReduceFrom(row, cores, slots) ==
      Add(ReduceFrom(NextRow(row, cores, false), cores[1..], slots[1..]),
        ReduceFrom(NextRow(row, cores, true), cores[1..], slots[1..]))
  {
    MatrixAdd(row, cores[0].zero, cores[0].one, cores[0].right);
    ReduceAdd(NextRow(row, cores, false), NextRow(row, cores, true), cores[1..], slots[1..]);
  }

  lemma FixedStep(row: seq<Complex>, cores: seq<Core>, slots: seq<Slot>)
    requires Chain(|row|, cores) && |slots| == |cores| > 0 && slots[0].Fixed?
    ensures ReduceFrom(row, cores, slots) == ReduceFrom(NextRow(row, cores, slots[0].bit), cores[1..], slots[1..])
  {
  }

  lemma ReduceBase(row: seq<Complex>, cores: seq<Core>, slots: seq<Slot>)
    requires Chain(|row|, cores) && |slots| == |cores| == 0
    ensures ReduceFrom(row, cores, slots) == CompletionSum(slots, Values(row, cores))
  {
    var f := Values(row, cores);
    assert f([]) == row[0] && ReduceFrom(row, cores, slots) == row[0];
    NoSlots(slots, f);
  }

  lemma ReduceStep(row: seq<Complex>, cores: seq<Core>, slots: seq<Slot>, low: Complex, high: Complex)
    requires Chain(|row|, cores) && |slots| == |cores| > 0
    requires low == ReduceFrom(NextRow(row, cores, false), cores[1..], slots[1..])
    requires high == ReduceFrom(NextRow(row, cores, true), cores[1..], slots[1..])
    ensures ReduceFrom(row, cores, slots) ==
      Add(if slots[0] == Free || !slots[0].bit then low else ZERO,
          if slots[0] == Free || slots[0].bit then high else ZERO)
  {
    if slots[0] == Free {
      FreeStep(row, cores, slots);
    } else {
      FixedStep(row, cores, slots);
      Zeros(low);
      Zeros(high);
    }
  }

  /** Contracting with free positions sums the train over every completion. */
  lemma {:induction false} ReduceIsCompletionSum(row: seq<Complex>, cores: seq<Core>, slots: seq<Slot>)
    requires Chain(|row|, cores) && |slots| == |cores|
    ensures ReduceFrom(row, cores, slots) == CompletionSum(slots, Values(row, cores))
    decreases |cores|, 1
  {
    if cores == [] {
      ReduceBase(row, cores, slots);
    } else {
      BranchReduced(row, cores, slots, false);
      BranchReduced(row, cores, slots, true);
      CompletionSplit(slots, Values(row, cores));
      ReduceStep(row, cores, slots, ReduceFrom(NextRow(row, cores, false), cores[1..], slots[1..]),
        ReduceFrom(NextRow(row, cores, true), cores[1..], slots[1..]));
    }
  }

  lemma {:induction false} BranchReduced(row: seq<Complex>, cores: seq<Core>, slots: seq<Slot>, b: bool)
    requires Chain(|row|, cores) && |slots| == |cores| > 0
    ensures Branch(slots, b, Values(row, cores)) ==
      if slots[0] == Free || slots[0].bit == b then ReduceFrom(NextRow(row, cores, b), cores[1..], slots[1..]) else ZERO
    decreases |cores|, 0
  {
    BranchValues(row, cores, slots, b);
    ReduceIsCompletionSum(NextRow(row, cores, b), cores[1..], slots[1..]);
  }
}
