/** The rank-two Hamming-weight train: its values, and conditioned sums equal to the
    closed control for every set of fixed positions. */
module HammingTrain {
  import opened Bits
  import opened ComplexNumbers
  import opened Layout
  import opened Train
  import opened Hamming
  import opened Outcomes

  // ---------------------------------------------------------------- contraction loops

  /** The partial sums of the output row: `left` rows of the matrix are in, and row
      `left` too for the columns below `right`. */
  ghost predicate Filled(values: seq<Complex>, row: seq<Complex>, m: seq<Complex>, left: nat, right: nat)
    requires |m| == |row| * |values|
  {
    forall j: nat {:trigger values[j]} :: j < |values| ==>
      values[j] == SumC(if j < right then left + 1 else left, Term(row, m, |values|, j))
  }

  lemma FillOne(was: seq<Complex>, now: seq<Complex>, row: seq<Complex>, m: seq<Complex>, left: nat, right: nat)
    requires |m| == |row| * |was| && left < |row| && right < |was| && Filled(was, row, m, left, right)
    requires now == was[right := Add(was[right], Mul(row[left], Entry(m, |row|, |was|, left, right)))]
    ensures Filled(now, row, m, left, right + 1)
  {
  }

  lemma RowFilled(values: seq<Complex>, row: seq<Complex>, m: seq<Complex>, left: nat)
    requires |m| == |row| * |values| && Filled(values, row, m, left, |values|)
    ensures Filled(values, row, m, left + 1, 0)
  {
  }

  lemma ZeroRow(values: seq<Complex>, row: seq<Complex>, m: seq<Complex>, left: nat)
    requires |m| == |row| * |values| && left < |row| && row[left] == ZERO && Filled(values, row, m, left, 0)
    ensures Filled(values, row, m, left + 1, 0)
  {
    var r := |values|;
    forall j: nat | j < r ensures SumC(left + 1, Term(row, m, r, j)) == SumC(left, Term(row, m, r, j)) {
      Units(Entry(m, |row|, r, left, j));
      Zeros(SumC(left, Term(row, m, r, j)));
    }
  }

  lemma FilledIsProduct(values: seq<Complex>, row: seq<Complex>, m: seq<Complex>)
    requires |m| == |row| * |values| && Filled(values, row, m, |row|, 0)
    ensures values == RowTimes(row, m, |values|)
  {
  }

  /** One row-by-matrix step; zero row entries are skipped. */
  method ContractRow(row: seq<Complex>, core: Core, bit: bool) returns (next: seq<Complex>)
    requires core.Ok() && core.left == |row|
    ensures next == RowTimes(row, core.Slice(bit), core.right)
  {
    var m, r := core.Slice(bit), core.right;
    next := seq(r, _ => ZERO);
    for left := 0 to |row|
      invariant |next| == r && Filled(next, row, m, left, 0)
    {
      if row[left] == ZERO {
        ZeroRow(next, row, m, left);
      } else {
        for right := 0 to r
          invariant |next| == r && Filled(next, row, m, left, right)
        {
          ghost var was := next;
          next := next[right := Add(next[right], Mul(row[left], Entry(m, |row|, r, left, right)))];
          FillOne(was, next, row, m, left, right);
        }
        RowFilled(next, row, m, left);
      }
    }
    FilledIsProduct(next, row, m);
  }

  lemma FreeTerm(row: seq<Complex>, core: Core, left: nat, right: nat)
    requires core.Ok() && core.left == |row| && left < |row| && right < core.right
    ensures var at := left * core.right + right;
      at < |core.zero| && at < |core.one| &&
        Entry(Plus(core.zero, core.one), |row|, core.right, left, right) == Add(core.zero[at], core.one[at])
  {
    CellInside(left, right, |row|, core.right);
  }

  /** The free step: both slices added. */
  method ContractFree(row: seq<Complex>, core: Core) returns (next: seq<Complex>)
    requires core.Ok() && core.left == |row|
    ensures next == RowTimes(row, Plus(core.zero, core.one), core.right)
  {
    ghost var m := Plus(core.zero, core.one);
    var r := core.right;
    next := seq(r, _ => ZERO);
    for left := 0 to |row|
      invariant |next| == r && Filled(next, row, m, left, 0)
    {
      for right := 0 to r
        invariant |next| == r && Filled(next, row, m, left, right)
      {
        ghost var was := next;
        var offset := left * r + right;
        FreeTerm(row, core, left, right);
        next := next[right := Add(next[right], Mul(row[left], Add(core.zero[offset], core.one[offset])))];
        FillOne(was, next, row, m, left, right);
      }
      RowFilled(next, row, m, left);
    }
    FilledIsProduct(next, row, m);
  }

  /** Contraction of the whole train under a partial assignment: the sum of its
      values over every completion. */
  method ReduceAssignment(cores: seq<Core>, slots: seq<Slot>) returns (total: Complex)
    requires Chain(1, cores) && |slots| == |cores|
    ensures total == CompletionSum(slots, Values([ONE], cores))
  {
    var row := [ONE];
    for index := 0 to |cores|
      invariant Chain(|row|, cores[index..])
      invariant ReduceFrom(row, cores[index..], slots[index..]) == ReduceFrom([ONE], cores, slots)
    {
      assert cores[index..][1..] == cores[index + 1..] && slots[index..][1..] == slots[index + 1..];
      match slots[index] {
        case Fixed(bit) => row := ContractRow(row, cores[index], bit);
        case Free => row := ContractFree(row, cores[index]);
      }
    }
    ReduceIsCompletionSum([ONE], cores, slots);
    total := row[0];
  }

  // ---------------------------------------------------------------- conditions

  function FreeCount(slots: seq<Slot>): nat {
    if slots == [] then 0 else (if slots[0] == Free then 1 else 0) + FreeCount(slots[1..])
  }

  function FixedOnes(slots: seq<Slot>): nat {
    if slots == [] then 0 else (if slots[0] == Fixed(true) then 1 else 0) + FixedOnes(slots[1..])
  }

  /** Lengths agree, positions are distinct and in range, bits are 0 or 1. */
  ghost predicate WellConditioned(n: nat, positions: seq<nat>, bits: seq<nat>) {
    |positions| == |bits|
    && (forall k :: 0 <= k < |positions| ==> positions[k] < n && bits[k] <= 1)
    && (forall j, k :: 0 <= j < k < |positions| ==> positions[j] != positions[k])
  }

  /** The slots fix exactly the listed positions, to the listed bits. */
  ghost predicate Conditions(slots: seq<Slot>, n: nat, positions: seq<nat>, bits: seq<nat>) {
    |slots| == n && |positions| == |bits|
    && (forall k :: 0 <= k < |positions| ==> positions[k] < n && slots[positions[k]] == Fixed(bits[k] == 1))
    && (forall p :: 0 <= p < n && p !in positions ==> slots[p] == Free)
  }

  function BitCount(bits: seq<nat>): nat {
    if bits == [] then 0 else BitCount(bits[..|bits| - 1]) + bits[|bits| - 1]
  }

  method DirectBitCount(bits: seq<nat>) returns (result: nat)
    ensures result == BitCount(bits)
  {
    result := 0;
    for index := 0 to |bits|
      invariant result == BitCount(bits[..index])
    {
      assert bits[..index + 1][..index] == bits[..index];
      result := result + bits[index];
    }
    assert bits[..|bits|] == bits;
  }

  lemma {:induction false} FillSlot(slots: seq<Slot>, p: nat, b: bool)
    requires p < |slots| && slots[p] == Free
    ensures FreeCount(slots[p := Fixed(b)]) == FreeCount(slots) - 1
    ensures FixedOnes(slots[p := Fixed(b)]) == FixedOnes(slots) + Digit(b)
    decreases |slots|
  {
    if p > 0 {
      assert slots[p := Fixed(b)][1..] == slots[1..][p - 1 := Fixed(b)];
      FillSlot(slots[1..], p - 1, b);
    } else {
      assert slots[p := Fixed(b)][1..] == slots[1..];
    }
  }

  lemma {:induction false} AllFree(slots: seq<Slot>)
    requires forall p :: 0 <= p < |slots| ==> slots[p] == Free
    ensures FreeCount(slots) == |slots| && FixedOnes(slots) == 0
    decreases |slots|
  {
    if slots != [] { AllFree(slots[1..]); }
  }

  lemma Repeats(slots: seq<Slot>, n: nat, positions: seq<nat>, bits: seq<nat>, index: nat)
    requires |positions| == |bits| && index < |positions| && Conditions(slots, n, positions[..index], bits[..index])
    requires positions[index] < n && slots[positions[index]] != Free
    ensures !WellConditioned(n, positions, bits)
  {
    assert positions[index] in positions[..index];
    var k :| 0 <= k < index && positions[..index][k] == positions[index];
    assert positions[k] == positions[index];
  }

  lemma Extends(slots: seq<Slot>, n: nat, positions: seq<nat>, bits: seq<nat>, index: nat)
    requires |positions| == |bits| && index < |positions| && Conditions(slots, n, positions[..index], bits[..index])
    requires WellConditioned(n, positions[..index], bits[..index])
    requires positions[index] < n && bits[index] <= 1 && slots[positions[index]] == Free
    ensures WellConditioned(n, positions[..index + 1], bits[..index + 1])
    ensures Conditions(slots[positions[index] := Fixed(bits[index] == 1)], n, positions[..index + 1], bits[..index + 1])
    ensures BitCount(bits[..index + 1]) == BitCount(bits[..index]) + bits[index]
  {
    var was, now := positions[..index], positions[..index + 1];
    assert now == was + [positions[index]] && bits[..index + 1] == bits[..index] + [bits[index]];
    assert bits[..index + 1][..index] == bits[..index];
    forall k | 0 <= k < index ensures was[k] != positions[index] {
      assert slots[was[k]] == Fixed(bits[..index][k] == 1);
    }
  }

  /** The assignment table of a conditioned sum, or a refusal. */
  method Assignment(n: nat, positions: seq<nat>, bits: seq<nat>) returns (result: Outcome<seq<Slot>>)
    ensures result.Success? <==> WellConditioned(n, positions, bits)
    ensures result.Success? ==> Conditions(result.value, n, positions, bits)
    ensures result.Success? ==> FreeCount(result.value) + |positions| == n && FixedOnes(result.value) == BitCount(bits)
  {
    if |positions| != |bits| {
      return Thrown("QTT conditioned reduction position/bit counts differ");
    }
    var slots := seq(n, _ => Free);
    AllFree(slots);
    for index := 0 to |positions|
      invariant WellConditioned(n, positions[..index], bits[..index])
      invariant Conditions(slots, n, positions[..index], bits[..index])
      invariant FreeCount(slots) + index == n && FixedOnes(slots) == BitCount(bits[..index])
    {
      var p := positions[index];
      if p >= n {
        return Thrown("QTT conditioned reduction position is outside logical shape");
      }
      if bits[index] > 1 {
        return Thrown("QTT conditioned reduction bits must be 0 or 1");
      }
      if slots[p] != Free {
        Repeats(slots, n, positions, bits, index);
        return Thrown("QTT conditioned reduction positions must be unique");
      }
      FillSlot(slots, p, bits[index] == 1);
      Extends(slots, n, positions, bits, index);
      slots := slots[p := Fixed(bits[index] == 1)];
    }
    assert positions[..|positions|] == positions && bits[..|bits|] == bits;
    result := Success(slots);
  }

  /** The conditioned sum: refused exactly on malformed conditions, otherwise the sum
      over every bit string that meets them. */
  method ConditionedSum(cores: seq<Core>, positions: seq<nat>, bits: seq<nat>) returns (result: Outcome<Complex>)
    requires Chain(1, cores)
    ensures result.Success? <==> WellConditioned(|cores|, positions, bits)
    ensures forall slots :: result.Success? && Conditions(slots, |cores|, positions, bits) ==>
      result.value == CompletionSum(slots, Values([ONE], cores))
  {
    var assignment := Assignment(|cores|, positions, bits);
    if assignment.Thrown? {
      return Thrown(assignment.message);
    }
    var total := ReduceAssignment(cores, assignment.value);
    forall slots | Conditions(slots, |cores|, positions, bits) ensures slots == assignment.value {
      SameConditions(slots, assignment.value, |cores|, positions, bits);
    }
    result := Success(total);
  }

  lemma SameConditions(s: seq<Slot>, t: seq<Slot>, n: nat, positions: seq<nat>, bits: seq<nat>)
    requires Conditions(s, n, positions, bits) && Conditions(t, n, positions, bits)
    ensures s == t
  {
    forall p | 0 <= p < n ensures s[p] == t[p] {
      if p in positions {
        var k :| 0 <= k < |positions| && positions[k] == p;
      }
    }
  }

  // ---------------------------------------------------------------- weighted bit sums

  function FirstCore(offset: Complex, w: Complex): Core { Core(1, 2, [ONE, offset], [ONE, Add(offset, w)]) }

  function MiddleCore(w: Complex): Core { Core(2, 2, [ONE, ZERO, ZERO, ONE], [ONE, w, ZERO, ONE]) }

  function LastCore(w: Complex): Core { Core(2, 1, [ZERO, ONE], [w, ONE]) }

  function TailCores(weights: seq<Complex>): (cores: seq<Core>)
    requires weights != []
    ensures Chain(2, cores) && |cores| == |weights|
    decreases |weights|
  {
    if |weights| == 1 then
      assert Chain(1, []);
      [LastCore(weights[0])]
    else
      var rest := TailCores(weights[1..]);
      assert ([MiddleCore(weights[0])] + rest)[1..] == rest;
      [MiddleCore(weights[0])] + rest
  }

  /** The train of offset + sum of the weights of the set bits. */
  function WeightedCores(weights: seq<Complex>, offset: Complex): (cores: seq<Core>)
    requires weights != []
    ensures Chain(1, cores) && |cores| == |weights|
  {
    if |weights| == 1 then [Core(1, 1, [offset], [Add(offset, weights[0])])]
    else
      var rest := TailCores(weights[1..]);
      assert ([FirstCore(offset, weights[0])] + rest)[1..] == rest;
      [FirstCore(offset, weights[0])] + rest
  }

  method WeightedBitSum(weights: seq<Complex>, offset: Complex) returns (result: Outcome<seq<Core>>)
    ensures result.Success? <==> weights != []
    ensures result.Success? ==> result.value == WeightedCores(weights, offset)
  {
    if weights == [] {
      return Thrown("QTT weighted bit sum requires at least one binary mode");
    }
    if |weights| == 1 {
      return Success([Core(1, 1, [offset], [Add(offset, weights[0])])]);
    }
    var cores := [FirstCore(offset, weights[0])];
    for index := 1 to |weights| - 1
      invariant cores + TailCores(weights[index..]) == WeightedCores(weights, offset)
    {
      assert weights[index..][1..] == weights[index + 1..];
      assert TailCores(weights[index..]) == [MiddleCore(weights[index])] + TailCores(weights[index + 1..]);
      cores := cores + [MiddleCore(weights[index])];
    }
    cores := cores + [LastCore(weights[|weights| - 1])];
    result := Success(cores);
  }

  function Part(w: Complex, b: bool): Complex { if b then w else ZERO }

  /** The sum of the weights at the set bits. */
  function WeightSum(weights: seq<Complex>, bits: seq<bool>): Complex
    requires |weights| == |bits|
    decreases |weights|
  {
    if weights == [] then ZERO else Add(Part(weights[0], bits[0]), WeightSum(weights[1..], bits[1..]))
  }

  lemma PairEntry(row: seq<Complex>, m: seq<Complex>, r: nat, j: nat)
    requires |row| == 2 && |m| == |row| * r && j < r
    ensures RowTimes(row, m, r)[j] == Add(Mul(row[0], m[j]), Mul(row[1], m[r + j]))
  {
    var f := Term(row, m, r, j);
    assert SumC(1, f) == Add(SumC(0, f), f(0));
    assert SumC(2, f) == Add(SumC(1, f), f(1));
    Zeros(f(0));
  }

  lemma SingleEntry(row: seq<Complex>, m: seq<Complex>, r: nat, j: nat)
    requires row == [ONE] && |m| == |row| * r && j < r
    ensures RowTimes(row, m, r)[j] == m[j]
  {
    var f := Term(row, m, r, j);
    assert SumC(1, f) == Add(SumC(0, f), f(0));
    Zeros(f(0));
    Units(m[j]);
  }

  lemma KeepEntry(row: seq<Complex>, m: seq<Complex>, r: nat, j: nat)
    requires |row| == 2 && |m| == |row| * r && j < r && row[0] == ONE && m[r + j] == ZERO
    ensures RowTimes(row, m, r)[j] == m[j]
  {
    PairEntry(row, m, r, j);
    Units(m[j]);
    Units(row[1]);
    Zeros(m[j]);
  }

  lemma SumEntry(row: seq<Complex>, m: seq<Complex>, r: nat, j: nat)
    requires |row| == 2 && |m| == |row| * r && j < r && row[0] == ONE && m[r + j] == ONE
    ensures RowTimes(row, m, r)[j] == Add(m[j], row[1])
  {
    PairEntry(row, m, r, j);
    Units(m[j]);
    Units(row[1]);
  }

  lemma TwoEntries(row: seq<Complex>, x: Complex, y: Complex)
    requires |row| == 2 && row[0] == x && row[1] == y
    ensures row == [x, y]
  {
  }

  lemma ClosingRow(row: seq<Complex>, m: seq<Complex>, r: nat, part: Complex)
    requires |row| == 2 && row[0] == ONE && r == 1 && |m| == |row| * r && m[0] == part && m[r] == ONE
    ensures RowTimes(row, m, r) == [Add(part, row[1])]
  {
    SumEntry(row, m, r, 0);
  }

  lemma OpeningRow(row: seq<Complex>, m: seq<Complex>, r: nat, x: Complex)
    requires row == [ONE] && r == 2 && |m| == |row| * r && m[0] == ONE && m[1] == x
    ensures RowTimes(row, m, r) == [ONE, x]
  {
    SingleEntry(row, m, r, 0);
    SingleEntry(row, m, r, 1);
    TwoEntries(RowTimes(row, m, r), ONE, x);
  }

  lemma MiddleEntry(row: seq<Complex>, core: Core, w: Complex, b: bool, j: nat, value: Complex)
    requires |row| == 2 && row[0] == ONE && core == MiddleCore(w) && j < core.right
    requires value == if j == 0 then ONE else Add(Part(w, b), row[1])
    ensures RowTimes(row, core.Slice(b), core.right)[j] == value
  {
    if j == 0 { KeepEntry(row, core.Slice(b), core.right, j); } else { SumEntry(row, core.Slice(b), core.right, j); }
  }

  /** Carrying the running sum beside a one. */
  lemma MiddleStep(row: seq<Complex>, core: Core, w: Complex, b: bool)
    requires |row| == 2 && row[0] == ONE && core == MiddleCore(w)
    ensures RowTimes(row, core.Slice(b), core.right) == [ONE, Add(Part(w, b), row[1])]
  {
    var want := [ONE, Add(Part(w, b), row[1])];
    forall j: nat | j < core.right ensures RowTimes(row, core.Slice(b), core.right)[j] == want[j] {
      MiddleEntry(row, core, w, b, j, want[j]);
    }
  }

  lemma LastStep(sum: Complex, w: Complex, b: bool)
    ensures RowTimes([ONE, sum], LastCore(w).Slice(b), 1) == [Add(Part(w, b), sum)]
  {
    ClosingRow([ONE, sum], LastCore(w).Slice(b), 1, Part(w, b));
  }

  lemma Shuffle(x: Complex, y: Complex, z: Complex)
    ensures Add(Add(x, y), z) == Add(y, Add(x, z)) && Add(x, y) == Add(y, x)
  {
  }

  lemma TailEnd(sum: Complex, weights: seq<Complex>, bits: seq<bool>)
    requires |weights| == |bits| == 1
    ensures ValueFrom([ONE, sum], TailCores(weights), bits) == Add(sum, WeightSum(weights, bits))
  {
    var part := Part(weights[0], bits[0]);
    LastStep(sum, weights[0], bits[0]);
    LastValue([ONE, sum], LastCore(weights[0]), bits, Add(part, sum));
    Zeros(part);
  }

  lemma MiddleValue(row: seq<Complex>, core: Core, w: Complex, rest: seq<Core>, bits: seq<bool>, next: seq<Complex>)
    requires |row| == 2 && row[0] == ONE && core == MiddleCore(w) && Chain(2, rest) && |bits| == |rest| + 1
    requires next == [ONE, Add(Part(w, bits[0]), row[1])]
    ensures Chain(|row|, [core] + rest) && ValueFrom(row, [core] + rest, bits) == ValueFrom(next, rest, bits[1..])
  {
    MiddleStep(row, core, w, bits[0]);
    NextValue(row, core, rest, bits);
  }

  lemma TailNext(sum: Complex, weights: seq<Complex>, bits: seq<bool>)
    requires |weights| == |bits| > 1
    ensures ValueFrom([ONE, sum], TailCores(weights), bits) ==
            ValueFrom([ONE, Add(Part(weights[0], bits[0]), sum)], TailCores(weights[1..]), bits[1..])
  {
    MiddleValue([ONE, sum], MiddleCore(weights[0]), weights[0], TailCores(weights[1..]), bits,
      [ONE, Add(Part(weights[0], bits[0]), sum)]);
  }

  lemma {:induction false} TailValue(sum: Complex, weights: seq<Complex>, bits: seq<bool>)
    requires weights != [] && |bits| == |weights|
    ensures ValueFrom([ONE, sum], TailCores(weights), bits) == Add(sum, WeightSum(weights, bits))
    decreases |weights|
  {
    var part, rest := Part(weights[0], bits[0]), WeightSum(weights[1..], bits[1..]);
    Shuffle(part, sum, rest);
    if |weights| == 1 {
      TailEnd(sum, weights, bits);
    } else {
      TailValue(Add(part, sum), weights[1..], bits[1..]);
      TailNext(sum, weights, bits);
    }
  }

  lemma LastValue(row: seq<Complex>, core: Core, bits: seq<bool>, value: Complex)
    requires core.Ok() && core.left == |row| && core.right == 1 && |bits| == 1
    requires RowTimes(row, core.Slice(bits[0]), 1) == [value]
    ensures Chain(|row|, [core]) && ValueFrom(row, [core], bits) == value
  {
    assert [core][1..] == [];
  }

  lemma NextValue(row: seq<Complex>, core: Core, rest: seq<Core>, bits: seq<bool>)
    requires core.Ok() && core.left == |row| && Chain(core.right, rest) && |bits| == |rest| + 1
    ensures Chain(|row|, [core] + rest)
    ensures ValueFrom(row, [core] + rest, bits) ==
      ValueFrom(RowTimes(row, core.Slice(bits[0]), core.right), rest, bits[1..])
  {
    assert ([core] + rest)[1..] == rest;
  }

  lemma FirstStep(offset: Complex, w: Complex, b: bool)
    ensures RowTimes([ONE], FirstCore(offset, w).Slice(b), 2) == [ONE, Add(offset, Part(w, b))]
  {
    var m := FirstCore(offset, w).Slice(b);
    Zeros(offset);
    OpeningRow([ONE], m, 2, Add(offset, Part(w, b)));
  }

  lemma SingleStep(offset: Complex, w: Complex, b: bool)
    ensures RowTimes([ONE], Core(1, 1, [offset], [Add(offset, w)]).Slice(b), 1) == [Add(offset, Part(w, b))]
  {
    var m := Core(1, 1, [offset], [Add(offset, w)]).Slice(b);
    SingleEntry([ONE], m, 1, 0);
    Zeros(offset);
  }

  /** The train evaluates to the weighted bit sum it is named after. */
  lemma WeightedValue(weights: seq<Complex>, offset: Complex, bits: seq<bool>)
    requires weights != [] && |bits| == |weights|
    ensures ValueFrom([ONE], WeightedCores(weights, offset), bits) == Add(offset, WeightSum(weights, bits))
  {
    var part := Part(weights[0], bits[0]);
    if |weights| == 1 {
      SingleStep(offset, weights[0], bits[0]);
      LastValue([ONE], Core(1, 1, [offset], [Add(offset, weights[0])]), bits, Add(offset, part));
      Zeros(part);
    } else {
      FirstStep(offset, weights[0], bits[0]);
      TailValue(Add(offset, part), weights[1..], bits[1..]);
      Shuffle(offset, part, WeightSum(weights[1..], bits[1..]));
      Shuffle(part, offset, WeightSum(weights[1..], bits[1..]));
      NextValue([ONE], FirstCore(offset, weights[0]), TailCores(weights[1..]), bits);
    }
  }

  // ---------------------------------------------------------------- Hamming weight

  function Whole(x: nat): Complex { Complex(x as real, 0.0) }

  function Ones(bits: seq<bool>): nat
    decreases |bits|
  {
    if bits == [] then 0 else Digit(bits[0]) + Ones(bits[1..])
  }

  function HammingCores(n: nat): (cores: seq<Core>)
    requires n > 0
    ensures Chain(1, cores) && |cores| == n
  {
    WeightedCores(seq(n, _ => ONE), ZERO)
  }

  lemma WholeAdd(x: nat, y: nat)
    ensures Add(Whole(x), Whole(y)) == Whole(x + y)
  {
  }

  lemma {:induction false} UnitWeights(weights: seq<Complex>, bits: seq<bool>)
    requires |weights| == |bits| && forall i :: 0 <= i < |weights| ==> weights[i] == ONE
    ensures WeightSum(weights, bits) == Whole(Ones(bits))
    decreases |weights|
  {
    if weights != [] {
      UnitWeights(weights[1..], bits[1..]);
      WholeAdd(Digit(bits[0]), Ones(bits[1..]));
    }
  }

  /** The Hamming train evaluates to the number of set bits. */
  lemma HammingValue(n: nat, bits: seq<bool>)
    requires n > 0 && |bits| == n
    ensures ValueFrom([ONE], HammingCores(n), bits) == Whole(Ones(bits))
  {
    var weights := seq(n, _ => ONE);
    WeightedValue(weights, ZERO, bits);
    UnitWeights(weights, bits);
    Zeros(WeightSum(weights, bits));
  }

  lemma {:induction false} SameLowBits(x: nat, y: nat, n: nat)
    requires forall i :: 0 <= i < n ==> Bit(x, i) == Bit(y, i)
    ensures BitTotal(x, n) == BitTotal(y, n)
  {
    if n > 0 { SameLowBits(x, y, n - 1); }
  }

  lemma HighPopcount(i: nat, n: nat, b: bool, index: nat)
    requires i < Pow2(n) && index == i + Digit(b) * Pow2(n)
    ensures Popcount(index) == Popcount(i) + Digit(b)
  {
    forall j: nat | j <= n ensures Bit(index, j) == if j < n then Bit(i, j) else b {
      StackedBit(i, Digit(b), n, j);
    }
    SameLowBits(index, i, n);
    PopcountIsBitTotal(i, n);
    PopcountIsBitTotal(index, n + 1);
  }

  lemma {:induction false} OnesIsPopcount(index: nat, n: nat)
    requires index < Pow2(n)
    ensures Ones(BitsOf(index, n)) == Popcount(index)
    decreases n
  {
    if n > 0 {
      var b := index >= Pow2(n - 1);
      var i := if b then index - Pow2(n - 1) else index;
      HighBit(i, n - 1, b);
      assert ([b] + BitsOf(i, n - 1))[1..] == BitsOf(i, n - 1);
      OnesIsPopcount(i, n - 1);
      HighPopcount(i, n - 1, b, index);
    }
  }

  /** At every index the train holds the index's popcount. */
  lemma HammingValueAt(n: nat, index: nat)
    requires n > 0 && index < Pow2(n)
    ensures ValueFrom([ONE], HammingCores(n), BitsOf(index, n)) == Whole(Popcount(index))
  {
    HammingValue(n, BitsOf(index, n));
    OnesIsPopcount(index, n);
  }

  function Booleans(bits: seq<nat>): (b: seq<bool>)
    ensures |b| == |bits|
  {
    seq(|bits|, i requires 0 <= i < |bits| => bits[i] == 1)
  }

  lemma {:induction false} OnesLast(bits: seq<bool>, b: bool)
    ensures Ones(bits + [b]) == Ones(bits) + Digit(b)
    decreases |bits|
  {
    if bits == [] {
      OnesFirst(b, []);
      assert bits + [b] == [b] + [];
    } else {
      assert (bits + [b])[1..] == bits[1..] + [b];
      OnesLast(bits[1..], b);
    }
  }

  lemma {:induction false} BitCountIsOnes(bits: seq<nat>)
    requires forall i :: 0 <= i < |bits| ==> bits[i] <= 1
    ensures BitCount(bits) == Ones(Booleans(bits))
    decreases |bits|
  {
    if bits != [] {
      var k := |bits| - 1;
      BitCountIsOnes(bits[..k]);
      assert Booleans(bits) == Booleans(bits[..k]) + [bits[k] == 1];
      OnesLast(Booleans(bits[..k]), bits[k] == 1);
    }
  }

  /** On a bit string the train's value is what the direct count adds up. */
  lemma TrainValueIsBitCount(bits: seq<nat>)
    requires bits != [] && forall i :: 0 <= i < |bits| ==> bits[i] <= 1
    ensures ValueFrom([ONE], HammingCores(|bits|), Booleans(bits)) == Whole(BitCount(bits))
  {
    HammingValue(|bits|, Booleans(bits));
    BitCountIsOnes(bits);
  }

  // ---------------------------------------------------------------- conditioned totals

  function Counted(c: nat): seq<bool> -> Complex { (bits: seq<bool>) => Whole(c + Ones(bits)) }

  /** The total of c plus the set bits, over all completions, slot by slot. */
  function ConditionedTotal(slots: seq<Slot>, c: nat): nat
    decreases |slots|
  {
    if slots == [] then c
    else match slots[0]
      case Fixed(b) => ConditionedTotal(slots[1..], c + Digit(b))
      case Free => ConditionedTotal(slots[1..], c) + ConditionedTotal(slots[1..], c + 1)
  }

  lemma OnesFirst(b: bool, bits: seq<bool>)
    ensures Ones([b] + bits) == Digit(b) + Ones(bits)
  {
    assert ([b] + bits)[1..] == bits;
  }

  lemma CountedIs(c: nat, bits: seq<bool>, k: nat)
    requires k == c + Ones(bits)
    ensures Counted(c)(bits) == Whole(k)
  {
  }

  lemma CountedAfter(bits: seq<bool>, c: nat, b: bool, next: nat)
    requires next == c + Digit(b)
    ensures After(b, Counted(c))(bits) == Counted(next)(bits)
  {
    OnesFirst(b, bits);
    CountedIs(c, [b] + bits, next + Ones(bits));
    CountedIs(next, bits, next + Ones(bits));
  }

  lemma CountedCongruent(slots: seq<Slot>, c: nat, b: bool, next: nat)
    requires next == c + Digit(b)
    ensures CompletionSum(slots, After(b, Counted(c))) == CompletionSum(slots, Counted(next))
  {
    forall bits | |bits| == |slots|
      ensures After(b, Counted(c))(bits) == Counted(next)(bits)
    {
      CountedAfter(bits, c, b, next);
    }
    CompletionCongruent(slots, After(b, Counted(c)), Counted(next));
  }

  lemma CountedEmpty(slots: seq<Slot>, c: nat)
    requires |slots| == 0
    ensures CompletionSum(slots, Counted(c)) == Whole(c)
  {
    EmptyCount(c);
    NoSlots(slots, Counted(c));
  }

  lemma EmptyCount(c: nat)
    ensures Counted(c)([]) == Whole(c)
  {
    assert c + Ones([]) == c;
  }

  lemma CountedBranch(slots: seq<Slot>, c: nat, b: bool)
    requires slots != []
    ensures CompletionSum(slots[1..], After(b, Counted(c))) == CompletionSum(slots[1..], Counted(c + Digit(b)))
  {
    CountedCongruent(slots[1..], c, b, c + Digit(b));
  }

  lemma CountedFree(slots: seq<Slot>, c: nat)
    requires slots != [] && slots[0] == Free
    ensures CompletionSum(slots, Counted(c)) ==
            Add(CompletionSum(slots[1..], Counted(c)), CompletionSum(slots[1..], Counted(c + 1)))
  {
    CompletionSplit(slots, Counted(c));
    CountedBranch(slots, c, false);
    CountedBranch(slots, c, true);
  }

  lemma CountedFixed(slots: seq<Slot>, c: nat, b: bool)
    requires slots != [] && slots[0] == Fixed(b)
    ensures CompletionSum(slots, Counted(c)) == CompletionSum(slots[1..], Counted(c + Digit(b)))
  {
    CompletionSplit(slots, Counted(c));
    CountedBranch(slots, c, b);
    Zeros(CompletionSum(slots[1..], Counted(c + Digit(b))));
  }

  lemma {:induction false} CompletionTotal(slots: seq<Slot>, c: nat)
    ensures CompletionSum(slots, Counted(c)) == Whole(ConditionedTotal(slots, c))
    decreases |slots|
  {
    if |slots| == 0 {
      CountedEmpty(slots, c);
    } else if slots[0] == Free {
      CountedFree(slots, c);
      CompletionTotal(slots[1..], c);
      CompletionTotal(slots[1..], c + 1);
      WholeAdd(ConditionedTotal(slots[1..], c), ConditionedTotal(slots[1..], c + 1));
    } else {
      CountedFixed(slots, c, slots[0].bit);
      CompletionTotal(slots[1..], c + Digit(slots[0].bit));
    }
  }

  /** Twice the conditioned total is (2k + f) * 2^f with k set bits and f free ones. */
  lemma {:induction false} ConditionedClosed(slots: seq<Slot>, c: nat)
    ensures 2 * ConditionedTotal(slots, c) == (2 * (c + FixedOnes(slots)) + FreeCount(slots)) * Pow2(FreeCount(slots))
    decreases |slots|
  {
    if slots == [] {
      assert Pow2(0) == 1;
    } else if slots[0] == Free {
      ConditionedClosed(slots[1..], c);
      ConditionedClosed(slots[1..], c + 1);
      TwoHalves(2 * (c + FixedOnes(slots[1..])) + FreeCount(slots[1..]), Pow2(FreeCount(slots[1..])));
    } else {
      ConditionedClosed(slots[1..], c + Digit(slots[0].bit));
    }
  }

  lemma TwoHalves(a: nat, p: nat)
    ensures a * p + (a + 2) * p == (a + 1) * (2 * p)
  {
  }

  /** The control the benchmark compares with: k * 2^f + f * 2^(f-1). */
  function ConditionedControl(ones: nat, free: nat): real {
    Ldexp(ones as real, free) + Ldexp(free as real, free - 1)
  }

  lemma ControlFrom(t: nat, k: nat, f: nat, p: nat, q: real, w: real)
    requires 2 * t == (2 * k + f) * p && p as real == 2.0 * q && w == 2.0 * q
    ensures t as real == k as real * w + f as real * q
  {
    RealProduct(2 * k + f, p);
    assert (2.0 * k as real + f as real) * (2.0 * q) == 2.0 * (k as real * (2.0 * q)) + 2.0 * (f as real * q);
  }

  lemma ControlPower(t: nat, k: nat, f: nat)
    requires 2 * t == (2 * k + f) * Pow2(f)
    ensures t as real == ConditionedControl(k, f)
  {
    HalfPower(f);
    WholePower(f);
    ControlFrom(t, k, f, Pow2(f), PowerOfTwo(f - 1), PowerOfTwo(f));
  }

  lemma ControlIsTotal(slots: seq<Slot>)
    ensures ConditionedTotal(slots, 0) as real == ConditionedControl(FixedOnes(slots), FreeCount(slots))
  {
    ConditionedClosed(slots, 0);
    ControlPower(ConditionedTotal(slots, 0), FixedOnes(slots), FreeCount(slots));
  }

  /** The engine's conditioned sum of the Hamming train is the closed control, for
      every width and every well-formed set of conditions. */
  method ConditionedHamming(n: nat, positions: seq<nat>, bits: seq<nat>) returns (result: Outcome<Complex>)
    ensures result.Success? <==> n > 0 && WellConditioned(n, positions, bits)
    ensures result.Success? ==> |positions| <= n
    ensures result.Success? ==> result.value == Complex(ConditionedControl(BitCount(bits), n - |positions|), 0.0)
  {
    if n == 0 {
      return Thrown("QTT hamming-weight field requires at least one binary mode");
    }
    var weights := seq(n, _ => ONE);
    var train := WeightedBitSum(weights, ZERO);
    var slots := Assignment(n, positions, bits);
    if slots.Thrown? {
      return Thrown(slots.message);
    }
    var total := ReduceAssignment(train.value, slots.value);
    HammingCompletion(n, slots.value);
    CompletionTotal(slots.value, 0);
    ControlIsTotal(slots.value);
    result := Success(total);
  }

  /** With nothing fixed the contraction is the dense popcount loop's total. */
  lemma SumAllIsDense(n: nat, slots: seq<Slot>)
    requires n > 0 && |slots| == n && forall p :: 0 <= p < n ==> slots[p] == Free
    ensures CompletionSum(slots, Values([ONE], HammingCores(n))) == Whole(PopcountTotal(Pow2(n)))
  {
    HammingCompletion(n, slots);
    CompletionTotal(slots, 0);
    ConditionedClosed(slots, 0);
    AllFree(slots);
    TotalClosed(n);
  }

  lemma HammingCompletion(n: nat, slots: seq<Slot>)
    requires n > 0 && |slots| == n
    ensures CompletionSum(slots, Values([ONE], HammingCores(n))) == CompletionSum(slots, Counted(0))
  {
    forall bits | |bits| == n
      ensures Values([ONE], HammingCores(n))(bits) == Counted(0)(bits)
    {
      HammingValue(n, bits);
    }
    CompletionCongruent(slots, Values([ONE], HammingCores(n)), Counted(0));
  }
}
