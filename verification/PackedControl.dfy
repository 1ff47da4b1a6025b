/** The packed Gaussian eliminator: rows are 64-bit words in one flat buffer,
    and every operation refines its boolean-row counterpart in Gf2. */
module PackedControl {
  import opened Bits
  import opened Layout
  import opened Outcomes
  import opened Sums
  import opened Gf2

  type Word = x: nat | x < Pow2(WORD_BITS) witness 0

  function WordCount(n: nat): nat { (n + 63) / 64 }

  /** The n variables stored in a packed row. */
  function RowBits(words: seq<Word>, n: nat): (r: seq<bool>)
    requires |words| == WordCount(n)
    ensures |r| == n
  {
    seq(n, v requires 0 <= v < n => Bit(words[v / 64], v % 64))
  }

  /** No bit at or beyond n is set. */
  ghost predicate PaddingClear(words: seq<Word>, n: nat)
    requires |words| == WordCount(n)
  {
    forall v :: n <= v < 64 * |words| ==> !Bit(words[v / 64], v % 64)
  }

  function CountTrailingZeros(w: nat): (k: nat)
    requires w > 0
    ensures Bit(w, k) && forall i :: 0 <= i < k ==> !Bit(w, i)
  {
    if w % 2 == 1 then 0
    else
      var k := CountTrailingZeros(w / 2);
      assert forall i :: 0 < i <= k ==> Bit(w, i) == Bit(w / 2, i - 1);
      1 + k
  }

  lemma LeadingAtWord(words: seq<Word>, n: nat, word: nat)
    requires |words| == WordCount(n) && word < |words| && words[word] != 0
    requires forall u :: 0 <= u < word ==> words[u] == 0
    ensures var v := word * 64 + CountTrailingZeros(words[word]);
            Leading(RowBits(words, n)) == (if v < n then v else n)
  {
    var bit := CountTrailingZeros(words[word]);
    if bit >= 64 { HighBitsClear(words[word], 64, bit); }
    var v := word * 64 + bit;
    forall u: nat | u < n && u < v ensures !RowBits(words, n)[u] {
      if u / 64 < word { ZeroBits(u % 64); }
    }
    LeadingIs(RowBits(words, n), if v < n then v else n);
  }

  lemma LeadingNowhere(words: seq<Word>, n: nat)
    requires |words| == WordCount(n) && forall u :: 0 <= u < |words| ==> words[u] == 0
    ensures Leading(RowBits(words, n)) == n
  {
    forall u: nat | u < n ensures !RowBits(words, n)[u] { ZeroBits(u % 64); }
    LeadingIs(RowBits(words, n), n);
  }

  lemma ZeroWord(w: Word)
    requires forall i :: 0 <= i < 64 ==> !Bit(w, i)
    ensures w == 0
  {
    forall i: nat | i < 64 ensures Bit(w, i) == Bit(0, i) { ZeroBits(i); }
    SameBits(w, 0, 64);
  }

  function WordXor(a: Word, b: Word): (c: Word)
    ensures forall i :: 0 <= i < 64 ==> Bit(c, i) == (Bit(a, i) != Bit(b, i))
  {
    CombineFits(XorOp, a, b, 64);
    assert forall i :: 0 <= i < 64 ==> Bit(Xor(a, b), i) == (Bit(a, i) != Bit(b, i)) by {
      forall i: nat | i < 64 { CombineBit(XorOp, a, b, i); }
    }
    Xor(a, b)
  }

  /** `word | (1 << k)`. */
  function WordSet(a: Word, k: nat): (c: Word)
    requires k < 64
    ensures forall i :: 0 <= i < 64 ==> Bit(c, i) == (i == k || Bit(a, i))
  {
    OneBitUpdate(OrOp, a, k, 64);
    Or(a, Pow2(k))
  }

  /** Row p of the flat buffer. */
  function Block(buffer: seq<Word>, p: nat, n: nat, wc: nat): (r: seq<Word>)
    requires p < n && |buffer| == n * wc
    ensures |r| == wc
  {
    RowInside(p, n, wc);
    buffer[p * wc..p * wc + wc]
  }

  function AllRows(buffer: seq<Word>, n: nat): (rows: seq<seq<bool>>)
    requires |buffer| == n * WordCount(n)
  {
    seq(n, p requires 0 <= p < n => RowBits(Block(buffer, p, n, WordCount(n)), n))
  }

  class PackedGF2Control {
    const variableCount: nat
    const wordCount: nat
    const retained: nat
    const basis: array<Word>
    const basisRhs: array<bool>
    const active: array<bool>
    var rank: nat
    var freeVariables: nat
    var inconsistent: bool
    var retainedFixed: bool
    var retainedValue: bool

    ghost predicate Shape()
      reads basis, basisRhs, active
    {
      && wordCount == WordCount(variableCount)
      && basis.Length == variableCount * wordCount
      && basisRhs.Length == variableCount
      && active.Length == variableCount
      && active != basisRhs
    }

    ghost function State(): Echelon
      reads this, basis, basisRhs, active
      requires Shape()
    {
      Echelon(AllRows(basis[..], variableCount), basisRhs[..], active[..], rank, inconsistent)
    }

    ghost predicate Valid()
      reads this, basis, basisRhs, active
    {
      && Shape()
      && WellFormed(State(), variableCount)
      && (forall p :: 0 <= p < variableCount && active[p] ==>
            PaddingClear(Block(basis[..], p, variableCount, wordCount), variableCount))
    }

    /** What the object knows about its retained variable. */
    ghost predicate Compiled(s: System)
      reads this, basis, basisRhs, active
    {
      && Valid()
      && ValidSystem(s) && s.variableCount == variableCount && retained < variableCount
      && State() == Compile(s.equations, variableCount)
      && freeVariables == Asked(State(), variableCount, retained).freeVariables
      && (!inconsistent ==>
            Query(freeVariables, retainedFixed, retainedValue) == Asked(State(), variableCount, retained))
    }

    constructor (s: System, retained: nat)
      requires ValidSystem(s) && retained < s.variableCount
      ensures Compiled(s) && this.retained == retained
      ensures fresh(basis) && fresh(basisRhs) && fresh(active)
    {
      variableCount := s.variableCount;
      wordCount := (s.variableCount + 63) / 64;
      this.retained := retained;
      var cells := s.variableCount * ((s.variableCount + 63) / 64);
      basis := new Word[cells](_ => 0);
      basisRhs := new bool[s.variableCount](_ => false);
      active := new bool[s.variableCount](_ => false);
      rank, freeVariables := 0, 0;
      inconsistent, retainedFixed, retainedValue := false, false, false;
      new;
      ZeroBuffer(basis[..], variableCount);
      EmptyWellFormed(variableCount);
      assert State() == Empty(variableCount);
      assert Valid();
      var row := new Word[wordCount];
      AddEquations(row, s);
      AskRetained(row);
    }

    method AddEquations(row: array<Word>, s: System)
      requires Valid() && row.Length == wordCount && row != basis
      requires ValidSystem(s) && s.variableCount == variableCount && State() == Empty(variableCount)
      modifies row, this`rank, this`inconsistent, basis, basisRhs, active
      ensures Valid() && State() == Compile(s.equations, variableCount)
    {
      for k := 0 to |s.equations|
        invariant Valid() && State() == Compile(s.equations[..k], variableCount)
      {
        var e := s.equations[k];
        assert e in s.equations;
        AddEquation(row, e);
        assert s.equations[..k + 1][..k] == s.equations[..k];
      }
      assert s.equations[..|s.equations|] == s.equations;
    }

    method AddEquation(row: array<Word>, e: Equation)
      requires Valid() && row.Length == wordCount && row != basis && ValidScope(e.variables, variableCount)
      modifies row, this`rank, this`inconsistent, basis, basisRhs, active
      ensures Valid()
      ensures State() == Inserted(old(State()), variableCount, ScopeRow(e.variables, variableCount), e.rhs)
    {
      FillScope(row, e.variables, variableCount);
      Insert(row, e.rhs);
    }

    method AskRetained(row: array<Word>)
      requires Valid() && row.Length == wordCount && row != basis && retained < variableCount
      modifies row, this`freeVariables, this`retainedFixed, this`retainedValue
      ensures Valid() && State() == old(State())
      ensures var a := Asked(State(), variableCount, retained);
              && freeVariables == a.freeVariables
              && (!inconsistent ==> Query(freeVariables, retainedFixed, retainedValue) == a)
    {
      freeVariables := if inconsistent then 0 else variableCount - rank;
      if !inconsistent {
        FillScope(row, [retained], variableCount);
        var rhs := Reduce(row, false);
        var first := FirstSet(row);
        retainedFixed := first == variableCount;
        retainedValue := rhs;
      }
    }

    /** Never throws on a compiled control: the balance invariant holds. */
    method Marginal(ghost s: System) returns (r: Outcome<(nat, nat)>)
      requires Compiled(s)
      ensures r == Success((SolutionCount(s, retained, false), SolutionCount(s, retained, true)))
    {
      MarginalIsExact(s, retained);
      if inconsistent {
        return Success((0, 0));
      }
      if retainedFixed {
        return Success(if retainedValue then (0, Pow2(freeVariables)) else (Pow2(freeVariables), 0));
      }
      if freeVariables == 0 {
        return Thrown("packed GF(2) control retained balance invariant failed");
      }
      var half := Pow2(freeVariables - 1);
      return Success((half, half));
    }

    method FirstSet(row: array<Word>) returns (v: nat)
      requires Shape() && row.Length == wordCount
      ensures v == Leading(RowBits(row[..], variableCount))
    {
      for word := 0 to row.Length
        invariant forall u :: 0 <= u < word ==> row[u] == 0
      {
        if row[word] != 0 {
          var variable := word * 64 + CountTrailingZeros(row[word]);
          LeadingAtWord(row[..], variableCount, word);
          return if variable < variableCount then variable else variableCount;
        }
      }
      LeadingNowhere(row[..], variableCount);
      return variableCount;
    }

    /** Adds basis row `pivot`, touching only the words from its pivot onwards. */
    method XorBasis(row: array<Word>, pivot: nat)
      requires Valid() && row.Length == wordCount && row != basis
      requires pivot < variableCount && active[pivot]
      modifies row
      ensures RowBits(row[..], variableCount) == XorRow(old(RowBits(row[..], variableCount)), State().rows[pivot])
      ensures old(PaddingClear(row[..], variableCount)) ==> PaddingClear(row[..], variableCount)
    {
      ghost var was := row[..];
      ghost var source := Block(basis[..], pivot, variableCount, wordCount);
      RowInside(pivot, variableCount, wordCount);
      XorTail(row, basis, pivot * wordCount, pivot / 64);
      LowWordsZero(source, variableCount, pivot);
      XorWords(was, source, row[..], variableCount, pivot / 64);
    }

    method Reduce(row: array<Word>, rhs: bool) returns (out: bool)
      requires Valid() && row.Length == wordCount && row != basis
      requires PaddingClear(row[..], variableCount)
      modifies row
      ensures (RowBits(row[..], variableCount), out) ==
              Reduced(State(), variableCount, old(RowBits(row[..], variableCount)), rhs)
      ensures PaddingClear(row[..], variableCount)
    {
      out := rhs;
      ghost var target := Reduced(State(), variableCount, RowBits(row[..], variableCount), rhs);
      while true
        invariant Valid() && State() == old(State()) && PaddingClear(row[..], variableCount)
        invariant Reduced(State(), variableCount, RowBits(row[..], variableCount), out) == target
        decreases variableCount - Leading(RowBits(row[..], variableCount))
      {
        var pivot := FirstSet(row);
        if pivot == variableCount || !active[pivot] {
          return;
        }
        XorLeading(RowBits(row[..], variableCount), State().rows[pivot]);
        XorBasis(row, pivot);
        out := out != basisRhs[pivot];
      }
    }

    method Insert(row: array<Word>, rhs: bool)
      requires Valid() && row.Length == wordCount && row != basis
      requires PaddingClear(row[..], variableCount)
      modifies row, this`rank, this`inconsistent, basis, basisRhs, active
      ensures Valid()
      ensures State() == Inserted(old(State()), variableCount, old(RowBits(row[..], variableCount)), rhs)
    {
      ghost var before := State();
      InsertedWellFormed(before, variableCount, RowBits(row[..], variableCount), rhs);
      var reduced := Reduce(row, rhs);
      var pivot := FirstSet(row);
      if pivot == variableCount {
        inconsistent := inconsistent || reduced;
        return;
      }
      Activate(row, pivot, reduced);
    }

    /** The new pivot row: stored, given its right-hand side, and made active. */
    method Activate(row: array<Word>, pivot: nat, rhs: bool)
      requires Valid() && row.Length == wordCount && row != basis && pivot < variableCount
      requires PaddingClear(row[..], variableCount)
      modifies this`rank, basis, basisRhs, active
      ensures Shape()
      ensures State() == old(State()).(rows := old(State().rows)[pivot := RowBits(row[..], variableCount)],
        rhs := old(State().rhs)[pivot := rhs], active := old(State().active)[pivot := true], rank := old(rank) + 1)
      ensures forall p :: 0 <= p < variableCount && active[p] ==>
        PaddingClear(Block(basis[..], p, variableCount, wordCount), variableCount)
    {
      StoreRow(row, pivot);
      basisRhs[pivot] := rhs;
      active[pivot] := true;
      rank := rank + 1;
    }

    /** The copy into the flat buffer: block `pivot` becomes the row. */
    method StoreRow(row: array<Word>, pivot: nat)
      requires Shape() && row.Length == wordCount && row != basis && pivot < variableCount
      modifies basis
      ensures AllRows(basis[..], variableCount) ==
              old(AllRows(basis[..], variableCount))[pivot := RowBits(row[..], variableCount)]
      ensures forall p :: 0 <= p < variableCount ==>
        Block(basis[..], p, variableCount, wordCount) ==
        (if p == pivot then row[..] else old(Block(basis[..], p, variableCount, wordCount)))
    {
      ghost var was := basis[..];
      RowInside(pivot, variableCount, wordCount);
      for word := 0 to wordCount
        invariant basis[..] == was[..pivot * wordCount] + row[..word] + was[pivot * wordCount + word..]
      {
        basis[pivot * wordCount + word] := row[word];
      }
      assert row[..wordCount] == row[..];
      ReplaceBlock(was, row[..], basis[..], pivot, variableCount);
    }
  }

  method XorTail(row: array<Word>, source: array<Word>, offset: nat, from: nat)
    requires row != source && offset + row.Length <= source.Length && from <= row.Length
    modifies row
    ensures forall w :: 0 <= w < row.Length ==>
      row[w] == (if from <= w then WordXor(old(row[w]), source[offset + w]) else old(row[w]))
  {
    for word := from to row.Length
      invariant forall w :: 0 <= w < row.Length ==>
        row[w] == (if from <= w < word then WordXor(old(row[w]), source[offset + w]) else old(row[w]))
    {
      row[word] := WordXor(row[word], source[offset + word]);
    }
  }

  /** row := 0, then row |= 1 << v for every variable of the scope. */
  method FillScope(row: array<Word>, vars: seq<nat>, n: nat)
    requires row.Length == WordCount(n) && forall i :: 0 <= i < |vars| ==> vars[i] < n
    modifies row
    ensures RowBits(row[..], n) == ScopeRow(vars, n) && PaddingClear(row[..], n)
  {
    for w := 0 to row.Length
      invariant forall u :: 0 <= u < w ==> row[u] == 0
    {
      row[w] := 0;
    }
    forall v | 0 <= v < 64 * row.Length ensures !Bit(row[v / 64], v % 64) { ZeroBits(v % 64); }
    for k := 0 to |vars|
      invariant forall v :: 0 <= v < 64 * row.Length ==> Bit(row[v / 64], v % 64) == (v in vars[..k])
    {
      var variable := vars[k];
      ghost var was := row[..];
      row[variable / 64] := WordSet(row[variable / 64], variable % 64);
      assert vars[..k + 1] == vars[..k] + [variable];
      forall v | 0 <= v < 64 * row.Length
        ensures Bit(row[v / 64], v % 64) == (v in vars[..k + 1])
      {
        assert Bit(was[v / 64], v % 64) == (v in vars[..k]);
        assert v == variable <==> v / 64 == variable / 64 && v % 64 == variable % 64;
      }
    }
    assert vars[..|vars|] == vars;
    assert RowBits(row[..], n) == ScopeRow(vars, n);
  }

  lemma ZeroBuffer(buffer: seq<Word>, n: nat)
    requires |buffer| == n * WordCount(n) && forall i :: 0 <= i < |buffer| ==> buffer[i] == 0
    ensures AllRows(buffer, n) == Empty(n).rows
  {
    forall p | 0 <= p < n ensures AllRows(buffer, n)[p] == Falses(n) {
      var words := Block(buffer, p, n, WordCount(n));
      RowInside(p, n, WordCount(n));
      ZeroRow(words, n);
    }
  }

  lemma ZeroRow(words: seq<Word>, n: nat)
    requires |words| == WordCount(n) && forall i :: 0 <= i < |words| ==> words[i] == 0
    ensures RowBits(words, n) == Falses(n)
  {
    forall v: nat | v < n ensures !RowBits(words, n)[v] { ZeroBits(v % 64); }
  }

  lemma LowWordsZero(source: seq<Word>, n: nat, pivot: nat)
    requires |source| == WordCount(n) && pivot < n && Leading(RowBits(source, n)) == pivot
    ensures forall w :: 0 <= w < pivot / 64 ==> source[w] == 0
  {
    forall w | 0 <= w < pivot / 64 ensures source[w] == 0 {
      forall i: nat | i < 64 ensures !Bit(source[w], i) {
        assert !RowBits(source, n)[64 * w + i];
      }
      ZeroWord(source[w]);
    }
  }

  /** Skipping zero source words does not change the exclusive or. */
  lemma XorWords(was: seq<Word>, source: seq<Word>, now: seq<Word>, n: nat, from: nat)
    requires |was| == |source| == |now| == WordCount(n)
    requires forall w :: 0 <= w < |now| ==> now[w] == (if from <= w then WordXor(was[w], source[w]) else was[w])
    requires forall w :: 0 <= w < from && w < |source| ==> source[w] == 0
    ensures RowBits(now, n) == XorRow(RowBits(was, n), RowBits(source, n))
    ensures PaddingClear(was, n) && PaddingClear(source, n) ==> PaddingClear(now, n)
  {
    forall v | 0 <= v < 64 * |now|
      ensures Bit(now[v / 64], v % 64) == (Bit(was[v / 64], v % 64) != Bit(source[v / 64], v % 64))
    {
      ZeroBits(v % 64);
    }
  }

  lemma ReplaceBlock(was: seq<Word>, row: seq<Word>, now: seq<Word>, pivot: nat, n: nat)
    requires |was| == n * WordCount(n) && |row| == WordCount(n) && pivot < n
    requires pivot * WordCount(n) + WordCount(n) <= |was|
    requires now == was[..pivot * WordCount(n)] + row + was[pivot * WordCount(n) + WordCount(n)..]
    ensures |now| == |was|
    ensures forall p :: 0 <= p < n ==>
      Block(now, p, n, WordCount(n)) == (if p == pivot then row else Block(was, p, n, WordCount(n)))
    ensures AllRows(now, n) == AllRows(was, n)[pivot := RowBits(row, n)]
  {
    var wc := WordCount(n);
    forall p | 0 <= p < n
      ensures Block(now, p, n, wc) == (if p == pivot then row else Block(was, p, n, wc))
    {
      RowInside(p, n, wc);
      if p < pivot { RowInside(p, pivot, wc); }
      if pivot < p { RowInside(pivot, p, wc); }
    }
  }

  /** Enumerates every assignment; refuses systems too wide for a machine word. */
  method BruteMarginal(s: System, retained: nat) returns (r: Outcome<(nat, nat)>)
    requires ValidSystem(s) && retained < s.variableCount
    ensures s.variableCount >= 64 ==> r.Thrown?
    ensures s.variableCount < 64 ==>
      r == Success((SolutionCount(s, retained, false), SolutionCount(s, retained, true)))
  {
    if s.variableCount >= 64 {
      return Thrown("brute affine control exceeds size_t bit width");
    }
    var assignments := Pow2(s.variableCount);
    var zero, one := 0, 0;
    for assignment := 0 to assignments
      invariant zero == Count(assignment, Witnesses(s, retained, false))
      invariant one == Count(assignment, Witnesses(s, retained, true))
    {
      var valid := true;
      for k := 0 to |s.equations|
        invariant valid == HoldsAll(s.equations[..k], assignment)
      {
        var e := s.equations[k];
        var rhs := false;
        for i := 0 to |e.variables|
          invariant rhs == Parity(e.variables[..i], assignment)
        {
          assert e.variables[..i + 1][..i] == e.variables[..i];
          rhs := rhs != Bit(assignment, e.variables[i]);
        }
        assert e.variables[..|e.variables|] == e.variables;
        assert s.equations[..k + 1][..k] == s.equations[..k];
        if rhs != e.rhs {
          valid := false;
          assert !Holds(s.equations[k], assignment);
          assert !HoldsAll(s.equations, assignment);
          break;
        }
      }
      if valid {
        assert s.equations[..|s.equations|] == s.equations;
        if Bit(assignment, retained) { one := one + 1; } else { zero := zero + 1; }
      }
    }
    return Success((zero, one));
  }
}
