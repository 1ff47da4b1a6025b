/** Linear systems over GF(2): the reduction and insertion steps of the packed
    control on plain boolean rows, and the counting theorem behind its answers.
    An assignment is a number whose bit v is the value of variable v. */
module Gf2 {
  import opened Bits
  import opened Sums

  datatype Equation = Equation(variables: seq<nat>, rhs: bool)

  datatype System = System(variableCount: nat, equations: seq<Equation>)

  ghost predicate ValidSystem(s: System) {
    forall e :: e in s.equations ==> ValidScope(e.variables, s.variableCount)
  }

  ghost predicate ValidScope(vars: seq<nat>, n: nat) {
    && (forall i :: 0 <= i < |vars| ==> vars[i] < n)
    && (forall i, j :: 0 <= i < j < |vars| ==> vars[i] != vars[j])
  }

  /** Parity of the scope's bits, folded left to right as the brute force does. */
  function Parity(vars: seq<nat>, x: nat): bool {
    if vars == [] then false
    else Parity(vars[..|vars| - 1], x) != Bit(x, vars[|vars| - 1])
  }

  predicate Holds(e: Equation, x: nat) { Parity(e.variables, x) == e.rhs }

  predicate HoldsAll(es: seq<Equation>, x: nat) {
    forall i :: 0 <= i < |es| ==> Holds(es[i], x)
  }

  function Witnesses(s: System, retained: nat, value: bool): nat -> bool {
    (x: nat) => HoldsAll(s.equations, x) && Bit(x, retained) == value
  }

  /** The brute-force count: satisfying assignments whose retained variable has `value`. */
  function SolutionCount(s: System, retained: nat, value: bool): nat {
    Count(Pow2(s.variableCount), Witnesses(s, retained, value))
  }

  // ---------------------------------------------------------------- rows

  function Dot(r: seq<bool>, x: nat): bool {
    if r == [] then false else (r[0] && x % 2 == 1) != Dot(r[1..], x / 2)
  }

  function XorRow(r: seq<bool>, s: seq<bool>): (t: seq<bool>)
    requires |r| == |s|
    ensures |t| == |r|
  {
    seq(|r|, i requires 0 <= i < |r| => r[i] != s[i])
  }

  function ScopeRow(vars: seq<nat>, n: nat): (t: seq<bool>)
    ensures |t| == n
  {
    seq(n, i requires 0 <= i < n => i in vars)
  }

  /** Position of the first set entry, or |r| when there is none. */
  function Leading(r: seq<bool>): (p: nat)
    ensures p <= |r| && (p < |r| ==> r[p]) && forall i :: 0 <= i < p ==> !r[i]
  {
    if r == [] then 0 else if r[0] then 0 else 1 + Leading(r[1..])
  }

  lemma LeadingIs(r: seq<bool>, p: nat)
    requires p <= |r| && (p < |r| ==> r[p]) && forall i :: 0 <= i < p ==> !r[i]
    ensures Leading(r) == p
  {
    var q := Leading(r);
    assert !(q < p) && !(p < q);
  }

  lemma {:induction false} DotXor(r: seq<bool>, s: seq<bool>, x: nat)
    requires |r| == |s|
    ensures Dot(XorRow(r, s), x) == (Dot(r, x) != Dot(s, x))
  {
    if r != [] {
      DotXor(r[1..], s[1..], x / 2);
      assert XorRow(r, s)[1..] == XorRow(r[1..], s[1..]);
    }
  }

  lemma {:induction false} DotZero(r: seq<bool>, x: nat)
    requires forall i :: 0 <= i < |r| ==> !r[i]
    ensures !Dot(r, x)
  {
    if r != [] { DotZero(r[1..], x / 2); }
  }

  lemma {:induction false} DotUnit(v: nat, n: nat, x: nat)
    requires v < n
    ensures Dot(ScopeRow([v], n), x) == Bit(x, v)
    decreases n
  {
    var r := ScopeRow([v], n);
    if v == 0 {
      DotZero(r[1..], x / 2);
    } else {
      assert r[1..] == ScopeRow([v - 1], n - 1);
      DotUnit(v - 1, n - 1, x / 2);
    }
  }

  lemma {:induction false} DotScope(vars: seq<nat>, n: nat, x: nat)
    requires ValidScope(vars, n)
    ensures Dot(ScopeRow(vars, n), x) == Parity(vars, x)
  {
    if vars == [] {
      DotZero(ScopeRow(vars, n), x);
    } else {
      var front, v := vars[..|vars| - 1], vars[|vars| - 1];
      DotScope(front, n, x);
      DotUnit(v, n, x);
      DotXor(ScopeRow(front, n), ScopeRow([v], n), x);
      assert ScopeRow(vars, n) == XorRow(ScopeRow(front, n), ScopeRow([v], n));
    }
  }

  // ---------------------------------------------------------------- echelon state

  /** One optional row per pivot; `active[p]` says whether row p is in use. */
  datatype Echelon = Echelon(rows: seq<seq<bool>>, rhs: seq<bool>, active: seq<bool>, rank: nat, inconsistent: bool)

  ghost predicate WellFormed(e: Echelon, n: nat) {
    && |e.rows| == n && |e.rhs| == n && |e.active| == n
    && (forall p :: 0 <= p < n ==> |e.rows[p]| == n)
    && (forall p :: 0 <= p < n && e.active[p] ==> Leading(e.rows[p]) == p)
    && e.rank == RankFrom(e.active, 0)
  }

  function RankFrom(active: seq<bool>, p: nat): (k: nat)
    requires p <= |active|
    ensures k <= |active| - p
    decreases |active| - p
  {
    if p == |active| then 0 else RankFrom(active, p + 1) + (if active[p] then 1 else 0)
  }

  predicate SolvesRows(e: Echelon, x: nat)
    requires |e.rows| == |e.rhs| == |e.active|
  {
    forall p :: 0 <= p < |e.rows| && e.active[p] ==> Dot(e.rows[p], x) == e.rhs[p]
  }

  predicate Satisfies(e: Echelon, x: nat)
    requires |e.rows| == |e.rhs| == |e.active|
  {
    !e.inconsistent && SolvesRows(e, x)
  }

  function Empty(n: nat): (e: Echelon)
  {
    Echelon(seq(n, _ => Falses(n)), Falses(n), Falses(n), 0, false)
  }

  function Falses(n: nat): (r: seq<bool>)
    ensures |r| == n && forall i :: 0 <= i < n ==> !r[i]
  {
    seq(n, _ => false)
  }

  lemma XorLeading(r: seq<bool>, s: seq<bool>)
    requires |r| == |s| && Leading(r) == Leading(s) < |r|
    ensures Leading(XorRow(r, s)) > Leading(r)
  {
    var t := XorRow(r, s);
    assert forall i :: 0 <= i <= Leading(r) ==> !t[i];
  }

  /** Eliminate leading entries while their pivot row is active. */
  function Reduced(e: Echelon, n: nat, row: seq<bool>, rhs: bool): (out: (seq<bool>, bool))
    requires WellFormed(e, n) && |row| == n
    ensures |out.0| == n && Leading(row) <= Leading(out.0)
    ensures Leading(out.0) < n ==> !e.active[Leading(out.0)]
    decreases n - Leading(row)
  {
    var p := Leading(row);
    if p == n || !e.active[p] then (row, rhs)
    else
      XorLeading(row, e.rows[p]);
      Reduced(e, n, XorRow(row, e.rows[p]), rhs != e.rhs[p])
  }

  function Inserted(e: Echelon, n: nat, row: seq<bool>, rhs: bool): (out: Echelon)
    requires WellFormed(e, n) && |row| == n
  {
    var (r, b) := Reduced(e, n, row, rhs);
    var p := Leading(r);
    if p == n then e.(inconsistent := e.inconsistent || b)
    else e.(rows := e.rows[p := r], rhs := e.rhs[p := b], active := e.active[p := true], rank := e.rank + 1)
  }

  /** On every solution of the active rows, reduction changes row and right-hand
      side by the same parity. */
  lemma {:induction false} ReducedSound(e: Echelon, n: nat, row: seq<bool>, rhs: bool, x: nat)
    requires WellFormed(e, n) && |row| == n && SolvesRows(e, x)
    ensures var (r, b) := Reduced(e, n, row, rhs);
            (Dot(r, x) != b) == (Dot(row, x) != rhs)
    decreases n - Leading(row)
  {
    var p := Leading(row);
    if p < n && e.active[p] {
      XorLeading(row, e.rows[p]);
      DotXor(row, e.rows[p], x);
      ReducedSound(e, n, XorRow(row, e.rows[p]), rhs != e.rhs[p], x);
    }
  }

  lemma {:induction false} RankActivate(active: seq<bool>, p: nat, q: nat)
    requires p < |active| && !active[p] && q <= |active|
    ensures RankFrom(active[p := true], q) == RankFrom(active, q) + (if q <= p then 1 else 0)
    decreases |active| - q
  {
    if q < |active| { RankActivate(active, p, q + 1); }
  }

  lemma {:induction false} RankStrict(active: seq<bool>, p: nat, q: nat)
    requires q <= p < |active| && !active[p]
    ensures RankFrom(active, q) < |active| - q
    decreases p - q
  {
    if q < p { RankStrict(active, p, q + 1); }
  }

  lemma InsertedWellFormed(e: Echelon, n: nat, row: seq<bool>, rhs: bool)
    requires WellFormed(e, n) && |row| == n
    ensures WellFormed(Inserted(e, n, row, rhs), n)
  {
    var p := Leading(Reduced(e, n, row, rhs).0);
    if p < n { RankActivate(e.active, p, 0); }
  }

  /** A row that reduces to zero leaves only its right-hand side to satisfy. */
  lemma RedundantRow(e: Echelon, n: nat, row: seq<bool>, rhs: bool, x: nat)
    requires WellFormed(e, n) && |row| == n && Leading(Reduced(e, n, row, rhs).0) == n
    ensures Satisfies(Inserted(e, n, row, rhs), x) <==> Satisfies(e, x) && Dot(row, x) == rhs
  {
    DotZero(Reduced(e, n, row, rhs).0, x);
    if SolvesRows(e, x) { ReducedSound(e, n, row, rhs, x); }
  }

  /** Activating a free pivot adds its row's equation and nothing else. */
  lemma ActivatedSolves(e: Echelon, n: nat, p: nat, r: seq<bool>, b: bool, x: nat)
    requires WellFormed(e, n) && p < n && |r| == n && !e.active[p]
    ensures SolvesRows(e.(rows := e.rows[p := r], rhs := e.rhs[p := b], active := e.active[p := true]), x) <==>
            SolvesRows(e, x) && Dot(r, x) == b
  {
    var f := e.(rows := e.rows[p := r], rhs := e.rhs[p := b], active := e.active[p := true]);
    if SolvesRows(f, x) {
      assert f.active[p];
      forall q | 0 <= q < n && e.active[q] ensures Dot(e.rows[q], x) == e.rhs[q] { assert f.active[q]; }
    }
  }

  lemma NewPivot(e: Echelon, n: nat, row: seq<bool>, rhs: bool, x: nat)
    requires WellFormed(e, n) && |row| == n && Leading(Reduced(e, n, row, rhs).0) < n
    ensures Satisfies(Inserted(e, n, row, rhs), x) <==> Satisfies(e, x) && Dot(row, x) == rhs
  {
    var (r, b) := Reduced(e, n, row, rhs);
    ActivatedSolves(e, n, Leading(r), r, b, x);
    if SolvesRows(e, x) { ReducedSound(e, n, row, rhs, x); }
  }

  /** Insertion keeps the echelon shape and intersects the solution set with the
      inserted equation. */
  lemma InsertedKeepsSolutions(e: Echelon, n: nat, row: seq<bool>, rhs: bool)
    requires WellFormed(e, n) && |row| == n
    ensures WellFormed(Inserted(e, n, row, rhs), n)
    ensures forall x: nat :: Satisfies(Inserted(e, n, row, rhs), x) <==> Satisfies(e, x) && Dot(row, x) == rhs
  {
    InsertedWellFormed(e, n, row, rhs);
    forall x: nat ensures Satisfies(Inserted(e, n, row, rhs), x) <==> Satisfies(e, x) && Dot(row, x) == rhs {
      if Leading(Reduced(e, n, row, rhs).0) == n { RedundantRow(e, n, row, rhs, x); }
        else { NewPivot(e, n, row, rhs, x); }
    }
  }

  function Compile(es: seq<Equation>, n: nat): (e: Echelon)
    requires forall i :: 0 <= i < |es| ==> ValidScope(es[i].variables, n)
    ensures WellFormed(e, n)
  {
    if es == [] then
      EmptyWellFormed(n);
      Empty(n)
    else
      var last := es[|es| - 1];
      var e := Compile(es[..|es| - 1], n);
      InsertedKeepsSolutions(e, n, ScopeRow(last.variables, n), last.rhs);
      Inserted(e, n, ScopeRow(last.variables, n), last.rhs)
  }

  lemma EmptyWellFormed(n: nat)
    ensures WellFormed(Empty(n), n)
  {
    NothingActive(Empty(n).active, 0);
  }

  lemma {:induction false} NothingActive(active: seq<bool>, p: nat)
    requires p <= |active| && forall q :: 0 <= q < |active| ==> !active[q]
    ensures RankFrom(active, p) == 0
    decreases |active| - p
  {
    if p < |active| { NothingActive(active, p + 1); }
  }

  /** After any number of insertions the basis together with the inconsistency
      flag has exactly the solutions of the equations inserted so far. */
  lemma {:induction false} CompileKeepsSolutions(es: seq<Equation>, n: nat, x: nat)
    requires forall i :: 0 <= i < |es| ==> ValidScope(es[i].variables, n)
    ensures Satisfies(Compile(es, n), x) <==> HoldsAll(es, x)
  {
    if es != [] {
      var front, last := es[..|es| - 1], es[|es| - 1];
      CompileKeepsSolutions(front, n, x);
      InsertedKeepsSolutions(Compile(front, n), n, ScopeRow(last.variables, n), last.rhs);
      DotScope(last.variables, n, x);
      assert HoldsAll(es, x) <==> HoldsAll(front, x) && Holds(last, x) by {
        assert forall i :: 0 <= i < |front| ==> es[i] == front[i];
      }
    }
  }

  // ---------------------------------------------------------------- counting

  /** The rows with pivot p or later, read on an assignment of variables p, p+1, … */
  ghost predicate SolvesFrom(e: Echelon, n: nat, p: nat, y: nat)
    requires WellFormed(e, n) && p <= n
  {
    forall q :: p <= q < n && e.active[q] ==> Dot(e.rows[q][p..], y) == e.rhs[q]
  }

  ghost function SolvesFromAt(e: Echelon, n: nat, p: nat): nat -> bool
    requires WellFormed(e, n) && p <= n
  {
    (y: nat) => SolvesFrom(e, n, p, y)
  }

  lemma SolvesFromStep(e: Echelon, n: nat, p: nat, y: nat, b: bool)
    requires WellFormed(e, n) && p < n
    ensures SolvesFrom(e, n, p, 2 * y + Digit(b)) <==>
              SolvesFrom(e, n, p + 1, y) && (e.active[p] ==> (b != Dot(e.rows[p][p + 1..], y)) == e.rhs[p])
  {
    var z := 2 * y + Digit(b);
    forall q | p <= q < n && e.active[q]
      ensures Dot(e.rows[q][p..], z) == ((q == p && b) != Dot(e.rows[q][p + 1..], y))
    {
      var r := e.rows[q][p..];
      assert r[0] == (q == p) && r[1..] == e.rows[q][p + 1..];
      assert z / 2 == y && (z % 2 == 1) == b;
    }
  }

  /** A suffix solution extends by one variable in one way when that variable is
      a pivot and in two ways when it is free. */
  lemma PairSolutions(e: Echelon, n: nat, p: nat, y: nat)
    requires WellFormed(e, n) && p < n
    ensures (if SolvesFromAt(e, n, p)(2 * y) then 1 else 0) + (if SolvesFromAt(e, n, p)(2 * y + 1) then 1 else 0)
            == (if SolvesFromAt(e, n, p + 1)(y) then (if e.active[p] then 1 else 2) else 0)
  {
    SolvesFromStep(e, n, p, y, false);
    SolvesFromStep(e, n, p, y, true);
  }

  function FreeFrom(active: seq<bool>, p: nat): nat
    requires p <= |active|
  {
    |active| - p - RankFrom(active, p)
  }

  lemma FreeStep(active: seq<bool>, p: nat)
    requires p < |active|
    ensures FreeFrom(active, p) == FreeFrom(active, p + 1) + (if active[p] then 0 else 1)
  {
  }

  /** The counting theorem: r independent rows over n variables leave 2^(n-r) solutions. */
  lemma {:induction false} CountFrom(e: Echelon, n: nat, p: nat)
    requires WellFormed(e, n) && p <= n
    ensures SuffixCount(e, n, p) == Pow2(FreeFrom(e.active, p))
    decreases n - p
  {
    if p == n {
      CountEmptySuffix(e, n);
    } else {
      CountFrom(e, n, p + 1);
      CountFromStep(e, n, p);
      FreeStep(e.active, p);
    }
  }

  ghost function SuffixCount(e: Echelon, n: nat, p: nat): nat
    requires WellFormed(e, n) && p <= n
  {
    Count(Pow2(n - p), SolvesFromAt(e, n, p))
  }

  lemma CountEmptySuffix(e: Echelon, n: nat)
    requires WellFormed(e, n)
    ensures SuffixCount(e, n, n) == 1
  {
    assert SolvesFromAt(e, n, n)(0);
    assert Count(0, SolvesFromAt(e, n, n)) == 0;
  }

  lemma CountFromStep(e: Echelon, n: nat, p: nat)
    requires WellFormed(e, n) && p < n
    ensures SuffixCount(e, n, p) == (if e.active[p] then 1 else 2) * SuffixCount(e, n, p + 1)
  {
    var m := Pow2(n - (p + 1));
    var here, rest := SolvesFromAt(e, n, p), SolvesFromAt(e, n, p + 1);
    var k := if e.active[p] then 1 else 2;
    assert Count(2 * m, here) == k * Count(m, rest) by {
      forall y: nat | y < m
        ensures (if here(2 * y) then 1 else 0) + (if here(2 * y + 1) then 1 else 0) == (if rest(y) then k else 0)
      {
        PairSolutions(e, n, p, y);
      }
      CountPairs(m, here, rest, k);
    }
  }

  function SolvesAt(e: Echelon): nat -> bool
    requires |e.rows| == |e.rhs| == |e.active|
  {
    (x: nat) => SolvesRows(e, x)
  }

  lemma CountSolutions(e: Echelon, n: nat)
    requires WellFormed(e, n)
    ensures e.rank <= n && Count(Pow2(n), SolvesAt(e)) == Pow2(n - e.rank)
  {
    CountFrom(e, n, 0);
    forall x: nat ensures SolvesAt(e)(x) == SolvesFromAt(e, n, 0)(x) {
      assert forall q :: 0 <= q < n ==> e.rows[q][0..] == e.rows[q];
    }
    CountCongruent(Pow2(n), SolvesAt(e), SolvesFromAt(e, n, 0));
  }

  // ---------------------------------------------------------------- the retained marginal

  /** What the compiled control stores about its retained variable. */
  datatype Query = Query(freeVariables: nat, fixed: bool, value: bool)

  function Asked(e: Echelon, n: nat, retained: nat): Query
    requires WellFormed(e, n) && retained < n
  {
    if e.inconsistent then Query(0, false, false)
    else
      var (r, b) := Reduced(e, n, ScopeRow([retained], n), false);
      Query(n - e.rank, Leading(r) == n, b)
  }

  function Constrained(e: Echelon, retained: nat, value: bool): nat -> bool
    requires |e.rows| == |e.rhs| == |e.active|
  {
    (x: nat) => SolvesRows(e, x) && Bit(x, retained) == value
  }

  /** The retained variable as a reduced row: on every solution it is the row's
      value up to the parity collected on the way. */
  lemma RetainedRow(e: Echelon, n: nat, retained: nat, x: nat)
    requires WellFormed(e, n) && retained < n && SolvesRows(e, x)
    ensures var (r, b) := Reduced(e, n, ScopeRow([retained], n), false);
            Bit(x, retained) == (Dot(r, x) != b)
  {
    DotUnit(retained, n, x);
    ReducedSound(e, n, ScopeRow([retained], n), false, x);
  }

  /** A consistent system splits its 2^(n-rank) solutions over the retained
      variable either all on one side or evenly. */
  lemma MarginalSplit(e: Echelon, n: nat, retained: nat, value: bool)
    requires WellFormed(e, n) && retained < n && !e.inconsistent
    ensures var a := Asked(e, n, retained);
            && (!a.fixed ==> a.freeVariables > 0)
            && Count(Pow2(n), Constrained(e, retained, value)) ==
               (if a.fixed then (if value == a.value then Pow2(a.freeVariables) else 0)
                else Pow2(a.freeVariables - 1))
  {
    var (r, b) := Reduced(e, n, ScopeRow([retained], n), false);
    var c := Constrained(e, retained, value);
    CountSolutions(e, n);
    if Leading(r) == n {
      forall x: nat | SolvesRows(e, x) ensures Bit(x, retained) == b {
        RetainedRow(e, n, retained, x);
        DotZero(r, x);
      }
      if value == b {
        CountCongruent(Pow2(n), c, SolvesAt(e));
      } else {
        CountNone(Pow2(n), c);
      }
    } else {
      var f := Inserted(e, n, r, value != b);
      RankStrict(e.active, Leading(r), 0);
      InsertedKeepsSolutions(e, n, r, value != b);
      CountSolutions(f, n);
      forall x: nat ensures c(x) == SolvesAt(f)(x) {
        assert Satisfies(f, x) <==> Satisfies(e, x) && Dot(r, x) == (value != b);
        if SolvesRows(e, x) { RetainedRow(e, n, retained, x); }
      }
      CountCongruent(Pow2(n), c, SolvesAt(f));
    }
  }

  lemma {:induction false} CountNone(n: nat, p: nat -> bool)
    requires forall i :: 0 <= i < n ==> !p(i)
    ensures Count(n, p) == 0
  {
    if n > 0 { CountNone(n - 1, p); }
  }

  function MarginalOf(inconsistent: bool, a: Query): (nat, nat) {
    if inconsistent then (0, 0)
    else if a.fixed then (if a.value then (0, Pow2(a.freeVariables)) else (Pow2(a.freeVariables), 0))
    else if a.freeVariables == 0 then (0, 0)
    else (Pow2(a.freeVariables - 1), Pow2(a.freeVariables - 1))
  }

  /** Elimination counts what brute force counts. */
  lemma MarginalIsExact(s: System, retained: nat)
    requires ValidSystem(s) && retained < s.variableCount
    ensures var e := Compile(s.equations, s.variableCount);
            var a := Asked(e, s.variableCount, retained);
            && (e.inconsistent || a.fixed || a.freeVariables > 0)
            && MarginalOf(e.inconsistent, a) == (SolutionCount(s, retained, false), SolutionCount(s, retained, true))
  {
    var n := s.variableCount;
    var e := Compile(s.equations, n);
    forall value: bool
      ensures SolutionCount(s, retained, value) ==
              (if e.inconsistent then 0 else Count(Pow2(n), Constrained(e, retained, value)))
    {
      forall x: nat
        ensures Witnesses(s, retained, value)(x) == (!e.inconsistent && Constrained(e, retained, value)(x))
      {
        CompileKeepsSolutions(s.equations, n, x);
      }
      if e.inconsistent {
        CountNone(Pow2(n), Witnesses(s, retained, value));
      } else {
        CountCongruent(Pow2(n), Witnesses(s, retained, value), Constrained(e, retained, value));
      }
    }
    if !e.inconsistent {
      MarginalSplit(e, n, retained, false);
      MarginalSplit(e, n, retained, true);
    }
  }

  /** A system whose right-hand sides were read off a witness, as the generator
      does, is consistent, and the witness is counted. */
  lemma PlantedSystemIsConsistent(s: System, retained: nat, planted: nat)
    requires ValidSystem(s) && retained < s.variableCount && planted < Pow2(s.variableCount)
    requires forall i :: 0 <= i < |s.equations| ==>
      s.equations[i].rhs == Parity(s.equations[i].variables, planted)
    ensures !Compile(s.equations, s.variableCount).inconsistent
    ensures SolutionCount(s, retained, Bit(planted, retained)) > 0
  {
    CompileKeepsSolutions(s.equations, s.variableCount, planted);
    CountSome(Pow2(s.variableCount), Witnesses(s, retained, Bit(planted, retained)), planted);
  }

  lemma {:induction false} CountSome(n: nat, p: nat -> bool, i: nat)
    requires i < n && p(i)
    ensures Count(n, p) > 0
  {
    if i < n - 1 { CountSome(n - 1, p, i); }
  }
}
