/** Repeated application of one transfer matrix: the sequential control, and the
    square-and-multiply kernel that agrees with it on unit first rows. */
module Transfer {
  import opened Bits
  import opened ComplexNumbers
  import opened Layout
  import opened Vectors

  predicate Square(m: seq<Complex>, d: nat) { |m| == d * d }

  function At(m: seq<Complex>, d: nat, i: nat, j: nat): Complex
    requires Square(m, d) && i < d && j < d
  {
    CellInside(i, j, d, d);
    m[i * d + j]
  }

  /** Row i of m against v. */
  function Product(m: seq<Complex>, d: nat, i: nat, v: seq<Complex>): nat -> Complex
    requires Square(m, d) && i < d && |v| == d
  {
    (j: nat) => if j < d then Mul(At(m, d, i, j), v[j]) else ZERO
  }

  function Act(m: seq<Complex>, d: nat, v: seq<Complex>): (r: seq<Complex>)
    requires Square(m, d) && |v| == d
    ensures |r| == d
  {
    seq(d, i requires 0 <= i < d => SumC(d, Product(m, d, i, v)))
  }

  function Iterate(m: seq<Complex>, d: nat, v: seq<Complex>, k: nat): (r: seq<Complex>)
    requires Square(m, d) && |v| == d
    ensures |r| == d
  {
    if k == 0 then v else Act(m, d, Iterate(m, d, v, k - 1))
  }

  /** The homogeneous certificate: the first row is [1, 0, …]. */
  ghost predicate UnitFirstRow(m: seq<Complex>, d: nat)
    requires Square(m, d) && d > 0
  {
    forall j :: 0 <= j < d ==> At(m, d, 0, j) == (if j == 0 then ONE else ZERO)
  }

  /** With a unit first row the coordinate the source pins is already right. */
  lemma PinIsNoOp(m: seq<Complex>, d: nat, v: seq<Complex>)
    requires Square(m, d) && |v| == d && d > 0 && UnitFirstRow(m, d)
    ensures Act(m, d, v)[0] == v[0]
  {
    var f := Product(m, d, 0, v);
    forall j | 0 <= j < d && j != 0 ensures f(j) == ZERO { Units(v[j]); }
    SumCPoint(d, f, 0);
    Units(v[0]);
  }

  method Matvec(m: seq<Complex>, v: seq<Complex>, d: nat) returns (result: seq<Complex>)
    requires Square(m, d) && |v| == d && d > 0
    ensures result == Pinned(m, d, v)
  {
    var output := new Complex[d](_ => ZERO);
    for row := 0 to d
      invariant forall i :: 0 <= i < d ==> output[i] == (if i < row then SumC(d, Product(m, d, i, v)) else ZERO)
    {
      for column := 0 to d
        invariant forall i :: 0 <= i < d && i != row ==>
          output[i] == (if i < row then SumC(d, Product(m, d, i, v)) else ZERO)
        invariant output[row] == SumC(column, Product(m, d, row, v))
      {
        CellInside(row, column, d, d);
        output[row] := Add(output[row], Mul(m[row * d + column], v[column]));
      }
    }
    output[0] := v[0];
    result := output[..];
  }

  /** The control's step: the matrix, then coordinate 0 pinned to its old value. */
  function Pinned(m: seq<Complex>, d: nat, v: seq<Complex>): (r: seq<Complex>)
    requires Square(m, d) && |v| == d && d > 0
    ensures |r| == d
  {
    Act(m, d, v)[0 := v[0]]
  }

  function PinnedIterate(m: seq<Complex>, d: nat, v: seq<Complex>, k: nat): (r: seq<Complex>)
    requires Square(m, d) && |v| == d && d > 0
    ensures |r| == d
  {
    if k == 0 then v else Pinned(m, d, PinnedIterate(m, d, v, k - 1))
  }

  lemma {:induction false} PinnedIsPlain(m: seq<Complex>, d: nat, v: seq<Complex>, k: nat)
    requires Square(m, d) && |v| == d && d > 0 && UnitFirstRow(m, d)
    ensures PinnedIterate(m, d, v, k) == Iterate(m, d, v, k)
  {
    if k > 0 {
      PinnedIsPlain(m, d, v, k - 1);
      PinIsNoOp(m, d, Iterate(m, d, v, k - 1));
    }
  }

  lemma ReadsCell(m: seq<Complex>, d: nat, i: nat, j: nat)
    requires Square(m, d) && i < d && j < d
    ensures Act(m, d, BasisVector(d, j))[i] == At(m, d, i, j)
  {
    var f := Product(m, d, i, BasisVector(d, j));
    forall k | 0 <= k < d && k != j ensures f(k) == ZERO { Units(At(m, d, i, k)); }
    SumCPoint(d, f, j);
    Units(At(m, d, i, j));
  }

  /** Pinning is a no-op on every vector exactly when the first row is [1, 0, …]. */
  lemma PinIsNoOpIffUnitRow(m: seq<Complex>, d: nat)
    requires Square(m, d) && d > 0
    ensures (forall v {:trigger Pinned(m, d, v)} :: |v| == d ==> Pinned(m, d, v) == Act(m, d, v)) <==>
      UnitFirstRow(m, d)
  {
    if UnitFirstRow(m, d) {
      forall v | |v| == d ensures Pinned(m, d, v) == Act(m, d, v) { PinIsNoOp(m, d, v); }
    } else {
      var j: nat :| j < d && At(m, d, 0, j) != (if j == 0 then ONE else ZERO);
      var v := BasisVector(d, j);
      ReadsCell(m, d, 0, j);
      assert Pinned(m, d, v)[0] == v[0] != Act(m, d, v)[0];
    }
  }

  method Sequential(m: seq<Complex>, d: nat, repetitions: nat, initial: seq<Complex>) returns (current: seq<Complex>)
    requires Square(m, d) && |initial| == d && d > 0
    ensures current == PinnedIterate(m, d, initial, repetitions)
  {
    current := initial;
    for k := 0 to repetitions
      invariant current == PinnedIterate(m, d, initial, k)
    {
      current := Matvec(m, current, d);
    }
  }

  // ---------------------------------------------------------------- matrix products

  function Term(a: seq<Complex>, b: seq<Complex>, d: nat, i: nat, j: nat): nat -> Complex
    requires Square(a, d) && Square(b, d) && i < d && j < d
  {
    (k: nat) => if k < d then Mul(At(a, d, i, k), At(b, d, k, j)) else ZERO
  }

  ghost predicate IsProduct(m: seq<Complex>, a: seq<Complex>, b: seq<Complex>, d: nat)
    requires Square(m, d) && Square(a, d) && Square(b, d)
  {
    forall i, j :: 0 <= i < d && 0 <= j < d ==> At(m, d, i, j) == SumC(d, Term(a, b, d, i, j))
  }

  /** The double sum a_ik * b_kj * v_j, rows over j and columns over k. */
  function Triple(a: seq<Complex>, b: seq<Complex>, d: nat, v: seq<Complex>, i: nat): (nat, nat) -> Complex
    requires Square(a, d) && Square(b, d) && |v| == d && i < d
  {
    (j: nat, k: nat) => if j < d && k < d then Mul(Mul(At(a, d, i, k), At(b, d, k, j)), v[j]) else ZERO
  }

  lemma TripleRow(m: seq<Complex>, a: seq<Complex>, b: seq<Complex>, d: nat, v: seq<Complex>, i: nat, j: nat)
    requires Square(m, d) && Square(a, d) && Square(b, d) && |v| == d && i < d && j < d && IsProduct(m, a, b, d)
    ensures SumC(d, RowC(Triple(a, b, d, v, i), j)) == Product(m, d, i, v)(j)
  {
    SumCFactor(d, Term(a, b, d, i, j), RowC(Triple(a, b, d, v, i), j), v[j]);
  }

  lemma TripleColumn(a: seq<Complex>, b: seq<Complex>, d: nat, v: seq<Complex>, i: nat, k: nat)
    requires Square(a, d) && Square(b, d) && |v| == d && i < d && k < d
    ensures SumC(d, ColumnC(Triple(a, b, d, v, i), k)) == Product(a, d, i, Act(b, d, v))(k)
  {
    var w := At(a, d, i, k);
    var f, g := Product(b, d, k, v), ColumnC(Triple(a, b, d, v, i), k);
    forall j: nat | j < d ensures g(j) == Mul(f(j), w) {
      Associate(w, At(b, d, k, j), v[j]);
      Commute(w, Mul(At(b, d, k, j), v[j]));
    }
    SumCFactor(d, f, g, w);
    Commute(SumC(d, f), w);
  }

  /** Acting by a product is acting twice. */
  lemma ActProduct(m: seq<Complex>, a: seq<Complex>, b: seq<Complex>, d: nat, v: seq<Complex>)
    requires Square(m, d) && Square(a, d) && Square(b, d) && |v| == d && IsProduct(m, a, b, d)
    ensures Act(m, d, v) == Act(a, d, Act(b, d, v))
  {
    forall i: nat | i < d ensures Act(m, d, v)[i] == Act(a, d, Act(b, d, v))[i] {
      ActProductRow(m, a, b, d, v, i);
    }
  }

  lemma ActProductRow(m: seq<Complex>, a: seq<Complex>, b: seq<Complex>, d: nat, v: seq<Complex>, i: nat)
    requires Square(m, d) && Square(a, d) && Square(b, d) && |v| == d && IsProduct(m, a, b, d) && i < d
    ensures SumC(d, Product(m, d, i, v)) == SumC(d, Product(a, d, i, Act(b, d, v)))
  {
    var t := Triple(a, b, d, v, i);
    forall j: nat | j < d ensures RowSumC(t, d)(j) == Product(m, d, i, v)(j) { TripleRow(m, a, b, d, v, i, j); }
    SumCCongruent(d, RowSumC(t, d), Product(m, d, i, v));
    forall k: nat | k < d
      ensures ColumnSumC(t, d)(k) == Product(a, d, i, Act(b, d, v))(k)
    {
      TripleColumn(a, b, d, v, i, k);
    }
    SumCCongruent(d, ColumnSumC(t, d), Product(a, d, i, Act(b, d, v)));
    SumCSwap(d, d, t);
  }

  lemma UnitRowProduct(a: seq<Complex>, b: seq<Complex>, d: nat, j: nat)
    requires Square(a, d) && Square(b, d) && d > 0 && UnitFirstRow(a, d) && UnitFirstRow(b, d) && j < d
    ensures SumC(d, Term(a, b, d, 0, j)) == (if j == 0 then ONE else ZERO)
  {
    var f := Term(a, b, d, 0, j);
    forall k | 0 <= k < d && k != 0 ensures f(k) == ZERO { Units(At(b, d, k, j)); }
    SumCPoint(d, f, 0);
    Units(At(b, d, 0, j));
  }

  /** The first `upto` cells of the buffer, row by row, hold the product. */
  ghost predicate Filled(values: seq<Complex>, a: seq<Complex>, b: seq<Complex>, d: nat, row: nat, column: nat)
    requires Square(values, d) && Square(a, d) && Square(b, d)
  {
    forall i, j :: 0 <= i < d && 0 <= j < d && (i < row || (i == row && j < column)) ==>
      At(values, d, i, j) == SumC(d, Term(a, b, d, i, j))
  }

  lemma StoreCell(was: seq<Complex>, now: seq<Complex>, d: nat, row: nat, column: nat)
    requires Square(was, d) && Square(now, d) && row < d && column < d
    requires row * d + column < |was| && now == was[row * d + column := now[row * d + column]]
    ensures forall i, j :: 0 <= i < d && 0 <= j < d && (i != row || j != column) ==>
      At(now, d, i, j) == At(was, d, i, j)
  {
    forall i, j | 0 <= i < d && 0 <= j < d && (i != row || j != column) ensures At(now, d, i, j) == At(was, d, i, j) {
      CellInside(i, j, d, d);
      CellUnique(i, j, row, column, d);
    }
  }

  method CellTotal(a: seq<Complex>, b: seq<Complex>, d: nat, row: nat, column: nat) returns (total: Complex)
    requires Square(a, d) && Square(b, d) && row < d && column < d
    ensures total == SumC(d, Term(a, b, d, row, column))
  {
    total := ZERO;
    for inner := 0 to d
      invariant total == SumC(inner, Term(a, b, d, row, column))
    {
      total := Add(total, Mul(At(a, d, row, inner), At(b, d, inner, column)));
    }
  }

  method ProductCells(a: seq<Complex>, b: seq<Complex>, d: nat) returns (m: seq<Complex>)
    requires Square(a, d) && Square(b, d)
    ensures Square(m, d) && IsProduct(m, a, b, d)
  {
    var output := new Complex[d * d](_ => ZERO);
    for row := 0 to d
      invariant Filled(output[..], a, b, d, row, 0)
    {
      for column := 0 to d
        invariant Filled(output[..], a, b, d, row, column)
      {
        CellInside(row, column, d, d);
        ghost var was := output[..];
        output[row * d + column] := CellTotal(a, b, d, row, column);
        StoreCell(was, output[..], d, row, column);
      }
    }
    m := output[..];
  }

  /** The kernel's product; pinning the first row of two certified factors changes
      nothing, so the result is the plain product either way. */
  method Multiply(a: seq<Complex>, b: seq<Complex>, d: nat, homogeneous: bool) returns (m: seq<Complex>)
    requires Square(a, d) && Square(b, d) && d > 0
    requires homogeneous ==> UnitFirstRow(a, d) && UnitFirstRow(b, d)
    ensures Square(m, d) && IsProduct(m, a, b, d)
    ensures homogeneous ==> UnitFirstRow(m, d)
  {
    m := ProductCells(a, b, d);
    if homogeneous {
      ghost var plain := m;
      forall j | 0 <= j < d ensures At(plain, d, 0, j) == (if j == 0 then ONE else ZERO) { UnitRowProduct(a, b, d, j); }
      for column := 0 to d
        invariant m == plain
      {
        CellInside(0, column, d, d);
        assert At(plain, d, 0, column) == plain[column];
        m := m[column := if column == 0 then ONE else ZERO];
      }
    }
  }

  // ---------------------------------------------------------------- square and multiply

  lemma {:induction false} IterateSplit(m: seq<Complex>, d: nat, v: seq<Complex>, a: nat, b: nat)
    requires Square(m, d) && |v| == d
    ensures Iterate(m, d, v, a + b) == Iterate(m, d, Iterate(m, d, v, a), b)
    decreases b
  {
    if b > 0 { IterateSplit(m, d, v, a, b - 1); }
  }

  /** x acts as the e-th power of m. */
  ghost predicate IsPower(x: seq<Complex>, m: seq<Complex>, d: nat, e: nat)
    requires Square(x, d) && Square(m, d)
  {
    forall v {:trigger Act(x, d, v)} :: |v| == d ==> Act(x, d, v) == Iterate(m, d, v, e)
  }

  lemma PowerProduct(z: seq<Complex>, x: seq<Complex>, y: seq<Complex>, m: seq<Complex>, d: nat, e: nat, f: nat, g: nat)
    requires g == f + e
    requires Square(z, d) && Square(x, d) && Square(y, d) && Square(m, d) && IsProduct(z, x, y, d)
    requires IsPower(x, m, d, e) && IsPower(y, m, d, f)
    ensures IsPower(z, m, d, g)
  {
    forall v | |v| == d ensures Act(z, d, v) == Iterate(m, d, v, g) {
      PowerProductAt(z, x, y, m, d, e, f, v);
    }
  }

  lemma PowerProductAt(z: seq<Complex>, x: seq<Complex>, y: seq<Complex>, m: seq<Complex>, d: nat, e: nat, f: nat,
    v: seq<Complex>)
    requires Square(z, d) && Square(x, d) && Square(y, d) && Square(m, d) && IsProduct(z, x, y, d)
    requires IsPower(x, m, d, e) && IsPower(y, m, d, f) && |v| == d
    ensures Act(z, d, v) == Iterate(m, d, v, f + e)
  {
    var w := Iterate(m, d, v, f);
    ActProduct(z, x, y, d, v);
    assert Act(y, d, v) == w;
    assert Act(x, d, w) == Iterate(m, d, w, e);
    IterateSplit(m, d, v, f, e);
  }

  lemma FirstPower(m: seq<Complex>, d: nat)
    requires Square(m, d)
    ensures IsPower(m, m, d, 1)
  {
    forall v | |v| == d ensures Act(m, d, v) == Iterate(m, d, v, 1) {
      assert Iterate(m, d, v, 0) == v;
    }
  }

  ghost predicate IsIdentity(m: seq<Complex>, d: nat)
    requires Square(m, d)
  {
    forall i, j :: 0 <= i < d && 0 <= j < d ==> At(m, d, i, j) == (if i == j then ONE else ZERO)
  }

  lemma IdentityIsPower(x: seq<Complex>, m: seq<Complex>, d: nat)
    requires Square(x, d) && Square(m, d) && IsIdentity(x, d)
    ensures IsPower(x, m, d, 0)
  {
    forall v | |v| == d ensures Act(x, d, v) == v { IdentityActs(x, d, v); }
  }

  lemma IdentityActs(m: seq<Complex>, d: nat, v: seq<Complex>)
    requires Square(m, d) && |v| == d && IsIdentity(m, d)
    ensures Act(m, d, v) == v
  {
    forall i: nat | i < d ensures SumC(d, Product(m, d, i, v)) == v[i] {
      var f := Product(m, d, i, v);
      forall j | 0 <= j < d && j != i ensures f(j) == ZERO { Units(v[j]); }
      SumCPoint(d, f, i);
      Units(v[i]);
    }
  }

  /** Diagonal cells below `upto` are one, every other cell zero. */
  ghost predicate PartIdentity(m: seq<Complex>, d: nat, upto: nat)
    requires Square(m, d)
  {
    forall i, j :: 0 <= i < d && 0 <= j < d ==> At(m, d, i, j) == (if i == j && i < upto then ONE else ZERO)
  }

  method Identity(d: nat) returns (m: seq<Complex>)
    requires d > 0
    ensures Square(m, d) && UnitFirstRow(m, d) && IsIdentity(m, d)
  {
    var output := new Complex[d * d](_ => ZERO);
    ZeroIsPartIdentity(output[..], d);
    for index := 0 to d
      invariant PartIdentity(output[..], d, index)
    {
      CellInside(index, index, d, d);
      ghost var was := output[..];
      output[index * d + index] := ONE;
      StoreCell(was, output[..], d, index, index);
    }
    m := output[..];
  }

  lemma ZeroIsPartIdentity(m: seq<Complex>, d: nat)
    requires Square(m, d) && forall k :: 0 <= k < |m| ==> m[k] == ZERO
    ensures PartIdentity(m, d, 0)
  {
    forall i, j | 0 <= i < d && 0 <= j < d ensures At(m, d, i, j) == ZERO { CellInside(i, j, d, d); }
  }

  /** Consuming the lowest bit of the exponent keeps a + b * power. */
  lemma ExponentStep(a: nat, b: nat, power: nat)
    ensures a + b * power == (if power % 2 == 1 then a + b else a) + (b + b) * (power / 2)
  {
    assert power == power % 2 + 2 * (power / 2);
    assert b * (2 * (power / 2)) == (b + b) * (power / 2);
    assert b * (power % 2 + 2 * (power / 2)) == b * (power % 2) + b * (2 * (power / 2));
  }

  /** Square and multiply: some element acting as the whole power. */
  method MatrixPower(m: seq<Complex>, d: nat, homogeneous: bool, repetitions: nat)
    returns (result: seq<Complex>, products: nat)
    requires Square(m, d) && d > 0 && (homogeneous ==> UnitFirstRow(m, d))
    ensures products == Products(repetitions) <= 2 * BitWidth(repetitions)
    ensures Square(result, d) && IsPower(result, m, d, repetitions) && (homogeneous ==> UnitFirstRow(result, d))
  {
    result := Identity(d);
    products := 0;
    ProductsCounted(repetitions);
    var base, power := m, repetitions;
    ghost var a, b := 0, 1;
    IdentityIsPower(result, m, d);
    FirstPower(m, d);
    while power != 0
      invariant Square(result, d) && Square(base, d) && a + b * power == repetitions
      invariant IsPower(result, m, d, a) && IsPower(base, m, d, b)
      invariant products + Products(power) == Products(repetitions)
      invariant homogeneous ==> UnitFirstRow(result, d) && UnitFirstRow(base, d)
      decreases power
    {
      ExponentStep(a, b, power);
      if power % 2 == 1 {
        ghost var sum := a + b;
        var next := Multiply(result, base, d, homogeneous);
        PowerProduct(next, result, base, m, d, a, b, sum);
        result, a, products := next, sum, products + 1;
      }
      power := power / 2;
      if power != 0 {
        ghost var double := b + b;
        var square := Multiply(base, base, d, homogeneous);
        PowerProduct(square, base, base, m, d, b, b, double);
        base, b, products := square, double, products + 1;
      }
    }
    assert a == repetitions;
  }

  /** The pinned control's iterates are the plain ones, for every start and count,
      exactly when the first row is [1, 0, …]. */
  lemma ControlIsPlainIffUnitRow(m: seq<Complex>, d: nat)
    requires Square(m, d) && d > 0
    ensures (forall v, k: nat {:trigger PinnedIterate(m, d, v, k)} :: |v| == d ==>
      PinnedIterate(m, d, v, k) == Iterate(m, d, v, k))
            <==> UnitFirstRow(m, d)
  {
    if UnitFirstRow(m, d) {
      forall v, k: nat | |v| == d
        ensures PinnedIterate(m, d, v, k) == Iterate(m, d, v, k)
      {
        PinnedIsPlain(m, d, v, k);
      }
    } else {
      PinIsNoOpIffUnitRow(m, d);
      var v :| |v| == d && Pinned(m, d, v) != Act(m, d, v);
      OneIterate(m, d, v);
    }
  }

  lemma OneIterate(m: seq<Complex>, d: nat, v: seq<Complex>)
    requires Square(m, d) && |v| == d && d > 0
    ensures Iterate(m, d, v, 1) == Act(m, d, v) && PinnedIterate(m, d, v, 1) == Pinned(m, d, v)
  {
    assert Iterate(m, d, v, 0) == v && PinnedIterate(m, d, v, 0) == v;
  }

  /** The benchmark's comparison: on a matrix with unit first row the kernel returns
      what the sequential control returns. */
  method KernelMatchesControl(m: seq<Complex>, d: nat, homogeneous: bool, repetitions: nat, input: seq<Complex>)
    returns (powered: seq<Complex>, sequential: seq<Complex>)
    requires Square(m, d) && |input| == d && d > 0 && UnitFirstRow(m, d)
    ensures powered == sequential == PinnedIterate(m, d, input, repetitions)
  {
    var products;
    powered, products := Apply(m, d, homogeneous, repetitions, input);
    sequential := Sequential(m, d, repetitions, input);
    PinnedIsPlain(m, d, input, repetitions);
  }

  /** The kernel returns the plain iterate after a number of matrix products that is
      logarithmic in the repetitions. */
  method Apply(m: seq<Complex>, d: nat, homogeneous: bool, repetitions: nat, input: seq<Complex>)
    returns (output: seq<Complex>, products: nat)
    requires Square(m, d) && |input| == d && d > 0 && (homogeneous ==> UnitFirstRow(m, d))
    ensures output == Iterate(m, d, input, repetitions)
    ensures products == Products(repetitions) <= 2 * BitWidth(repetitions)
  {
    if repetitions == 0 {
      return input, 0;
    }
    var result;
    result, products := MatrixPower(m, d, homogeneous, repetitions);
    output := MultiplyVector(result, input, d, homogeneous);
  }

  method MultiplyVector(m: seq<Complex>, v: seq<Complex>, d: nat, homogeneous: bool) returns (result: seq<Complex>)
    requires Square(m, d) && |v| == d && d > 0 && (homogeneous ==> UnitFirstRow(m, d))
    ensures result == Act(m, d, v)
  {
    var output := new Complex[d](_ => ZERO);
    for row := 0 to d
      invariant forall i :: 0 <= i < row ==> output[i] == SumC(d, Product(m, d, i, v))
    {
      var total := ZERO;
      for column := 0 to d
        invariant total == SumC(column, Product(m, d, row, v))
      {
        total := Add(total, Mul(At(m, d, row, column), v[column]));
      }
      output[row] := total;
    }
    assert output[..] == Act(m, d, v);
    if homogeneous {
      PinIsNoOp(m, d, v);
      output[0] := v[0];
    }
    result := output[..];
  }

  /** `bits` squarings give the 2^bits-th power. */
  method ApplyPowerOfTwo(m: seq<Complex>, d: nat, homogeneous: bool, bits: nat, input: seq<Complex>)
    returns (output: seq<Complex>, products: nat)
    requires Square(m, d) && |input| == d && d > 0 && (homogeneous ==> UnitFirstRow(m, d))
    ensures output == Iterate(m, d, input, Pow2(bits)) && products == bits + 1
  {
    var base := m;
    products := 0;
    FirstPower(m, d);
    for bit := 0 to bits
      invariant products == bit && Square(base, d) && IsPower(base, m, d, Pow2(bit))
      invariant (homogeneous ==> UnitFirstRow(base, d))
    {
      var square := Multiply(base, base, d, homogeneous);
      PowerProduct(square, base, base, m, d, Pow2(bit), Pow2(bit), Pow2(bit + 1));
      base, products := square, products + 1;
    }
    var identity := Identity(d);
    IdentityIsPower(identity, m, d);
    var result := Multiply(identity, base, d, homogeneous);
    products := products + 1;
    PowerProduct(result, identity, base, m, d, 0, Pow2(bits), Pow2(bits));
    output := MultiplyVector(result, input, d, homogeneous);
  }
}
