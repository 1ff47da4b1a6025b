/** The persistent min-plus tree: balanced transfers over core ranges, path
    copying on update, and recovery of an optimal bit string.  Its minimum is
    the direct Viterbi minimum, before and after any override. */
module TropicalTree {
  import opened Bits
  import opened Layout
  import opened Outcomes
  import opened Tropical

  datatype Matrix = Matrix(rows: nat, columns: nat, values: seq<Entry>)

  datatype Node =
    | Leaf(start: nat, end: nat, transfer: Matrix, core: Core)
    | Inner(start: nat, end: nat, transfer: Matrix, left: Node, right: Node)

  function At(m: Matrix, i: nat, j: nat): Entry
    requires |m.values| == m.rows * m.columns && i < m.rows && j < m.columns
  {
    Cell(m.values, m.rows, m.columns, i, j)
  }

  /** Entry (i, j) is the least cost from rank i to rank j through the cores. */
  ghost predicate Exact(m: Matrix, cores: seq<Core>) {
    && cores != [] && m.rows == cores[0].leftRank && m.columns == cores[|cores| - 1].rightRank
    && |m.values| == m.rows * m.columns && m.rows > 0 && m.columns > 0
    && (forall i, j :: 0 <= i < m.rows && 0 <= j < m.columns ==> Optimal(cores, i, j, At(m, i, j)))
  }

  /** The node is the balanced tree over cores[start..end] with exact transfers. */
  ghost predicate TreeOk(node: Node, cores: seq<Core>)
    decreases node
  {
    && node.start < node.end <= |cores| && Exact(node.transfer, cores[node.start..node.end])
    && match node
       case Leaf(start, end, _, core) => end == start + 1 && core == cores[start]
       case Inner(start, end, _, left, right) =>
         && left.start == start && left.end == right.start == start + (end - start) / 2 && right.end == end
         && TreeOk(left, cores) && TreeOk(right, cores)
         && MeetFits(cores[start..left.end], cores[left.end..end])
  }

  // ---------------------------------------------------------------- checked sums

  /** The source's test for a 64-bit sum that does not overflow. */
  predicate SumFits(left: int, right: int) {
    !((right > 0 && left > Limit() - 1 - right) || (right < 0 && left < -Limit() - right))
  }

  /** On 64-bit operands the test is exact. */
  lemma SumFitsIsExact(left: int, right: int)
    requires FitsInt64(left) && FitsInt64(right)
    ensures SumFits(left, right) <==> FitsInt64(left + right)
  {
  }

  predicate PlusFits(l: Entry, r: Entry) { l.supported && r.supported ==> SumFits(l.cost, r.cost) }

  /** No least cost through a overflows when added to one through b that meets it. */
  ghost predicate MeetFits(a: seq<Core>, b: seq<Core>) {
    forall i, m, j, e, f {:trigger Optimal(a, i, m, e), Optimal(b, m, j, f)} ::
      Optimal(a, i, m, e) && Optimal(b, m, j, f) ==> PlusFits(e, f)
  }

  /** No sum formed for the balanced tree over cores[start..end] overflows. */
  ghost predicate TreeFits(cores: seq<Core>, start: nat, end: nat)
    requires start < end <= |cores|
    decreases end - start
  {
    end == start + 1 ||
    var middle := start + (end - start) / 2;
    TreeFits(cores, start, middle) && TreeFits(cores, middle, end) && MeetFits(cores[start..middle], cores[middle..end])
  }

  ghost predicate MatrixFits(left: Matrix, right: Matrix)
    requires |left.values| == left.rows * left.columns && |right.values| == right.rows * right.columns
    requires left.columns == right.rows
  {
    forall i, j :: 0 <= i < left.rows && 0 <= j < right.columns ==> CellFits(left, right, i, j, left.columns)
  }

  ghost predicate CellFits(left: Matrix, right: Matrix, i: nat, j: nat, upto: nat)
    requires |left.values| == left.rows * left.columns && |right.values| == right.rows * right.columns
    requires left.columns == right.rows && i < left.rows && j < right.columns && upto <= left.columns
  {
    forall m :: 0 <= m < upto ==> PlusFits(At(left, i, m), At(right, m, j))
  }

  lemma SupportedInside(cores: seq<Core>, i: nat, j: nat, e: Entry)
    requires cores != [] && Optimal(cores, i, j, e) && e.supported
    ensures i < cores[0].leftRank && j < cores[|cores| - 1].rightRank
  {
    var p :| IsPath(cores, p, i, j) && Cost(cores, p) == e.cost;
  }

  /** The matrices form only fitting sums exactly when the least costs do. */
  lemma FitsOfCores(left: Matrix, right: Matrix, a: seq<Core>, b: seq<Core>)
    requires Exact(left, a) && Exact(right, b) && left.columns == right.rows
    ensures MatrixFits(left, right) <==> MeetFits(a, b)
  {
    if MatrixFits(left, right) {
      forall i, m, j, e, f | Optimal(a, i, m, e) && Optimal(b, m, j, f) ensures PlusFits(e, f) {
        if e.supported && f.supported {
          SupportedInside(a, i, m, e);
          SupportedInside(b, m, j, f);
          OptimalUnique(a, i, m, e, At(left, i, m));
          OptimalUnique(b, m, j, f, At(right, m, j));
          assert CellFits(left, right, i, j, left.columns);
        }
      }
    }
    if MeetFits(a, b) {
      forall i, j | 0 <= i < left.rows && 0 <= j < right.columns ensures CellFits(left, right, i, j, left.columns) {
        forall m | 0 <= m < left.columns ensures PlusFits(At(left, i, m), At(right, m, j)) {
          assert Optimal(a, i, m, At(left, i, m)) && Optimal(b, m, j, At(right, m, j));
        }
      }
    }
  }

  lemma {:induction false} TreeOkFits(node: Node, cores: seq<Core>)
    requires TreeOk(node, cores)
    ensures TreeFits(cores, node.start, node.end)
    decreases node
  {
    if node.Inner? {
      TreeOkFits(node.left, cores);
      TreeOkFits(node.right, cores);
    }
  }

  lemma OptimalBounded(cores: seq<Core>, i: nat, j: nat, e: Entry, b: nat)
    requires Optimal(cores, i, j, e) && e.supported && Bounded(cores, b)
    ensures Tropical.Within(e.cost, |cores| * b)
  {
    var p :| IsPath(cores, p, i, j) && Cost(cores, p) == e.cost;
    CostBounded(cores, p, |cores|, b);
  }

  /** Entries bounded by b with n * b below 2^63 rule every overflow out. */
  lemma {:induction false} BoundedFits(cores: seq<Core>, start: nat, end: nat, b: nat)
    requires start < end <= |cores| && Bounded(cores, b) && (end - start) * b < Limit()
    ensures TreeFits(cores, start, end)
    decreases end - start
  {
    if end > start + 1 {
      var middle := start + (end - start) / 2;
      var x, y := cores[start..middle], cores[middle..end];
      SplitBudget(start, middle, end, b);
      BoundedFits(cores, start, middle, b);
      BoundedFits(cores, middle, end, b);
      BoundedSlice(cores, start, middle, b);
      BoundedSlice(cores, middle, end, b);
      forall i, m, j, e, f | Optimal(x, i, m, e) && Optimal(y, m, j, f) ensures PlusFits(e, f) {
        if e.supported && f.supported {
          OptimalBounded(x, i, m, e, b);
          OptimalBounded(y, m, j, f, b);
        }
      }
    }
  }

  lemma SplitBudget(start: nat, middle: nat, end: nat, b: nat)
    requires start <= middle <= end
    ensures (middle - start) * b + (end - middle) * b == (end - start) * b
    ensures 0 <= (middle - start) * b && 0 <= (end - middle) * b
  {
  }

  lemma BoundedSlice(cores: seq<Core>, start: nat, end: nat, b: nat)
    requires start <= end <= |cores| && Bounded(cores, b)
    ensures Bounded(cores[start..end], b)
  {
    forall k | 0 <= k < end - start
      ensures EdgesWithin(cores[start..end][k], b)
    {
      assert EdgesWithin(cores[start + k], b);
    }
  }

  // ---------------------------------------------------------------- transfers

  method CoreTransfer(core: Core) returns (m: Matrix)
    requires CoreOk(core)
    ensures Exact(m, [core])
  {
    var count := core.leftRank * core.rightRank;
    var values := new Entry[count](_ => MISSING);
    for index := 0 to count
      invariant forall k :: 0 <= k < index ==> values[k] == BothBits(core.zero[k], core.one[k])
      invariant forall k :: index <= k < count ==> values[k] == MISSING
    {
      var zero, one := core.zero[index], core.one[index];
      if zero.supported && one.supported {
        values[index] := if zero.cost <= one.cost then zero else one;
      } else if zero.supported {
        values[index] := zero;
      } else if one.supported {
        values[index] := one;
      }
    }
    m := Matrix(core.leftRank, core.rightRank, values[..]);
    forall i, j | 0 <= i < m.rows && 0 <= j < m.columns ensures Optimal([core], i, j, At(m, i, j)) {
      CellInside(i, j, core.leftRank, core.rightRank);
      CoreOptimal(core, i, j);
      SameCostOptimal([core], i, j, Better(Edge(core, false, i, j), Edge(core, true, i, j)), At(m, i, j));
    }
  }

  function BothBits(zero: Entry, one: Entry): Entry {
    if zero.supported || one.supported then Better(zero, one) else MISSING
  }

  lemma SameCostOptimal(cores: seq<Core>, i: nat, j: nat, e: Entry, f: Entry)
    requires Optimal(cores, i, j, e) && SameCost(e, f)
    ensures Optimal(cores, i, j, f)
  {
  }

  /** Least sum over the first `upto` middle ranks. */
  function Composed(left: Matrix, right: Matrix, i: nat, j: nat, upto: nat): Entry
    requires |left.values| == left.rows * left.columns && |right.values| == right.rows * right.columns
    requires left.columns == right.rows && i < left.rows && j < right.columns && upto <= left.columns
  {
    if upto == 0 then MISSING
    else Better(Composed(left, right, i, j, upto - 1), Plus(At(left, i, upto - 1), At(right, upto - 1, j)))
  }

  lemma {:induction false} ComposedLeast(left: Matrix, right: Matrix, i: nat, j: nat, upto: nat)
    requires |left.values| == left.rows * left.columns && |right.values| == right.rows * right.columns
    requires left.columns == right.rows && i < left.rows && j < right.columns && upto <= left.columns
    ensures var e := Composed(left, right, i, j, upto);
      && (forall m :: 0 <= m < upto ==> AtMost(e, Plus(At(left, i, m), At(right, m, j))))
      && (e.supported ==> exists m :: 0 <= m < upto && Plus(At(left, i, m), At(right, m, j)) == e)
  {
    if upto > 0 { ComposedLeast(left, right, i, j, upto - 1); }
  }

  lemma ComposedOptimal(a: seq<Core>, b: seq<Core>, left: Matrix, right: Matrix, i: nat, j: nat)
    requires Exact(left, a) && Exact(right, b) && left.columns == right.rows && i < left.rows && j < right.columns
    ensures Optimal(a + b, i, j, Composed(left, right, i, j, left.columns))
  {
    var ls := seq(left.columns, m requires 0 <= m < left.columns => At(left, i, m));
    var rs := seq(left.columns, m requires 0 <= m < left.columns => At(right, m, j));
    ComposedLeast(left, right, i, j, left.columns);
    var e := Composed(left, right, i, j, left.columns);
    forall m | 0 <= m < |ls| ensures AtMost(e, Plus(ls[m], rs[m])) {
      assert AtMost(e, Plus(At(left, i, m), At(right, m, j)));
    }
    if e.supported {
      var m :| 0 <= m < left.columns && Plus(At(left, i, m), At(right, m, j)) == e;
      assert Plus(ls[m], rs[m]) == e;
    }
    forall r | IsPath(a + b, r, i, j) ensures r.ranks[|a|] < |ls| {
      assert (a + b)[|a|] == b[0];
    }
    ComposeOptimal(a, b, i, j, ls, rs, e);
  }

  const OVERFLOW: string := "Persistent Tropical QTT integer cost overflowed"

  /** Refused exactly when some sum of two supported entries overflows. */
  method Cheapest(left: Matrix, right: Matrix, row: nat, column: nat) returns (best: Outcome<Entry>)
    requires |left.values| == left.rows * left.columns && |right.values| == right.rows * right.columns
    requires left.columns == right.rows && row < left.rows && column < right.columns
    ensures best.Success? <==> CellFits(left, right, row, column, left.columns)
    ensures best.Success? ==> best.value == Composed(left, right, row, column, left.columns)
  {
    var least := MISSING;
    for middle := 0 to left.columns
      invariant CellFits(left, right, row, column, middle) && least == Composed(left, right, row, column, middle)
    {
      var l, r := At(left, row, middle), At(right, middle, column);
      if l.supported && r.supported {
        if !SumFits(l.cost, r.cost) {
          assert !PlusFits(l, r);
          return Thrown(OVERFLOW);
        }
        var candidate := l.cost + r.cost;
        if !least.supported || candidate < least.cost {
          least := Entry(candidate, true);
        }
      }
    }
    return Success(least);
  }

  /** The first `upto` cells, in row-major order, hold their compositions. */
  ghost predicate Filled(left: Matrix, right: Matrix, values: seq<Entry>, upto: nat)
    requires |left.values| == left.rows * left.columns && |right.values| == right.rows * right.columns
    requires left.columns == right.rows && right.columns > 0
  {
    forall k :: 0 <= k < upto && k < |values| && k / right.columns < left.rows ==>
      values[k] == Composed(left, right, k / right.columns, k % right.columns, left.columns)
  }

  lemma FillCell(left: Matrix, right: Matrix, was: seq<Entry>, now: seq<Entry>, row: nat, column: nat)
    requires |left.values| == left.rows * left.columns && |right.values| == right.rows * right.columns
    requires left.columns == right.rows && row < left.rows && column < right.columns
    requires row * right.columns + column < |was| && Filled(left, right, was, row * right.columns + column)
    requires now == was[row * right.columns + column := Composed(left, right, row, column, left.columns)]
    ensures Filled(left, right, now, row * right.columns + column + 1)
  {
    FlatIndex(row, column, right.columns);
  }

  /** Every cell before (row, column), in row-major order, forms only fitting sums. */
  ghost predicate FitsBefore(left: Matrix, right: Matrix, row: nat, column: nat)
    requires |left.values| == left.rows * left.columns && |right.values| == right.rows * right.columns
    requires left.columns == right.rows
  {
    forall i, j :: 0 <= i < left.rows && 0 <= j < right.columns && (i < row || (i == row && j < column)) ==>
      CellFits(left, right, i, j, left.columns)
  }

  /** The min-plus product, refused exactly when a checked sum overflows. */
  method Compose(left: Matrix, right: Matrix, ghost a: seq<Core>, ghost b: seq<Core>) returns (m: Outcome<Matrix>)
    requires Exact(left, a) && Exact(right, b) && left.columns == right.rows
    ensures m.Success? <==> MeetFits(a, b)
    ensures m.Success? ==> Exact(m.value, a + b)
  {
    FitsOfCores(left, right, a, b);
    CellInside(left.rows - 1, right.columns - 1, left.rows, right.columns);
    var values := new Entry[left.rows * right.columns](_ => MISSING);
    for row := 0 to left.rows
      invariant Filled(left, right, values[..], row * right.columns) && FitsBefore(left, right, row, 0)
    {
      for column := 0 to right.columns
        invariant Filled(left, right, values[..], row * right.columns + column) && FitsBefore(left, right, row, column)
      {
        CellInside(row, column, left.rows, right.columns);
        ghost var was := values[..];
        var best := Cheapest(left, right, row, column);
        if best.Thrown? {
          return Thrown(best.message);
        }
        values[row * right.columns + column] := best.value;
        FillCell(left, right, was, values[..], row, column);
      }
      FlatIndex(row, 0, right.columns);
    }
    var product := Matrix(left.rows, right.columns, values[..]);
    FilledIsExact(left, right, a, b, product);
    return Success(product);
  }

  lemma FilledIsExact(left: Matrix, right: Matrix, a: seq<Core>, b: seq<Core>, m: Matrix)
    requires Exact(left, a) && Exact(right, b) && left.columns == right.rows
    requires m.rows == left.rows && m.columns == right.columns && |m.values| == m.rows * m.columns
    requires Filled(left, right, m.values, m.rows * m.columns)
    ensures Exact(m, a + b)
  {
    forall i, j | 0 <= i < m.rows && 0 <= j < m.columns ensures Optimal(a + b, i, j, At(m, i, j)) {
      CellInside(i, j, m.rows, m.columns);
      FlatIndex(i, j, m.columns);
      ComposedOptimal(a, b, left, right, i, j);
    }
  }

  /** The outcome for the range start..end: a tree exactly when no sum overflows. */
  ghost predicate Covers(r: Outcome<Node>, cores: seq<Core>, start: nat, end: nat)
    requires start < end <= |cores|
  {
    && (r.Success? <==> TreeFits(cores, start, end))
    && (r.Success? ==> TreeOk(r.value, cores) && r.value.start == start && r.value.end == end)
  }

  ghost predicate Neighbours(left: Node, right: Node, cores: seq<Core>) {
    && Chain(cores) && TreeOk(left, cores) && TreeOk(right, cores)
    && left.end == right.start == left.start + (right.end - left.start) / 2
  }

  lemma NeighboursMeet(left: Node, right: Node, cores: seq<Core>)
    requires Neighbours(left, right, cores)
    ensures left.transfer.columns == right.transfer.rows
    ensures cores[left.start..left.end] + cores[right.start..right.end] == cores[left.start..right.end]
  {
    assert cores[left.end - 1].rightRank == cores[left.end].leftRank;
  }

  lemma NeighboursFit(left: Node, right: Node, cores: seq<Core>)
    requires Neighbours(left, right, cores)
    ensures TreeFits(cores, left.start, right.end) <==>
      MeetFits(cores[left.start..left.end], cores[right.start..right.end])
  {
    TreeOkFits(left, cores);
    TreeOkFits(right, cores);
  }

  /** Composing two neighbouring subtrees; their ranks meet because cores chain. */
  method ComposeNodes(left: Node, right: Node, ghost cores: seq<Core>) returns (node: Outcome<Node>)
    requires Neighbours(left, right, cores)
    ensures Covers(node, cores, left.start, right.end)
  {
    NeighboursMeet(left, right, cores);
    NeighboursFit(left, right, cores);
    var transfer := Compose(left.transfer, right.transfer, cores[left.start..left.end], cores[right.start..right.end]);
    if transfer.Thrown? {
      return Thrown(transfer.message);
    }
    return Success(Inner(left.start, right.end, transfer.value, left, right));
  }

  method NewLeaf(start: nat, end: nat, core: Core, ghost cores: seq<Core>) returns (node: Node)
    requires CoreOk(core) && end == start + 1 <= |cores| && cores[start] == core
    ensures TreeOk(node, cores) && node.start == start && node.end == end
  {
    var transfer := CoreTransfer(core);
    assert cores[start..end] == [core];
    node := Leaf(start, end, transfer, core);
  }

  method BuildRange(cores: seq<Core>, start: nat, end: nat) returns (node: Outcome<Node>, nodes: nat)
    requires Chain(cores) && start < end <= |cores|
    ensures Covers(node, cores, start, end)
    ensures node.Success? ==> nodes == 2 * (end - start) - 1
    decreases end - start
  {
    if end - start == 1 {
      var leaf := NewLeaf(start, end, cores[start], cores);
      return Success(leaf), 1;
    }
    var middle := start + (end - start) / 2;
    var left, leftNodes := BuildRange(cores, start, middle);
    if left.Thrown? {
      return left, leftNodes;
    }
    var right, rightNodes := BuildRange(cores, middle, end);
    if right.Thrown? {
      return right, leftNodes + rightNodes;
    }
    node := ComposeNodes(left.value, right.value, cores);
    nodes := leftNodes + rightNodes + 1;
  }

  // ---------------------------------------------------------------- update by path copying

  /** Subtrees that do not cover the replaced core are shared unchanged. */
  lemma {:induction false} TreeOkElsewhere(node: Node, cores: seq<Core>, index: nat, core: Core)
    requires TreeOk(node, cores) && index < |cores| && (index < node.start || node.end <= index)
    ensures TreeOk(node, cores[index := core])
    decreases node
  {
    assert cores[index := core][node.start..node.end] == cores[node.start..node.end];
    if node.Inner? {
      TreeOkElsewhere(node.left, cores, index, core);
      TreeOkElsewhere(node.right, cores, index, core);
    }
  }

  lemma ChainUpdate(cores: seq<Core>, index: nat, core: Core)
    requires Chain(cores) && index < |cores| && CoreOk(core)
    requires core.leftRank == cores[index].leftRank && core.rightRank == cores[index].rightRank
    ensures Chain(cores[index := core])
  {
  }

  lemma Halves(length: nat, d: nat)
    requires 1 < length <= Pow2(d)
    ensures d > 0 && length / 2 <= Pow2(d - 1) && length - length / 2 <= Pow2(d - 1)
  {
  }

  function ChildOver(node: Node, index: nat): Node
    requires node.Inner?
  {
    if index < node.left.end then node.left else node.right
  }

  lemma ChildFits(node: Node, index: nat, cores: seq<Core>, now: seq<Core>)
    requires TreeOk(node, cores) && node.Inner? && |now| == |cores| && TreeFits(now, node.start, node.end)
    ensures var child := ChildOver(node, index);
      child.start < child.end <= |now| && TreeFits(now, child.start, child.end)
  {
    assert TreeOk(node.left, cores) && TreeOk(node.right, cores);
  }

  lemma ChildOverFacts(node: Node, index: nat, cores: seq<Core>, d: nat)
    requires TreeOk(node, cores) && node.Inner? && node.start <= index < node.end && node.end - node.start <= Pow2(d)
    ensures var child := ChildOver(node, index);
      TreeOk(child, cores) && child.start <= index < child.end && d > 0 && child.end - child.start <= Pow2(d - 1)
  {
    Halves(node.end - node.start, d);
  }

  /** A core of the same ranks to be put under the node, whose range fits 2^d. */
  ghost predicate Replaceable(node: Node, index: nat, core: Core, cores: seq<Core>, d: nat) {
    && Chain(cores) && TreeOk(node, cores) && node.start <= index < node.end && node.end - node.start <= Pow2(d)
    && CoreOk(core) && core.leftRank == cores[index].leftRank && core.rightRank == cores[index].rightRank
  }

  /** The new parent over the rebuilt child and the shared sibling. */
  method Rejoin(node: Node, child: Outcome<Node>, index: nat, core: Core, ghost cores: seq<Core>, ghost d: nat)
    returns (next: Outcome<Node>)
    requires Replaceable(node, index, core, cores, d) && node.Inner?
    requires Covers(child, cores[index := core], ChildOver(node, index).start, ChildOver(node, index).end)
    ensures Covers(next, cores[index := core], node.start, node.end)
  {
    if child.Thrown? {
      if TreeFits(cores[index := core], node.start, node.end) { ChildFits(node, index, cores, cores[index := core]); }
      return child;
    }
    ChainUpdate(cores, index, core);
    if index < node.left.end {
      TreeOkElsewhere(node.right, cores, index, core);
      next := ComposeNodes(child.value, node.right, cores[index := core]);
    } else {
      TreeOkElsewhere(node.left, cores, index, core);
      next := ComposeNodes(node.left, child.value, cores[index := core]);
    }
  }

  /** Rebuilds only the nodes on the path to the leaf: for any d with
      end - start <= 2^d that is at most d + 1 nodes. */
  method UpdateNode(node: Node, index: nat, core: Core, ghost cores: seq<Core>, ghost d: nat)
    returns (next: Outcome<Node>, nodes: nat)
    requires Replaceable(node, index, core, cores, d)
    ensures Covers(next, cores[index := core], node.start, node.end) && nodes <= d + 1
    decreases node, 1
  {
    if node.Leaf? {
      next := UpdateLeaf(node, index, core, cores, d);
      nodes := 1;
    } else {
      next, nodes := UpdateInner(node, index, core, cores, d);
    }
  }

  method UpdateLeaf(node: Node, index: nat, core: Core, ghost cores: seq<Core>, ghost d: nat)
    returns (next: Outcome<Node>)
    requires Replaceable(node, index, core, cores, d) && node.Leaf?
    ensures Covers(next, cores[index := core], node.start, node.end)
  {
    var leaf := NewLeaf(node.start, node.end, core, cores[index := core]);
    next := Success(leaf);
  }

  method UpdateInner(node: Node, index: nat, core: Core, ghost cores: seq<Core>, ghost d: nat)
    returns (next: Outcome<Node>, nodes: nat)
    requires Replaceable(node, index, core, cores, d) && node.Inner?
    ensures Covers(next, cores[index := core], node.start, node.end) && nodes <= d + 1
    decreases node, 0
  {
    ChildOverFacts(node, index, cores, d);
    var child, k := UpdateNode(ChildOver(node, index), index, core, cores, d - 1);
    next := Rejoin(node, child, index, core, cores, d);
    nodes := k + 1;
  }

  /** The depth the source reports: the bit width of n - 1. */
  function DepthFor(n: nat): nat
    requires n > 0
  {
    BitWidth(n - 1)
  }

  /** A tree over a whole certified state. */
  ghost predicate Represents(root: Node, cores: seq<Core>) {
    State(cores) && TreeOk(root, cores) && root.start == 0 && root.end == |cores|
  }

  function LeafCore(node: Node, index: nat): Core
    decreases node
  {
    match node
    case Leaf(_, _, _, core) => core
    case Inner(_, _, _, left, right) => if index < left.end then LeafCore(left, index) else LeafCore(right, index)
  }

  lemma {:induction false} LeafCoreIs(node: Node, cores: seq<Core>, index: nat)
    requires TreeOk(node, cores) && node.start <= index < node.end
    ensures LeafCore(node, index) == cores[index]
    decreases node
  {
    if node.Inner? {
      if index < node.left.end { LeafCoreIs(node.left, cores, index); } else { LeafCoreIs(node.right, cores, index); }
    }
  }

  lemma RootIsOptimal(root: Node, cores: seq<Core>)
    requires Represents(root, cores)
    ensures root.transfer.values != [] && Optimal(cores, 0, 0, root.transfer.values[0])
  {
    assert cores[0..|cores|] == cores;
    CellInside(0, 0, root.transfer.rows, root.transfer.columns);
    assert Optimal(cores, 0, 0, At(root.transfer, 0, 0));
  }

  /** Refused exactly when a checked sum overflows or no supported path exists. */
  method Build(cores: seq<Core>) returns (r: Outcome<Node>)
    requires State(cores)
    ensures r.Success? <==> TreeFits(cores, 0, |cores|) && Feasible(cores)
    ensures r.Success? ==> Represents(r.value, cores)
  {
    var root, _ := BuildRange(cores, 0, |cores|);
    if root.Thrown? {
      return root;
    }
    RootIsOptimal(root.value, cores);
    OptimalFeasible(cores, root.value.transfer.values[0]);
    if !root.value.transfer.values[0].supported {
      return Thrown("Persistent Tropical QTT has no globally supported sector");
    }
    return root;
  }

  method MinimumEnergy(root: Node, ghost cores: seq<Core>) returns (r: Outcome<int>)
    requires Represents(root, cores)
    ensures r.Success? <==> Feasible(cores)
    ensures r.Success? ==> Optimal(cores, 0, 0, Entry(r.value, true))
  {
    RootIsOptimal(root, cores);
    var value := root.transfer.values[0];
    OptimalFeasible(cores, value);
    if !value.supported {
      return Thrown("Persistent Tropical QTT has no globally supported sector");
    }
    return Success(value.cost);
  }

  /** The persistent update: at most depth + 1 new nodes, and a tree for the state
      with exactly that core replaced. */
  method UpdateCore(root: Node, index: nat, core: Core, ghost cores: seq<Core>) returns (r: Outcome<Node>, nodes: nat)
    requires Represents(root, cores)
    ensures r.Success? <==>
      && index < |cores| && CoreOk(core)
      && core.leftRank == cores[index].leftRank && core.rightRank == cores[index].rightRank
      && TreeFits(cores[index := core], 0, |cores|) && Feasible(cores[index := core])
    ensures r.Success? ==> Represents(r.value, cores[index := core]) && nodes <= DepthFor(|cores|) + 1
  {
    nodes := 0;
    if index >= root.end {
      return Thrown("Persistent Tropical QTT update index is outside logical shape"), 0;
    }
    LeafCoreIs(root, cores, index);
    var previous := LeafCore(root, index);
    if core.leftRank != previous.leftRank || core.rightRank != previous.rightRank {
      return Thrown("Persistent Tropical QTT update cannot change local bond dimensions"), 0;
    }
    assert CoreOk(cores[index]);
    if |core.zero| != core.leftRank * core.rightRank || |core.one| != core.leftRank * core.rightRank {
      return Thrown("Persistent Tropical QTT update core slices do not match declared ranks"), 0;
    }
    BitWidthCovers(|cores| - 1);
    var next, created := UpdateNode(root, index, core, cores, DepthFor(|cores|));
    if next.Thrown? {
      return next, created;
    }
    ghost var now := cores[index := core];
    ChainUpdate(cores, index, core);
    assert Represents(next.value, now);
    RootIsOptimal(next.value, now);
    OptimalFeasible(now, next.value.transfer.values[0]);
    if !next.value.transfer.values[0].supported {
      return Thrown("Persistent Tropical QTT update removed all globally supported sectors"), created;
    }
    return next, created;
  }

  /** Whenever the logarithmic update goes through, its energy is the one the linear
      re-solve finds. */
  method UpdateMatchesDirect(root: Node, index: nat, core: Core, cores: seq<Core>)
    returns (tree: Outcome<int>, direct: int)
    requires Represents(root, cores) && index < |cores| && CoreOk(core)
    requires core.leftRank == cores[index].leftRank && core.rightRank == cores[index].rightRank
    ensures tree.Success? <==> TreeFits(cores[index := core], 0, |cores|) && Feasible(cores[index := core])
    ensures tree.Success? ==> tree.value == direct && Optimal(cores[index := core], 0, 0, Entry(direct, true))
  {
    ghost var now, w := cores[index := core], 0;
    assert State(now) && Overridden(cores, index, core) == now;
    direct, w := DirectViterbiOverride(cores, index, core);
    var next, _ := UpdateCore(root, index, core, cores);
    if next.Thrown? {
      return Thrown(next.message), direct;
    }
    tree := MinimumEnergy(next.value, now);
    OptimalUnique(now, 0, 0, Entry(tree.value, true), Entry(direct, true));
  }

  // ---------------------------------------------------------------- an optimal bit string

  /** Some rank path under exactly these bits costs `c`. */
  ghost predicate Reproduces(cores: seq<Core>, bits: seq<bool>, i: nat, j: nat, c: int) {
    exists p :: IsPath(cores, p, i, j) && p.bits == bits && Cost(cores, p) == c
  }

  /** The first middle rank of least cost; refused exactly when a sum overflows. */
  method ArgminMiddle(left: Matrix, right: Matrix, i: nat, j: nat) returns (result: Outcome<nat>)
    requires |left.values| == left.rows * left.columns && |right.values| == right.rows * right.columns
    requires left.columns == right.rows && i < left.rows && j < right.columns
    ensures result.Success? <==>
      CellFits(left, right, i, j, left.columns) && Composed(left, right, i, j, left.columns).supported
    ensures result.Success? ==> result.value < left.columns
    ensures result.Success? ==>
      Plus(At(left, i, result.value), At(right, result.value, j)) == Composed(left, right, i, j, left.columns)
  {
    var have, best, middle := false, MISSING, 0;
    for m := 0 to left.columns
      invariant CellFits(left, right, i, j, m) && best == Composed(left, right, i, j, m) && have == best.supported
      invariant have ==> middle < m && Plus(At(left, i, middle), At(right, middle, j)) == best
    {
      var l, r := At(left, i, m), At(right, m, j);
      if l.supported && r.supported {
        if !SumFits(l.cost, r.cost) {
          assert !PlusFits(l, r);
          return Thrown(OVERFLOW);
        }
        var candidate := l.cost + r.cost;
        if !have || candidate < best.cost || (candidate == best.cost && m < middle) {
          have, middle, best := true, m, Entry(candidate, true);
        }
      }
    }
    if !have {
      return Thrown("Persistent Tropical QTT optimum path has no supported middle state");
    }
    return Success(middle);
  }

  method LeafBit(core: Core, i: nat, j: nat) returns (bit: bool)
    requires CoreOk(core) && i < core.leftRank && j < core.rightRank
    requires Better(Edge(core, false, i, j), Edge(core, true, i, j)).supported
    ensures Edge(core, bit, i, j) == Better(Edge(core, false, i, j), Edge(core, true, i, j))
  {
    var zero, one := Edge(core, false, i, j), Edge(core, true, i, j);
    if zero.supported && one.supported {
      return !(zero.cost <= one.cost);
    }
    return !zero.supported;
  }

  lemma JoinReproduced(a: seq<Core>, b: seq<Core>, x: seq<bool>, y: seq<bool>, i: nat, m: nat, j: nat, c: int, d: int)
    requires Reproduces(a, x, i, m, c) && Reproduces(b, y, m, j, d)
    ensures Reproduces(a + b, x + y, i, j, c + d)
  {
    var p :| IsPath(a, p, i, m) && p.bits == x && Cost(a, p) == c;
    var q :| IsPath(b, q, m, j) && q.bits == y && Cost(b, q) == d;
    JoinPaths(a, b, p, q, i, m, j);
  }

  lemma LeafReproduces(core: Core, transfer: Matrix, bit: bool, i: nat, j: nat)
    requires Exact(transfer, [core]) && CoreOk(core) && i < core.leftRank && j < core.rightRank
    requires At(transfer, i, j).supported
    ensures Better(Edge(core, false, i, j), Edge(core, true, i, j)).supported
    ensures Edge(core, bit, i, j) == Better(Edge(core, false, i, j), Edge(core, true, i, j)) ==>
              Reproduces([core], [bit], i, j, At(transfer, i, j).cost)
  {
    var e := Better(Edge(core, false, i, j), Edge(core, true, i, j));
    CoreOptimal(core, i, j);
    OptimalUnique([core], i, j, At(transfer, i, j), e);
    if Edge(core, bit, i, j) == e {
      var p := Path([bit], [i, j]);
      assert StepEntry([core], p, 0) == e;
      assert CostTo([core], p, 0) == 0 && IsPath([core], p, i, j);
    }
  }

  /** The parent's entry is the composition of its children's. */
  lemma InnerEntry(a: seq<Core>, b: seq<Core>, top: Matrix, left: Matrix, right: Matrix, i: nat, j: nat)
    requires Exact(top, a + b) && Exact(left, a) && Exact(right, b) && left.columns == right.rows
    requires i < top.rows && j < top.columns && top.rows == left.rows && top.columns == right.columns
    ensures SameCost(At(top, i, j), Composed(left, right, i, j, left.columns))
  {
    ComposedOptimal(a, b, left, right, i, j);
    OptimalUnique(a + b, i, j, At(top, i, j), Composed(left, right, i, j, left.columns));
  }

  /** Where an inner node's children lie and how their ranks meet. */
  lemma Children(node: Node, cores: seq<Core>)
    requires Chain(cores) && TreeOk(node, cores) && node.Inner?
    ensures var a, b := cores[node.start..node.left.end], cores[node.left.end..node.end];
      && a + b == cores[node.start..node.end]
      && Exact(node.transfer, a + b) && Exact(node.left.transfer, a) && Exact(node.right.transfer, b)
      && node.left.transfer.columns == node.right.transfer.rows
      && node.transfer.rows == node.left.transfer.rows && node.transfer.columns == node.right.transfer.columns
  {
    var a, b := cores[node.start..node.left.end], cores[node.left.end..node.end];
    assert a + b == cores[node.start..node.end];
    assert cores[node.left.end - 1].rightRank == cores[node.left.end].leftRank;
  }

  /** A supported entry of the parent is its children's least sum, formed without overflow. */
  lemma InnerFound(a: seq<Core>, b: seq<Core>, top: Matrix, left: Matrix, right: Matrix, i: nat, j: nat)
    requires Exact(top, a + b) && Exact(left, a) && Exact(right, b) && left.columns == right.rows && MeetFits(a, b)
    requires i < top.rows && j < top.columns && top.rows == left.rows && top.columns == right.columns
    requires At(top, i, j).supported
    ensures CellFits(left, right, i, j, left.columns)
    ensures Composed(left, right, i, j, left.columns) == Entry(At(top, i, j).cost, true)
  {
    InnerEntry(a, b, top, left, right, i, j);
    FitsOfCores(left, right, a, b);
  }

  method DescendLeaf(start: nat, transfer: Matrix, core: Core, i: nat, j: nat, bits: array<bool>)
    requires Exact(transfer, [core]) && CoreOk(core) && i < core.leftRank && j < core.rightRank && start < bits.Length
    requires At(transfer, i, j).supported
    modifies bits
    ensures Reproduces([core], bits[start..start + 1], i, j, At(transfer, i, j).cost)
    ensures bits[..start] == old(bits[..start]) && bits[start + 1..] == old(bits[start + 1..])
  {
    LeafReproduces(core, transfer, false, i, j);
    LeafReproduces(core, transfer, true, i, j);
    bits[start] := LeafBit(core, i, j);
    assert bits[start..start + 1] == [bits[start]];
  }

  lemma Halved(first: seq<bool>, was: seq<bool>, now: seq<bool>, start: nat, middle: nat, end: nat)
    requires start <= middle <= end <= |first| == |was| == |now|
    requires was[..start] == first[..start] && was[middle..] == first[middle..]
    requires now[..middle] == was[..middle] && now[end..] == was[end..]
    ensures now[start..middle] == was[start..middle] && now[start..end] == now[start..middle] + now[middle..end]
    ensures now[..start] == first[..start] && now[end..] == first[end..]
  {
    assert now[start..middle] == now[..middle][start..];
    assert now[..start] == now[..middle][..start];
    assert was[end..] == was[middle..][end - middle..];
  }

  /** Fills bits[start..end] with a string that attains the node's transfer. */
  method DescendBits(node: Node, i: nat, j: nat, bits: array<bool>, ghost cores: seq<Core>)
    requires Chain(cores) && TreeOk(node, cores) && bits.Length == |cores|
    requires i < node.transfer.rows && j < node.transfer.columns && At(node.transfer, i, j).supported
    modifies bits
    ensures Reproduces(cores[node.start..node.end], bits[node.start..node.end], i, j, At(node.transfer, i, j).cost)
    ensures bits[..node.start] == old(bits[..node.start]) && bits[node.end..] == old(bits[node.end..])
    decreases node
  {
    ghost var first := bits[..];
    match node
    case Leaf(start, end, transfer, core) =>
      assert cores[start..end] == [core] && CoreOk(core);
      DescendLeaf(start, transfer, core, i, j, bits);
    case Inner(start, end, transfer, left, right) =>
      ghost var a, b := cores[start..left.end], cores[left.end..end];
      Children(node, cores);
      InnerFound(a, b, transfer, left.transfer, right.transfer, i, j);
      var found := ArgminMiddle(left.transfer, right.transfer, i, j);
      var middle := found.value;
      DescendBits(left, i, middle, bits, cores);
      ghost var was := bits[..];
      DescendBits(right, middle, j, bits, cores);
      Halved(first, was, bits[..], start, left.end, end);
      JoinReproduced(a, b, bits[start..left.end], bits[left.end..end], i, middle, j,
        At(left.transfer, i, middle).cost, At(right.transfer, middle, j).cost);
  }

  /** The returned bits attain the global minimum over all bit strings. */
  method MinimumBits(root: Node, ghost cores: seq<Core>) returns (bits: seq<bool>)
    requires Represents(root, cores) && Feasible(cores)
    ensures |bits| == |cores|
    ensures exists c :: Reproduces(cores, bits, 0, 0, c) && Optimal(cores, 0, 0, Entry(c, true))
  {
    RootIsOptimal(root, cores);
    CellInside(0, 0, root.transfer.rows, root.transfer.columns);
    OptimalFeasible(cores, At(root.transfer, 0, 0));
    var out := new bool[root.end](_ => false);
    DescendBits(root, 0, 0, out, cores);
    assert cores[0..|cores|] == cores && out[0..root.end] == out[..];
    bits := out[..];
  }

  /** Reading the leaves back gives the cores the tree was built from. */
  method CollectCores(node: Node, ghost cores: seq<Core>) returns (collected: seq<Core>)
    requires TreeOk(node, cores)
    ensures collected == cores[node.start..node.end]
    decreases node
  {
    match node
    case Leaf(start, end, _, core) => return [core];
    case Inner(_, _, _, left, right) =>
      var l := CollectCores(left, cores);
      var r := CollectCores(right, cores);
      return l + r;
  }
}
