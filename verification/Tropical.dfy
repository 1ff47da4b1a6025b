/** Min-plus chains of rank-bounded cores: supported paths, the Viterbi sweep
    with one overridden core, and the effect of perturbing a core. */
module Tropical {
  import opened Bits
  import opened Layout

  datatype Entry = Entry(cost: int, supported: bool)

  const MISSING: Entry := Entry(0, false)

  datatype Core = Core(leftRank: nat, rightRank: nat, zero: seq<Entry>, one: seq<Entry>)

  ghost predicate CoreOk(c: Core) {
    c.leftRank > 0 && c.rightRank > 0 && |c.zero| == |c.one| == c.leftRank * c.rightRank
  }

  /** Row-major access to a rank matrix. */
  function Cell(values: seq<Entry>, rows: nat, columns: nat, i: nat, j: nat): Entry
    requires |values| == rows * columns && i < rows && j < columns
  {
    CellInside(i, j, rows, columns);
    values[i * columns + j]
  }

  function Edge(c: Core, bit: bool, i: nat, j: nat): Entry
    requires CoreOk(c) && i < c.leftRank && j < c.rightRank
  {
    Cell(if bit then c.one else c.zero, c.leftRank, c.rightRank, i, j)
  }

  /** Cores whose neighbouring ranks match. */
  ghost predicate Chain(cores: seq<Core>) {
    && (forall k :: 0 <= k < |cores| ==> CoreOk(cores[k]))
    && (forall k :: 0 < k < |cores| ==> cores[k - 1].rightRank == cores[k].leftRank)
  }

  /** What the tropical state's constructor certifies about shapes. */
  ghost predicate State(cores: seq<Core>) {
    cores != [] && Chain(cores) && cores[0].leftRank == 1 && cores[|cores| - 1].rightRank == 1
  }

  // ---------------------------------------------------------------- min-plus entries

  function Plus(a: Entry, b: Entry): Entry {
    if a.supported && b.supported then Entry(a.cost + b.cost, true) else MISSING
  }

  /** Keep `a` unless `b` is supported and strictly cheaper (or `a` is missing). */
  function Better(a: Entry, b: Entry): Entry {
    if b.supported && (!a.supported || b.cost < a.cost) then b else a
  }

  predicate AtMost(a: Entry, b: Entry) { b.supported ==> a.supported && a.cost <= b.cost }

  predicate SameCost(a: Entry, b: Entry) { a.supported == b.supported && (a.supported ==> a.cost == b.cost) }

  // ---------------------------------------------------------------- paths

  /** A bit per core and a rank index per bond. */
  datatype Path = Path(bits: seq<bool>, ranks: seq<nat>)

  ghost predicate InShape(cores: seq<Core>, p: Path) {
    && |p.bits| == |cores| && |p.ranks| == |cores| + 1
    && (forall k :: 0 <= k < |cores| ==>
          CoreOk(cores[k]) && p.ranks[k] < cores[k].leftRank && p.ranks[k + 1] < cores[k].rightRank)
  }

  ghost function StepEntry(cores: seq<Core>, p: Path, k: nat): Entry
    requires InShape(cores, p) && k < |cores|
  {
    Edge(cores[k], p.bits[k], p.ranks[k], p.ranks[k + 1])
  }

  /** A path from rank i to rank j through supported entries only. */
  ghost predicate IsPath(cores: seq<Core>, p: Path, i: nat, j: nat) {
    InShape(cores, p) && p.ranks[0] == i && p.ranks[|cores|] == j && AllSupported(cores, p)
  }

  ghost predicate AllSupported(cores: seq<Core>, p: Path)
    requires InShape(cores, p)
  {
    forall k :: 0 <= k < |cores| ==> StepEntry(cores, p, k).supported
  }

  /** Total cost of the first k steps. */
  ghost function CostTo(cores: seq<Core>, p: Path, k: nat): int
    requires InShape(cores, p) && k <= |cores|
  {
    if k == 0 then 0 else CostTo(cores, p, k - 1) + StepEntry(cores, p, k - 1).cost
  }

  ghost function Cost(cores: seq<Core>, p: Path): int
    requires InShape(cores, p)
  {
    CostTo(cores, p, |cores|)
  }

  ghost predicate Attained(cores: seq<Core>, i: nat, j: nat, c: int) {
    exists p :: IsPath(cores, p, i, j) && Cost(cores, p) == c
  }

  /** `e` is supported exactly when some supported path runs from i to j, and
      then carries the least cost over all bit strings and all such paths. */
  ghost predicate Optimal(cores: seq<Core>, i: nat, j: nat, e: Entry) {
    && (e.supported ==> Attained(cores, i, j, e.cost))
    && (forall p :: IsPath(cores, p, i, j) ==> e.supported && e.cost <= Cost(cores, p))
  }

  lemma OptimalUnique(cores: seq<Core>, i: nat, j: nat, e: Entry, f: Entry)
    requires Optimal(cores, i, j, e) && Optimal(cores, i, j, f)
    ensures SameCost(e, f)
  {
    if e.supported { var p :| IsPath(cores, p, i, j) && Cost(cores, p) == e.cost; }
    if f.supported { var p :| IsPath(cores, p, i, j) && Cost(cores, p) == f.cost; }
  }

  /** Some bit string has a supported path between the two boundaries. */
  ghost predicate Feasible(cores: seq<Core>) {
    exists c :: Attained(cores, 0, 0, c)
  }

  lemma OptimalFeasible(cores: seq<Core>, e: Entry)
    requires Optimal(cores, 0, 0, e)
    ensures e.supported <==> Feasible(cores)
  {
    if Feasible(cores) {
      var c :| Attained(cores, 0, 0, c);
      var p :| IsPath(cores, p, 0, 0) && Cost(cores, p) == c;
    }
  }

  ghost function Joined(p: Path, q: Path): Path
    requires q.ranks != []
  {
    Path(p.bits + q.bits, p.ranks + q.ranks[1..])
  }

  lemma {:induction false} CostJoined(a: seq<Core>, b: seq<Core>, p: Path, q: Path, r: Path, k: nat)
    requires InShape(a, p) && InShape(b, q) && InShape(a + b, r) && k <= |a| + |b|
    requires forall t :: 0 <= t < |a| ==> StepEntry(a + b, r, t) == StepEntry(a, p, t)
    requires forall t :: 0 <= t < |b| ==> StepEntry(a + b, r, |a| + t) == StepEntry(b, q, t)
    ensures CostTo(a + b, r, k) == (if k <= |a| then CostTo(a, p, k) else CostTo(a, p, |a|) + CostTo(b, q, k - |a|))
  {
    if k > 0 {
      CostJoined(a, b, p, q, r, k - 1);
      if k > |a| {
        assert StepEntry(a + b, r, |a| + (k - 1 - |a|)) == StepEntry(b, q, k - 1 - |a|);
      }
    }
  }

  /** Paths through a concatenation are pairs of paths that meet. */
  lemma JoinPaths(a: seq<Core>, b: seq<Core>, p: Path, q: Path, i: nat, m: nat, j: nat)
    requires IsPath(a, p, i, m) && IsPath(b, q, m, j)
    ensures IsPath(a + b, Joined(p, q), i, j)
    ensures Cost(a + b, Joined(p, q)) == Cost(a, p) + Cost(b, q)
  {
    var r := Joined(p, q);
    assert InShape(a + b, r) by { JoinShape(a, b, p, q); }
    forall t | 0 <= t < |b| ensures StepEntry(a + b, r, |a| + t) == StepEntry(b, q, t) {}
    CostJoined(a, b, p, q, r, |a| + |b|);
    forall k | 0 <= k < |a + b| ensures StepEntry(a + b, r, k).supported {
      if k >= |a| { assert StepEntry(a + b, r, |a| + (k - |a|)) == StepEntry(b, q, k - |a|); }
    }
  }

  lemma JoinShape(a: seq<Core>, b: seq<Core>, p: Path, q: Path)
    requires InShape(a, p) && InShape(b, q) && p.ranks[|a|] == q.ranks[0]
    ensures InShape(a + b, Joined(p, q))
  {
    var r := Joined(p, q);
    forall k | 0 <= k < |a + b|
      ensures CoreOk((a + b)[k]) && r.ranks[k] < (a + b)[k].leftRank && r.ranks[k + 1] < (a + b)[k].rightRank
    {
      if k >= |a| {
        var t := k - |a|;
        assert (a + b)[k] == b[t] && r.ranks[k + 1] == q.ranks[t + 1] && r.ranks[k] == q.ranks[t];
      }
    }
  }

  ghost function Before(p: Path, n: nat): Path
    requires n < |p.ranks| && n <= |p.bits|
  {
    Path(p.bits[..n], p.ranks[..n + 1])
  }

  ghost function After(p: Path, n: nat): Path
    requires n < |p.ranks| && n <= |p.bits|
  {
    Path(p.bits[n..], p.ranks[n..])
  }

  lemma SplitShape(a: seq<Core>, b: seq<Core>, r: Path)
    requires InShape(a + b, r)
    ensures InShape(a, Before(r, |a|)) && InShape(b, After(r, |a|))
  {
    forall t | 0 <= t < |a| ensures a[t] == (a + b)[t] {}
    forall t | 0 <= t < |b| ensures b[t] == (a + b)[|a| + t] {}
  }

  lemma SplitSteps(a: seq<Core>, b: seq<Core>, r: Path)
    requires InShape(a + b, r)
    ensures InShape(a, Before(r, |a|)) && InShape(b, After(r, |a|))
    ensures forall t :: 0 <= t < |a| ==> StepEntry(a + b, r, t) == StepEntry(a, Before(r, |a|), t)
    ensures forall t :: 0 <= t < |b| ==> StepEntry(a + b, r, |a| + t) == StepEntry(b, After(r, |a|), t)
  {
    SplitShape(a, b, r);
  }

  lemma SplitPath(a: seq<Core>, b: seq<Core>, r: Path, i: nat, j: nat)
    requires IsPath(a + b, r, i, j)
    ensures IsPath(a, Before(r, |a|), i, r.ranks[|a|]) && IsPath(b, After(r, |a|), r.ranks[|a|], j)
    ensures Cost(a + b, r) == Cost(a, Before(r, |a|)) + Cost(b, After(r, |a|))
  {
    SplitSteps(a, b, r);
    CostJoined(a, b, Before(r, |a|), After(r, |a|), r, |a| + |b|);
  }

  /** The min-plus product of two optimal transfers is optimal for the
      concatenation. */
  lemma ComposeOptimal(a: seq<Core>, b: seq<Core>, i: nat, j: nat, left: seq<Entry>, right: seq<Entry>, e: Entry)
    requires |left| == |right| && forall m :: 0 <= m < |left| ==>
      Optimal(a, i, m, left[m]) && Optimal(b, m, j, right[m])
    requires a != [] || b != []
    requires forall r :: IsPath(a + b, r, i, j) ==> r.ranks[|a|] < |left|
    requires forall m :: 0 <= m < |left| ==> AtMost(e, Plus(left[m], right[m]))
    requires e.supported ==> exists m :: 0 <= m < |left| && Plus(left[m], right[m]) == e
    ensures Optimal(a + b, i, j, e)
  {
    if e.supported {
      var m :| 0 <= m < |left| && Plus(left[m], right[m]) == e;
      var p :| IsPath(a, p, i, m) && Cost(a, p) == left[m].cost;
      var q :| IsPath(b, q, m, j) && Cost(b, q) == right[m].cost;
      JoinPaths(a, b, p, q, i, m, j);
    }
    forall r | IsPath(a + b, r, i, j) ensures e.supported && e.cost <= Cost(a + b, r) {
      SplitPath(a, b, r, i, j);
      var m := r.ranks[|a|];
      assert left[m].supported && right[m].supported;
      assert AtMost(e, Plus(left[m], right[m]));
    }
  }

  /** A single core: the better of its two bits. */
  lemma CoreOptimal(c: Core, i: nat, j: nat)
    requires CoreOk(c) && i < c.leftRank && j < c.rightRank
    ensures Optimal([c], i, j, Better(Edge(c, false, i, j), Edge(c, true, i, j)))
  {
    var e := Better(Edge(c, false, i, j), Edge(c, true, i, j));
    if e.supported {
      var bit := e != Edge(c, false, i, j) || !Edge(c, false, i, j).supported;
      var p := Path([bit], [i, j]);
      assert StepEntry([c], p, 0) == e;
      assert IsPath([c], p, i, j) && CostTo([c], p, 0) == 0 && Cost([c], p) == e.cost;
    }
    forall p | IsPath([c], p, i, j) ensures e.supported && e.cost <= Cost([c], p) {
      assert StepEntry([c], p, 0).supported && CostTo([c], p, 0) == 0;
    }
  }

  ghost predicate SweepOk(cores: seq<Core>, costs: seq<Entry>) {
    forall r :: 0 <= r < |costs| ==> Optimal(cores, 0, r, costs[r])
  }

  // ---------------------------------------------------------------- machine range

  predicate Within(x: int, b: int) { -b <= x <= b }

  ghost predicate EdgesWithin(c: Core, b: int) {
    CoreOk(c) && forall bit, i, j :: 0 <= i < c.leftRank && 0 <= j < c.rightRank ==> Within(Edge(c, bit, i, j).cost, b)
  }

  ghost predicate Bounded(cores: seq<Core>, b: int) {
    forall k :: 0 <= k < |cores| ==> EdgesWithin(cores[k], b)
  }

  lemma {:induction false} CostBounded(cores: seq<Core>, p: Path, k: nat, b: int)
    requires InShape(cores, p) && k <= |cores| && Bounded(cores, b)
    ensures Within(CostTo(cores, p, k), k * b)
  {
    if k > 0 {
      CostBounded(cores, p, k - 1, b);
      assert k * b == (k - 1) * b + b;
      assert EdgesWithin(cores[k - 1], b);
      assert Within(Edge(cores[k - 1], p.bits[k - 1], p.ranks[k - 1], p.ranks[k]).cost, b);
    }
  }

  /** Every candidate the sweep forms at step k lies within (k+1) times the entry
      bound, so n*b < 2^63 rules out signed overflow. */
  lemma CandidateInRange(cores: seq<Core>, k: nat, r: nat, e: Entry, bit: bool, j: nat, b: int)
    requires k < |cores| && Bounded(cores, b) && b >= 0
    requires r < cores[k].leftRank && j < cores[k].rightRank && CoreOk(cores[k])
    requires Optimal(cores[..k], 0, r, e) && e.supported
    ensures Within(e.cost + Edge(cores[k], bit, r, j).cost, (k + 1) * b)
    ensures (k + 1) * b <= |cores| * b
  {
    var p :| IsPath(cores[..k], p, 0, r) && Cost(cores[..k], p) == e.cost;
    CostBounded(cores[..k], p, k, b);
    assert EdgesWithin(cores[k], b);
    StepBudget(k, |cores|, b);
  }

  lemma StepBudget(k: nat, n: nat, b: int)
    requires k < n && b >= 0
    ensures (k + 1) * b == k * b + b && (k + 1) * b <= n * b
  {
    assert (n - k - 1) * b >= 0;
    assert n * b == (k + 1) * b + (n - k - 1) * b;
  }

  /** `widest` bounds no more than the entry bound allows: at most one entry a core. */
  ghost predicate InBudget(cores: seq<Core>, widest: nat) {
    forall b: nat :: Bounded(cores, b) ==> widest <= |cores| * b
  }

  ghost function Wider(widest: nat, candidate: int): nat {
    if candidate > widest then candidate else if -candidate > widest then -candidate else widest
  }

  /** Every candidate formed while the sweep goes from `cores` to one core more. */
  lemma CandidateInBudget(cores: seq<Core>, costs: seq<Entry>, core: Core, bit: bool, r: nat, j: nat, widest: nat)
    requires CoreOk(core) && |costs| == core.leftRank && SweepOk(cores, costs)
    requires r < core.leftRank && j < core.rightRank && costs[r].supported && InBudget(cores + [core], widest)
    ensures InBudget(cores + [core], Wider(widest, costs[r].cost + Edge(core, bit, r, j).cost))
  {
    var all, k := cores + [core], |cores|;
    assert all[..k] == cores && all[k] == core;
    forall b: nat | Bounded(all, b) ensures Wider(widest, costs[r].cost + Edge(core, bit, r, j).cost) <= |all| * b {
      CandidateInRange(all, k, r, costs[r], bit, j, b);
    }
  }

  /** What is in budget for a prefix is in budget for the whole. */
  lemma PrefixBudget(all: seq<Core>, k: nat, widest: nat)
    requires k <= |all| && InBudget(all[..k], widest)
    ensures InBudget(all, widest)
  {
    forall b: nat | Bounded(all, b) ensures widest <= |all| * b {
      forall i | 0 <= i < k ensures EdgesWithin(all[..k][i], b) { assert EdgesWithin(all[i], b); }
      assert Bounded(all[..k], b);
      RowInside(0, 1, b);
      assert (|all| - k) * b >= 0;
      assert |all| * b == k * b + (|all| - k) * b;
    }
  }

  // ---------------------------------------------------------------- the Viterbi sweep

  /** Best candidate into `following` over the first `upto` previous ranks of one bit. */
  function Relaxed(acc: Entry, costs: seq<Entry>, c: Core, bit: bool, following: nat, upto: nat): Entry
    requires CoreOk(c) && |costs| == c.leftRank && following < c.rightRank && upto <= c.leftRank
  {
    if upto == 0 then acc
    else Better(Relaxed(acc, costs, c, bit, following, upto - 1),
      Plus(costs[upto - 1], Edge(c, bit, upto - 1, following)))
  }

  lemma {:induction false} RelaxedLeast(acc: Entry, costs: seq<Entry>, c: Core, bit: bool, following: nat, upto: nat)
    requires CoreOk(c) && |costs| == c.leftRank && following < c.rightRank && upto <= c.leftRank
    ensures var e := Relaxed(acc, costs, c, bit, following, upto);
      && AtMost(e, acc)
      && (forall p :: 0 <= p < upto ==> AtMost(e, Plus(costs[p], Edge(c, bit, p, following))))
      && (e == acc || exists p :: 0 <= p < upto && e == Plus(costs[p], Edge(c, bit, p, following)))
  {
    if upto > 0 { RelaxedLeast(acc, costs, c, bit, following, upto - 1); }
  }

  ghost function Into(c: Core, following: nat): (column: seq<Entry>)
    requires CoreOk(c) && following < c.rightRank
    ensures |column| == c.leftRank
  {
    seq(c.leftRank, p requires 0 <= p < c.leftRank => Better(Edge(c, false, p, following), Edge(c, true, p, following)))
  }

  /** One relaxation, bit 0 then bit 1, extends every optimum by one core. */
  lemma RelaxedOptimal(cores: seq<Core>, costs: seq<Entry>, c: Core, following: nat)
    requires CoreOk(c) && |costs| == c.leftRank && following < c.rightRank && SweepOk(cores, costs)
    ensures Optimal(cores + [c], 0, following,
      Relaxed(Relaxed(MISSING, costs, c, false, following, c.leftRank), costs, c, true, following, c.leftRank))
  {
    var zero := Relaxed(MISSING, costs, c, false, following, c.leftRank);
    var e := Relaxed(zero, costs, c, true, following, c.leftRank);
    var column := Into(c, following);
    RelaxedLeast(MISSING, costs, c, false, following, c.leftRank);
    RelaxedLeast(zero, costs, c, true, following, c.leftRank);
    forall m | 0 <= m < |costs| ensures Optimal(cores, 0, m, costs[m]) && Optimal([c], m, following, column[m]) {
      CoreOptimal(c, m, following);
    }
    forall m | 0 <= m < |costs| ensures AtMost(e, Plus(costs[m], column[m])) {
      assert AtMost(zero, Plus(costs[m], Edge(c, false, m, following)));
      assert AtMost(e, Plus(costs[m], Edge(c, true, m, following)));
    }
    if e.supported {
      RelaxedAttained(costs, c, following, e);
    }
    forall r | IsPath(cores + [c], r, 0, following) ensures r.ranks[|cores|] < |costs| {
      assert (cores + [c])[|cores|] == c;
    }
    ComposeOptimal(cores, [c], 0, following, costs, column, e);
  }

  lemma RelaxedAttained(costs: seq<Entry>, c: Core, following: nat, e: Entry)
    requires CoreOk(c) && |costs| == c.leftRank && following < c.rightRank && e.supported
    requires exists bit, p :: 0 <= p < c.leftRank && e == Plus(costs[p], Edge(c, bit, p, following))
    requires forall bit, p :: 0 <= p < c.leftRank ==> AtMost(e, Plus(costs[p], Edge(c, bit, p, following)))
    ensures exists m :: 0 <= m < |costs| && Plus(costs[m], Into(c, following)[m]) == e
  {
    var bit, p :| 0 <= p < c.leftRank && e == Plus(costs[p], Edge(c, bit, p, following));
    assert AtMost(e, Plus(costs[p], Edge(c, !bit, p, following)));
    assert Plus(costs[p], Into(c, following)[p]) == e;
  }

  function RelaxedBoth(costs: seq<Entry>, c: Core, following: nat): Entry
    requires CoreOk(c) && |costs| == c.leftRank && following < c.rightRank
  {
    Relaxed(Relaxed(MISSING, costs, c, false, following, c.leftRank), costs, c, true, following, c.leftRank)
  }

  ghost predicate Plain(e: Entry) { e.supported || e == MISSING }

  lemma {:induction false} RelaxedPlain(acc: Entry, costs: seq<Entry>, c: Core, bit: bool, following: nat, upto: nat)
    requires CoreOk(c) && |costs| == c.leftRank && following < c.rightRank && upto <= c.leftRank && Plain(acc)
    ensures Plain(Relaxed(acc, costs, c, bit, following, upto))
  {
    if upto > 0 { RelaxedPlain(acc, costs, c, bit, following, upto - 1); }
  }

  /** One bit's pass over the previous ranks, into one following rank. */
  method Relax(ghost cores: seq<Core>, costs: array<Entry>, next: array<Entry>, core: Core, bit: bool, following: nat,
    ghost peak: nat)
    returns (ghost widest: nat)
    requires CoreOk(core) && costs.Length == core.leftRank && next.Length == core.rightRank && following < next.Length
    requires next != costs
    requires SweepOk(cores, costs[..]) && InBudget(cores + [core], peak) && Within(next[following].cost, peak)
    modifies next
    ensures next[..] ==
      old(next[..])[following := Relaxed(old(next[following]), costs[..], core, bit, following, core.leftRank)]
    ensures InBudget(cores + [core], widest) && Within(next[following].cost, widest) && peak <= widest
  {
    widest := peak;
    var matrix := if bit then core.one else core.zero;
    for previous := 0 to core.leftRank
      invariant next[..] ==
        old(next[..])[following := Relaxed(old(next[following]), costs[..], core, bit, following, previous)]
      invariant InBudget(cores + [core], widest) && Within(next[following].cost, widest) && peak <= widest
    {
      var edge := Cell(matrix, core.leftRank, core.rightRank, previous, following);
      assert edge == Edge(core, bit, previous, following) && costs[..][previous] == costs[previous];
      if costs[previous].supported && edge.supported {
        var candidate := costs[previous].cost + edge.cost;
        CandidateInBudget(cores, costs[..], core, bit, previous, following, widest);
        widest := Wider(widest, candidate);
        if !next[following].supported || candidate < next[following].cost {
          next[following] := Entry(candidate, true);
        }
      }
    }
  }

  /** One core of the sweep: `next` is filled column by column, bit 0 before bit 1.
      `widest` is the largest magnitude of any sum the loops form. */
  method Advance(ghost cores: seq<Core>, costs: array<Entry>, core: Core)
    returns (next: array<Entry>, ghost widest: nat)
    requires CoreOk(core) && costs.Length == core.leftRank && SweepOk(cores, costs[..])
    ensures fresh(next) && next.Length == core.rightRank && SweepOk(cores + [core], next[..])
    ensures forall r :: 0 <= r < next.Length ==> Plain(next[r])
    ensures InBudget(cores + [core], widest) && forall r :: 0 <= r < next.Length ==> Within(next[r].cost, widest)
  {
    widest := 0;
    NothingInBudget(cores + [core]);
    next := new Entry[core.rightRank](_ => MISSING);
    for following := 0 to core.rightRank
      invariant forall f :: 0 <= f < following ==> next[f] == RelaxedBoth(costs[..], core, f)
      invariant forall f :: following <= f < next.Length ==> next[f] == MISSING
      invariant InBudget(cores + [core], widest) && forall f :: 0 <= f < next.Length ==> Within(next[f].cost, widest)
    {
      widest := Relax(cores, costs, next, core, false, following, widest);
      widest := Relax(cores, costs, next, core, true, following, widest);
    }
    forall r | 0 <= r < next.Length ensures Optimal(cores + [core], 0, r, next[r]) && Plain(next[r]) {
      RelaxedOptimal(cores, costs[..], core, r);
      RelaxedPlain(MISSING, costs[..], core, false, r, core.leftRank);
      RelaxedPlain(Relaxed(MISSING, costs[..], core, false, r, core.leftRank), costs[..], core, true, r, core.leftRank);
    }
  }

  lemma NothingInBudget(cores: seq<Core>)
    ensures InBudget(cores, 0)
  {
    forall b: nat | Bounded(cores, b) ensures 0 <= |cores| * b { assert |cores| * b >= 0; }
  }

  /** The state with one core replaced (no core, when the index is out of range). */
  function Overridden(cores: seq<Core>, index: nat, replacement: Core): (all: seq<Core>)
    ensures |all| == |cores|
  {
    if index < |cores| then cores[index := replacement] else cores
  }

  lemma StartOptimal()
    ensures Optimal([], 0, 0, Entry(0, true))
  {
    var p := Path([], [0]);
    assert IsPath([], p, 0, 0) && Cost([], p) == 0;
    assert forall q :: IsPath([], q, 0, 0) ==> Cost([], q) == 0;
  }

  /** The least cost over every bit string and every rank path; 0 when the override has
      left no supported path.  No sum formed on the way exceeds n times the entry bound. */
  method DirectViterbiOverride(cores: seq<Core>, replacementIndex: nat, replacement: Core)
    returns (energy: int, ghost widest: nat)
    requires State(Overridden(cores, replacementIndex, replacement))
    ensures var all := Overridden(cores, replacementIndex, replacement);
      && (Optimal(all, 0, 0, Entry(energy, true)) <==> Feasible(all))
      && (!Feasible(all) ==> energy == 0)
      && InBudget(all, widest) && Within(energy, widest)
  {
    ghost var all := Overridden(cores, replacementIndex, replacement);
    var costs := new Entry[1](_ => Entry(0, true));
    widest := 0;
    StartOptimal();
    NothingInBudget(all);
    assert all[..0] == [];
    for index := 0 to |cores|
      invariant costs.Length == (if index == 0 then 1 else all[index - 1].rightRank)
      invariant SweepOk(all[..index], costs[..]) && InBudget(all, widest)
      invariant forall r :: 0 <= r < costs.Length ==> Plain(costs[r]) && Within(costs[r].cost, widest)
    {
      var core := if index == replacementIndex then replacement else cores[index];
      assert core == all[index] && CoreOk(all[index]) && costs.Length == core.leftRank;
      assert all[..index + 1] == all[..index] + [core];
      ghost var w;
      costs, w := Advance(all[..index], costs, core);
      PrefixBudget(all, index + 1, w);
      widest := if w > widest then w else widest;
    }
    assert all[..|cores|] == all;
    assert Optimal(all, 0, 0, costs[..][0]);
    energy := costs[0].cost;
    OptimalFeasible(all, costs[0]);
    if Optimal(all, 0, 0, Entry(energy, true)) { OptimalFeasible(all, Entry(energy, true)); }
  }

  /** A feasible state and a replacement of the same ranks after which the returned 0 is
      no path's cost: the override removed all support. */
  lemma OverrideCanLoseSupport(cores: seq<Core>, replacement: Core)
    requires cores == [Core(1, 1, [Entry(5, true)], [Entry(7, true)])]
    requires replacement == Core(1, 1, [MISSING], [MISSING])
    ensures State(cores) && Feasible(cores) && State(Overridden(cores, 0, replacement))
    ensures !Feasible(Overridden(cores, 0, replacement))
    ensures !Optimal(Overridden(cores, 0, replacement), 0, 0, Entry(0, true))
  {
    var p, all := Path([false], [0, 0]), Overridden(cores, 0, replacement);
    assert StepEntry(cores, p, 0) == Entry(5, true);
    assert IsPath(cores, p, 0, 0);
    assert Attained(cores, 0, 0, Cost(cores, p));
    forall q | InShape(all, q) ensures !AllSupported(all, q) { assert StepEntry(all, q, 0) == MISSING; }
  }

  // ---------------------------------------------------------------- perturbing a core

  function Bumped(e: Entry, row: nat, column: nat, delta: int, seed: nat): Entry {
    if e.supported then e.(cost := e.cost + delta + (row + 3 * column + seed) % 5) else e
  }

  ghost predicate PerturbedCell(source: Core, result: Core, bit: bool, delta: int, seed: nat, i: nat, j: nat)
    requires CoreOk(source) && CoreOk(result) && i < source.leftRank && j < source.rightRank
    requires result.leftRank == source.leftRank && result.rightRank == source.rightRank
  {
    && Edge(result, !bit, i, j) == Edge(source, !bit, i, j)
    && Edge(result, bit, i, j) == Bumped(Edge(source, bit, i, j), i, j, delta, seed)
  }

  ghost predicate Perturbed(source: Core, result: Core, bit: bool, delta: int, seed: nat) {
    && CoreOk(source) && CoreOk(result)
    && result.leftRank == source.leftRank && result.rightRank == source.rightRank
    && (forall i, j :: 0 <= i < source.leftRank && 0 <= j < source.rightRank ==>
          PerturbedCell(source, result, bit, delta, seed, i, j))
  }

  lemma FlatIndex(row: nat, column: nat, columns: nat)
    requires column < columns
    ensures (row * columns + column) / columns == row && (row * columns + column) % columns == column
    ensures (row + 1) * columns == row * columns + columns
  {
    RemainderUnique(row * columns + column, columns, row, column);
    assert (row + 1) * columns == row * columns + columns;
  }

  /** Entry by entry: the support stays, and a supported cost grows by delta and its
      position's offset. */
  ghost predicate Edited(was: seq<Entry>, now: seq<Entry>, columns: nat, delta: int, seed: nat) {
    columns > 0 && |now| == |was| && forall k :: 0 <= k < |was| ==>
      now[k].supported == was[k].supported && now[k].cost == was[k].cost +
        if was[k].supported then delta + (k / columns + 3 * (k % columns) + seed) % 5 else 0
  }

  lemma EditedIsPerturbed(source: Core, core: Core, bit: bool, delta: int, seed: nat)
    requires CoreOk(source) && core == if bit then source.(one := core.one) else source.(zero := core.zero)
    requires Edited(if bit then source.one else source.zero, if bit then core.one else core.zero, source.rightRank,
      delta, seed)
    ensures Perturbed(source, core, bit, delta, seed)
  {
    forall i, j | 0 <= i < source.leftRank && 0 <= j < source.rightRank
      ensures PerturbedCell(source, core, bit, delta, seed, i, j)
    {
      CellInside(i, j, source.leftRank, source.rightRank);
      FlatIndex(i, j, source.rightRank);
    }
  }

  /** The first m entries, in row-major order, are bumped. */
  ghost predicate Swept(was: seq<Entry>, now: seq<Entry>, columns: nat, m: nat, delta: int, seed: nat) {
    columns > 0 && |now| == |was| && forall k :: 0 <= k < |was| ==>
      now[k] == if k < m then Bumped(was[k], k / columns, k % columns, delta, seed) else was[k]
  }

  lemma SweepOne(was: seq<Entry>, now: seq<Entry>, next: seq<Entry>, columns: nat, row: nat, column: nat, m: nat,
    delta: int, seed: nat)
    requires column < columns && m == row * columns + column && m < |was| && Swept(was, now, columns, m, delta, seed)
    requires next == now[m := Bumped(was[m], row, column, delta, seed)]
    ensures now[m] == was[m] && Swept(was, next, columns, m + 1, delta, seed)
  {
    FlatIndex(row, column, columns);
  }

  lemma SweptAll(was: seq<Entry>, now: seq<Entry>, columns: nat, delta: int, seed: nat)
    requires Swept(was, now, columns, |was|, delta, seed)
    ensures Edited(was, now, columns, delta, seed)
  {
  }

  /** Only the matrix of the chosen bit changes, and in it only supported entries. */
  method Perturb(source: Core, bit: bool, delta: int, seed: nat) returns (core: Core)
    requires CoreOk(source)
    ensures core == if bit then source.(one := core.one) else source.(zero := core.zero)
    ensures Edited(if bit then source.one else source.zero, if bit then core.one else core.zero, source.rightRank,
      delta, seed)
    ensures Perturbed(source, core, bit, delta, seed)
  {
    var original := if bit then source.one else source.zero;
    var matrix := new Entry[|original|](k requires 0 <= k < |original| => original[k]);
    var columns := source.rightRank;
    for row := 0 to source.leftRank
      invariant Swept(original, matrix[..], columns, row * columns, delta, seed)
    {
      for column := 0 to columns
        invariant Swept(original, matrix[..], columns, row * columns + column, delta, seed)
      {
        CellInside(row, column, source.leftRank, columns);
        ghost var before := matrix[..];
        ghost var m := row * columns + column;
        SweepOne(original, before, before[m := Bumped(original[m], row, column, delta, seed)], columns, row, column, m,
          delta, seed);
        var entry := matrix[row * columns + column];
        if entry.supported {
          matrix[row * columns + column] := entry.(cost := entry.cost + delta + (row + 3 * column + seed) % 5);
        }
        assert matrix[..] == before[m := Bumped(original[m], row, column, delta, seed)];
      }
      FlatIndex(row, 0, columns);
    }
    SweptAll(original, matrix[..], columns, delta, seed);
    core := if bit then source.(one := matrix[..]) else source.(zero := matrix[..]);
    EditedIsPerturbed(source, core, bit, delta, seed);
  }

  lemma {:induction false} PerturbedCost(cores: seq<Core>, k: nat, result: Core, bit: bool, delta: nat, seed: nat,
    p: Path, n: nat)
    requires k < |cores| && Perturbed(cores[k], result, bit, delta, seed) && n <= |cores|
    requires InShape(cores, p) && InShape(cores[k := result], p)
    ensures CostTo(cores, p, n) <= CostTo(cores[k := result], p, n)
    ensures AllSupported(cores, p) ==>
      CostTo(cores[k := result], p, n) <= CostTo(cores, p, n) + (if k < n then delta + 4 else 0)
  {
    if n > 0 {
      PerturbedCost(cores, k, result, bit, delta, seed, p, n - 1);
      PerturbedStep(cores, k, result, bit, delta, seed, p, n - 1);
    }
  }

  lemma PerturbedStep(cores: seq<Core>, k: nat, result: Core, bit: bool, delta: nat, seed: nat, p: Path, t: nat)
    requires k < |cores| && Perturbed(cores[k], result, bit, delta, seed) && t < |cores|
    requires InShape(cores, p) && InShape(cores[k := result], p)
    ensures var a, b := StepEntry(cores, p, t), StepEntry(cores[k := result], p, t);
      a.supported == b.supported && a.cost <= b.cost <= a.cost + (if t == k then delta + 4 else 0)
  {
    if t == k {
      assert PerturbedCell(cores[k], result, bit, delta, seed, p.ranks[t], p.ranks[t + 1]);
    }
  }

  lemma PerturbedPaths(cores: seq<Core>, k: nat, result: Core, bit: bool, delta: nat, seed: nat, p: Path, i: nat,
    j: nat)
    requires k < |cores| && Perturbed(cores[k], result, bit, delta, seed)
    ensures IsPath(cores, p, i, j) <==> IsPath(cores[k := result], p, i, j)
  {
    PerturbedShape(cores, k, result, p);
    if InShape(cores, p) { PerturbedSupport(cores, k, result, bit, delta, seed, p); }
  }

  lemma PerturbedSupport(cores: seq<Core>, k: nat, result: Core, bit: bool, delta: nat, seed: nat, p: Path)
    requires k < |cores| && Perturbed(cores[k], result, bit, delta, seed)
    requires InShape(cores, p) && InShape(cores[k := result], p)
    ensures AllSupported(cores, p) <==> AllSupported(cores[k := result], p)
  {
    var now := cores[k := result];
    if AllSupported(cores, p) {
      forall t | 0 <= t < |now| ensures StepEntry(now, p, t).supported {
        PerturbedStep(cores, k, result, bit, delta, seed, p, t);
      }
    }
    if AllSupported(now, p) {
      forall t | 0 <= t < |cores| ensures StepEntry(cores, p, t).supported {
        PerturbedStep(cores, k, result, bit, delta, seed, p, t);
      }
    }
  }

  lemma PerturbedShape(cores: seq<Core>, k: nat, result: Core, p: Path)
    requires k < |cores| && CoreOk(cores[k]) && CoreOk(result)
    requires result.leftRank == cores[k].leftRank && result.rightRank == cores[k].rightRank
    ensures InShape(cores, p) <==> InShape(cores[k := result], p)
  {
    var now := cores[k := result];
    forall t | 0 <= t < |cores| ensures SameShape(cores[t], now[t]) && SameShape(now[t], cores[t]) {}
    if InShape(cores, p) { ShapeTransfer(cores, now, p); }
    if InShape(now, p) { ShapeTransfer(now, cores, p); }
  }

  ghost predicate SameShape(a: Core, b: Core) {
    (CoreOk(a) ==> CoreOk(b)) && a.leftRank == b.leftRank && a.rightRank == b.rightRank
  }

  lemma ShapeTransfer(a: seq<Core>, b: seq<Core>, p: Path)
    requires |a| == |b| && InShape(a, p) && forall t :: 0 <= t < |a| ==> SameShape(a[t], b[t])
    ensures InShape(b, p)
  {
  }

  /** Perturbing one core by a non-negative delta keeps which boundary pairs are
      supported and moves the minimum up by at most delta + 4. */
  lemma PerturbMovesMinimum(cores: seq<Core>, k: nat, result: Core, bit: bool, delta: nat, seed: nat, i: nat, j: nat,
    e: Entry, f: Entry)
    requires k < |cores| && Perturbed(cores[k], result, bit, delta, seed)
    requires Optimal(cores, i, j, e) && Optimal(cores[k := result], i, j, f)
    ensures e.supported == f.supported
    ensures e.supported ==> e.cost <= f.cost <= e.cost + delta + 4
  {
    var now := cores[k := result];
    if e.supported {
      var p :| IsPath(cores, p, i, j) && Cost(cores, p) == e.cost;
      PerturbedPaths(cores, k, result, bit, delta, seed, p, i, j);
      PerturbedCost(cores, k, result, bit, delta, seed, p, |cores|);
      assert f.supported && f.cost <= Cost(now, p);
    }
    if f.supported {
      var p :| IsPath(now, p, i, j) && Cost(now, p) == f.cost;
      PerturbedPaths(cores, k, result, bit, delta, seed, p, i, j);
      PerturbedCost(cores, k, result, bit, delta, seed, p, |cores|);
      assert e.supported && e.cost <= Cost(cores, p);
    }
  }
}
