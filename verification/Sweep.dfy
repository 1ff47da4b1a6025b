/** The parallel parameter sweep: any number of lanes draw points from an atomic
    ticket counter, write their own slice of the result buffer, and record the
    first failure under a mutex.  Every interleaving of the lanes' atomic steps
    is a run.  A relaxed load of the stop flag may return a stale `false`. */
module Sweep {
  import opened Circuits
  import opened ComplexNumbers
  import opened Layout

  datatype Templated = Templated(operation: Operation, slot: int)

  datatype Evaluation = Value(value: Complex) | Failed(error: string)

  /** Outcome of a step that only succeeds or throws. */
  datatype Rebound = Ready | Threw(error: string)

  /** The template's own parameter, or the sweep's when a slot is assigned. */
  function BoundOperation(t: Templated, parameters: seq<Parameter>): Operation
    requires t.slot < |parameters|
  {
    if t.slot >= 0 then t.operation.(parameter := parameters[t.slot]) else t.operation
  }

  function Bound(ts: seq<Templated>, parameters: seq<Parameter>): (bound: seq<Operation>)
    requires forall i :: 0 <= i < |ts| ==> ts[i].slot < |parameters|
  {
    seq(|ts|, i requires 0 <= i < |ts| => BoundOperation(ts[i], parameters))
  }

  method BindOperations(ts: seq<Templated>, parameters: seq<Parameter>) returns (bound: seq<Operation>)
    requires forall i :: 0 <= i < |ts| ==> ts[i].slot < |parameters|
    ensures bound == Bound(ts, parameters)
    ensures |bound| == |ts|
    ensures forall k :: 0 <= k < |ts| && ts[k].slot >= 0 ==> bound[k].parameter == parameters[ts[k].slot]
    ensures forall k :: 0 <= k < |ts| && ts[k].slot < 0 ==> bound[k] == ts[k].operation
    ensures forall k :: 0 <= k < |ts| ==> bound[k] == ts[k].operation.(parameter := bound[k].parameter)
  {
    bound := [];
    for i := 0 to |ts|
      invariant |bound| == i && forall k :: 0 <= k < i ==> bound[k] == BoundOperation(ts[k], parameters)
    {
      var operation := ts[i].operation;
      if ts[i].slot >= 0 {
        operation := operation.(parameter := parameters[ts[i].slot]);
      }
      bound := bound + [operation];
    }
  }

  /** A fixed workload.  The estimation engine is two functions of the bound circuit:
      whether rebinding throws, and the value (or exception) of each observable. */
  datatype Job = Job(
    templates: seq<Templated>,
    parameters: seq<Parameter>,
    parameterCount: nat,
    points: nat,
    observables: nat,
    rebind: seq<Operation> -> Rebound,
    expectation: (seq<Operation>, nat) -> Evaluation)
  {
    ghost predicate Valid() {
      && |parameters| == points * parameterCount
      && forall i :: 0 <= i < |templates| ==> templates[i].slot < parameterCount
    }

    function Circuit(p: nat): seq<Operation>
      requires Valid() && p < points
    {
      RowInside(p, points, parameterCount);
      Bound(templates, parameters[p * parameterCount..p * parameterCount + parameterCount])
    }

    /** Sequential evaluation of one point: the first error it meets, if any. */
    function FirstFailure(p: nat, k: nat): Rebound
      requires Valid() && p < points && k <= observables
      decreases k
    {
      if k == 0 then rebind(Circuit(p))
      else
        var before := FirstFailure(p, k - 1);
        if before.Threw? then before
        else match expectation(Circuit(p), k - 1) { case Value(_) => Ready case Failed(e) => Threw(e) }
    }

    predicate Succeeds(p: nat)
      requires Valid() && p < points
    {
      FirstFailure(p, observables).Ready?
    }
  }

  // ---------------------------------------------------------------- what a slot selects

  ghost predicate Assigned(ts: seq<Templated>, count: nat) {
    forall k :: 0 <= k < |ts| ==> ts[k].slot < count
  }

  /** Two parameter lists that differ exactly at index j bind to circuits that differ in
      exactly the operations assigned slot j. */
  lemma SlotDecides(ts: seq<Templated>, p: seq<Parameter>, q: seq<Parameter>, j: nat)
    requires |p| == |q| && j < |p| && Assigned(ts, |p|) && p[j] != q[j]
    requires forall i :: 0 <= i < |p| && i != j ==> p[i] == q[i]
    ensures |Bound(ts, p)| == |Bound(ts, q)| == |ts|
    ensures forall k :: 0 <= k < |ts| ==> (Bound(ts, p)[k] != Bound(ts, q)[k] <==> ts[k].slot == j)
  {
  }

  /** Operation k of point p's circuit reads its own slot in row p of the parameters,
      and is the template's otherwise. */
  lemma CircuitReadsRow(job: Job, p: nat, k: nat)
    requires job.Valid() && p < job.points && k < |job.templates|
    ensures |job.Circuit(p)| == |job.templates|
    ensures var t, j := job.templates[k], job.templates[k].slot;
      && job.Circuit(p)[k] == t.operation.(parameter := job.Circuit(p)[k].parameter)
      && (j < 0 ==> job.Circuit(p)[k] == t.operation)
      && (j >= 0 ==> 0 <= p * job.parameterCount + j < |job.parameters|)
      && (j >= 0 ==> job.Circuit(p)[k].parameter == job.parameters[p * job.parameterCount + j])
  {
    RowInside(p, job.points, job.parameterCount);
  }

  /** No other row of the parameters matters to point p. */
  lemma CircuitIgnoresOtherRows(job: Job, parameters: seq<Parameter>, p: nat)
    requires job.Valid() && p < job.points && |parameters| == |job.parameters|
    requires forall i :: 0 <= i < |parameters| && p * job.parameterCount <= i < (p + 1) * job.parameterCount ==>
      parameters[i] == job.parameters[i]
    ensures job.(parameters := parameters).Valid() && job.(parameters := parameters).Circuit(p) == job.Circuit(p)
  {
    var other, width := job.(parameters := parameters), job.parameterCount;
    RowInside(p, job.points, width);
    assert (p + 1) * width == p * width + width;
    assert parameters[p * width..p * width + width] == job.parameters[p * width..p * width + width];
  }

  // ---------------------------------------------------------------- states and steps

  /** Where a lane stands.  Waiting, Holding and Raising are the catch block:
      acquire the mutex, record and release it, then raise the stop flag. */
  datatype Lane =
    | Polling
    | Claiming
    | Binding(point: nat)
    | Writing(point: nat, done: nat)
    | Waiting(point: nat, error: string)
    | Holding(point: nat, error: string)
    | Raising
    | Exited

  datatype State = State(
    next: nat,
    stop: bool,
    mutexFree: bool,
    firstError: seq<string>,
    lanes: seq<Lane>,
    values: map<nat, Complex>)

  function Initial(laneCount: nat): State {
    State(0, false, true, [], seq(laneCount, _ => Polling), map[])
  }

  /** Lane `lane` moves; `seen` is what its relaxed load of the stop flag returned. */
  datatype Choice = Choice(lane: nat, seen: bool)

  predicate Enabled(s: State, c: Choice) {
    && c.lane < |s.lanes|
    && match s.lanes[c.lane] {
         case Polling => c.seen ==> s.stop
         case Waiting(_, _) => s.mutexFree
         case Exited => false
         case _ => true
       }
  }

  function Step(job: Job, s: State, c: Choice): State
    requires job.Valid() && InRange(job, s) && Enabled(s, c)
  {
    var at := (to: Lane) => s.(lanes := s.lanes[c.lane := to]);
    match s.lanes[c.lane]
    case Polling => at(if c.seen then Exited else Claiming)
    case Claiming => at(if s.next >= job.points then Exited else Binding(s.next)).(next := s.next + 1)
    case Binding(p) =>
      (match job.rebind(job.Circuit(p))
       case Ready => at(Writing(p, 0))
       case Threw(e) => at(Waiting(p, e)))
    case Writing(p, k) =>
      if k == job.observables then at(Polling)
      else
        (match job.expectation(job.Circuit(p), k)
         case Value(v) => at(Writing(p, k + 1)).(values := s.values[p * job.observables + k := v])
         case Failed(e) => at(Waiting(p, e)))
    case Waiting(p, e) => at(Holding(p, e)).(mutexFree := false)
    case Holding(_, e) =>
      at(Raising).(mutexFree := true, firstError := if s.firstError == [] then [e] else s.firstError)
    case Raising => at(Exited).(stop := true)
  }

  /** The points that have left the counter and belong to a lane's current work. */
  predicate Owns(l: Lane, p: nat) {
    match l
    case Binding(q) => p == q
    case Writing(q, _) => p == q
    case Waiting(q, _) => p == q
    case Holding(q, _) => p == q
    case _ => false
  }

  predicate InRange(job: Job, s: State) {
    forall i :: 0 <= i < |s.lanes| ==>
      match s.lanes[i] {
        case Binding(p) => p < job.points
        case Writing(p, k) => p < job.points && k <= job.observables
        case _ => true
      }
  }

  /** A schedule is a list of choices; its run is defined while they are enabled. */
  ghost predicate Run(job: Job, s: State, cs: seq<Choice>, t: State)
    requires job.Valid()
    decreases |cs|
  {
    InRange(job, s) &&
    if cs == [] then t == s
    else Enabled(s, cs[0]) && Run(job, Step(job, s, cs[0]), cs[1..], t)
  }

  // ---------------------------------------------------------------- the invariant

  ghost predicate LaneOk(job: Job, s: State, l: Lane)
    requires job.Valid()
  {
    match l
    case Binding(p) => p < job.points && p < s.next
    case Writing(p, k) =>
      p < job.points && p < s.next && k <= job.observables && job.FirstFailure(p, k).Ready? && Filled(job, s, p, k)
    case Waiting(p, e) => p < job.points && p < s.next && job.FirstFailure(p, job.observables) == Threw(e)
    case Holding(p, e) =>
      p < job.points && p < s.next && job.FirstFailure(p, job.observables) == Threw(e) && !s.mutexFree
    case Raising => s.firstError != []
    case _ => true
  }

  /** The first k cells of point p's slice hold that point's sequential values. */
  ghost predicate Filled(job: Job, s: State, p: nat, k: nat)
    requires job.Valid() && p < job.points && k <= job.observables
  {
    forall i :: 0 <= i < k ==> Cell(job, s, p, i)
  }

  ghost predicate Cell(job: Job, s: State, p: nat, i: nat)
    requires job.Valid() && p < job.points
  {
    p * job.observables + i in s.values &&
    job.expectation(job.Circuit(p), i) == Value(s.values[p * job.observables + i])
  }

  ghost predicate Owned(s: State, p: nat) {
    exists i :: 0 <= i < |s.lanes| && Owns(s.lanes[i], p)
  }

  /** Every claimed point is being worked on, finished with its slice filled, or failed. */
  ghost predicate PointOk(job: Job, s: State, p: nat)
    requires job.Valid() && p < job.points
  {
    || Owned(s, p)
    || (job.Succeeds(p) && Filled(job, s, p, job.observables))
    || s.firstError != []
  }

  ghost predicate ErrorOk(job: Job, s: State)
    requires job.Valid()
  {
    |s.firstError| <= 1 &&
    (s.firstError != [] ==>
      exists p :: 0 <= p < job.points && job.FirstFailure(p, job.observables) == Threw(s.firstError[0]))
  }

  ghost predicate LanesOk(job: Job, s: State)
    requires job.Valid()
  {
    forall i :: 0 <= i < |s.lanes| ==> LaneOk(job, s, s.lanes[i])
  }

  /** No point is owned by two lanes, and the mutex has at most one holder. */
  ghost predicate Exclusive(s: State) {
    && (forall i, j, p :: 0 <= i < j < |s.lanes| && Owns(s.lanes[i], p) ==> !Owns(s.lanes[j], p))
    && (forall i, j :: 0 <= i < j < |s.lanes| && s.lanes[i].Holding? ==> !s.lanes[j].Holding?)
  }

  ghost predicate PointsOk(job: Job, s: State)
    requires job.Valid()
  {
    forall p :: 0 <= p < s.next && p < job.points ==> PointOk(job, s, p)
  }

  ghost predicate FlagsOk(job: Job, s: State)
    requires job.Valid()
  {
    && (!s.mutexFree ==> exists i :: 0 <= i < |s.lanes| && s.lanes[i].Holding?)
    && (forall i :: 0 <= i < |s.lanes| && s.lanes[i].Exited? ==> s.next >= job.points || s.stop)
    && (s.stop ==> s.firstError != [])
    && ErrorOk(job, s)
  }

  ghost predicate CellsInRange(job: Job, s: State) {
    forall a :: a in s.values ==> a < job.points * job.observables
  }

  ghost predicate Inv(job: Job, s: State)
    requires job.Valid()
  {
    LanesOk(job, s) && Exclusive(s) && PointsOk(job, s) && FlagsOk(job, s) && CellsInRange(job, s)
  }

  lemma InvInRange(job: Job, s: State)
    requires job.Valid() && Inv(job, s)
    ensures InRange(job, s)
  {
    forall i | 0 <= i < |s.lanes| ensures LaneOk(job, s, s.lanes[i]) {}
  }

  lemma {:induction false} FailureSticks(job: Job, p: nat, k: nat, m: nat)
    requires job.Valid() && p < job.points && k <= m <= job.observables && job.FirstFailure(p, k).Threw?
    ensures job.FirstFailure(p, m) == job.FirstFailure(p, k)
    decreases m - k
  {
    if k < m { FailureSticks(job, p, k, m - 1); }
  }

  /** A written cell stays written: two lanes never disagree about an address. */
  lemma StepKeepsCell(job: Job, s: State, c: Choice, p: nat, i: nat)
    requires job.Valid() && InRange(job, s) && Enabled(s, c)
    requires p < job.points && i < job.observables && Cell(job, s, p, i)
    ensures Cell(job, Step(job, s, c), p, i)
  {
    match s.lanes[c.lane]
    case Writing(q, k) =>
      if k < job.observables { CellUnique(p, i, q, k, job.observables); }
    case _ =>
  }

  lemma StepKeepsFilled(job: Job, s: State, c: Choice, p: nat, k: nat)
    requires job.Valid() && InRange(job, s) && Enabled(s, c)
    requires p < job.points && k <= job.observables && Filled(job, s, p, k)
    ensures Filled(job, Step(job, s, c), p, k)
  {
    forall i | 0 <= i < k ensures Cell(job, Step(job, s, c), p, i) { StepKeepsCell(job, s, c, p, i); }
  }

  lemma MovingLaneOk(job: Job, s: State, c: Choice)
    requires job.Valid() && InRange(job, s) && Enabled(s, c) && LanesOk(job, s)
    ensures LaneOk(job, Step(job, s, c), Step(job, s, c).lanes[c.lane])
  {
    assert LaneOk(job, s, s.lanes[c.lane]);
    match s.lanes[c.lane]
    case Binding(p) =>
      if job.FirstFailure(p, 0).Threw? { FailureSticks(job, p, 0, job.observables); }
    case Writing(p, k) =>
      StepKeepsFilled(job, s, c, p, k);
      if k < job.observables && job.FirstFailure(p, k + 1).Threw? { FailureSticks(job, p, k + 1, job.observables); }
    case _ =>
  }

  lemma OtherLaneOk(job: Job, s: State, c: Choice, i: nat)
    requires job.Valid() && InRange(job, s) && Enabled(s, c) && LanesOk(job, s) && Exclusive(s)
    requires i < |s.lanes| && i != c.lane
    ensures LaneOk(job, Step(job, s, c), s.lanes[i])
  {
    var t := Step(job, s, c);
    assert LaneOk(job, s, s.lanes[i]);
    assert t.next >= s.next && (s.firstError != [] ==> t.firstError != []);
    match s.lanes[i]
    case Writing(p, k) => StepKeepsFilled(job, s, c, p, k);
    case Holding(p, e) =>
      var a, b := if i < c.lane then i else c.lane, if i < c.lane then c.lane else i;
      assert s.lanes[a].Holding? ==> !s.lanes[b].Holding?;
    case _ =>
  }

  lemma StepOwns(job: Job, s: State, c: Choice, p: nat)
    requires job.Valid() && InRange(job, s) && Enabled(s, c)
    ensures Owns(Step(job, s, c).lanes[c.lane], p) ==>
              Owns(s.lanes[c.lane], p) || (p == s.next && s.lanes[c.lane].Claiming?)
    ensures Step(job, s, c).lanes[c.lane].Holding? ==> s.mutexFree
  {
  }

  lemma LaneOwnsBelowCounter(job: Job, s: State, i: nat, p: nat)
    requires job.Valid() && LanesOk(job, s) && i < |s.lanes|
    ensures Owns(s.lanes[i], p) ==> p < s.next && p < job.points
    ensures s.lanes[i].Holding? ==> !s.mutexFree
  {
    assert LaneOk(job, s, s.lanes[i]);
  }

  lemma StepKeepsExclusion(job: Job, s: State, c: Choice)
    requires job.Valid() && InRange(job, s) && Enabled(s, c) && LanesOk(job, s) && Exclusive(s)
    ensures Exclusive(Step(job, s, c))
  {
    var t := Step(job, s, c);
    forall i, j, p | 0 <= i < j < |t.lanes| && Owns(t.lanes[i], p) ensures !Owns(t.lanes[j], p) {
      assert Owns(s.lanes[i], p) ==> !Owns(s.lanes[j], p);
      if i == c.lane { OwnersStayApart(job, s, c, j, p); }
      if j == c.lane { OwnersStayApart(job, s, c, i, p); }
    }
    forall i, j | 0 <= i < j < |t.lanes| && t.lanes[i].Holding? ensures !t.lanes[j].Holding? {
      assert s.lanes[i].Holding? ==> !s.lanes[j].Holding?;
      if i == c.lane { OwnersStayApart(job, s, c, j, 0); }
      if j == c.lane { OwnersStayApart(job, s, c, i, 0); }
    }
  }

  lemma OwnersStayApart(job: Job, s: State, c: Choice, i: nat, p: nat)
    requires job.Valid() && InRange(job, s) && Enabled(s, c) && LanesOk(job, s)
    requires i < |s.lanes| && i != c.lane && !(Owns(s.lanes[i], p) && Owns(s.lanes[c.lane], p))
    ensures !(Owns(s.lanes[i], p) && Owns(Step(job, s, c).lanes[c.lane], p))
    ensures !(s.lanes[i].Holding? && Step(job, s, c).lanes[c.lane].Holding?)
  {
    StepOwns(job, s, c, p);
    LaneOwnsBelowCounter(job, s, i, p);
  }

  lemma StepKeepsOwned(job: Job, s: State, c: Choice, p: nat)
    requires job.Valid() && InRange(job, s) && Enabled(s, c) && LanesOk(job, s)
    requires p < job.points && Owned(s, p)
    ensures PointOk(job, Step(job, s, c), p)
  {
    var t := Step(job, s, c);
    var l := s.lanes[c.lane];
    var i :| 0 <= i < |s.lanes| && Owns(s.lanes[i], p);
    assert LaneOk(job, s, l);
    if i != c.lane {
      assert Owns(t.lanes[i], p);
    } else if l == Writing(p, job.observables) {
      StepKeepsFilled(job, s, c, p, job.observables);
    } else if !l.Holding? {
      assert Owns(t.lanes[c.lane], p);
    }
  }

  lemma StepKeepsPoint(job: Job, s: State, c: Choice, p: nat)
    requires job.Valid() && InRange(job, s) && Enabled(s, c) && LanesOk(job, s)
    requires p < job.points && p < Step(job, s, c).next && (p < s.next ==> PointOk(job, s, p))
    ensures PointOk(job, Step(job, s, c), p)
  {
    var t := Step(job, s, c);
    if p >= s.next {
      assert Owns(t.lanes[c.lane], p);
    } else if Owned(s, p) {
      StepKeepsOwned(job, s, c, p);
    } else if s.firstError == [] {
      StepKeepsFilled(job, s, c, p, job.observables);
    }
  }

  lemma StepKeepsFlags(job: Job, s: State, c: Choice)
    requires job.Valid() && InRange(job, s) && Enabled(s, c) && LanesOk(job, s) && FlagsOk(job, s)
    ensures var t := Step(job, s, c);
      && (!t.mutexFree ==> exists i :: 0 <= i < |t.lanes| && t.lanes[i].Holding?)
      && (forall i :: 0 <= i < |t.lanes| && t.lanes[i].Exited? ==> t.next >= job.points || t.stop)
      && (t.stop ==> t.firstError != [])
      && ErrorOk(job, t)
  {
    var t := Step(job, s, c);
    assert LaneOk(job, s, s.lanes[c.lane]);
    if !t.mutexFree {
      if s.lanes[c.lane].Waiting? {
        assert t.lanes[c.lane].Holding?;
      } else {
        var i :| 0 <= i < |s.lanes| && s.lanes[i].Holding?;
        assert t.lanes[i].Holding?;
      }
    }
  }

  lemma StepWritesInRange(job: Job, s: State, c: Choice)
    requires job.Valid() && InRange(job, s) && Enabled(s, c) && LanesOk(job, s) && CellsInRange(job, s)
    ensures forall a :: a in Step(job, s, c).values ==> a < job.points * job.observables
  {
    assert LaneOk(job, s, s.lanes[c.lane]);
    match s.lanes[c.lane]
    case Writing(p, k) => RowInside(p, job.points, job.observables);
    case _ =>
  }

  lemma InvStep(job: Job, s: State, c: Choice)
    requires job.Valid() && Inv(job, s) && InRange(job, s) && Enabled(s, c)
    ensures Inv(job, Step(job, s, c))
  {
    var t := Step(job, s, c);
    forall i | 0 <= i < |t.lanes| ensures LaneOk(job, t, t.lanes[i]) {
      if i == c.lane { MovingLaneOk(job, s, c); } else { OtherLaneOk(job, s, c, i); }
    }
    StepKeepsExclusion(job, s, c);
    forall p | 0 <= p < t.next && p < job.points ensures PointOk(job, t, p) { StepKeepsPoint(job, s, c, p); }
    StepKeepsFlags(job, s, c);
    StepWritesInRange(job, s, c);
  }

  lemma {:induction false} InvRun(job: Job, s: State, cs: seq<Choice>, t: State)
    requires job.Valid() && Inv(job, s) && Run(job, s, cs, t)
    ensures Inv(job, t) && |t.lanes| == |s.lanes|
    decreases |cs|
  {
    if cs != [] {
      InvStep(job, s, cs[0]);
      InvRun(job, Step(job, s, cs[0]), cs[1..], t);
    }
  }

  // ---------------------------------------------------------------- theorems over whole runs

  ghost predicate Reachable(job: Job, laneCount: nat, t: State)
    requires job.Valid()
  {
    exists cs :: Run(job, Initial(laneCount), cs, t)
  }

  lemma ReachableInv(job: Job, laneCount: nat, t: State)
    requires job.Valid() && Reachable(job, laneCount, t)
    ensures Inv(job, t) && |t.lanes| == laneCount
  {
    var cs :| Run(job, Initial(laneCount), cs, t);
    InvRun(job, Initial(laneCount), cs, t);
  }

  /** Lanes that are writing at the same time hold different points and write to
      different, in-range cells. */
  lemma WritersNeverCollide(job: Job, laneCount: nat, t: State, i: nat, j: nat)
    requires job.Valid() && Reachable(job, laneCount, t)
    requires i < j < laneCount && |t.lanes| == laneCount && t.lanes[i].Writing? && t.lanes[j].Writing?
    requires t.lanes[i].done < job.observables && t.lanes[j].done < job.observables
    ensures t.lanes[i].point != t.lanes[j].point
    ensures t.lanes[i].point * job.observables + t.lanes[i].done != t.lanes[j].point * job.observables + t.lanes[j].done
    ensures t.lanes[i].point * job.observables + t.lanes[i].done < job.points * job.observables
  {
    ReachableInv(job, laneCount, t);
    assert LaneOk(job, t, t.lanes[i]);
    assert Owns(t.lanes[i], t.lanes[i].point) ==> !Owns(t.lanes[j], t.lanes[i].point);
    CellUnique(t.lanes[i].point, t.lanes[i].done, t.lanes[j].point, t.lanes[j].done, job.observables);
    RowInside(t.lanes[i].point, job.points, job.observables);
  }

  ghost predicate Joined(s: State) {
    s.lanes != [] && forall i :: 0 <= i < |s.lanes| ==> s.lanes[i].Exited?
  }

  /** After the join the outcome does not depend on the schedule: either every
      point's slice is its sequential evaluation, or some point fails and the
      rethrown error is the one sequential evaluation of such a point raises. */
  lemma JoinedOutcome(job: Job, laneCount: nat, t: State)
    requires job.Valid() && Reachable(job, laneCount, t) && Joined(t)
    ensures t.firstError == [] <==> forall p :: 0 <= p < job.points ==> job.Succeeds(p)
    ensures t.firstError == [] ==>
      forall p :: 0 <= p < job.points ==> Filled(job, t, p, job.observables)
    ensures t.firstError != [] ==>
      exists p :: 0 <= p < job.points && job.FirstFailure(p, job.observables) == Threw(t.firstError[0])
  {
    ReachableInv(job, laneCount, t);
    if t.firstError == [] {
      assert t.lanes[0].Exited?;
      forall p | 0 <= p < job.points ensures job.Succeeds(p) && Filled(job, t, p, job.observables) {
        assert PointOk(job, t, p);
      }
    } else {
      var p :| 0 <= p < job.points && job.FirstFailure(p, job.observables) == Threw(t.firstError[0]);
      assert !job.Succeeds(p);
    }
  }

  /** No deadlock: while some lane has not exited, some lane can move. */
  lemma AlwaysProgress(job: Job, laneCount: nat, t: State)
    requires job.Valid() && Reachable(job, laneCount, t) && laneCount > 0 && !Joined(t)
    ensures InRange(job, t) && exists c :: Enabled(t, c)
  {
    ReachableInv(job, laneCount, t);
    var c := SomeStep(job, t);
  }

  lemma SomeStep(job: Job, t: State) returns (c: Choice)
    requires job.Valid() && Inv(job, t) && t.lanes != [] && !Joined(t)
    ensures InRange(job, t) && Enabled(t, c)
  {
    InvInRange(job, t);
    var i :| 0 <= i < |t.lanes| && !t.lanes[i].Exited?;
    if t.lanes[i].Waiting? && !t.mutexFree {
      var j :| 0 <= j < |t.lanes| && t.lanes[j].Holding?;
      c := Choice(j, false);
    } else {
      c := Choice(i, false);
    }
  }

  // ---------------------------------------------------------------- termination

  function Weight(l: Lane, observables: nat): nat {
    match l
    case Polling => 4
    case Claiming => 3
    case Binding(_) => observables + 7
    case Writing(_, k) => if k <= observables then 6 + observables - k else 5
    case Waiting(_, _) => 3
    case Holding(_, _) => 2
    case Raising => 1
    case Exited => 0
  }

  function Total(lanes: seq<Lane>, observables: nat): nat {
    if lanes == [] then 0 else Total(lanes[..|lanes| - 1], observables) + Weight(lanes[|lanes| - 1], observables)
  }

  lemma {:induction false} TotalUpdate(lanes: seq<Lane>, i: nat, l: Lane, observables: nat)
    requires i < |lanes|
    ensures Total(lanes[i := l], observables) ==
            Total(lanes, observables) - Weight(lanes[i], observables) + Weight(l, observables)
  {
    var n := |lanes| - 1;
    var to := lanes[i := l];
    if i == n {
      assert to[..n] == lanes[..n];
    } else {
      TotalUpdate(lanes[..n], i, l, observables);
      assert to[..n] == lanes[..n][i := l];
    }
  }

  function Unclaimed(job: Job, s: State): nat {
    if s.next < job.points then job.points - s.next else 0
  }

  function Remaining(job: Job, s: State): nat {
    Unclaimed(job, s) * (job.observables + 5) + Total(s.lanes, job.observables)
  }

  /** A step changes its own lane only. */
  lemma OneLaneMoves(job: Job, s: State, c: Choice)
    requires job.Valid() && InRange(job, s) && Enabled(s, c)
    ensures Step(job, s, c).lanes == s.lanes[c.lane := Step(job, s, c).lanes[c.lane]]
  {
    match s.lanes[c.lane]
    case Binding(p) =>
    case Writing(p, k) =>
    case _ =>
  }

  lemma MoveWeight(job: Job, s: State, c: Choice)
    requires job.Valid() && InRange(job, s) && Enabled(s, c)
    ensures Step(job, s, c).lanes == s.lanes[c.lane := Step(job, s, c).lanes[c.lane]]
    ensures var t := Step(job, s, c);
      var before, after := Weight(s.lanes[c.lane], job.observables), Weight(t.lanes[c.lane], job.observables);
      if s.lanes[c.lane].Claiming? && s.next < job.points
      then Unclaimed(job, s) == Unclaimed(job, t) + 1 && after < before + job.observables + 5
      else Unclaimed(job, s) == Unclaimed(job, t) && after < before
  {
  }

  lemma StepDecreases(job: Job, s: State, c: Choice)
    requires job.Valid() && InRange(job, s) && Enabled(s, c)
    ensures Remaining(job, Step(job, s, c)) < Remaining(job, s)
  {
    MoveWeight(job, s, c);
    TotalUpdate(s.lanes, c.lane, Step(job, s, c).lanes[c.lane], job.observables);
    LexicographicDrop(Unclaimed(job, s), Unclaimed(job, Step(job, s, c)), job.observables + 5,
      Total(s.lanes, job.observables), Total(Step(job, s, c).lanes, job.observables));
  }

  lemma LexicographicDrop(u: nat, v: nat, w: nat, a: nat, b: nat)
    requires (u == v && b < a) || (u == v + 1 && b < a + w)
    ensures v * w + b < u * w + a
  {
    assert (v + 1) * w == v * w + w;
  }

  /** Every schedule is finite, so with AlwaysProgress every lane exits. */
  lemma {:induction false} RunsTerminate(job: Job, s: State, cs: seq<Choice>, t: State)
    requires job.Valid() && Run(job, s, cs, t)
    ensures |cs| + Remaining(job, t) <= Remaining(job, s)
    decreases |cs|
  {
    if cs != [] {
      StepDecreases(job, s, cs[0]);
      RunsTerminate(job, Step(job, s, cs[0]), cs[1..], t);
    }
  }

  // ---------------------------------------------------------------- the ticket counter

  function CountLanes(lanes: seq<Lane>, pick: Lane -> bool): (k: nat)
    ensures k <= |lanes|
  {
    if lanes == [] then 0
    else CountLanes(lanes[..|lanes| - 1], pick) + (if pick(lanes[|lanes| - 1]) then 1 else 0)
  }

  lemma {:induction false} CountUpdate(lanes: seq<Lane>, i: nat, l: Lane, pick: Lane -> bool)
    requires i < |lanes|
    ensures CountLanes(lanes[i := l], pick) ==
            CountLanes(lanes, pick) - (if pick(lanes[i]) then 1 else 0) + (if pick(l) then 1 else 0)
  {
    var n := |lanes| - 1;
    var to := lanes[i := l];
    if i == n {
      assert to[..n] == lanes[..n];
    } else {
      CountUpdate(lanes[..n], i, l, pick);
      assert to[..n] == lanes[..n][i := l];
    }
  }

  lemma {:induction false} CountMisses(lanes: seq<Lane>, i: nat, pick: Lane -> bool)
    requires i < |lanes| && !pick(lanes[i])
    ensures CountLanes(lanes, pick) < |lanes|
  {
    if i < |lanes| - 1 { CountMisses(lanes[..|lanes| - 1], i, pick); }
  }

  function IsExited(): Lane -> bool { (l: Lane) => l.Exited? }

  function ExitedCount(lanes: seq<Lane>): (k: nat)
    ensures k <= |lanes|
  {
    CountLanes(lanes, IsExited())
  }

  /** The counter overshoots by at most one ticket per lane, so it never wraps
      while points + lanes fits the machine word. */
  lemma {:induction false} CounterBounded(job: Job, s: State, cs: seq<Choice>, t: State)
    requires job.Valid() && Run(job, s, cs, t) && s.next <= job.points + ExitedCount(s.lanes)
    ensures t.next <= job.points + ExitedCount(t.lanes) <= job.points + |t.lanes|
    decreases |cs|
  {
    if cs != [] {
      var u := Step(job, s, cs[0]);
      CountUpdate(s.lanes, cs[0].lane, u.lanes[cs[0].lane], IsExited());
      CounterBounded(job, u, cs[1..], t);
    }
  }
}
