/** After the stop flag: exactly when some schedule lets one lane finish two more
    points, although the flag was up before the first of them was done. */
module SweepStop {
  import opened Circuits
  import opened ComplexNumbers
  import opened Layout
  import opened Sweep
  import opened SweepRuns

  /** The number of failing points below b. */
  function Fails(job: Job, b: nat): (k: nat)
    requires job.Valid() && b <= job.points
    ensures k <= b
  {
    if b == 0 then 0 else Fails(job, b - 1) + (if job.Succeeds(b - 1) then 0 else 1)
  }

  /** A succeeding point with at least one failing and one succeeding point before it,
      and with fewer failing ones before it than there are lanes. */
  ghost predicate Boundary(job: Job, laneCount: nat, b: nat)
    requires job.Valid()
  {
    b < job.points && job.Succeeds(b) && 1 <= Fails(job, b) < laneCount && Fails(job, b) < b
  }

  /** A whole run, cut where the flag is up, in whose rest lane i finishes two points. */
  ghost predicate TwoAfterStop(job: Job, laneCount: nat, before: seq<Choice>, s: State, after: seq<Choice>, t: State,
    i: nat)
    requires job.Valid()
  {
    && Run(job, Initial(laneCount), before, s) && s.stop && i < laneCount
    && Run(job, s, after, t) && Tally(job, s, after, Finishes(job, i)) >= 2
  }

  lemma {:induction false} FailsMonotone(job: Job, a: nat, b: nat)
    requires job.Valid() && a <= b <= job.points
    ensures Fails(job, a) <= Fails(job, b) <= Fails(job, a) + (b - a)
    decreases b - a
  {
    if a < b { FailsMonotone(job, a, b - 1); }
  }

  // ---------------------------------------------------------------- two finishes need a boundary

  /** How many points have left the counter. */
  function Seen(job: Job, s: State): nat {
    if s.next < job.points then s.next else job.points
  }

  /** The lane has exited or will exit without finishing another point. */
  ghost predicate Doomed(job: Job, l: Lane)
    requires job.Valid()
  {
    match l
    case Polling => false
    case Claiming => false
    case Binding(p) => p < job.points && !job.Succeeds(p)
    case Writing(p, _) => p < job.points && !job.Succeeds(p)
    case _ => true
  }

  ghost function IsDoomed(job: Job): Lane -> bool
    requires job.Valid()
  {
    (l: Lane) => Doomed(job, l)
  }

  /** Every failing point that left the counter took a lane with it, and an error on
      record comes from one of them. */
  ghost predicate Accounted(job: Job, s: State)
    requires job.Valid()
  {
    && Inv(job, s)
    && Fails(job, Seen(job, s)) <= CountLanes(s.lanes, IsDoomed(job))
    && (s.firstError != [] ==> Fails(job, Seen(job, s)) >= 1)
  }

  lemma DoomSticks(job: Job, s: State, c: Choice)
    requires job.Valid() && Inv(job, s) && InRange(job, s) && Enabled(s, c)
    ensures Doomed(job, s.lanes[c.lane]) ==> Doomed(job, Step(job, s, c).lanes[c.lane])
    ensures s.lanes[c.lane].Claiming? && s.next < job.points ==>
      (Doomed(job, Step(job, s, c).lanes[c.lane]) <==> !job.Succeeds(s.next))
  {
    assert LaneOk(job, s, s.lanes[c.lane]);
  }

  /** A lane about to record an error has drawn a failing point. */
  lemma HolderShows(job: Job, s: State, i: nat)
    requires job.Valid() && Inv(job, s) && i < |s.lanes| && s.lanes[i].Holding?
    ensures Fails(job, Seen(job, s)) >= 1
  {
    assert LaneOk(job, s, s.lanes[i]);
    FailsMonotone(job, s.lanes[i].point + 1, Seen(job, s));
  }

  lemma RecordedErrorIsSeen(job: Job, s: State, c: Choice)
    requires job.Valid() && Accounted(job, s) && InRange(job, s) && Enabled(s, c) && Step(job, s, c).firstError != []
    ensures Fails(job, Seen(job, Step(job, s, c))) >= 1
  {
    FailsMonotone(job, Seen(job, s), Seen(job, Step(job, s, c)));
    if s.firstError == [] { HolderShows(job, s, c.lane); }
  }

  /** A step changes the chosen lane only, and a draw inside the job shows one more point. */
  lemma SeenStep(job: Job, s: State, c: Choice, t: State)
    requires job.Valid() && InRange(job, s) && Enabled(s, c) && t == Step(job, s, c)
    ensures |t.lanes| == |s.lanes| && t.lanes == s.lanes[c.lane := t.lanes[c.lane]]
    ensures if s.lanes[c.lane].Claiming? && s.next < job.points
      then Seen(job, s) == s.next && Seen(job, t) == s.next + 1
      else Seen(job, t) == Seen(job, s)
  {
  }

  lemma FailsCovered(job: Job, s: State, c: Choice, t: State)
    requires job.Valid() && Accounted(job, s) && InRange(job, s) && Enabled(s, c) && t == Step(job, s, c)
    ensures Fails(job, Seen(job, t)) <= CountLanes(t.lanes, IsDoomed(job))
  {
    SeenStep(job, s, c, t);
    DoomSticks(job, s, c);
    CountUpdate(s.lanes, c.lane, t.lanes[c.lane], IsDoomed(job));
  }

  lemma AccountedStep(job: Job, s: State, c: Choice)
    requires job.Valid() && Accounted(job, s) && InRange(job, s) && Enabled(s, c)
    ensures Accounted(job, Step(job, s, c))
  {
    InvStep(job, s, c);
    FailsCovered(job, s, c, Step(job, s, c));
    if Step(job, s, c).firstError != [] { RecordedErrorIsSeen(job, s, c); }
  }

  lemma {:induction false} AccountedRun(job: Job, s: State, cs: seq<Choice>, t: State)
    requires job.Valid() && Accounted(job, s) && Run(job, s, cs, t)
    ensures Accounted(job, t)
    decreases |cs|
  {
    if cs != [] {
      AccountedStep(job, s, cs[0]);
      AccountedRun(job, Step(job, s, cs[0]), cs[1..], t);
    }
  }

  lemma DoomedStep(job: Job, s: State, c: Choice, i: nat)
    requires job.Valid() && Inv(job, s) && InRange(job, s) && Enabled(s, c) && i < |s.lanes| && Doomed(job, s.lanes[i])
    ensures Inv(job, Step(job, s, c)) && |Step(job, s, c).lanes| == |s.lanes|
    ensures Doomed(job, Step(job, s, c).lanes[i]) && !Finishes(job, i)(s, c)
  {
    InvStep(job, s, c);
    DoomSticks(job, s, c);
    assert LaneOk(job, s, s.lanes[i]);
  }

  /** A doomed lane finishes nothing. */
  lemma {:induction false} DoomedFinishesNothing(job: Job, s: State, cs: seq<Choice>, t: State, i: nat)
    requires job.Valid() && Inv(job, s) && Run(job, s, cs, t) && i < |s.lanes| && Doomed(job, s.lanes[i])
    ensures Tally(job, s, cs, Finishes(job, i)) == 0
    decreases |cs|
  {
    if cs != [] {
      DoomedStep(job, s, cs[0], i);
      DoomedFinishesNothing(job, Step(job, s, cs[0]), cs[1..], t, i);
    }
  }

  lemma SameLaneCount(job: Job, s: State, c: Choice, i: nat)
    requires job.Valid() && InRange(job, s) && Enabled(s, c) && i < |s.lanes|
    ensures |Step(job, s, c).lanes| == |s.lanes| && (c.lane != i ==> Step(job, s, c).lanes[i] == s.lanes[i])
  {
    OneLaneMoves(job, s, c);
  }

  lemma StopStays(job: Job, s: State, c: Choice)
    requires job.Valid() && InRange(job, s) && Enabled(s, c) && s.stop
    ensures Step(job, s, c).stop
  {
  }

  /** What a lane at its poll or past it does next. */
  lemma NextMove(job: Job, s: State, c: Choice)
    requires job.Valid() && InRange(job, s) && Enabled(s, c)
    ensures s.lanes[c.lane].Polling? ==>
      Step(job, s, c).lanes[c.lane].Claiming? || Step(job, s, c).lanes[c.lane].Exited?
    ensures s.lanes[c.lane].Claiming? ==>
      Step(job, s, c).lanes[c.lane] == (if s.next >= job.points then Exited else Binding(s.next))
    ensures s.next <= Step(job, s, c).next
  {
  }

  /** The counter stands at a boundary when a live lane draws a succeeding point after
      the flag and after some success. */
  lemma DrawAtBoundary(job: Job, s: State, i: nat)
    requires job.Valid() && Accounted(job, s) && s.stop && i < |s.lanes| && s.lanes[i].Claiming?
    requires s.next < job.points && job.Succeeds(s.next) && Fails(job, s.next) < s.next
    ensures Boundary(job, |s.lanes|, s.next)
  {
    CountMisses(s.lanes, i, IsDoomed(job));
  }

  lemma {:induction false} NextFinish(job: Job, s: State, cs: seq<Choice>, t: State, i: nat) returns (b: nat)
    requires job.Valid() && Accounted(job, s) && s.stop && Run(job, s, cs, t) && i < |s.lanes|
    requires s.lanes[i].Polling? || s.lanes[i].Claiming?
    requires Fails(job, Seen(job, s)) < Seen(job, s) && Tally(job, s, cs, Finishes(job, i)) >= 1
    ensures Boundary(job, |s.lanes|, b)
    decreases |cs|
  {
    var c, u := cs[0], Step(job, s, cs[0]);
    AccountedStep(job, s, c);
    SameLaneCount(job, s, c, i);
    StopStays(job, s, c);
    NextMove(job, s, c);
    if u.lanes[i].Polling? || u.lanes[i].Claiming? {
      FailsMonotone(job, Seen(job, s), Seen(job, u));
      b := NextFinish(job, u, cs[1..], t, i);
    } else {
      if Doomed(job, u.lanes[i]) { DoomedFinishesNothing(job, u, cs[1..], t, i); }
      b := s.next;
      DrawAtBoundary(job, s, i);
    }
  }

  lemma FinishShows(job: Job, s: State, c: Choice, i: nat)
    requires job.Valid() && Inv(job, s) && InRange(job, s) && Enabled(s, c) && i < |s.lanes| && Finishes(job, i)(s, c)
    ensures Step(job, s, c).lanes[i].Polling?
    ensures Fails(job, Seen(job, Step(job, s, c))) < Seen(job, Step(job, s, c))
  {
    assert LaneOk(job, s, s.lanes[i]);
    FailsMonotone(job, s.lanes[i].point + 1, Seen(job, s));
  }

  lemma {:induction false} SecondFinish(job: Job, s: State, cs: seq<Choice>, t: State, i: nat) returns (b: nat)
    requires job.Valid() && Accounted(job, s) && s.stop && Run(job, s, cs, t) && i < |s.lanes|
    requires Tally(job, s, cs, Finishes(job, i)) >= 2
    ensures Boundary(job, |s.lanes|, b)
    decreases |cs|
  {
    var c, u := cs[0], Step(job, s, cs[0]);
    AccountedStep(job, s, c);
    SameLaneCount(job, s, c, i);
    if Finishes(job, i)(s, c) {
      FinishShows(job, s, c, i);
      b := NextFinish(job, u, cs[1..], t, i);
    } else {
      b := SecondFinish(job, u, cs[1..], t, i);
    }
  }

  // ---------------------------------------------------------------- a boundary gives two finishes

  /** Same state up to the values and lane i. */
  ghost predicate OnlyLane(s: State, t: State, i: nat) {
    i < |s.lanes| == |t.lanes| && t == s.(lanes := s.lanes[i := t.lanes[i]], values := t.values)
  }

  /** Lane i leaves a point of its own accord: back at its poll, or with an error in hand. */
  ghost predicate Left(job: Job, l: Lane, p: nat)
    requires job.Valid() && p < job.points
  {
    if job.Succeeds(p) then l == Polling else l == Waiting(p, job.FirstFailure(p, job.observables).error)
  }

  lemma OnlyLaneTwice(s: State, u: State, t: State, i: nat)
    requires OnlyLane(s, u, i) && OnlyLane(u, t, i)
    ensures OnlyLane(s, t, i)
  {
    assert u.lanes[i := t.lanes[i]] == s.lanes[i := t.lanes[i]];
  }

  /** One write of a lane: on to the next observable, or away from the point. */
  lemma WriteStep(job: Job, s: State, i: nat, p: nat, k: nat, c: Choice, u: State)
    requires job.Valid() && InRange(job, s) && i < |s.lanes| && s.lanes[i] == Writing(p, k)
    requires p < job.points && k <= job.observables && job.FirstFailure(p, k).Ready?
    requires c == Choice(i, false) && u == Step(job, s, c)
    ensures OnlyLane(s, u, i) && InRange(job, u)
    ensures if k < job.observables && job.expectation(job.Circuit(p), k).Value? then
        u.lanes[i] == Writing(p, k + 1) && job.FirstFailure(p, k + 1).Ready? && !Finishes(job, i)(s, c)
      else Left(job, u.lanes[i], p) && (Finishes(job, i)(s, c) <==> job.Succeeds(p))
  {
    if k < job.observables && !job.expectation(job.Circuit(p), k).Value? {
      FailureSticks(job, p, k + 1, job.observables);
    }
  }

  lemma {:induction false} Evaluate(job: Job, s: State, i: nat, p: nat, k: nat) returns (cs: seq<Choice>, t: State)
    requires job.Valid() && InRange(job, s) && i < |s.lanes| && s.lanes[i] == Writing(p, k)
    requires p < job.points && k <= job.observables && job.FirstFailure(p, k).Ready?
    ensures Run(job, s, cs, t) && InRange(job, t) && OnlyLane(s, t, i) && Left(job, t.lanes[i], p)
    ensures Tally(job, s, cs, Finishes(job, i)) == (if job.Succeeds(p) then 1 else 0)
    decreases job.observables - k
  {
    var c := Choice(i, false);
    var u := Step(job, s, c);
    WriteStep(job, s, i, p, k, c, u);
    OneStep(job, s, c);
    if k < job.observables && job.expectation(job.Circuit(p), k).Value? {
      var ds;
      ds, t := Evaluate(job, u, i, p, k + 1);
      OnlyLaneTwice(s, u, t, i);
      RunAppend(job, s, [c], u, ds, t);
      cs := [c] + ds;
    } else {
      cs, t := [c], u;
    }
  }

  lemma EvaluateBound(job: Job, s: State, i: nat, p: nat) returns (cs: seq<Choice>, t: State)
    requires job.Valid() && InRange(job, s) && i < |s.lanes| && s.lanes[i] == Binding(p) && p < job.points
    ensures Run(job, s, cs, t) && InRange(job, t) && OnlyLane(s, t, i) && Left(job, t.lanes[i], p)
    ensures Tally(job, s, cs, Finishes(job, i)) == (if job.Succeeds(p) then 1 else 0)
  {
    var c := Choice(i, false);
    var u := Step(job, s, c);
    OneStep(job, s, c);
    if u.lanes[i].Writing? {
      var ds;
      ds, t := Evaluate(job, u, i, p, 0);
      RunAppend(job, s, [c], u, ds, t);
      cs := [c] + ds;
    } else {
      FailureSticks(job, p, 0, job.observables);
      cs, t := [c], u;
    }
  }

  /** Poll (stale if the flag is up) and draw the next point. */
  lemma Draw(job: Job, s: State, i: nat) returns (cs: seq<Choice>, t: State)
    requires job.Valid() && InRange(job, s) && i < |s.lanes| && s.lanes[i] == Polling && s.next < job.points
    ensures t == s.(lanes := s.lanes[i := Binding(s.next)], next := s.next + 1)
    ensures Run(job, s, cs, t) && InRange(job, t) && Tally(job, s, cs, Finishes(job, i)) == 0
  {
    var c := Choice(i, false);
    var u := Step(job, s, c);
    OneStep(job, s, c);
    OneStep(job, u, c);
    t := Step(job, u, c);
    RunAppend(job, s, [c], u, [c], t);
    cs := [c] + [c];
    assert t.lanes == s.lanes[i := Binding(s.next)];
  }

  /** Lane i polls, draws the next point and leaves it. */
  lemma Deal(job: Job, s: State, i: nat) returns (cs: seq<Choice>, t: State)
    requires job.Valid() && InRange(job, s) && i < |s.lanes| && s.lanes[i] == Polling && s.next < job.points
    ensures Run(job, s, cs, t) && InRange(job, t) && OnlyLane(s.(next := s.next + 1), t, i)
    ensures Left(job, t.lanes[i], s.next)
    ensures Tally(job, s, cs, Finishes(job, i)) == (if job.Succeeds(s.next) then 1 else 0)
  {
    var ds, u := Draw(job, s, i);
    var es;
    es, t := EvaluateBound(job, u, i, s.next);
    RunAppend(job, s, ds, u, es, t);
    cs := ds + es;
    assert t.lanes == s.lanes[i := t.lanes[i]];
  }

  /** m points are out, lane 0 is at `first`, one lane waits with an error for each
      failing point, the others have not moved, and no error is on record. */
  ghost predicate Dealt(job: Job, laneCount: nat, s: State, m: nat, first: Lane)
    requires job.Valid()
  {
    && InRange(job, s) && s.next == m <= job.points && !s.stop && s.mutexFree && s.firstError == []
    && Fails(job, m) < |s.lanes| == laneCount && s.lanes[0] == first
    && (forall j :: 1 <= j <= Fails(job, m) ==> s.lanes[j].Waiting?)
    && (forall j :: Fails(job, m) < j < laneCount ==> s.lanes[j] == Polling)
  }

  /** The next point fails: it goes to the first lane that has not moved. */
  lemma DealFailure(job: Job, laneCount: nat, s: State, m: nat, first: Lane) returns (cs: seq<Choice>, t: State)
    requires job.Valid() && Dealt(job, laneCount, s, m, first) && m < job.points && !job.Succeeds(m)
    requires Fails(job, m + 1) < laneCount
    ensures Run(job, s, cs, t) && Dealt(job, laneCount, t, m + 1, first)
  {
    cs, t := Deal(job, s, Fails(job, m) + 1);
  }

  /** The next point succeeds: lane 0 takes it. */
  lemma DealSuccess(job: Job, laneCount: nat, s: State, m: nat) returns (cs: seq<Choice>, t: State)
    requires job.Valid() && Dealt(job, laneCount, s, m, Polling) && m < job.points && job.Succeeds(m)
    ensures Run(job, s, cs, t) && Dealt(job, laneCount, t, m + 1, Polling)
  {
    cs, t := Deal(job, s, 0);
  }

  lemma {:induction false} DealUpTo(job: Job, laneCount: nat, m: nat) returns (cs: seq<Choice>, t: State)
    requires job.Valid() && m <= job.points && Fails(job, m) < laneCount
    ensures Run(job, Initial(laneCount), cs, t) && Dealt(job, laneCount, t, m, Polling)
  {
    if m == 0 {
      cs, t := [], Initial(laneCount);
    } else {
      var ds, es, u;
      ds, u := DealUpTo(job, laneCount, m - 1);
      if job.Succeeds(m - 1) {
        es, t := DealSuccess(job, laneCount, u, m - 1);
      } else {
        es, t := DealFailure(job, laneCount, u, m - 1, Polling);
      }
      RunAppend(job, Initial(laneCount), ds, u, es, t);
      cs := ds + es;
    }
  }

  /** Failing points go to fresh lanes while lane 0 keeps its point in hand. */
  lemma {:induction false} DealFailures(job: Job, laneCount: nat, s: State, m: nat, b: nat, first: Lane)
    returns (cs: seq<Choice>, t: State)
    requires job.Valid() && Dealt(job, laneCount, s, m, first) && m <= b <= job.points && Fails(job, b) < laneCount
    requires forall q :: m <= q < b ==> !job.Succeeds(q)
    ensures Run(job, s, cs, t) && Dealt(job, laneCount, t, b, first)
    decreases b - m
  {
    if m == b {
      cs, t := [], s;
    } else {
      FailsMonotone(job, m + 1, b);
      var ds, u := DealFailure(job, laneCount, s, m, first);
      var es;
      es, t := DealFailures(job, laneCount, u, m + 1, b, first);
      RunAppend(job, s, ds, u, es, t);
      cs := ds + es;
    }
  }

  /** p is the last succeeding point below b. */
  ghost predicate Last(job: Job, p: nat, b: nat)
    requires job.Valid() && b <= job.points
  {
    p < b && job.Succeeds(p) && forall q :: p < q < b ==> !job.Succeeds(q)
  }

  lemma FailsNext(job: Job, b: nat)
    requires job.Valid() && b < job.points
    ensures Fails(job, b + 1) == Fails(job, b) + (if job.Succeeds(b) then 0 else 1)
    ensures forall p :: Last(job, p, b) && !job.Succeeds(b) ==> Last(job, p, b + 1)
  {
  }

  lemma {:induction false} LastSuccess(job: Job, b: nat) returns (p: nat)
    requires job.Valid() && b <= job.points && Fails(job, b) < b
    ensures Last(job, p, b)
  {
    FailsNext(job, b - 1);
    if job.Succeeds(b - 1) { p := b - 1; } else { p := LastSuccess(job, b - 1); }
  }

  /** A waiting lane records its error and raises the flag. */
  lemma RaiseStop(job: Job, s: State, i: nat) returns (cs: seq<Choice>, t: State)
    requires job.Valid() && InRange(job, s) && i < |s.lanes| && s.lanes[i].Waiting? && s.mutexFree
    ensures Run(job, s, cs, t) && InRange(job, t) && t.stop && t.next == s.next
    ensures t.firstError == (if s.firstError == [] then [s.lanes[i].error] else s.firstError)
    ensures t.lanes == s.lanes[i := Exited]
  {
    var c := Choice(i, false);
    var u := Step(job, s, c);
    var v := Step(job, u, c);
    t := Step(job, v, c);
    OneStep(job, s, c);
    OneStep(job, u, c);
    OneStep(job, v, c);
    RunAppend(job, s, [c], u, [c], v);
    RunAppend(job, s, [c] + [c], v, [c], t);
    assert t.lanes == s.lanes[i := Exited];
    cs := [c] + [c] + [c];
  }

  /** With the flag up, lane 0 finishes the point in hand, misses the flag once, and
      finishes the next point. */
  lemma FinishTwo(job: Job, s: State, p: nat) returns (cs: seq<Choice>, t: State)
    requires job.Valid() && InRange(job, s) && s.stop && s.lanes != [] && s.lanes[0] == Binding(p)
    requires p < s.next < job.points && job.Succeeds(p) && job.Succeeds(s.next)
    ensures Run(job, s, cs, t) && Tally(job, s, cs, Finishes(job, 0)) == 2
  {
    var ds, u := EvaluateBound(job, s, 0, p);
    var es;
    es, t := Deal(job, u, 0);
    RunAppend(job, s, ds, u, es, t);
    cs := ds + es;
  }

  /** All points before the last success below b, that success in lane 0's hand, then
      the failing points up to b, then one error on record. */
  lemma StopBeforeBoundary(job: Job, laneCount: nat, b: nat) returns (cs: seq<Choice>, s: State, p: nat)
    requires job.Valid() && Boundary(job, laneCount, b)
    ensures Run(job, Initial(laneCount), cs, s) && InRange(job, s) && s.stop && |s.lanes| == laneCount
    ensures s.next == b && p < b && job.Succeeds(p) && s.lanes[0] == Binding(p)
  {
    p := LastSuccess(job, b);
    FailsMonotone(job, p + 1, b);
    var start := Initial(laneCount);
    var c0, s0 := DealUpTo(job, laneCount, p);
    var c1, s1 := Draw(job, s0, 0);
    var c2, s2 := DealFailures(job, laneCount, s1, p + 1, b, Binding(p));
    var c3;
    c3, s := RaiseStop(job, s2, 1);
    RunAppend(job, start, c0, s0, c1, s1);
    RunAppend(job, start, c0 + c1, s1, c2, s2);
    RunAppend(job, start, c0 + c1 + c2, s2, c3, s);
    cs := c0 + c1 + c2 + c3;
  }

  lemma InitialAccounted(job: Job, laneCount: nat)
    requires job.Valid()
    ensures Accounted(job, Initial(laneCount))
  {
  }

  /** Some run finishes two points in one lane after the flag is up if and only if some
      succeeding point has a failing and a succeeding point before it, and fewer
      failing points before it than there are lanes. */
  lemma TwoFinishesIff(job: Job, laneCount: nat)
    requires job.Valid()
    ensures (exists before, s, after, t, i :: TwoAfterStop(job, laneCount, before, s, after, t, i)) <==>
            (exists b :: Boundary(job, laneCount, b))
  {
    if before, s, after, t, i :| TwoAfterStop(job, laneCount, before, s, after, t, i) {
      InitialAccounted(job, laneCount);
      AccountedRun(job, Initial(laneCount), before, s);
      InvRun(job, Initial(laneCount), before, s);
      var b := SecondFinish(job, s, after, t, i);
    }
    if b :| Boundary(job, laneCount, b) {
      var before, s, p := StopBeforeBoundary(job, laneCount, b);
      var after, t := FinishTwo(job, s, p);
      assert TwoAfterStop(job, laneCount, before, s, after, t, 0);
    }
  }

  // ---------------------------------------------------------------- an instance

  /** A rotation about Y on one qubit, measured along Y, at a non-finite angle and then
      at two finite ones.  Rebinding throws at the first; the value is always zero,
      because the rotated state has real amplitudes. */
  function SmallJob(): Job {
    Job([Templated(Gate(Ry, 0), 0)], [NonFinite, Finite(1.0), Finite(2.0)], 1, 3, 1,
      (ops: seq<Operation>) =>
        if forall i :: 0 <= i < |ops| ==> Acceptable(ops[i], 1) then Ready
        else Threw("Tensor network rotation angle must be finite"),
      (ops: seq<Operation>, k: nat) => Value(ZERO))
  }

  lemma SmallCircuit(p: nat)
    requires SmallJob().Valid() && p < 3
    ensures SmallJob().Succeeds(p) <==> p > 0
  {
    var job := SmallJob();
    RowInside(p, job.points, job.parameterCount);
    assert |job.Circuit(p)| == 1 && job.Circuit(p)[0] == Gate(Ry, 0).(parameter := job.parameters[p]);
    assert job.FirstFailure(p, 1).Ready? <==> job.FirstFailure(p, 0).Ready?;
  }

  /** Two lanes sweeping this job can finish points 1 and 2 in one lane although point
      0 has failed and its lane has raised the flag before either was done. */
  lemma StopDoesNotBoundFinishes()
    ensures SmallJob().Valid()
    ensures exists before, s, after, t, i :: TwoAfterStop(SmallJob(), 2, before, s, after, t, i)
  {
    var job := SmallJob();
    assert job.Valid();
    SmallCircuit(0);
    SmallCircuit(1);
    SmallCircuit(2);
    assert Fails(job, 1) == 1 && Fails(job, 2) == 1;
    assert Boundary(job, 2, 2);
    TwoFinishesIff(job, 2);
  }
}
