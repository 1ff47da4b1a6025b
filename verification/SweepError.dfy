/** Which error a sweep rethrows: exactly those that some schedule records first. */
module SweepError {
  import opened Layout
  import opened Sweep
  import opened SweepRuns
  import opened SweepStop

  /** Some whole run ends joined with e as its recorded error. */
  ghost predicate Rethrown(job: Job, laneCount: nat, cs: seq<Choice>, t: State, e: string)
    requires job.Valid()
  {
    Run(job, Initial(laneCount), cs, t) && Joined(t) && t.firstError == [e]
  }

  /** Point p raises e, and there is a lane left to draw it after the failing points
      before it have each taken one. */
  ghost predicate Drawable(job: Job, laneCount: nat, p: nat, e: string)
    requires job.Valid()
  {
    p < job.points && job.FirstFailure(p, job.observables) == Threw(e) && Fails(job, p) < laneCount
  }

  // ---------------------------------------------------------------- a recorded error is drawable

  /** Every point drawn so far left a lane for itself, and so did the recorded error's. */
  ghost predicate Traceable(job: Job, s: State)
    requires job.Valid()
  {
    && Accounted(job, s)
    && (Seen(job, s) > 0 ==> Fails(job, Seen(job, s) - 1) < |s.lanes|)
    && (s.firstError != [] ==> exists p :: Drawable(job, |s.lanes|, p, s.firstError[0]))
  }

  /** A draw finds its lane alive, so the failing points before it are fewer than lanes. */
  lemma DrawLeavesLane(job: Job, s: State, c: Choice)
    requires job.Valid() && Traceable(job, s) && InRange(job, s) && Enabled(s, c)
    ensures |Step(job, s, c).lanes| == |s.lanes|
    ensures Seen(job, Step(job, s, c)) > 0 ==> Fails(job, Seen(job, Step(job, s, c)) - 1) < |s.lanes|
  {
    SeenStep(job, s, c, Step(job, s, c));
    if s.lanes[c.lane].Claiming? { CountMisses(s.lanes, c.lane, IsDoomed(job)); }
  }

  lemma RecordedIsDrawable(job: Job, s: State, c: Choice)
    requires job.Valid() && Traceable(job, s) && InRange(job, s) && Enabled(s, c)
    requires s.firstError == [] && s.lanes[c.lane].Holding?
    ensures Drawable(job, |s.lanes|, s.lanes[c.lane].point, s.lanes[c.lane].error)
  {
    assert LaneOk(job, s, s.lanes[c.lane]);
    FailsMonotone(job, s.lanes[c.lane].point, Seen(job, s) - 1);
  }

  /** A step records an error only from a lane that holds it, and only the first. */
  lemma RecordedBy(job: Job, s: State, c: Choice, t: State)
    requires job.Valid() && InRange(job, s) && Enabled(s, c) && t == Step(job, s, c)
    ensures t.firstError == if s.firstError == [] && s.lanes[c.lane].Holding? then [s.lanes[c.lane].error]
      else s.firstError
  {
  }

  lemma TraceableStep(job: Job, s: State, c: Choice)
    requires job.Valid() && Traceable(job, s) && InRange(job, s) && Enabled(s, c)
    ensures Traceable(job, Step(job, s, c))
  {
    AccountedStep(job, s, c);
    DrawLeavesLane(job, s, c);
    RecordedBy(job, s, c, Step(job, s, c));
    if s.firstError == [] && s.lanes[c.lane].Holding? { RecordedIsDrawable(job, s, c); }
  }

  lemma {:induction false} TraceableRun(job: Job, s: State, cs: seq<Choice>, t: State)
    requires job.Valid() && Traceable(job, s) && Run(job, s, cs, t)
    ensures Traceable(job, t)
    decreases |cs|
  {
    if cs != [] {
      TraceableStep(job, s, cs[0]);
      TraceableRun(job, Step(job, s, cs[0]), cs[1..], t);
    }
  }

  // ---------------------------------------------------------------- a drawable error can be first

  /** From any state the lanes can be run to the join, and a recorded error stays. */
  lemma {:induction false} RunToJoin(job: Job, s: State) returns (cs: seq<Choice>, t: State)
    requires job.Valid() && Inv(job, s) && s.lanes != []
    ensures Run(job, s, cs, t) && Joined(t) && (s.firstError != [] ==> t.firstError == s.firstError)
    decreases Remaining(job, s)
  {
    InvInRange(job, s);
    if Joined(s) {
      cs, t := [], s;
    } else {
      var c := SomeStep(job, s);
      var u := Step(job, s, c);
      InvStep(job, s, c);
      InvInRange(job, u);
      StepDecreases(job, s, c);
      SameLaneCount(job, s, c, c.lane);
      OneStep(job, s, c);
      var ds;
      ds, t := RunToJoin(job, u);
      RunAppend(job, s, [c], u, ds, t);
      cs := [c] + ds;
    }
  }

  lemma DrawableIsRethrown(job: Job, laneCount: nat, p: nat, e: string) returns (cs: seq<Choice>, t: State)
    requires job.Valid() && Drawable(job, laneCount, p, e)
    ensures Rethrown(job, laneCount, cs, t, e)
  {
    var start := Initial(laneCount);
    var c0, s0 := DealUpTo(job, laneCount, p);
    var c1, s1 := Deal(job, s0, 0);
    var c2, s2 := RaiseStop(job, s1, 0);
    RunAppend(job, start, c0, s0, c1, s1);
    RunAppend(job, start, c0 + c1, s1, c2, s2);
    InvRun(job, start, c0 + c1 + c2, s2);
    var c3;
    c3, t := RunToJoin(job, s2);
    RunAppend(job, start, c0 + c1 + c2, s2, c3, t);
    cs := c0 + c1 + c2 + c3;
  }

  /** A sweep can rethrow e if and only if some point raises e with fewer failing points
      before it than there are lanes. */
  lemma RethrownIff(job: Job, laneCount: nat, e: string)
    requires job.Valid()
    ensures (exists cs, t :: Rethrown(job, laneCount, cs, t, e)) <==> (exists p :: Drawable(job, laneCount, p, e))
  {
    if cs, t :| Rethrown(job, laneCount, cs, t, e) {
      InitialAccounted(job, laneCount);
      TraceableRun(job, Initial(laneCount), cs, t);
      InvRun(job, Initial(laneCount), cs, t);
    }
    if p :| Drawable(job, laneCount, p, e) {
      var cs, t := DrawableIsRethrown(job, laneCount, p, e);
    }
  }

  ghost predicate FirstToFail(job: Job, p: nat, e: string)
    requires job.Valid()
  {
    && p < job.points && job.FirstFailure(p, job.observables) == Threw(e)
    && forall q :: 0 <= q < p ==> job.Succeeds(q)
  }

  lemma {:induction false} NoneFailBefore(job: Job, p: nat, q: nat)
    requires job.Valid() && q < p <= job.points && Fails(job, p) == 0
    ensures job.Succeeds(q)
  {
    FailsNext(job, p - 1);
    if q < p - 1 { NoneFailBefore(job, p - 1, q); }
  }

  lemma DrawableFirst(job: Job, p: nat, e: string)
    requires job.Valid() && Drawable(job, 1, p, e)
    ensures FirstToFail(job, p, e)
  {
    forall q | 0 <= q < p ensures job.Succeeds(q) { NoneFailBefore(job, p, q); }
  }

  /** With one lane the rethrown error is the first failing point's. */
  lemma OneLaneRethrowsFirst(job: Job, cs: seq<Choice>, t: State, e: string)
    requires job.Valid() && Rethrown(job, 1, cs, t, e)
    ensures exists p :: FirstToFail(job, p, e)
  {
    RethrownIff(job, 1, e);
    var p: nat :| Drawable(job, 1, p, e);
    DrawableFirst(job, p, e);
  }
}
