/** What happens how often along a schedule: no point is drawn twice, no result cell
    is written twice, and an error-free join has drawn every point once. */
module SweepRuns {
  import opened Layout
  import opened Sweep

  /** Something an atomic step may do, read off the state before it. */
  type Event = (State, Choice) -> bool

  /** How many steps of the schedule are the event. */
  ghost function Tally(job: Job, s: State, cs: seq<Choice>, e: Event): nat
    requires job.Valid()
    decreases |cs|
  {
    if cs == [] || !InRange(job, s) || !Enabled(s, cs[0]) then 0
    else (if e(s, cs[0]) then 1 else 0) + Tally(job, Step(job, s, cs[0]), cs[1..], e)
  }

  /** Point p leaves the counter. */
  ghost function Draws(p: nat): Event {
    (s: State, c: Choice) => c.lane < |s.lanes| && s.lanes[c.lane].Claiming? && s.next == p
  }

  /** Lane i draws some point. */
  ghost function Claims(job: Job, i: nat): Event {
    (s: State, c: Choice) => c.lane == i < |s.lanes| && s.lanes[i].Claiming? && s.next < job.points
  }

  /** Lane i finishes a point: its last value is in and it returns to its poll. */
  ghost function Finishes(job: Job, i: nat): Event {
    (s: State, c: Choice) => c.lane == i < |s.lanes| && s.lanes[i].Writing? && s.lanes[i].done == job.observables
  }

  /** Lane i polls the raised flag and reads a stale `false`. */
  ghost function StalePolls(i: nat): Event {
    (s: State, c: Choice) => c.lane == i < |s.lanes| && s.lanes[i].Polling? && s.stop && !c.seen
  }

  /** Some lane stores a value at the address. */
  ghost function WritesTo(job: Job, address: nat): Event {
    (s: State, c: Choice) =>
      job.Valid() && c.lane < |s.lanes| && s.lanes[c.lane].Writing? && s.lanes[c.lane].point < job.points
      && s.lanes[c.lane].done < job.observables
      && s.lanes[c.lane].point * job.observables + s.lanes[c.lane].done == address
      && job.expectation(job.Circuit(s.lanes[c.lane].point), s.lanes[c.lane].done).Value?
  }

  lemma {:induction false} RunAppend(job: Job, s: State, cs: seq<Choice>, m: State, ds: seq<Choice>, t: State)
    requires job.Valid() && Run(job, s, cs, m) && Run(job, m, ds, t)
    ensures Run(job, s, cs + ds, t)
    ensures forall e :: Tally(job, s, cs + ds, e) == Tally(job, s, cs, e) + Tally(job, m, ds, e)
    decreases |cs|
  {
    if cs == [] {
      assert cs + ds == ds;
    } else {
      assert (cs + ds)[1..] == cs[1..] + ds;
      RunAppend(job, Step(job, s, cs[0]), cs[1..], m, ds, t);
    }
  }

  lemma OneStep(job: Job, s: State, c: Choice)
    requires job.Valid() && InRange(job, s) && Enabled(s, c) && InRange(job, Step(job, s, c))
    ensures Run(job, s, [c], Step(job, s, c))
    ensures forall e :: Tally(job, s, [c], e) == (if e(s, c) then 1 else 0)
  {
    assert [c][1..] == [];
    assert Run(job, Step(job, s, c), [], Step(job, s, c));
  }

  // ---------------------------------------------------------------- draws

  /** A point is drawn exactly once if the counter passes it, and never otherwise. */
  lemma {:induction false} DrawnOnce(job: Job, s: State, cs: seq<Choice>, t: State, p: nat)
    requires job.Valid() && Run(job, s, cs, t)
    ensures s.next <= t.next && Tally(job, s, cs, Draws(p)) == (if s.next <= p < t.next then 1 else 0)
    decreases |cs|
  {
    if cs != [] { DrawnOnce(job, Step(job, s, cs[0]), cs[1..], t, p); }
  }

  /** Over a whole run no point is drawn twice, and a join without an error has drawn
      every point exactly once. */
  lemma NoPointDrawnTwice(job: Job, laneCount: nat, cs: seq<Choice>, t: State, p: nat)
    requires job.Valid() && Run(job, Initial(laneCount), cs, t)
    ensures Tally(job, Initial(laneCount), cs, Draws(p)) <= 1
    ensures Joined(t) && t.firstError == [] && p < job.points ==> Tally(job, Initial(laneCount), cs, Draws(p)) == 1
  {
    DrawnOnce(job, Initial(laneCount), cs, t, p);
    InvRun(job, Initial(laneCount), cs, t);
    assert Joined(t) ==> t.lanes[0].Exited?;
  }

  // ---------------------------------------------------------------- writes

  /** Point p may still have its k-th value written. */
  ghost predicate Ahead(s: State, p: nat, k: nat) {
    p >= s.next || exists i :: 0 <= i < |s.lanes| && Before(s.lanes[i], p, k)
  }

  predicate Before(l: Lane, p: nat, k: nat) {
    match l
    case Binding(q) => p == q
    case Writing(q, d) => p == q && d <= k
    case _ => false
  }

  lemma StepAhead(job: Job, s: State, c: Choice, p: nat, k: nat)
    requires job.Valid() && InRange(job, s) && Enabled(s, c) && Ahead(Step(job, s, c), p, k)
    ensures Ahead(s, p, k)
  {
    var t := Step(job, s, c);
    if p < t.next {
      var i :| 0 <= i < |t.lanes| && Before(t.lanes[i], p, k);
      assert i != c.lane ==> t.lanes[i] == s.lanes[i];
      assert Before(s.lanes[i], p, k) || p >= s.next;
    }
  }

  /** Writing the k-th value of p uses its one chance up. */
  lemma WriteSpends(job: Job, s: State, c: Choice, p: nat, k: nat)
    requires job.Valid() && InRange(job, s) && Enabled(s, c) && Inv(job, s) && k < job.observables
    requires WritesTo(job, p * job.observables + k)(s, c)
    ensures Ahead(s, p, k) && !Ahead(Step(job, s, c), p, k)
  {
    var t, l := Step(job, s, c), s.lanes[c.lane];
    CellUnique(l.point, l.done, p, k, job.observables);
    assert l == Writing(p, k) && Before(l, p, k);
    assert LaneOk(job, s, l);
    forall i | 0 <= i < |t.lanes| ensures !Before(t.lanes[i], p, k) {
      if i != c.lane { assert Owns(s.lanes[c.lane], p) && !Owns(s.lanes[i], p); }
    }
  }

  lemma ChanceStep(job: Job, s: State, c: Choice, p: nat, k: nat)
    requires job.Valid() && Inv(job, s) && InRange(job, s) && Enabled(s, c) && k < job.observables
    ensures Inv(job, Step(job, s, c))
    ensures WritesTo(job, p * job.observables + k)(s, c) ==> Ahead(s, p, k) && !Ahead(Step(job, s, c), p, k)
    ensures Ahead(Step(job, s, c), p, k) ==> Ahead(s, p, k)
  {
    InvStep(job, s, c);
    if WritesTo(job, p * job.observables + k)(s, c) { WriteSpends(job, s, c, p, k); }
    if Ahead(Step(job, s, c), p, k) { StepAhead(job, s, c, p, k); }
  }

  lemma {:induction false} WritesLeft(job: Job, s: State, cs: seq<Choice>, t: State, p: nat, k: nat)
    requires job.Valid() && Run(job, s, cs, t) && Inv(job, s) && k < job.observables
    ensures Tally(job, s, cs, WritesTo(job, p * job.observables + k)) <= (if Ahead(s, p, k) then 1 else 0)
    decreases |cs|
  {
    if cs != [] {
      ChanceStep(job, s, cs[0], p, k);
      WritesLeft(job, Step(job, s, cs[0]), cs[1..], t, p, k);
    }
  }

  /** A value that has appeared was written along the way. */
  lemma {:induction false} AppearedIsWritten(job: Job, s: State, cs: seq<Choice>, t: State, a: nat)
    requires job.Valid() && Run(job, s, cs, t) && a !in s.values && a in t.values
    ensures Tally(job, s, cs, WritesTo(job, a)) >= 1
    decreases |cs|
  {
    if cs != [] {
      var u := Step(job, s, cs[0]);
      if a in u.values {
        assert WritesTo(job, a)(s, cs[0]);
      } else {
        AppearedIsWritten(job, u, cs[1..], t, a);
      }
    }
  }

  /** Over a whole run no cell is written twice, and a join without an error has
      written every cell exactly once. */
  lemma NoCellWrittenTwice(job: Job, laneCount: nat, cs: seq<Choice>, t: State, p: nat, k: nat)
    requires job.Valid() && Run(job, Initial(laneCount), cs, t) && p < job.points && k < job.observables
    ensures Tally(job, Initial(laneCount), cs, WritesTo(job, p * job.observables + k)) <= 1
    ensures Joined(t) && t.firstError == [] ==>
      Tally(job, Initial(laneCount), cs, WritesTo(job, p * job.observables + k)) == 1
  {
    WritesLeft(job, Initial(laneCount), cs, t, p, k);
    if Joined(t) && t.firstError == [] {
      JoinedOutcome(job, laneCount, t);
      assert Filled(job, t, p, job.observables);
      assert Cell(job, t, p, k);
      AppearedIsWritten(job, Initial(laneCount), cs, t, p * job.observables + k);
    }
  }

  // ---------------------------------------------------------------- after the stop flag

  /** Once the flag is raised a lane draws a point only if it had already passed its
      poll, plus one for every stale poll. */
  lemma {:induction false} ClaimsAfterStop(job: Job, s: State, cs: seq<Choice>, t: State, i: nat)
    requires job.Valid() && Run(job, s, cs, t) && s.stop && i < |s.lanes|
    ensures Tally(job, s, cs, Claims(job, i)) <=
      (if s.lanes[i].Claiming? then 1 else 0) + Tally(job, s, cs, StalePolls(i))
    decreases |cs|
  {
    if cs != [] { ClaimsAfterStop(job, Step(job, s, cs[0]), cs[1..], t, i); }
  }

  /** A lane with a point in hand, or past its poll. */
  predicate Engaged(l: Lane) { l.Claiming? || l.Binding? || l.Writing? }

  /** Once the flag is raised a lane finishes only the point it is engaged with, plus
      one for every stale poll; without stale polls that is at most one. */
  lemma {:induction false} FinishesAfterStop(job: Job, s: State, cs: seq<Choice>, t: State, i: nat)
    requires job.Valid() && Run(job, s, cs, t) && s.stop && i < |s.lanes|
    ensures Tally(job, s, cs, Finishes(job, i)) <=
      (if Engaged(s.lanes[i]) then 1 else 0) + Tally(job, s, cs, StalePolls(i))
    ensures Tally(job, s, cs, StalePolls(i)) == 0 ==> Tally(job, s, cs, Finishes(job, i)) <= 1
    decreases |cs|
  {
    if cs != [] { FinishesAfterStop(job, Step(job, s, cs[0]), cs[1..], t, i); }
  }
}
