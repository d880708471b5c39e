/** The pipeline does not get stuck: as long as a staging area is active, some thread other than the adding one can
    go on. */
module PipelineProgress {
  import opened TransferQueues
  import opened WorkQueues
  import opened Pipeline
  import opened PipelineInvariant
  import opened PipelineTransfer
  import opened PipelineWorkers
  import opened PipelineRuns

  /** Some worker is about to free the area of batch `b`. */
  ghost predicate Freeing<D(!new), E(!new), V(!new)>(p: Plan<D, E, V>, s: State<D, E, V>, b: nat)
    requires Sizes(p, s)
  {
    exists t :: 0 <= t < p.threads && Frees(s.workers[t], p.Area(b), b)
  }

  ghost predicate Occupied<D(!new), E(!new), V(!new)>(p: Plan<D, E, V>, s: State<D, E, V>, area: nat)
    requires Sizes(p, s)
  {
    exists b: nat {:trigger Open(s, b)} :: Open(s, b) && b < |s.batches| && p.Area(b) == area
  }

  /** A batch that every part is through with has a worker to free its area, and active areas belong to some batch. */
  ghost predicate Attended<D(!new), E(!new), V(!new)>(p: Plan<D, E, V>, s: State<D, E, V>)
    requires Sizes(p, s)
  {
    && (forall b: nat {:trigger Open(s, b)} :: Open(s, b) && b < s.started && AllPast(s.done, b) ==> Freeing(p, s, b))
    && (forall a :: 0 <= a < p.areas && s.active[a] ==> Occupied(p, s, a))
  }

  /** The step leaves the workers that free areas, the parts that are through, and the active areas alone. */
  lemma AttendedFrame<D(!new), E(!new), V(!new)>(p: Plan<D, E, V>, s: State<D, E, V>, u: State<D, E, V>)
    requires Sizes(p, s) && Sizes(p, u) && Attended(p, s) && u.started == s.started && u.released == s.released
    requires u.done == s.done
    requires s.batches <= u.batches
    requires forall t, area: nat, b: nat :: 0 <= t < p.threads && Frees(s.workers[t], area, b) ==>
               Frees(u.workers[t], area, b)
    requires forall a :: 0 <= a < p.areas && u.active[a] ==>
               s.active[a] || (|u.batches| > |s.batches| && |s.batches| !in u.released && a == p.Area(|s.batches|))
    ensures Attended(p, u)
  {
    forall b: nat | Open(u, b) && b < u.started && AllPast(u.done, b) ensures Freeing(p, u, b) {
      assert Open(s, b);
      var t :| 0 <= t < p.threads && Frees(s.workers[t], p.Area(b), b);
      assert Frees(u.workers[t], p.Area(b), b);
    }
    forall a | 0 <= a < p.areas && u.active[a] ensures Occupied(p, u, a) {
      if s.active[a] {
        assert Occupied(p, s, a);
        var b: nat :| Open(s, b) && b < |s.batches| && p.Area(b) == a;
        assert Open(u, b);
      } else {
        assert Open(u, |s.batches|);
      }
    }
  }

  lemma AddingAttended<D(!new), E(!new), V(!new)>(p: Plan<D, E, V>, s: State<D, E, V>, step: Step<D, E>)
    requires Inv(p, s) && Attended(p, s) && Enabled(p, s, step) && (step.Add? || step.FlushNow? || step.EndInput?)
    requires Sizes(p, Apply(p, s, step))
    ensures Attended(p, Apply(p, s, step))
  {
    assert |s.batches| !in s.released;
    AttendedFrame(p, s, Apply(p, s, step));
  }

  lemma LaunchAttended<D(!new), E(!new), V(!new)>(p: Plan<D, E, V>, s: State<D, E, V>)
    requires Inv(p, s) && Attended(p, s) && Enabled(p, s, Step<D, E>.LaunchKernel) && Sizes(p, Launch(p, s))
    ensures Attended(p, Launch(p, s))
  {
    var u := Launch(p, s);
    assert s.done[0] <= s.sent[0] == SentTo(s, 0);
    forall b: nat | Open(u, b) && b < u.started && AllPast(u.done, b) ensures Freeing(p, u, b) {
      assert Open(s, b) && Freeing(p, s, b);
    }
    forall a | 0 <= a < p.areas && u.active[a] ensures Occupied(p, u, a) {
      assert Occupied(p, s, a);
      var b: nat :| Open(s, b) && b < |s.batches| && p.Area(b) == a;
      assert Open(u, b);
    }
  }

  lemma FinishAttended<D(!new), E(!new), V(!new)>(p: Plan<D, E, V>, s: State<D, E, V>, t: nat)
    requires Inv(p, s) && Attended(p, s) && CanFinish(p, s, t) && Sizes(p, Finish(p, s, t))
    ensures Attended(p, Finish(p, s, t))
  {
    var u, r := Finish(p, s, t), s.workers[t].request;
    InHand(p, s, t);
    FinishCounts(p, s, t);
    forall b: nat | Open(u, b) && b < u.started && AllPast(u.done, b) ensures Freeing(p, u, b) {
      FinishFrees(p, s, t, b);
    }
    SameOccupied(p, s, u);
  }

  /** The last worker of a batch is the one that frees its area. */
  lemma FinishFrees<D(!new), E(!new), V(!new)>(p: Plan<D, E, V>, s: State<D, E, V>, t: nat, b: nat)
    requires Inv(p, s) && Attended(p, s) && CanFinish(p, s, t) && Sizes(p, Finish(p, s, t))
    requires Open(Finish(p, s, t), b) && b < s.started && AllPast(Finish(p, s, t).done, b)
    ensures Freeing(p, Finish(p, s, t), b)
  {
    var u, r := Finish(p, s, t), s.workers[t].request;
    InHand(p, s, t);
    FinishCounts(p, s, t);
    assert Open(s, b);
    if b == r.batch {
      WaitingLess(s.done, r.part, b, b);
      WaitingNone(u.done, b);
      assert Frees(u.workers[t], p.Area(b), b);
    } else {
      assert AllPast(s.done, b) by { StillPast(s.done, r.part, b); }
      var k :| 0 <= k < p.threads && Frees(s.workers[k], p.Area(b), b);
      assert Frees(u.workers[k], p.Area(b), b);
    }
  }

  lemma StillPast(done: seq<nat>, q: nat, b: nat)
    requires q < |done| && b != done[q] && AllPast(done[q := done[q] + 1], b)
    ensures AllPast(done, b)
  {
    var done' := done[q := done[q] + 1];
    forall k | 0 <= k < |done| ensures b < done[k] { assert b < done'[k]; }
  }

  lemma SameOccupied<D(!new), E(!new), V(!new)>(p: Plan<D, E, V>, s: State<D, E, V>, u: State<D, E, V>)
    requires Sizes(p, s) && Sizes(p, u) && Attended(p, s) && u.active == s.active && u.batches == s.batches
    requires u.released == s.released && u.partial == s.partial
    ensures forall a :: 0 <= a < p.areas && u.active[a] ==> Occupied(p, u, a)
  {
    forall a | 0 <= a < p.areas && u.active[a] ensures Occupied(p, u, a) {
      assert Occupied(p, s, a);
      var b: nat :| Open(s, b) && b < |s.batches| && p.Area(b) == a;
      assert Open(u, b);
    }
  }

  lemma ReleaseAttended<D(!new), E(!new), V(!new)>(p: Plan<D, E, V>, s: State<D, E, V>, t: nat)
    requires Inv(p, s) && Attended(p, s) && t < p.threads && s.workers[t].Releasing? && s.workers[t].area < |s.active|
    requires Sizes(p, Release(s, t))
    ensures Attended(p, Release(s, t))
  {
    var u, n := Release(s, t), s.workers[t].batch;
    assert Frees(s.workers[t], s.workers[t].area, n);
    forall b: nat | Open(u, b) && b < u.started && AllPast(u.done, b) ensures Freeing(p, u, b) {
      assert Open(s, b);
      var k :| 0 <= k < p.threads && Frees(s.workers[k], p.Area(b), b);
      assert k != t && Frees(u.workers[k], p.Area(b), b);
    }
    forall a | 0 <= a < p.areas && u.active[a] ensures Occupied(p, u, a) {
      assert Occupied(p, s, a);
      var b: nat :| Open(s, b) && b < |s.batches| && p.Area(b) == a;
      assert b != n && Open(u, b);
    }
  }

  lemma StepAttends<D(!new), E(!new), V(!new)>(p: Plan<D, E, V>, s: State<D, E, V>, step: Step<D, E>)
    requires Inv(p, s) && Attended(p, s) && Enabled(p, s, step) && Inv(p, Apply(p, s, step))
    ensures Attended(p, Apply(p, s, step))
  {
    match step
    case Add(x, flush) => AddingAttended(p, s, step);
    case FlushNow => AddingAttended(p, s, step);
    case EndInput => AddingAttended(p, s, step);
    case LaunchKernel => LaunchAttended(p, s);
    case FinishRequest(t) => FinishAttended(p, s, t);
    case ReleaseArea(t) => ReleaseAttended(p, s, t);
    case LowerActive(t) => LowerAttended(p, s, t);
    case _ => AttendedFrame(p, s, Apply(p, s, step));
  }

  lemma LowerAttended<D(!new), E(!new), V(!new)>(p: Plan<D, E, V>, s: State<D, E, V>, t: nat)
    requires Inv(p, s) && Attended(p, s) && t < p.threads && s.workers[t].Last? && Sizes(p, LowerCount(s, t))
    ensures Attended(p, LowerCount(s, t))
  {
    AttendedFrame(p, s, LowerCount(s, t));
  }

  lemma {:induction false} RunAttends<D(!new), E(!new), V(!new)>(p: Plan<D, E, V>, states: seq<State<D, E, V>>,
                                                                 steps: seq<Step<D, E>>)
    requires Run(p, states, steps)
    ensures Inv(p, states[|steps|]) && Attended(p, states[|steps|])
  {
    RunKeeps(p, states, steps);
    if steps != [] {
      var n := |steps| - 1;
      RunKeeps(p, states[..n + 1], steps[..n]);
      RunAttends(p, states[..n + 1], steps[..n]);
      assert Follows(p, states[n], steps[n], states[n + 1]);
      StepAttends(p, states[n], steps[n]);
    }
  }

  // Whatever is open, somebody can move it on.

  /** A worker that is not idle, or has something in its queue, can take a step. */
  lemma WorkerCanGoOn<D(!new), E(!new), V(!new)>(p: Plan<D, E, V>, s: State<D, E, V>, t: nat) returns (step: Step<D, E>)
    requires Inv(p, s) && t < p.threads && (s.workers[t] != Resting || s.queues[t] != [])
    ensures Enabled(p, s, step) && !step.Add? && !step.FlushNow? && !step.EndInput?
  {
    match s.workers[t]
    case Resting => step := PopRequest(t);
    case Busy(r, cell) =>
      InHand(p, s, t);
      if cell == |p.parts[r.part].cells| {
        step := FinishRequest(t);
      } else {
        ComputeValue(p, s, t);
        step := ComputeCell(t);
      }
    case Last(area, b) => step := LowerActive(t);
    case Releasing(area, b) =>
      assert Frees(s.workers[t], area, b);
      step := ReleaseArea(t);
  }

  lemma BatchCanGoOn<D(!new), E(!new), V(!new)>(p: Plan<D, E, V>, s: State<D, E, V>, b: nat) returns (step: Step<D, E>)
    requires Inv(p, s) && Attended(p, s) && Open(s, b) && b < |s.batches|
    ensures Enabled(p, s, step) && !step.Add? && !step.FlushNow? && !step.EndInput?
  {
    if s.kernel.Launching? {
      LaunchKeeps(p, s);
      step := LaunchKernel;
    } else if s.kernel.Sending? {
      SendKeeps(p, s);
      step := SendRequest;
    } else if b >= s.started {
      assert Launches(s.queue, b);
      HeadFits(p, s);
      step := TakeItem;
    } else if AllPast(s.done, b) {
      assert Freeing(p, s, b);
      var t :| 0 <= t < p.threads && Frees(s.workers[t], p.Area(b), b);
      step := WorkerCanGoOn(p, s, t);
    } else {
      var q :| 0 <= q < |p.parts| && s.done[q] <= b;
      var t := p.parts[q].thread;
      assert s.sent[q] == SentTo(s, q);
      assert ThreadOK(p, s, t);
      assert Queued(s.Outstanding(t), q, b);
      step := WorkerCanGoOn(p, s, t);
    }
  }

  /** In every state of every run in which some staging area is active, the transfer thread or a worker can take a
      step. */
  lemma NeverStuck<D(!new), E(!new), V(!new)>(p: Plan<D, E, V>, states: seq<State<D, E, V>>, steps: seq<Step<D, E>>,
                                              area: nat)
    returns (step: Step<D, E>)
    requires Run(p, states, steps)
    requires area < p.areas && area < |states[|steps|].active| && states[|steps|].active[area]
    ensures Enabled(p, states[|steps|], step) && !step.Add? && !step.FlushNow? && !step.EndInput?
  {
    var s := states[|steps|];
    RunAttends(p, states, steps);
    assert Occupied(p, s, area);
    var b: nat :| Open(s, b) && b < |s.batches| && p.Area(b) == area;
    step := BatchCanGoOn(p, s, b);
  }
}
