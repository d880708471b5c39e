/** The count of active areas: how many batches are in work. */
module PipelineActive {
  import opened TransferQueues
  import opened Pipeline
  import opened PipelineInvariant
  import opened PipelineResults
  import opened PipelineRuns

  /** A worker has lowered the count for this batch and has yet to free its area. */
  ghost predicate Lowered<D(!new), E(!new), V(!new)>(s: State<D, E, V>, b: nat) {
    exists t: nat :: t < |s.workers| && IsReleasing(s.workers[t], b)
  }

  predicate IsReleasing(w: Worker, b: nat) {
    w.Releasing? && w.batch == b
  }

  /** The batches that have been submitted and are not through. */
  ghost function InWork<D(!new), E(!new), V(!new)>(s: State<D, E, V>): set<nat> {
    set b: nat | b < |s.batches| && b !in s.released && !Lowered(s, b)
  }

  ghost predicate ActiveCounted<D(!new), E(!new), V(!new)>(s: State<D, E, V>) {
    s.activeCount == |InWork(s)|
  }

  /** What a worker has in hand is not a batch that it, or another worker, has lowered the count for. */
  lemma SameWork<D(!new), E(!new), V(!new)>(s: State<D, E, V>, u: State<D, E, V>)
    requires |u.batches| == |s.batches| && u.released == s.released && |u.workers| == |s.workers|
    requires forall t: nat, b: nat :: t < |s.workers| ==>
               (IsReleasing(u.workers[t], b) <==> IsReleasing(s.workers[t], b))
    ensures InWork(u) == InWork(s)
  {
    forall b: nat ensures Lowered(u, b) <==> Lowered(s, b) {
      if Lowered(u, b) {
        var t: nat :| t < |u.workers| && IsReleasing(u.workers[t], b);
        assert IsReleasing(s.workers[t], b);
      }
      if Lowered(s, b) {
        var t: nat :| t < |s.workers| && IsReleasing(s.workers[t], b);
        assert IsReleasing(u.workers[t], b);
      }
    }
  }

  lemma MoreWork<D(!new), E(!new), V(!new)>(p: Plan<D, E, V>, s: State<D, E, V>, u: State<D, E, V>)
    requires Inv(p, s) && u.workers == s.workers && u.released == s.released && |u.batches| == |s.batches| + 1
    ensures InWork(u) == InWork(s) + {|s.batches|} && |InWork(u)| == |InWork(s)| + 1
  {
    var n := |s.batches|;
    forall b: nat ensures Lowered(u, b) <==> Lowered(s, b) {}
    assert !Lowered(s, n) by {
      if Lowered(s, n) {
        var t: nat :| t < |s.workers| && IsReleasing(s.workers[t], n);
        assert Frees(s.workers[t], s.workers[t].area, n);
        assert false;
      }
    }
    assert n !in s.released;
    assert n !in InWork(s);
  }

  lemma LowerWork<D(!new), E(!new), V(!new)>(p: Plan<D, E, V>, s: State<D, E, V>, t: nat)
    requires Inv(p, s) && t < |s.workers| && s.workers[t].Last?
    ensures |InWork(LowerCount(s, t))| == |InWork(s)| - 1
  {
    var u, b := LowerCount(s, t), s.workers[t].batch;
    assert Frees(s.workers[t], s.workers[t].area, b);
    assert IsReleasing(u.workers[t], b);
    assert !Lowered(s, b) by {
      if Lowered(s, b) {
        var r: nat :| r < |s.workers| && IsReleasing(s.workers[r], b);
        assert Frees(s.workers[r], s.workers[r].area, b);
        assert false;
      }
    }
    forall c: nat | c != b ensures Lowered(u, c) <==> Lowered(s, c) {
      if Lowered(u, c) {
        var r: nat :| r < |u.workers| && IsReleasing(u.workers[r], c);
        assert IsReleasing(s.workers[r], c);
      }
      if Lowered(s, c) {
        var r: nat :| r < |s.workers| && IsReleasing(s.workers[r], c);
        assert IsReleasing(u.workers[r], c);
      }
    }
    assert InWork(s) == InWork(u) + {b} && b !in InWork(u);
  }

  lemma ReleaseWork<D(!new), E(!new), V(!new)>(p: Plan<D, E, V>, s: State<D, E, V>, t: nat)
    requires Inv(p, s) && t < |s.workers| && s.workers[t].Releasing? && s.workers[t].area < |s.active|
    ensures InWork(Release(s, t)) == InWork(s)
  {
    var u, b := Release(s, t), s.workers[t].batch;
    assert IsReleasing(s.workers[t], b);
    forall c: nat | c != b ensures Lowered(u, c) <==> Lowered(s, c) {
      if Lowered(u, c) {
        var r: nat :| r < |u.workers| && IsReleasing(u.workers[r], c);
        assert IsReleasing(s.workers[r], c);
      }
      if Lowered(s, c) {
        var r: nat :| r < |s.workers| && IsReleasing(s.workers[r], c);
        assert IsReleasing(u.workers[r], c);
      }
    }
  }

  lemma AddingWork<D(!new), E(!new), V(!new)>(p: Plan<D, E, V>, s: State<D, E, V>, u: State<D, E, V>)
    requires Inv(p, s) && ActiveCounted(s) && u.workers == s.workers && u.released == s.released
    requires u.batches == s.batches || |u.batches| == |s.batches| + 1
    requires u.activeCount == s.activeCount + |u.batches| - |s.batches|
    ensures ActiveCounted(u)
  {
    if |u.batches| == |s.batches| { SameWork(s, u); } else { MoreWork(p, s, u); }
  }

  lemma StepCounts<D(!new), E(!new), V(!new)>(p: Plan<D, E, V>, s: State<D, E, V>, step: Step<D, E>)
    requires Inv(p, s) && ActiveCounted(s) && Enabled(p, s, step)
    ensures ActiveCounted(Apply(p, s, step))
  {
    var u := Apply(p, s, step);
    match step
    case Add(x, flush) => AddingWork(p, s, u);
    case FlushNow => AddingWork(p, s, u);
    case EndInput => AddingWork(p, s, u);
    case LowerActive(t) => LowerWork(p, s, t);
    case ReleaseArea(t) => ReleaseWork(p, s, t);
    case _ => SameWork(s, u);
  }

  /** In every state of every run the count is the number of batches in work. */
  lemma {:induction false} RunCounts<D(!new), E(!new), V(!new)>(p: Plan<D, E, V>, states: seq<State<D, E, V>>,
                                                                steps: seq<Step<D, E>>)
    requires Run(p, states, steps) && states[0].activeCount == 0
    ensures ActiveCounted(states[|steps|])
  {
    if steps == [] {
      assert InWork(states[0]) == {};
    } else {
      var n := |steps| - 1;
      RunCounts(p, states[..n + 1], steps[..n]);
      RunKeeps(p, states[..n + 1], steps[..n]);
      assert Follows(p, states[n], steps[n], states[n + 1]);
      StepCounts(p, states[n], steps[n]);
    }
  }

  /** An input closes its batch when that is asked for, when the batch is full, or when nothing is in work, there is
      another area and the batch is large enough. */
  lemma BatchClosedWhen<D(!new), E(!new), V(!new)>(p: Plan<D, E, V>, states: seq<State<D, E, V>>,
                                                   steps: seq<Step<D, E>>, x: Input<D, E>, flush: bool)
    requires Run(p, states, steps) && states[0].activeCount == 0
    requires Enabled(p, states[|steps|], Step<D, E>.Add(x, flush))
    ensures var s := states[|steps|];
            var u, staged := Apply(p, s, Step<D, E>.Add(x, flush)), s.partial + [x];
            if flush || |staged| == p.batchSize || (InWork(s) == {} && p.areas > 1 && |staged| >= p.minBatch)
            then u.batches == s.batches + [staged] && u.partial == []
            else u.batches == s.batches && u.partial == staged
  {
    RunCounts(p, states, steps);
  }

  /** Once `endInput` completes nothing is in work. */
  lemma NothingInWork<D(!new), E(!new), V(!new)>(p: Plan<D, E, V>, states: seq<State<D, E, V>>, steps: seq<Step<D, E>>)
    requires Run(p, states, steps) && states[0].activeCount == 0
    requires Sizes(p, states[|steps|]) && Complete(p, states[|steps|])
    ensures InWork(states[|steps|]) == {} && states[|steps|].activeCount == 0
  {
    var s := states[|steps|];
    RunCounts(p, states, steps);
    RunKeeps(p, states, steps);
    forall b: nat | b < |s.batches| ensures b in s.released { assert !Open(s, b); }
  }
}
