/** What every run of the pipeline guarantees. */
module PipelineResults {
  import opened TransferQueues
  import opened Pipeline
  import opened PipelineInvariant
  import opened PipelineTransfer
  import opened PipelineWorkers
  import opened PipelineRuns

  // The sums.

  lemma {:induction false} AddAllConcat<D(!new), E(!new), V(!new)>(p: Plan<D, E, V>, v: V, a: seq<Input<D, E>>,
                                                                   b: seq<Input<D, E>>, c: nat)
    ensures p.AddAll(v, a + b, c) == p.AddAll(p.AddAll(v, a, c), b, c)
  {
    if b == [] {
      assert a + b == a;
    } else {
      var n := |b| - 1;
      assert (a + b)[..|a + b| - 1] == a + b[..n];
      AddAllConcat(p, v, a, b[..n], c);
    }
  }

  /** Where one batch ends and the next begins makes no difference. */
  lemma {:induction false} BatchesDoNotMatter<D(!new), E(!new), V(!new)>(p: Plan<D, E, V>,
                                                                         batches: seq<seq<Input<D, E>>>, c: nat, k: nat)
    requires k <= |batches|
    ensures p.SumTo(batches, c, k) == p.AddAll(p.zero, Concat(batches[..k]), c)
  {
    if k > 0 {
      BatchesDoNotMatter(p, batches, c, k - 1);
      assert batches[..k][..k - 1] == batches[..k - 1];
      AddAllConcat(p, p.zero, Concat(batches[..k - 1]), batches[k - 1], c);
    } else {
      assert batches[..0] == [];
    }
  }

  /** `endInput` has been called and has returned: every staging area is free. */
  ghost predicate Complete<D(!new), E(!new), V(!new)>(p: Plan<D, E, V>, s: State<D, E, V>)
    requires Sizes(p, s)
  {
    s.ended && forall a :: 0 <= a < p.areas ==> !s.active[a]
  }

  lemma EveryBatchReleased<D(!new), E(!new), V(!new)>(p: Plan<D, E, V>, s: State<D, E, V>, q: nat)
    requires Inv(p, s) && Complete(p, s) && q < |p.parts|
    ensures s.done[q] == s.sent[q] == s.started == |s.batches|
  {
    var n := |s.batches|;
    assert s.done[q] <= s.sent[q] == SentTo(s, q);
    if n > 0 {
      assert !Open(s, n - 1);
      assert AllPast(s.done, n - 1);
    }
  }

  lemma CellComplete<D(!new), E(!new), V(!new)>(p: Plan<D, E, V>, s: State<D, E, V>, q: nat, j: nat)
    requires Inv(p, s) && Complete(p, s) && q < |p.parts| && j < |p.parts[q].cells| && s.batches != []
    ensures var c := p.parts[q].cells[j]; s.memory[c] == p.AddAll(p.zero, s.Added(), c)
  {
    var c := p.parts[q].cells[j];
    EveryBatchReleased(p, s, q);
    assert CellOK(p, s, q, j);
    assert s.batches[..|s.batches|] == s.batches;
    BatchesDoNotMatter(p, s.batches, c, |s.batches|);
    assert s.Added() == Concat(s.batches);
  }

  lemma {:induction false} SomethingAdded<T>(ss: seq<seq<T>>)
    requires forall i :: 0 <= i < |ss| ==> ss[i] != []
    ensures Concat(ss) == [] <==> ss == []
  {
    if ss != [] { SomethingAdded(ss[..|ss| - 1]); }
  }

  /** Once `endInput` completes, every output cell is the sum of the contributions of all inputs that were added,
      whatever the interleaving, the batch boundaries, the number of threads and areas and the division into parts.
      If nothing was added, no result has been started. */
  lemma EveryCellIsTheSum<D(!new), E(!new), V(!new)>(p: Plan<D, E, V>, states: seq<State<D, E, V>>,
                                                     steps: seq<Step<D, E>>)
    requires Run(p, states, steps) && Sizes(p, states[|steps|]) && Complete(p, states[|steps|])
    ensures var s := states[|steps|];
            && (s.adding <==> InputsOf(steps) != [])
            && forall q, j :: 0 <= q < |p.parts| && 0 <= j < |p.parts[q].cells| && s.adding ==>
                 s.memory[p.parts[q].cells[j]] == p.AddAll(p.zero, InputsOf(steps), p.parts[q].cells[j])
  {
    var s := states[|steps|];
    RunKeeps(p, states, steps);
    SomethingAdded(s.batches);
    EveryBatchReleased(p, s, 0);
    assert s.Added() == Concat(s.batches);
    forall q, j | 0 <= q < |p.parts| && 0 <= j < |p.parts[q].cells| && s.adding
      ensures s.memory[p.parts[q].cells[j]] == p.AddAll(p.zero, InputsOf(steps), p.parts[q].cells[j])
    {
      CellComplete(p, s, q, j);
    }
  }

  // Nobody writes what a worker still reads.

  /** The kernel is about to hand the area to workers, or some worker has a request for it. */
  ghost predicate Held<D(!new), E(!new), V(!new)>(p: Plan<D, E, V>, s: State<D, E, V>, area: nat)
    requires Sizes(p, s)
  {
    || (s.kernel.Launching? && s.kernel.area == area)
    || (s.kernel.Sending? && s.kernel.area == area)
    || exists t, i :: 0 <= t < p.threads && 0 <= i < |s.Outstanding(t)| && s.Outstanding(t)[i].area == area
  }

  /** The staging area that a step writes to: coefficients when an input is added, slices when one is copied. */
  ghost predicate Writes<D(!new), E(!new), V(!new)>(p: Plan<D, E, V>, s: State<D, E, V>, step: Step<D, E>, area: nat) {
    || (step.Add? && area == s.current)
    || (step.TakeItem? && s.queue != [] && s.queue[0].data.Some? && s.queue[0].area == area)
  }

  lemma HeldIsOpen<D(!new), E(!new), V(!new)>(p: Plan<D, E, V>, s: State<D, E, V>, area: nat) returns (b: nat)
    requires Inv(p, s) && Held(p, s, area)
    ensures Open(s, b) && b < s.Pending() && b < |s.batches| && p.Area(b) == area
  {
    if s.kernel.Launching? && s.kernel.area == area {
      b := s.kernel.batch;
    } else if s.kernel.Sending? && s.kernel.area == area {
      b := s.kernel.batch;
      var q := s.kernel.next;
      assert s.done[q] <= s.sent[q] == SentTo(s, q);
      assert !AllPast(s.done, b);
    } else {
      var t, i :| 0 <= t < p.threads && 0 <= i < |s.Outstanding(t)| && s.Outstanding(t)[i].area == area;
      assert ThreadOK(p, s, t);
      var r := s.Outstanding(t)[i];
      assert RequestOK(p, s, r) && s.done[r.part] <= r.batch;
      b := r.batch;
      assert !AllPast(s.done, b);
    }
  }

  /** No step writes a staging area or its coefficients while the kernel or a worker still holds it. */
  lemma NoWriteWhileHeld<D(!new), E(!new), V(!new)>(p: Plan<D, E, V>, s: State<D, E, V>, step: Step<D, E>, area: nat)
    requires Inv(p, s) && Enabled(p, s, step) && Writes(p, s, step, area)
    ensures !Held(p, s, area)
  {
    if Held(p, s, area) {
      var b := HeldIsOpen(p, s, area);
      if step.TakeItem? {
        HeadFits(p, s);
        OneBatchPerArea(p, s, b, s.queue[0].batch);
      }
    }
  }

  lemma NoWriteWhileHeldInRuns<D(!new), E(!new), V(!new)>(p: Plan<D, E, V>, states: seq<State<D, E, V>>,
                                                          steps: seq<Step<D, E>>, step: Step<D, E>, area: nat)
    requires Run(p, states, steps) && Sizes(p, states[|steps|])
    requires Enabled(p, states[|steps|], step) && Writes(p, states[|steps|], step, area)
    ensures !Held(p, states[|steps|], area)
  {
    RunKeeps(p, states, steps);
    NoWriteWhileHeld(p, states[|steps|], step, area);
  }

  /** Two workers never compute the same cell at the same time. */
  lemma NoTwoWriters<D(!new), E(!new), V(!new)>(p: Plan<D, E, V>, s: State<D, E, V>, t: nat, u: nat)
    requires Inv(p, s) && t < p.threads && u < p.threads && t != u
    requires Enabled(p, s, Step<D, E>.ComputeCell(t)) && Enabled(p, s, Step<D, E>.ComputeCell(u))
    ensures p.parts[s.workers[t].request.part].cells[s.workers[t].cell]
         != p.parts[s.workers[u].request.part].cells[s.workers[u].cell]
  {
    InHand(p, s, t);
    InHand(p, s, u);
  }
}
