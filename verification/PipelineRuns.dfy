/** Whole runs of the pipeline, under every interleaving of its threads. */
module PipelineRuns {
  import opened TransferQueues
  import opened Pipeline
  import opened PipelineInvariant
  import opened PipelineAdding
  import opened PipelineTransfer
  import opened PipelineWorkers

  datatype Step<D, E> =
    | Add(x: Input<D, E>, flush: bool)
    | FlushNow
    | EndInput
    | TakeItem
    | LaunchKernel
    | SendRequest
    | PopRequest(t: nat)
    | ComputeCell(t: nat)
    | FinishRequest(t: nat)
    | LowerActive(t: nat)
    | ReleaseArea(t: nat)

  ghost predicate Enabled<D(!new), E(!new), V(!new)>(p: Plan<D, E, V>, s: State<D, E, V>, step: Step<D, E>) {
    match step
    case Add(x, flush) => Sizes(p, s) && !s.ended && s.inputs < p.batchSize && !s.active[s.current]
    case FlushNow => Sizes(p, s) && !s.ended
    case EndInput => Sizes(p, s) && !s.ended
    case TakeItem => CanTake(p, s)
    case LaunchKernel => s.kernel.Launching? && s.kernel.area < |s.refs|
    case SendRequest => CanSend(p, s)
    case PopRequest(t) => CanPop(s, t)
    case ComputeCell(t) => CanCompute(p, s, t)
    case FinishRequest(t) => CanFinish(p, s, t)
    case LowerActive(t) => t < |s.workers| && s.workers[t].Last?
    case ReleaseArea(t) => t < |s.workers| && s.workers[t].Releasing? && s.workers[t].area < |s.active|
  }

  ghost function Apply<D(!new), E(!new), V(!new)>(p: Plan<D, E, V>, s: State<D, E, V>, step: Step<D, E>): State<D, E, V>
    requires Enabled(p, s, step)
  {
    match step
    case Add(x, flush) => AddInput(p, s, x, flush)
    case FlushNow => Flush(p, s)
    case EndInput => Flush(p, s).(ended := true)
    case TakeItem => Take(p, s)
    case LaunchKernel => Launch(p, s)
    case SendRequest => Send(p, s)
    case PopRequest(t) => Pop(s, t)
    case ComputeCell(t) => Compute(p, s, t)
    case FinishRequest(t) => Finish(p, s, t)
    case LowerActive(t) => LowerCount(s, t)
    case ReleaseArea(t) => Release(s, t)
  }

  /** Nothing has been added; what the memory and the areas hold does not matter. */
  ghost predicate Initial<D(!new), E(!new), V(!new)>(p: Plan<D, E, V>, s: State<D, E, V>) {
    && Sizes(p, s) && !s.ended && s.queue == [] && s.kernel == Idle && !s.adding
    && (forall a :: 0 <= a < p.areas ==> !s.active[a])
    && (forall t :: 0 <= t < p.threads ==> s.queues[t] == [] && s.workers[t] == Resting)
    && s.batches == [] && s.partial == [] && s.started == 0 && s.released == {}
    && forall q :: 0 <= q < |p.parts| ==> s.done[q] == s.sent[q] == 0
  }

  lemma InitialInv<D(!new), E(!new), V(!new)>(p: Plan<D, E, V>, s: State<D, E, V>)
    requires Initial(p, s)
    ensures Inv(p, s)
  {
    assert Window(p, s) && Staged(p, s) && Transferring(p, s) && Counted(p, s);
    forall t | 0 <= t < p.threads ensures ThreadOK(p, s, t) { assert s.Outstanding(t) == []; }
    assert Working(p, s);
    assert Computed(p, s);
  }

  lemma EndedInv<D(!new), E(!new), V(!new)>(p: Plan<D, E, V>, s: State<D, E, V>)
    requires Inv(p, s) && s.partial == []
    ensures Inv(p, s.(ended := true))
  {
    var t := s.(ended := true);
    SameWindow(p, s, t);
    SameStaged(p, s, t);
    WorkingFrame(p, s, t);
    CountedFrame(p, s, t);
    ComputedFrame(p, s, t);
    assert Transferring(p, t);
  }

  /** Every step of every thread keeps the invariant. */
  lemma StepKeeps<D(!new), E(!new), V(!new)>(p: Plan<D, E, V>, s: State<D, E, V>, step: Step<D, E>)
    requires Inv(p, s) && Enabled(p, s, step)
    ensures Inv(p, Apply(p, s, step))
  {
    match step
    case Add(x, flush) => AddInputKeeps(p, s, x, flush);
    case FlushNow => FlushKeeps(p, s);
    case EndInput => FlushKeeps(p, s); EndedInv(p, Flush(p, s));
    case TakeItem => TakeKeeps(p, s);
    case LaunchKernel => LaunchKeeps(p, s);
    case SendRequest => SendKeeps(p, s);
    case PopRequest(t) => PopKeeps(p, s, t);
    case ComputeCell(t) => ComputeKeeps(p, s, t);
    case FinishRequest(t) => FinishKeeps(p, s, t);
    case LowerActive(t) => LowerCountKeeps(p, s, t);
    case ReleaseArea(t) => ReleaseKeeps(p, s, t);
  }

  /** A run: any steps of any threads in any order, as long as each can be taken. */
  ghost predicate Run<D(!new), E(!new), V(!new)>(p: Plan<D, E, V>, states: seq<State<D, E, V>>,
                                                 steps: seq<Step<D, E>>) {
    && |states| == |steps| + 1 && Initial(p, states[0])
    && forall i :: 0 <= i < |steps| ==> Follows(p, states[i], steps[i], states[i + 1])
  }

  ghost predicate Follows<D(!new), E(!new), V(!new)>(p: Plan<D, E, V>, s: State<D, E, V>, step: Step<D, E>,
                                                     t: State<D, E, V>) {
    Enabled(p, s, step) && t == Apply(p, s, step)
  }

  /** What the steps added, in order. */
  function InputsOf<D, E>(steps: seq<Step<D, E>>): seq<Input<D, E>> {
    if steps == [] then []
    else
      var n := |steps| - 1;
      InputsOf(steps[..n]) + if steps[n].Add? then [steps[n].x] else []
  }

  lemma StepAdds<D(!new), E(!new), V(!new)>(p: Plan<D, E, V>, s: State<D, E, V>, step: Step<D, E>)
    requires Inv(p, s) && Enabled(p, s, step)
    ensures Apply(p, s, step).Added() == s.Added() + if step.Add? then [step.x] else []
  {
    match step
    case Add(x, flush) => InputAdded(p, s, x, flush);
    case FlushNow => FlushKeeps(p, s);
    case EndInput => FlushKeeps(p, s); assert Apply(p, s, step).Added() == Flush(p, s).Added();
    case _ =>
  }

  lemma {:induction false} RunKeeps<D(!new), E(!new), V(!new)>(p: Plan<D, E, V>, states: seq<State<D, E, V>>,
                                                               steps: seq<Step<D, E>>)
    requires Run(p, states, steps)
    ensures Inv(p, states[|steps|]) && states[|steps|].Added() == InputsOf(steps)
  {
    if steps == [] {
      InitialInv(p, states[0]);
    } else {
      var n := |steps| - 1;
      RunKeeps(p, states[..n + 1], steps[..n]);
      assert Follows(p, states[n], steps[n], states[n + 1]);
      StepKeeps(p, states[n], steps[n]);
      StepAdds(p, states[n], steps[n]);
    }
  }
}
