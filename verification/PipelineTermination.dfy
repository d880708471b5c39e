/** Between two additions only so much can happen: every step of the transfer thread and of the workers uses up work. */
module PipelineTermination {
  import opened TransferQueues
  import opened WorkQueues
  import opened Pipeline
  import opened PipelineInvariant
  import opened PipelineResults
  import opened PipelineRuns
  import opened PipelineProgress

  // Sums.

  function Sum(s: seq<nat>): nat {
    if s == [] then 0 else s[0] + Sum(s[1..])
  }

  lemma {:induction false} SumConcat(a: seq<nat>, b: seq<nat>)
    ensures Sum(a + b) == Sum(a) + Sum(b)
  {
    if a == [] {
      assert a + b == b;
    } else {
      assert (a + b)[1..] == a[1..] + b;
      SumConcat(a[1..], b);
    }
  }

  lemma SumUpdate(s: seq<nat>, i: nat, x: nat)
    requires i < |s|
    ensures Sum(s[i := x]) + s[i] == Sum(s) + x
  {
    assert s == s[..i] + ([s[i]] + s[i + 1..]) && s[i := x] == s[..i] + ([x] + s[i + 1..]);
    SumConcat(s[..i], [s[i]] + s[i + 1..]);
    SumConcat(s[..i], [x] + s[i + 1..]);
  }

  // How many steps are still to come, at most.

  /** A request is popped, computed cell by cell and finished; the last worker lowers the count and frees the area. */
  function RequestCost(parts: seq<Part>, q: nat): nat {
    if q < |parts| then |parts[q].cells| + 4 else 0
  }

  /** The requests for the parts from `q` on, each with the step that sends it. */
  function SendCost(parts: seq<Part>, q: nat): nat
    decreases |parts| - q
  {
    if q < |parts| then RequestCost(parts, q) + 1 + SendCost(parts, q + 1) else 0
  }

  function ItemCost<D>(parts: seq<Part>, x: Item<D>): nat {
    if x.submit > 0 then SendCost(parts, 0) + 2 else 1
  }

  function KernelCost(parts: seq<Part>, k: Kernel): nat {
    match k
    case Idle => 0
    case Launching(_, _, _) => SendCost(parts, 0) + 1
    case Sending(_, _, _, next, _) => SendCost(parts, next)
  }

  function WorkerCost(parts: seq<Part>, w: Worker): nat {
    match w
    case Resting => 0
    case Busy(r, cell) =>
      if r.part < |parts| && cell <= |parts[r.part].cells| then |parts[r.part].cells| - cell + 3 else 0
    case Last(_, _) => 2
    case Releasing(_, _) => 1
  }

  function ItemCosts<D>(parts: seq<Part>, q: seq<Item<D>>): (c: seq<nat>)
    ensures |c| == |q| && forall i :: 0 <= i < |q| ==> c[i] == ItemCost(parts, q[i])
  {
    seq(|q|, i requires 0 <= i < |q| => ItemCost(parts, q[i]))
  }

  function RequestCosts(parts: seq<Part>, q: seq<Request>): (c: seq<nat>)
    ensures |c| == |q| && forall i :: 0 <= i < |q| ==> c[i] == RequestCost(parts, q[i].part)
  {
    seq(|q|, i requires 0 <= i < |q| => RequestCost(parts, q[i].part))
  }

  function QueueCosts(parts: seq<Part>, queues: seq<seq<Request>>): (c: seq<nat>)
    ensures |c| == |queues| && forall t :: 0 <= t < |queues| ==> c[t] == Sum(RequestCosts(parts, queues[t]))
  {
    seq(|queues|, t requires 0 <= t < |queues| => Sum(RequestCosts(parts, queues[t])))
  }

  function WorkerCosts(parts: seq<Part>, workers: seq<Worker>): (c: seq<nat>)
    ensures |c| == |workers| && forall t :: 0 <= t < |workers| ==> c[t] == WorkerCost(parts, workers[t])
  {
    seq(|workers|, t requires 0 <= t < |workers| => WorkerCost(parts, workers[t]))
  }

  function Remaining<D(!new), E(!new), V(!new)>(parts: seq<Part>, s: State<D, E, V>): nat {
    Sum(ItemCosts(parts, s.queue)) + KernelCost(parts, s.kernel)
    + Sum(QueueCosts(parts, s.queues)) + Sum(WorkerCosts(parts, s.workers))
  }

  // One change at a time.

  lemma ItemTaken<D>(parts: seq<Part>, q: seq<Item<D>>)
    requires q != []
    ensures Sum(ItemCosts(parts, q)) == ItemCost(parts, q[0]) + Sum(ItemCosts(parts, q[1..]))
  {
    assert ItemCosts(parts, q)[1..] == ItemCosts(parts, q[1..]);
  }

  lemma QueueChanged(parts: seq<Part>, queues: seq<seq<Request>>, t: nat, q: seq<Request>)
    requires t < |queues|
    ensures Sum(QueueCosts(parts, queues[t := q])) + Sum(RequestCosts(parts, queues[t]))
         == Sum(QueueCosts(parts, queues)) + Sum(RequestCosts(parts, q))
  {
    assert QueueCosts(parts, queues[t := q]) == QueueCosts(parts, queues)[t := Sum(RequestCosts(parts, q))];
    SumUpdate(QueueCosts(parts, queues), t, Sum(RequestCosts(parts, q)));
  }

  lemma RequestSent(parts: seq<Part>, q: seq<Request>, r: Request)
    ensures Sum(RequestCosts(parts, q + [r])) == Sum(RequestCosts(parts, q)) + RequestCost(parts, r.part)
  {
    assert RequestCosts(parts, q + [r]) == RequestCosts(parts, q) + [RequestCost(parts, r.part)];
    SumConcat(RequestCosts(parts, q), [RequestCost(parts, r.part)]);
  }

  lemma RequestPopped(parts: seq<Part>, q: seq<Request>)
    requires q != []
    ensures Sum(RequestCosts(parts, q)) == RequestCost(parts, q[0].part) + Sum(RequestCosts(parts, q[1..]))
  {
    assert RequestCosts(parts, q)[1..] == RequestCosts(parts, q[1..]);
  }

  lemma WorkerChanged(parts: seq<Part>, workers: seq<Worker>, t: nat, w: Worker)
    requires t < |workers|
    ensures Sum(WorkerCosts(parts, workers[t := w])) + WorkerCost(parts, workers[t])
         == Sum(WorkerCosts(parts, workers)) + WorkerCost(parts, w)
  {
    assert WorkerCosts(parts, workers[t := w]) == WorkerCosts(parts, workers)[t := WorkerCost(parts, w)];
    SumUpdate(WorkerCosts(parts, workers), t, WorkerCost(parts, w));
  }

  // Every step that adds nothing.

  predicate Adds<D, E>(step: Step<D, E>) {
    step.Add? || step.FlushNow? || step.EndInput?
  }

  lemma SendUses<D(!new), E(!new), V(!new)>(p: Plan<D, E, V>, s: State<D, E, V>)
    requires CanSend(p, s)
    ensures Remaining(p.parts, Send(p, s)) < Remaining(p.parts, s)
  {
    var k := s.kernel;
    var t := p.parts[k.next].thread;
    QueueChanged(p.parts, s.queues, t, s.queues[t] + [NextRequest(k)]);
    RequestSent(p.parts, s.queues[t], NextRequest(k));
  }

  lemma PopUses<D(!new), E(!new), V(!new)>(p: Plan<D, E, V>, s: State<D, E, V>, t: nat)
    requires Inv(p, s) && CanPop(s, t)
    ensures Remaining(p.parts, Pop(s, t)) < Remaining(p.parts, s)
  {
    var r := s.queues[t][0];
    assert ThreadOK(p, s, t) && s.Outstanding(t)[0] == r;
    QueueChanged(p.parts, s.queues, t, s.queues[t][1..]);
    RequestPopped(p.parts, s.queues[t]);
    WorkerChanged(p.parts, s.workers, t, Busy(r, 0));
  }

  lemma ComputeUses<D(!new), E(!new), V(!new)>(p: Plan<D, E, V>, s: State<D, E, V>, t: nat)
    requires CanCompute(p, s, t)
    ensures Remaining(p.parts, Compute(p, s, t)) < Remaining(p.parts, s)
  {
    WorkerChanged(p.parts, s.workers, t, Busy(s.workers[t].request, s.workers[t].cell + 1));
  }

  lemma FinishUses<D(!new), E(!new), V(!new)>(p: Plan<D, E, V>, s: State<D, E, V>, t: nat)
    requires CanFinish(p, s, t)
    ensures Remaining(p.parts, Finish(p, s, t)) < Remaining(p.parts, s)
  {
    WorkerChanged(p.parts, s.workers, t, Finish(p, s, t).workers[t]);
  }

  /** Whatever the transfer thread or a worker does, less remains to be done. */
  lemma StepUses<D(!new), E(!new), V(!new)>(p: Plan<D, E, V>, s: State<D, E, V>, step: Step<D, E>)
    requires Inv(p, s) && Enabled(p, s, step) && !Adds(step)
    ensures Remaining(p.parts, Apply(p, s, step)) < Remaining(p.parts, s)
  {
    match step
    case TakeItem => ItemTaken(p.parts, s.queue);
    case LaunchKernel =>
    case SendRequest => SendUses(p, s);
    case PopRequest(t) => PopUses(p, s, t);
    case ComputeCell(t) => ComputeUses(p, s, t);
    case FinishRequest(t) => FinishUses(p, s, t);
    case LowerActive(t) => WorkerChanged(p.parts, s.workers, t, Releasing(s.workers[t].area, s.workers[t].batch));
    case ReleaseArea(t) => WorkerChanged(p.parts, s.workers, t, Resting);
  }

  /** From step `n` on nothing is added. */
  predicate OnlyWork<D, E>(steps: seq<Step<D, E>>, n: nat) {
    forall i :: n <= i < |steps| ==> !Adds(steps[i])
  }

  /** However the threads are interleaved, only so many steps fit between two additions. */
  lemma {:induction false} WorkIsBounded<D(!new), E(!new), V(!new)>(p: Plan<D, E, V>, states: seq<State<D, E, V>>,
                                                                    steps: seq<Step<D, E>>, n: nat)
    requires Run(p, states, steps) && n <= |steps| && OnlyWork(steps, n)
    ensures |steps| - n + Remaining(p.parts, states[|steps|]) <= Remaining(p.parts, states[n])
    decreases |steps|
  {
    if n < |steps| {
      var k := |steps| - 1;
      WorkIsBounded(p, states[..k + 1], steps[..k], n);
      RunKeeps(p, states[..k + 1], steps[..k]);
      assert Follows(p, states[k], steps[k], states[k + 1]);
      StepUses(p, states[k], steps[k]);
    }
  }

  /** The transfer thread or a worker can do something. */
  ghost predicate CanGoOn<D(!new), E(!new), V(!new)>(p: Plan<D, E, V>, s: State<D, E, V>) {
    exists step :: Enabled(p, s, step) && !Adds(step)
  }

  /** `endInput` completes: once it has been called only so many steps can follow, and when none can, every staging
      area is free. */
  lemma EndInputCompletes<D(!new), E(!new), V(!new)>(p: Plan<D, E, V>, states: seq<State<D, E, V>>,
                                                     steps: seq<Step<D, E>>, n: nat)
    requires Run(p, states, steps) && n <= |steps| && states[n].ended
    ensures |steps| - n <= Remaining(p.parts, states[n])
    ensures Sizes(p, states[|steps|]) && (CanGoOn(p, states[|steps|]) || Complete(p, states[|steps|]))
  {
    var s := states[|steps|];
    EndedStays(p, states, steps, n);
    WorkIsBounded(p, states, steps, n);
    RunKeeps(p, states, steps);
    if a :| 0 <= a < p.areas && s.active[a] {
      var step := NeverStuck(p, states, steps, a);
    }
  }

  lemma {:induction false} EndedStays<D(!new), E(!new), V(!new)>(p: Plan<D, E, V>, states: seq<State<D, E, V>>,
                                                                 steps: seq<Step<D, E>>, n: nat)
    requires Run(p, states, steps) && n <= |steps| && states[n].ended
    ensures states[|steps|].ended && OnlyWork(steps, n)
    decreases |steps|
  {
    if n < |steps| {
      var k := |steps| - 1;
      EndedStays(p, states[..k + 1], steps[..k], n);
      assert Follows(p, states[k], steps[k], states[k + 1]);
    }
  }
}
