/** The parallel multiply-add: one adding thread, one transfer thread and any number of workers, step by step. */
module Pipeline {
  import opened Options
  import opened TransferQueues
  import opened WorkQueues

  /** How the work is laid out. The multiply-add of one input to one cell is left open. */
  datatype Plan<!D(!new), !E(!new), !V(!new)> = Plan(
    areas: nat, batchSize: nat, minBatch: nat, threads: nat, cells: nat, parts: seq<Part>,
    zero: V, muladd: (V, Input<D, E>, nat) -> V)
  {
    ghost predicate Valid() {
      && areas > 0 && batchSize > 0 && parts != []
      && (forall p :: 0 <= p < |parts| ==> parts[p].thread < threads)
      && (forall p, j :: 0 <= p < |parts| && 0 <= j < |parts[p].cells| ==> parts[p].cells[j] < cells)
      && (forall p, j, q, k :: 0 <= p < |parts| && 0 <= j < |parts[p].cells|
                               && 0 <= q < |parts| && 0 <= k < |parts[q].cells| ==>
            parts[p].cells[j] == parts[q].cells[k] ==> p == q && j == k)
    }

    /** A batch added to the value of a cell, one input after the other. */
    function AddAll(v: V, inputs: seq<Input<D, E>>, c: nat): V {
      if inputs == [] then v else muladd(AddAll(v, inputs[..|inputs| - 1], c), inputs[|inputs| - 1], c)
    }

    /** The first `k` batches. */
    function SumTo(batches: seq<seq<Input<D, E>>>, c: nat, k: nat): V
      requires k <= |batches|
    {
      if k == 0 then zero else AddAll(SumTo(batches, c, k - 1), batches[k - 1], c)
    }

    /** Staging areas are used in turn. */
    function Area(b: nat): nat
      requires areas > 0
    {
      b % areas
    }
  }

  /** What the transfer thread is doing besides copying: about to run the kernel, or sending its requests. */
  datatype Kernel =
    | Idle
    | Launching(area: nat, count: nat, batch: nat)
    | Sending(area: nat, count: nat, add: bool, next: nat, batch: nat)

  /** A worker that took the last reference away still has to lower the count of active areas and to free the area. */
  datatype Worker =
    | Resting
    | Busy(request: Request, cell: nat)
    | Last(area: nat, batch: nat)
    | Releasing(area: nat, batch: nat)

  datatype State<D(!new), E(!new), V(!new)> = State(
    active: seq<bool>, refs: seq<int>, src: seq<seq<D>>, coeffs: seq<seq<E>>,
    current: nat, inputs: nat, activeCount: int, ended: bool,
    queue: seq<Item<D>>, kernel: Kernel, adding: bool,
    queues: seq<seq<Request>>, workers: seq<Worker>, memory: seq<V>,
    // History, for the proofs only: nothing above depends on it.
    batches: seq<seq<Input<D, E>>>, partial: seq<Input<D, E>>,
    started: nat, released: set<nat>, done: seq<nat>, sent: seq<nat>)
  {
    /** The requests that thread `t` has in hand or in its queue. */
    function Outstanding(t: nat): seq<Request>
      requires t < |workers| && t < |queues|
    {
      if workers[t].Busy? then [workers[t].request] + queues[t] else queues[t]
    }

    function Pending(): nat {
      if kernel.Launching? then started + 1 else started
    }

    /** Everything that has been added, in order. */
    function Added(): seq<Input<D, E>> {
      Concat(batches) + partial
    }
  }

  function Concat<T>(ss: seq<seq<T>>): seq<T> {
    if ss == [] then [] else Concat(ss[..|ss| - 1]) + ss[|ss| - 1]
  }

  /** Put one element of one row in place. */
  function Put<T>(m: seq<seq<T>>, i: nat, j: nat, x: T): (r: seq<seq<T>>)
    requires i < |m| && j < |m[i]|
    ensures |r| == |m| && forall k :: 0 <= k < |m| ==> |r[k]| == |m[k]|
    ensures forall k, l :: 0 <= k < |m| && 0 <= l < |m[k]| ==> r[k][l] == if k == i && l == j then x else m[k][l]
  {
    m[i := m[i][j := x]]
  }

  /** The inputs in the first slots of a staging area. */
  function Slots<D, E>(src: seq<D>, coeffs: seq<E>, count: nat): (s: seq<Input<D, E>>)
    requires count <= |src| && count <= |coeffs|
    ensures |s| == count && forall i :: 0 <= i < count ==> s[i] == Input(src[i], coeffs[i])
  {
    seq(count, i requires 0 <= i < count => Input(src[i], coeffs[i]))
  }

  // The sizes of things, so that the steps below are well defined.

  ghost predicate Sizes<D(!new), E(!new), V(!new)>(p: Plan<D, E, V>, s: State<D, E, V>) {
    && p.Valid()
    && |s.active| == |s.refs| == |s.src| == |s.coeffs| == p.areas
    && (forall a :: 0 <= a < p.areas ==> |s.src[a]| == |s.coeffs[a]| == p.batchSize)
    && |s.queues| == |s.workers| == p.threads && |s.memory| == p.cells
    && |s.done| == |s.sent| == |p.parts|
    && s.current == p.Area(|s.batches|) && s.inputs == |s.partial| <= p.batchSize
    && (forall b :: 0 <= b < |s.batches| ==> 0 < |s.batches[b]| <= p.batchSize)
    && s.started <= |s.batches| && (s.ended ==> s.partial == [])
  }

  // Steps of the adding thread.

  /** The staged inputs become a batch, and the next area is taken. */
  function Submit<D(!new), E(!new), V(!new)>(p: Plan<D, E, V>, s: State<D, E, V>): State<D, E, V>
    requires p.areas > 0 && s.current < |s.active|
  {
    s.(activeCount := s.activeCount + 1, active := s.active[s.current := true],
       current := if s.current + 1 == p.areas then 0 else s.current + 1, inputs := 0,
       batches := s.batches + [s.partial], partial := [])
  }

  predicate SubmitsNow<D(!new), E(!new), V(!new)>(p: Plan<D, E, V>, s: State<D, E, V>, flush: bool) {
    flush || s.inputs + 1 == p.batchSize || (s.activeCount == 0 && p.areas > 1 && s.inputs + 1 >= p.minBatch)
  }

  function AddInput<D(!new), E(!new), V(!new)>(p: Plan<D, E, V>, s: State<D, E, V>, x: Input<D, E>,
                                               flush: bool): State<D, E, V>
    requires Sizes(p, s) && s.inputs < p.batchSize
  {
    var submits := SubmitsNow(p, s, flush);
    var item := Item(s.current, s.inputs, Some(x.data), if submits then s.inputs + 1 else 0, |s.batches|);
    var t := s.(coeffs := Put(s.coeffs, s.current, s.inputs, x.coeff), queue := s.queue + [item],
                inputs := s.inputs + 1, partial := s.partial + [x]);
    if submits then Submit(p, t) else t
  }

  function Flush<D(!new), E(!new), V(!new)>(p: Plan<D, E, V>, s: State<D, E, V>): State<D, E, V>
    requires Sizes(p, s)
  {
    if s.inputs == 0 then s
    else Submit(p, s.(queue := s.queue + [Item(s.current, 0, None, s.inputs, |s.batches|)]))
  }

  // Steps of the transfer thread.

  ghost predicate CanTake<D(!new), E(!new), V(!new)>(p: Plan<D, E, V>, s: State<D, E, V>) {
    && s.kernel.Idle? && s.queue != []
    && s.queue[0].area < |s.src| && (s.queue[0].data.Some? ==> s.queue[0].slot < |s.src[s.queue[0].area]|)
  }

  function Take<D(!new), E(!new), V(!new)>(p: Plan<D, E, V>, s: State<D, E, V>): State<D, E, V>
    requires CanTake(p, s)
  {
    var x := s.queue[0];
    s.(queue := s.queue[1..],
       src := if x.data.Some? then Put(s.src, x.area, x.slot, x.data.value) else s.src,
       kernel := if x.submit > 0 then Launching(x.area, x.submit, x.batch) else Idle)
  }

  /** `run_kernel` begins: from now on results are added to, and the area is held once for each request. */
  function Launch<D(!new), E(!new), V(!new)>(p: Plan<D, E, V>, s: State<D, E, V>): State<D, E, V>
    requires s.kernel.Launching? && s.kernel.area < |s.refs|
  {
    s.(kernel := Sending(s.kernel.area, s.kernel.count, s.adding, 0, s.kernel.batch), adding := true,
       refs := s.refs[s.kernel.area := |p.parts|], started := s.started + 1)
  }

  function NextRequest(k: Kernel): Request
    requires k.Sending?
  {
    Request(k.area, k.count, k.add, k.next, k.batch)
  }

  predicate CanSend<D(!new), E(!new), V(!new)>(p: Plan<D, E, V>, s: State<D, E, V>) {
    s.kernel.Sending? && s.kernel.next < |p.parts| == |s.sent| && p.parts[s.kernel.next].thread < |s.queues|
  }

  function Send<D(!new), E(!new), V(!new)>(p: Plan<D, E, V>, s: State<D, E, V>): State<D, E, V>
    requires CanSend(p, s)
  {
    var k := s.kernel;
    var t := p.parts[k.next].thread;
    s.(queues := s.queues[t := s.queues[t] + [NextRequest(k)]],
       kernel := if k.next + 1 == |p.parts| then Idle else k.(next := k.next + 1),
       sent := s.sent[k.next := k.batch + 1])
  }

  // Steps of worker `t`.

  predicate CanPop<D(!new), E(!new), V(!new)>(s: State<D, E, V>, t: nat) {
    t < |s.workers| == |s.queues| && s.workers[t].Resting? && s.queues[t] != []
  }

  function Pop<D(!new), E(!new), V(!new)>(s: State<D, E, V>, t: nat): State<D, E, V>
    requires CanPop(s, t)
  {
    s.(workers := s.workers[t := Busy(s.queues[t][0], 0)], queues := s.queues[t := s.queues[t][1..]])
  }

  ghost predicate CanCompute<D(!new), E(!new), V(!new)>(p: Plan<D, E, V>, s: State<D, E, V>, t: nat) {
    && t < |s.workers| && s.workers[t].Busy?
    && var r := s.workers[t].request;
       && r.part < |p.parts| && s.workers[t].cell < |p.parts[r.part].cells|
       && p.parts[r.part].cells[s.workers[t].cell] < |s.memory|
       && r.area < |s.src| && r.area < |s.coeffs| && r.count <= |s.src[r.area]| && r.count <= |s.coeffs[r.area]|
  }

  /** One cell: start from zero unless results are added to, then take in every input of the area. */
  function Compute<D(!new), E(!new), V(!new)>(p: Plan<D, E, V>, s: State<D, E, V>, t: nat): State<D, E, V>
    requires CanCompute(p, s, t)
  {
    var r, j := s.workers[t].request, s.workers[t].cell;
    var c := p.parts[r.part].cells[j];
    var v := p.AddAll(if r.add then s.memory[c] else p.zero, Slots(s.src[r.area], s.coeffs[r.area], r.count), c);
    s.(memory := s.memory[c := v], workers := s.workers[t := Busy(r, j + 1)])
  }

  predicate CanFinish<D(!new), E(!new), V(!new)>(p: Plan<D, E, V>, s: State<D, E, V>, t: nat) {
    && t < |s.workers| && s.workers[t].Busy?
    && var r := s.workers[t].request;
       r.part < |p.parts| == |s.done| && s.workers[t].cell == |p.parts[r.part].cells| && r.area < |s.refs|
  }

  /** Give the reference back. */
  function Finish<D(!new), E(!new), V(!new)>(p: Plan<D, E, V>, s: State<D, E, V>, t: nat): State<D, E, V>
    requires CanFinish(p, s, t)
  {
    var r := s.workers[t].request;
    s.(refs := s.refs[r.area := s.refs[r.area] - 1],
       workers := s.workers[t := if s.refs[r.area] <= 1 then Last(r.area, r.batch) else Resting],
       done := s.done[r.part := r.batch + 1])
  }

  function LowerCount<D(!new), E(!new), V(!new)>(s: State<D, E, V>, t: nat): State<D, E, V>
    requires t < |s.workers| && s.workers[t].Last?
  {
    s.(activeCount := s.activeCount - 1, workers := s.workers[t := Releasing(s.workers[t].area, s.workers[t].batch)])
  }

  function Release<D(!new), E(!new), V(!new)>(s: State<D, E, V>, t: nat): State<D, E, V>
    requires t < |s.workers| && s.workers[t].Releasing? && s.workers[t].area < |s.active|
  {
    s.(active := s.active[s.workers[t].area := false], workers := s.workers[t := Resting],
       released := s.released + {s.workers[t].batch})
  }
}
