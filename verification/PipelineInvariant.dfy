/** What holds in every state of the pipeline. */
module PipelineInvariant {
  import opened TransferQueues
  import opened WorkQueues
  import opened Pipeline
  import opened Arithmetic

  ghost predicate AllPast(done: seq<nat>, b: nat) {
    forall q :: 0 <= q < |done| ==> b < done[q]
  }

  /** Batch `b` occupies its staging area: it has been submitted and its area not been freed, or it is being staged. */
  predicate Open<D(!new), E(!new), V(!new)>(s: State<D, E, V>, b: nat) {
    b <= |s.batches| && b !in s.released && (b < |s.batches| || s.partial != [])
  }

  /** Only the latest batches are open, one for each area, and submitted ones keep their area active. */
  ghost predicate Window<D(!new), E(!new), V(!new)>(p: Plan<D, E, V>, s: State<D, E, V>)
    requires Sizes(p, s)
  {
    && (forall b :: b in s.released ==> b < s.started && AllPast(s.done, b))
    && (forall b: nat {:trigger Open(s, b)} :: Open(s, b) ==>
          b + p.areas >= |s.batches| && (b < |s.batches| ==> s.active[p.Area(b)]))
    && (s.partial != [] ==> !s.active[s.current]) && |s.partial| < p.batchSize
  }

  lemma AreasApart(areas: nat, a: nat, b: nat)
    requires areas > 0 && a < b < a + areas
    ensures a % areas != b % areas
  {
    DivMod(a, areas);
    DivMod(b, areas);
    if b / areas > a / areas { MulMono(a / areas + 1, b / areas, areas); }
    if b / areas < a / areas { MulMono(b / areas + 1, a / areas, areas); }
  }

  lemma AreaReturns(areas: nat, b: nat)
    requires areas > 0
    ensures (b + areas) % areas == b % areas
  {
    DivMod(b, areas);
    DivModUnique(b + areas, areas, b / areas + 1, b % areas);
  }

  lemma NextRemainder(areas: nat, b: nat, q: nat, r: nat)
    requires areas > 0 && b == q * areas + r && r < areas
    ensures (b + 1) % areas == if r + 1 == areas then 0 else r + 1
  {
    assert (q + 1) * areas == q * areas + areas;
    if r + 1 == areas {
      DivModUnique(b + 1, areas, q + 1, 0);
    } else {
      DivModUnique(b + 1, areas, q, r + 1);
    }
  }

  lemma NextArea(areas: nat, b: nat)
    requires areas > 0
    ensures (b + 1) % areas == if b % areas + 1 == areas then 0 else b % areas + 1
  {
    DivMod(b, areas);
    NextRemainder(areas, b, b / areas, b % areas);
  }

  lemma OneBatchPerArea<D(!new), E(!new), V(!new)>(p: Plan<D, E, V>, s: State<D, E, V>, a: nat, b: nat)
    requires Sizes(p, s) && Window(p, s) && Open(s, a) && Open(s, b) && p.Area(a) == p.Area(b)
    ensures a == b
  {
    if a < b {
      if b < a + p.areas { AreasApart(p.areas, a, b); }
      AreaReturns(p.areas, a);
    } else if b < a {
      if a < b + p.areas { AreasApart(p.areas, b, a); }
      AreaReturns(p.areas, b);
    }
  }

  ghost predicate SlotOK<D(!new), E(!new), V(!new)>(p: Plan<D, E, V>, s: State<D, E, V>, b: nat, slot: nat)
    requires Sizes(p, s) && b <= |s.batches| && slot < |Contents(s.batches, s.partial, b)|
  {
    var x := Contents(s.batches, s.partial, b)[slot];
    && s.coeffs[p.Area(b)][slot] == x.coeff
    && (s.src[p.Area(b)][slot] == x.data || Fills(s.queue, b, slot))
  }

  /** The areas of open batches hold their coefficients, and their slices unless those are still on the way. */
  ghost predicate Staged<D(!new), E(!new), V(!new)>(p: Plan<D, E, V>, s: State<D, E, V>)
    requires Sizes(p, s)
  {
    forall b: nat, slot: nat {:trigger SlotOK(p, s, b, slot)} ::
      Open(s, b) && slot < |Contents(s.batches, s.partial, b)| ==> SlotOK(p, s, b, slot)
  }

  ghost predicate Transferring<D(!new), E(!new), V(!new)>(p: Plan<D, E, V>, s: State<D, E, V>)
    requires Sizes(p, s)
  {
    && Proper(s.queue, s.batches, s.partial, p.areas, s.Pending())
    && (forall b :: s.Pending() <= b < |s.batches| ==> Launches(s.queue, b))
    && s.adding == (s.started > 0)
    && match s.kernel
       case Idle => true
       case Launching(area, count, b) => b == s.started < |s.batches| && area == p.Area(b) && count == |s.batches[b]|
       case Sending(area, count, add, next, b) =>
         b + 1 == s.started && area == p.Area(b) && count == |s.batches[b]| && add == (b > 0) && next < |p.parts|
  }

  predicate RequestOK<D(!new), E(!new), V(!new)>(p: Plan<D, E, V>, s: State<D, E, V>, r: Request)
    requires p.areas > 0 && s.started <= |s.batches|
  {
    r.batch < s.started && r.area == p.Area(r.batch) && r.count == |s.batches[r.batch]| && r.add == (r.batch > 0)
  }

  function SentTo<D(!new), E(!new), V(!new)>(s: State<D, E, V>, q: nat): int {
    if s.kernel.Sending? && q >= s.kernel.next then s.started - 1 else s.started
  }

  ghost predicate ThreadOK<D(!new), E(!new), V(!new)>(p: Plan<D, E, V>, s: State<D, E, V>, t: nat)
    requires Sizes(p, s) && t < p.threads
  {
    var o := s.Outstanding(t);
    && Tracks(o, t, p.parts, s.done, s.sent)
    && (forall i :: 0 <= i < |o| ==> RequestOK(p, s, o[i]))
    && (s.workers[t].Busy? ==>
          s.workers[t].request.part < |p.parts| && s.workers[t].cell <= |p.parts[s.workers[t].request.part].cells|)
  }

  ghost predicate Working<D(!new), E(!new), V(!new)>(p: Plan<D, E, V>, s: State<D, E, V>)
    requires Sizes(p, s)
  {
    && (forall t :: 0 <= t < p.threads ==> ThreadOK(p, s, t))
    && (forall q :: 0 <= q < |p.parts| ==> s.done[q] <= s.sent[q] == SentTo(s, q))
  }

  /** The batch whose area this worker is about to free. */
  predicate Frees(w: Worker, area: nat, b: nat) {
    w == Last(area, b) || w == Releasing(area, b)
  }

  ghost predicate Counted<D(!new), E(!new), V(!new)>(p: Plan<D, E, V>, s: State<D, E, V>)
    requires Sizes(p, s)
  {
    && (forall b: nat {:trigger Open(s, b)} :: Open(s, b) && b < s.started ==> s.refs[p.Area(b)] == Waiting(s.done, b))
    && (forall t, area: nat, b: nat :: 0 <= t < p.threads && Frees(s.workers[t], area, b) ==>
          b < s.started && b !in s.released && area == p.Area(b) && AllPast(s.done, b))
    && (forall t, u, area: nat, area': nat, b: nat :: 0 <= t < p.threads && 0 <= u < p.threads && t != u ==>
          !(Frees(s.workers[t], area, b) && Frees(s.workers[u], area', b)))
  }

  /** How many cells of part `q` are through in the work that is going on. */
  function Progress<D(!new), E(!new), V(!new)>(p: Plan<D, E, V>, s: State<D, E, V>, q: nat): nat
    requires q < |p.parts| && p.parts[q].thread < |s.workers|
  {
    var w := s.workers[p.parts[q].thread];
    if w.Busy? && w.request.part == q then w.cell else 0
  }

  /** Cell `j` of part `q` holds the sum of the batches that are through with it. */
  ghost predicate CellOK<D(!new), E(!new), V(!new)>(p: Plan<D, E, V>, s: State<D, E, V>, q: nat, j: nat)
    requires Sizes(p, s) && q < |p.parts| && j < |p.parts[q].cells|
  {
    var c, k := p.parts[q].cells[j], s.done[q] + if j < Progress(p, s, q) then 1 else 0;
    k <= |s.batches| && (k > 0 ==> s.memory[c] == p.SumTo(s.batches, c, k))
  }

  ghost predicate Computed<D(!new), E(!new), V(!new)>(p: Plan<D, E, V>, s: State<D, E, V>)
    requires Sizes(p, s)
  {
    forall q, j :: 0 <= q < |p.parts| && 0 <= j < |p.parts[q].cells| ==> CellOK(p, s, q, j)
  }

  ghost predicate Inv<D(!new), E(!new), V(!new)>(p: Plan<D, E, V>, s: State<D, E, V>) {
    && Sizes(p, s) && Window(p, s) && Staged(p, s) && Transferring(p, s)
    && Working(p, s) && Counted(p, s) && Computed(p, s)
  }

  // What a step does not touch stays as it was.

  /** The sums over the batches so far do not depend on later ones. */
  lemma {:induction false} SumToPrefix<D(!new), E(!new), V(!new)>(p: Plan<D, E, V>, batches: seq<seq<Input<D, E>>>,
                                                                  more: seq<seq<Input<D, E>>>, c: nat, k: nat)
    requires k <= |batches| && batches <= more
    ensures p.SumTo(more, c, k) == p.SumTo(batches, c, k)
  {
    if k > 0 { SumToPrefix(p, batches, more, c, k - 1); }
  }

  lemma WorkingFrame<D(!new), E(!new), V(!new)>(p: Plan<D, E, V>, s: State<D, E, V>, u: State<D, E, V>)
    requires Sizes(p, s) && Sizes(p, u) && Working(p, s) && s.batches <= u.batches && u.started >= s.started
    requires u.queues == s.queues && u.workers == s.workers && u.done == s.done && u.sent == s.sent
    requires forall q :: 0 <= q < |p.parts| ==> SentTo(u, q) == SentTo(s, q)
    ensures Working(p, u)
  {
    forall t | 0 <= t < p.threads ensures ThreadOK(p, u, t) {
      assert ThreadOK(p, s, t);
      var o := s.Outstanding(t);
      assert u.Outstanding(t) == o;
      forall i | 0 <= i < |o| ensures RequestOK(p, u, o[i]) { assert RequestOK(p, s, o[i]); }
    }
  }

  lemma CountedFrame<D(!new), E(!new), V(!new)>(p: Plan<D, E, V>, s: State<D, E, V>, u: State<D, E, V>)
    requires Sizes(p, s) && Sizes(p, u) && Counted(p, s) && u.started == s.started && u.released == s.released
    requires u.refs == s.refs && u.done == s.done && u.workers == s.workers && s.batches <= u.batches
    ensures Counted(p, u)
  {
    forall b: nat | Open(u, b) && b < u.started ensures u.refs[p.Area(b)] == Waiting(u.done, b) {
      assert Open(s, b);
    }
  }

  lemma ComputedFrame<D(!new), E(!new), V(!new)>(p: Plan<D, E, V>, s: State<D, E, V>, u: State<D, E, V>)
    requires Sizes(p, s) && Sizes(p, u) && Computed(p, s) && s.batches <= u.batches
    requires u.memory == s.memory && u.done == s.done && u.workers == s.workers
    ensures Computed(p, u)
  {
    forall q, j | 0 <= q < |p.parts| && 0 <= j < |p.parts[q].cells| ensures CellOK(p, u, q, j) {
      assert CellOK(p, s, q, j);
      var k := s.done[q] + if j < Progress(p, s, q) then 1 else 0;
      SumToPrefix(p, s.batches, u.batches, p.parts[q].cells[j], k);
    }
  }
}
