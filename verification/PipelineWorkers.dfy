/** The steps of the workers keep the invariant. */
module PipelineWorkers {
  import opened TransferQueues
  import opened WorkQueues
  import opened Pipeline
  import opened PipelineInvariant
  import opened PipelineTransfer

  // A worker takes the next request.

  lemma PopThread<D(!new), E(!new), V(!new)>(p: Plan<D, E, V>, s: State<D, E, V>, t: nat, k: nat)
    requires Inv(p, s) && CanPop(s, t) && Sizes(p, Pop(s, t)) && k < p.threads
    ensures ThreadOK(p, Pop(s, t), k)
  {
    var u := Pop(s, t);
    assert ThreadOK(p, s, k);
    var o := s.Outstanding(k);
    assert u.Outstanding(k) == o;
    forall i | 0 <= i < |o| ensures RequestOK(p, u, o[i]) { assert RequestOK(p, s, o[i]); }
    if k == t { assert o[0].part < |p.parts|; }
  }

  lemma PopComputed<D(!new), E(!new), V(!new)>(p: Plan<D, E, V>, s: State<D, E, V>, t: nat)
    requires Inv(p, s) && CanPop(s, t) && Sizes(p, Pop(s, t))
    ensures Computed(p, Pop(s, t))
  {
    var u := Pop(s, t);
    forall q, j | 0 <= q < |p.parts| && 0 <= j < |p.parts[q].cells| ensures CellOK(p, u, q, j) {
      assert CellOK(p, s, q, j);
      assert Progress(p, u, q) == Progress(p, s, q);
    }
  }

  lemma PopKeeps<D(!new), E(!new), V(!new)>(p: Plan<D, E, V>, s: State<D, E, V>, t: nat)
    requires Inv(p, s) && CanPop(s, t)
    ensures Inv(p, Pop(s, t))
  {
    var u := Pop(s, t);
    SameWindow(p, s, u);
    SameStaged(p, s, u);
    PopCounted(p, s, t);
    forall k | 0 <= k < p.threads ensures ThreadOK(p, u, k) { PopThread(p, s, t, k); }
    assert Working(p, u);
    PopComputed(p, s, t);
    assert Transferring(p, u);
  }

  lemma PopCounted<D(!new), E(!new), V(!new)>(p: Plan<D, E, V>, s: State<D, E, V>, t: nat)
    requires Inv(p, s) && CanPop(s, t) && Sizes(p, Pop(s, t))
    ensures Counted(p, Pop(s, t))
  {
    var u := Pop(s, t);
    forall b: nat | Open(u, b) && b < u.started ensures u.refs[p.Area(b)] == Waiting(u.done, b) {
      assert Open(s, b);
    }
  }

  // A worker computes one cell.

  /** What a worker has in hand is the batch its part is waiting for, and that batch is open. */
  lemma InHand<D(!new), E(!new), V(!new)>(p: Plan<D, E, V>, s: State<D, E, V>, t: nat)
    requires Inv(p, s) && t < p.threads && s.workers[t].Busy?
    ensures var r := s.workers[t].request;
            && r.part < |p.parts| && p.parts[r.part].thread == t && r.batch == s.done[r.part]
            && RequestOK(p, s, r) && Open(s, r.batch) && s.workers[t].cell <= |p.parts[r.part].cells|
  {
    assert ThreadOK(p, s, t);
    var o := s.Outstanding(t);
    HeadIsNext(o, t, p.parts, s.done, s.sent);
    assert RequestOK(p, s, o[0]);
  }

  /** The area holds the inputs of a batch that has been launched. */
  lemma SlotsHoldBatch<D(!new), E(!new), V(!new)>(p: Plan<D, E, V>, s: State<D, E, V>, b: nat)
    requires Inv(p, s) && Open(s, b) && b < s.started
    ensures Slots(s.src[p.Area(b)], s.coeffs[p.Area(b)], |s.batches[b]|) == s.batches[b]
  {
    var a := p.Area(b);
    forall i | 0 <= i < |s.batches[b]| ensures Input(s.src[a][i], s.coeffs[a][i]) == s.batches[b][i] {
      assert SlotOK(p, s, b, i);
    }
  }

  lemma ComputeValue<D(!new), E(!new), V(!new)>(p: Plan<D, E, V>, s: State<D, E, V>, t: nat)
    requires Inv(p, s) && t < p.threads && s.workers[t].Busy?
    requires var r := s.workers[t].request; r.part < |p.parts| && s.workers[t].cell < |p.parts[r.part].cells|
    ensures CanCompute(p, s, t)
    ensures var r := s.workers[t].request;
            var c := p.parts[r.part].cells[s.workers[t].cell];
            r.batch < |s.batches| && Compute(p, s, t).memory[c] == p.SumTo(s.batches, c, r.batch + 1)
  {
    var r, j := s.workers[t].request, s.workers[t].cell;
    InHand(p, s, t);
    SlotsHoldBatch(p, s, r.batch);
    assert CellOK(p, s, r.part, j);
  }

  lemma ComputeComputed<D(!new), E(!new), V(!new)>(p: Plan<D, E, V>, s: State<D, E, V>, t: nat)
    requires Inv(p, s) && CanCompute(p, s, t) && Sizes(p, Compute(p, s, t))
    ensures Computed(p, Compute(p, s, t))
  {
    var u, r, i := Compute(p, s, t), s.workers[t].request, s.workers[t].cell;
    InHand(p, s, t);
    ComputeValue(p, s, t);
    forall q, j | 0 <= q < |p.parts| && 0 <= j < |p.parts[q].cells| ensures CellOK(p, u, q, j) {
      assert CellOK(p, s, q, j);
      if q != r.part { assert Progress(p, u, q) == Progress(p, s, q); }
      if q == r.part && j == i {
      } else {
        assert p.parts[q].cells[j] != p.parts[r.part].cells[i];
      }
    }
  }

  lemma ComputeWorking<D(!new), E(!new), V(!new)>(p: Plan<D, E, V>, s: State<D, E, V>, t: nat)
    requires Inv(p, s) && CanCompute(p, s, t) && Sizes(p, Compute(p, s, t))
    ensures Working(p, Compute(p, s, t))
  {
    var u := Compute(p, s, t);
    forall k | 0 <= k < p.threads ensures ThreadOK(p, u, k) {
      assert ThreadOK(p, s, k);
      var o := s.Outstanding(k);
      assert u.Outstanding(k) == o;
      forall i | 0 <= i < |o| ensures RequestOK(p, u, o[i]) { assert RequestOK(p, s, o[i]); }
    }
  }

  lemma ComputeKeeps<D(!new), E(!new), V(!new)>(p: Plan<D, E, V>, s: State<D, E, V>, t: nat)
    requires Inv(p, s) && CanCompute(p, s, t)
    ensures Inv(p, Compute(p, s, t))
  {
    var u := Compute(p, s, t);
    SameWindow(p, s, u);
    SameStaged(p, s, u);
    SameCounted(p, s, u, t);
    ComputeWorking(p, s, t);
    ComputeComputed(p, s, t);
    assert Transferring(p, u);
  }

  /** Nothing is freed or counted differently when worker `t` changes from one occupation to another. */
  lemma SameCounted<D(!new), E(!new), V(!new)>(p: Plan<D, E, V>, s: State<D, E, V>, u: State<D, E, V>, t: nat)
    requires Sizes(p, s) && Sizes(p, u) && Counted(p, s) && t < p.threads
    requires u.started == s.started && u.released == s.released && u.refs == s.refs && u.done == s.done
    requires u.batches == s.batches && u.partial == s.partial && u.workers == s.workers[t := u.workers[t]]
    requires forall area: nat, b: nat :: Frees(u.workers[t], area, b) ==> Frees(s.workers[t], area, b)
    ensures Counted(p, u)
  {
    forall b: nat | Open(u, b) && b < u.started ensures u.refs[p.Area(b)] == Waiting(u.done, b) {
      assert Open(s, b);
    }
  }

  // A worker gives its reference back.

  lemma FinishCounts<D(!new), E(!new), V(!new)>(p: Plan<D, E, V>, s: State<D, E, V>, t: nat)
    requires Inv(p, s) && CanFinish(p, s, t)
    ensures var r := s.workers[t].request;
            && s.refs[r.area] == Waiting(s.done, r.batch) >= 1
            && (s.refs[r.area] <= 1 ==> AllPast(Finish(p, s, t).done, r.batch))
  {
    var r := s.workers[t].request;
    InHand(p, s, t);
    WaitingLess(s.done, r.part, r.batch, r.batch);
    WaitingNone(s.done[r.part := r.batch + 1], r.batch);
    WaitingNone(s.done, r.batch);
  }

  lemma FinishCounted<D(!new), E(!new), V(!new)>(p: Plan<D, E, V>, s: State<D, E, V>, t: nat)
    requires Inv(p, s) && CanFinish(p, s, t) && Sizes(p, Finish(p, s, t))
    ensures Counted(p, Finish(p, s, t))
  {
    var u, r := Finish(p, s, t), s.workers[t].request;
    InHand(p, s, t);
    FinishCounts(p, s, t);
    forall b: nat | Open(u, b) && b < u.started ensures u.refs[p.Area(b)] == Waiting(u.done, b) {
      assert Open(s, b);
      WaitingLess(s.done, r.part, r.batch, b);
      if p.Area(b) == r.area { OneBatchPerArea(p, s, b, r.batch); }
    }
    forall k, area: nat, b: nat | 0 <= k < p.threads && Frees(u.workers[k], area, b)
      ensures b < u.started && b !in u.released && area == p.Area(b) && AllPast(u.done, b)
    {
      if k != t {
        assert Frees(s.workers[k], area, b);
        assert s.done[r.part] == r.batch;
      }
    }
    forall k, l, area: nat, area': nat, b: nat | 0 <= k < p.threads && 0 <= l < p.threads && k != l
      ensures !(Frees(u.workers[k], area, b) && Frees(u.workers[l], area', b))
    {
      if k != t && Frees(s.workers[k], area, b) { assert AllPast(s.done, b); }
      if l != t && Frees(s.workers[l], area', b) { assert AllPast(s.done, b); }
    }
  }

  lemma FinishThread<D(!new), E(!new), V(!new)>(p: Plan<D, E, V>, s: State<D, E, V>, t: nat, k: nat)
    requires Inv(p, s) && CanFinish(p, s, t) && Sizes(p, Finish(p, s, t)) && k < p.threads
    ensures ThreadOK(p, Finish(p, s, t), k)
  {
    var u, r := Finish(p, s, t), s.workers[t].request;
    InHand(p, s, t);
    assert ThreadOK(p, s, k);
    var o := s.Outstanding(k);
    if k == t {
      Finished(o, t, p.parts, s.done, s.sent);
      assert u.Outstanding(k) == o[1..];
    } else {
      FinishedElsewhere(o, k, p.parts, s.done, s.sent, r.part, r.batch + 1);
      assert u.Outstanding(k) == o;
    }
    forall i | 0 <= i < |u.Outstanding(k)| ensures RequestOK(p, u, u.Outstanding(k)[i]) {
      var n := if k == t then i + 1 else i;
      assert u.Outstanding(k)[i] == o[n] && RequestOK(p, s, o[n]);
    }
  }

  lemma FinishWorking<D(!new), E(!new), V(!new)>(p: Plan<D, E, V>, s: State<D, E, V>, t: nat)
    requires Inv(p, s) && CanFinish(p, s, t) && Sizes(p, Finish(p, s, t))
    ensures Working(p, Finish(p, s, t))
  {
    var u, r := Finish(p, s, t), s.workers[t].request;
    InHand(p, s, t);
    assert ThreadOK(p, s, t);
    assert s.Outstanding(t)[0] == r;
    forall k | 0 <= k < p.threads ensures ThreadOK(p, u, k) { FinishThread(p, s, t, k); }
    forall q | 0 <= q < |p.parts| ensures u.done[q] <= u.sent[q] == SentTo(u, q) {
      assert SentTo(u, q) == SentTo(s, q);
    }
  }

  lemma FinishComputed<D(!new), E(!new), V(!new)>(p: Plan<D, E, V>, s: State<D, E, V>, t: nat)
    requires Inv(p, s) && CanFinish(p, s, t) && Sizes(p, Finish(p, s, t))
    ensures Computed(p, Finish(p, s, t))
  {
    var u, r := Finish(p, s, t), s.workers[t].request;
    InHand(p, s, t);
    forall q, j | 0 <= q < |p.parts| && 0 <= j < |p.parts[q].cells| ensures CellOK(p, u, q, j) {
      assert CellOK(p, s, q, j);
      if q != r.part { assert Progress(p, u, q) == Progress(p, s, q); }
    }
  }

  lemma FinishWindow<D(!new), E(!new), V(!new)>(p: Plan<D, E, V>, s: State<D, E, V>, t: nat)
    requires Inv(p, s) && CanFinish(p, s, t) && Sizes(p, Finish(p, s, t))
    ensures Window(p, Finish(p, s, t))
  {
    var u, r := Finish(p, s, t), s.workers[t].request;
    InHand(p, s, t);
    forall b | b in u.released ensures b < u.started && AllPast(u.done, b) { assert AllPast(s.done, b); }
    forall b: nat | Open(u, b) ensures b + p.areas >= |u.batches| && (b < |u.batches| ==> u.active[p.Area(b)]) {
      assert Open(s, b);
    }
  }

  lemma FinishKeeps<D(!new), E(!new), V(!new)>(p: Plan<D, E, V>, s: State<D, E, V>, t: nat)
    requires Inv(p, s) && CanFinish(p, s, t)
    ensures Inv(p, Finish(p, s, t))
  {
    var u := Finish(p, s, t);
    assert Sizes(p, u);
    FinishWindow(p, s, t);
    SameStaged(p, s, u);
    FinishCounted(p, s, t);
    FinishWorking(p, s, t);
    FinishComputed(p, s, t);
    assert Transferring(p, u);
  }

  // The last worker lowers the count, then frees the area.

  lemma SameComputed<D(!new), E(!new), V(!new)>(p: Plan<D, E, V>, s: State<D, E, V>, u: State<D, E, V>, t: nat)
    requires Sizes(p, s) && Sizes(p, u) && Computed(p, s) && t < p.threads && u.batches == s.batches
    requires u.memory == s.memory && u.done == s.done && u.workers == s.workers[t := u.workers[t]]
    requires !s.workers[t].Busy? && !u.workers[t].Busy?
    ensures Computed(p, u)
  {
    forall q, j | 0 <= q < |p.parts| && 0 <= j < |p.parts[q].cells| ensures CellOK(p, u, q, j) {
      assert CellOK(p, s, q, j);
      assert Progress(p, u, q) == Progress(p, s, q);
    }
  }

  lemma SameWorking<D(!new), E(!new), V(!new)>(p: Plan<D, E, V>, s: State<D, E, V>, u: State<D, E, V>, t: nat)
    requires Sizes(p, s) && Sizes(p, u) && Working(p, s) && t < p.threads && u.batches == s.batches
    requires u.started == s.started
    requires u.queues == s.queues && u.done == s.done && u.sent == s.sent && u.kernel == s.kernel
    requires u.workers == s.workers[t := u.workers[t]] && !s.workers[t].Busy? && !u.workers[t].Busy?
    ensures Working(p, u)
  {
    forall k | 0 <= k < p.threads ensures ThreadOK(p, u, k) {
      assert ThreadOK(p, s, k);
      var o := s.Outstanding(k);
      assert u.Outstanding(k) == o;
      forall i | 0 <= i < |o| ensures RequestOK(p, u, o[i]) { assert RequestOK(p, s, o[i]); }
    }
    forall q | 0 <= q < |p.parts| ensures u.done[q] <= u.sent[q] == SentTo(u, q) {
      assert SentTo(u, q) == SentTo(s, q);
    }
  }

  lemma LowerCountKeeps<D(!new), E(!new), V(!new)>(p: Plan<D, E, V>, s: State<D, E, V>, t: nat)
    requires Inv(p, s) && t < p.threads && s.workers[t].Last?
    ensures Inv(p, LowerCount(s, t))
  {
    var u := LowerCount(s, t);
    SameWindow(p, s, u);
    SameStaged(p, s, u);
    SameCounted(p, s, u, t);
    SameWorking(p, s, u, t);
    SameComputed(p, s, u, t);
    assert Transferring(p, u);
  }

  lemma ReleaseCounted<D(!new), E(!new), V(!new)>(p: Plan<D, E, V>, s: State<D, E, V>, t: nat)
    requires Inv(p, s) && t < p.threads && s.workers[t].Releasing? && s.workers[t].area < |s.active|
    requires Sizes(p, Release(s, t))
    ensures Counted(p, Release(s, t))
  {
    var u, n := Release(s, t), s.workers[t].batch;
    assert Frees(s.workers[t], s.workers[t].area, n);
    forall b: nat | Open(u, b) && b < u.started ensures u.refs[p.Area(b)] == Waiting(u.done, b) {
      assert Open(s, b);
    }
    forall k, area: nat, b: nat | 0 <= k < p.threads && Frees(u.workers[k], area, b)
      ensures b < u.started && b !in u.released && area == p.Area(b) && AllPast(u.done, b)
    {
      assert k != t && Frees(s.workers[k], area, b);
    }
  }

  lemma ReleaseWindow<D(!new), E(!new), V(!new)>(p: Plan<D, E, V>, s: State<D, E, V>, t: nat)
    requires Inv(p, s) && t < p.threads && s.workers[t].Releasing?
    ensures s.workers[t].area < |s.active| && Sizes(p, Release(s, t)) && Window(p, Release(s, t))
  {
    var n := s.workers[t].batch;
    assert Frees(s.workers[t], s.workers[t].area, n);
    assert Open(s, n);
    var u := Release(s, t);
    forall b: nat | Open(u, b) ensures b + p.areas >= |u.batches| && (b < |u.batches| ==> u.active[p.Area(b)]) {
      assert Open(s, b);
      if b < |u.batches| && p.Area(b) == p.Area(n) { OneBatchPerArea(p, s, b, n); }
    }
  }

  lemma ReleaseKeeps<D(!new), E(!new), V(!new)>(p: Plan<D, E, V>, s: State<D, E, V>, t: nat)
    requires Inv(p, s) && t < p.threads && s.workers[t].Releasing?
    ensures s.workers[t].area < |s.active| && Inv(p, Release(s, t))
  {
    ReleaseWindow(p, s, t);
    var u := Release(s, t);
    SameStaged(p, s, u);
    ReleaseCounted(p, s, t);
    SameWorking(p, s, u, t);
    SameComputed(p, s, u, t);
    assert Transferring(p, u);
  }
}
