/** The steps of the adding thread keep the invariant. */
module PipelineAdding {
  import opened Options
  import opened TransferQueues
  import opened Pipeline
  import opened PipelineInvariant

  /** What the adding thread does to the staging area and the queue: at most one input joins, and one item about it. */
  datatype Addition<D(!new), E(!new)> = Addition(coeffs: seq<seq<E>>, item: Item<D>, partial: seq<Input<D, E>>)

  ghost predicate Adds<D(!new), E(!new), V(!new)>(p: Plan<D, E, V>, s: State<D, E, V>, n: Addition<D, E>)
    requires Sizes(p, s)
  {
    && !s.active[s.current] && n.partial != [] && |n.partial| <= p.batchSize && s.partial <= n.partial
    && |n.coeffs| == p.areas && (forall a :: 0 <= a < p.areas ==> |n.coeffs[a]| == p.batchSize)
    && (forall a :: 0 <= a < p.areas && a != s.current ==> n.coeffs[a] == s.coeffs[a])
    && (forall i :: 0 <= i < |s.partial| ==> n.coeffs[s.current][i] == s.coeffs[s.current][i])
    && n.item.area == s.current && n.item.batch == |s.batches|
    && (n.item.data.Some? ==> IsSlice(n.partial, n.item.slot, n.item.data.value))
    && (forall i :: |s.partial| <= i < |n.partial| ==>
          n.item.slot == i && n.item.data.Some? && n.coeffs[s.current][i] == n.partial[i].coeff)
  }

  function With<D(!new), E(!new), V(!new)>(s: State<D, E, V>, n: Addition<D, E>): State<D, E, V> {
    s.(coeffs := n.coeffs, queue := s.queue + [n.item], inputs := |n.partial|, partial := n.partial)
  }

  // Without a launch, the input just joins.

  lemma StagedWith<D(!new), E(!new), V(!new)>(p: Plan<D, E, V>, s: State<D, E, V>, n: Addition<D, E>)
    requires Inv(p, s) && Adds(p, s, n) && Sizes(p, With(s, n))
    ensures Staged(p, With(s, n))
  {
    var t := With(s, n);
    forall b: nat, slot: nat | Open(t, b) && slot < |Contents(t.batches, t.partial, b)| ensures SlotOK(p, t, b, slot) {
      if b < |s.batches| {
        assert Open(s, b) && SlotOK(p, s, b, slot);
        assert p.Area(b) != s.current;
        if Fills(s.queue, b, slot) { FillsMore(s.queue, n.item, b, slot); }
      } else if slot < |s.partial| {
        assert Open(s, b) && SlotOK(p, s, b, slot);
        if Fills(s.queue, b, slot) { FillsMore(s.queue, n.item, b, slot); }
      } else {
        assert n.coeffs[s.current][slot] == n.partial[slot].coeff;
        FillsMore(s.queue, n.item, b, slot);
      }
    }
  }

  lemma TransferringWith<D(!new), E(!new), V(!new)>(p: Plan<D, E, V>, s: State<D, E, V>, n: Addition<D, E>)
    requires Inv(p, s) && Adds(p, s, n) && n.item.submit == 0 && Sizes(p, With(s, n))
    ensures Transferring(p, With(s, n))
  {
    var t := With(s, n);
    forall b | t.Pending() <= b < |t.batches| ensures Launches(t.queue, b) {
      LaunchesMore(s.queue, n.item, b);
    }
  }

  lemma WindowWith<D(!new), E(!new), V(!new)>(p: Plan<D, E, V>, s: State<D, E, V>, n: Addition<D, E>)
    requires Inv(p, s) && Adds(p, s, n) && |n.partial| < p.batchSize && Sizes(p, With(s, n))
    ensures Window(p, With(s, n))
  {
    var t := With(s, n);
    forall b: nat | Open(t, b) ensures b + p.areas >= |t.batches| && (b < |t.batches| ==> t.active[p.Area(b)]) {
      assert b < |s.batches| ==> Open(s, b);
    }
  }

  lemma WithKeeps<D(!new), E(!new), V(!new)>(p: Plan<D, E, V>, s: State<D, E, V>, n: Addition<D, E>)
    requires Inv(p, s) && Adds(p, s, n) && n.item.submit == 0 && |n.partial| < p.batchSize && !s.ended
    ensures Inv(p, With(s, n))
  {
    var t := With(s, n);
    assert Sizes(p, t);
    StagedWith(p, s, n);
    TransferringWith(p, s, n);
    WindowWith(p, s, n);
    WorkingFrame(p, s, t);
    CountedFrame(p, s, t);
    ComputedFrame(p, s, t);
  }

  // With a launch, the staged inputs become a batch.

  function Submitted<D(!new), E(!new), V(!new)>(p: Plan<D, E, V>, s: State<D, E, V>, n: Addition<D, E>): State<D, E, V>
    requires Sizes(p, s)
  {
    Submit(p, With(s, n))
  }

  lemma SubmittedSizes<D(!new), E(!new), V(!new)>(p: Plan<D, E, V>, s: State<D, E, V>, n: Addition<D, E>)
    requires Sizes(p, s) && Adds(p, s, n)
    ensures Sizes(p, Submitted(p, s, n))
  {
    NextArea(p.areas, |s.batches|);
  }

  lemma SubmittedWindow<D(!new), E(!new), V(!new)>(p: Plan<D, E, V>, s: State<D, E, V>, n: Addition<D, E>)
    requires Inv(p, s) && Adds(p, s, n) && Sizes(p, Submitted(p, s, n))
    ensures Window(p, Submitted(p, s, n))
  {
    var t := Submitted(p, s, n);
    forall b: nat | Open(t, b) ensures b + p.areas >= |t.batches| && (b < |t.batches| ==> t.active[p.Area(b)]) {
      if b < |s.batches| {
        assert Open(s, b);
        AreaReturns(p.areas, b);
      }
    }
  }

  lemma SubmittedStaged<D(!new), E(!new), V(!new)>(p: Plan<D, E, V>, s: State<D, E, V>, n: Addition<D, E>)
    requires Inv(p, s) && Adds(p, s, n) && Sizes(p, Submitted(p, s, n)) && Sizes(p, With(s, n))
    ensures Staged(p, Submitted(p, s, n))
  {
    var u, t := With(s, n), Submitted(p, s, n);
    StagedWith(p, s, n);
    forall b: nat, slot: nat | Open(t, b) && slot < |Contents(t.batches, t.partial, b)| ensures SlotOK(p, t, b, slot) {
      assert Open(u, b) && SlotOK(p, u, b, slot);
    }
  }

  lemma SubmittedTransferring<D(!new), E(!new), V(!new)>(p: Plan<D, E, V>, s: State<D, E, V>, n: Addition<D, E>)
    requires Inv(p, s) && Adds(p, s, n) && n.item.submit == |n.partial| && Sizes(p, Submitted(p, s, n))
    ensures Transferring(p, Submitted(p, s, n))
  {
    var t := Submitted(p, s, n);
    forall b | t.Pending() <= b < |t.batches| ensures Launches(t.queue, b) {
      LaunchesMore(s.queue, n.item, b);
    }
  }

  lemma SubmittedKeeps<D(!new), E(!new), V(!new)>(p: Plan<D, E, V>, s: State<D, E, V>, n: Addition<D, E>)
    requires Inv(p, s) && Adds(p, s, n) && n.item.submit == |n.partial| && !s.ended
    ensures Inv(p, Submitted(p, s, n))
  {
    var t := Submitted(p, s, n);
    SubmittedSizes(p, s, n);
    SubmittedWindow(p, s, n);
    SubmittedStaged(p, s, n);
    SubmittedTransferring(p, s, n);
    WorkingFrame(p, s, t);
    CountedFrame(p, s, t);
    ComputedFrame(p, s, t);
  }

  /** The input as the adding thread puts it down. */
  function OfInput<D(!new), E(!new), V(!new)>(p: Plan<D, E, V>, s: State<D, E, V>, x: Input<D, E>,
                                              flush: bool): Addition<D, E>
    requires Sizes(p, s) && s.inputs < p.batchSize
  {
    Addition(Put(s.coeffs, s.current, s.inputs, x.coeff),
             Item(s.current, s.inputs, Some(x.data), if SubmitsNow(p, s, flush) then s.inputs + 1 else 0, |s.batches|),
             s.partial + [x])
  }

  lemma OfInputAdds<D(!new), E(!new), V(!new)>(p: Plan<D, E, V>, s: State<D, E, V>, x: Input<D, E>, flush: bool)
    requires Inv(p, s) && !s.active[s.current]
    ensures Adds(p, s, OfInput(p, s, x, flush))
    ensures AddInput(p, s, x, flush) ==
            if SubmitsNow(p, s, flush) then Submitted(p, s, OfInput(p, s, x, flush))
            else With(s, OfInput(p, s, x, flush))
  {}

  lemma InputAdded<D(!new), E(!new), V(!new)>(p: Plan<D, E, V>, s: State<D, E, V>, x: Input<D, E>, flush: bool)
    requires Sizes(p, s) && s.inputs < p.batchSize
    ensures AddInput(p, s, x, flush).Added() == s.Added() + [x]
  {
    ConcatMore(s.batches, s.partial + [x]);
  }

  lemma AddInputKeeps<D(!new), E(!new), V(!new)>(p: Plan<D, E, V>, s: State<D, E, V>, x: Input<D, E>, flush: bool)
    requires Inv(p, s) && !s.active[s.current] && !s.ended
    ensures Inv(p, AddInput(p, s, x, flush))
  {
    var n := OfInput(p, s, x, flush);
    OfInputAdds(p, s, x, flush);
    if SubmitsNow(p, s, flush) {
      SubmittedKeeps(p, s, n);
    } else {
      WithKeeps(p, s, n);
    }
  }

  lemma ConcatMore<T>(ss: seq<seq<T>>, more: seq<T>)
    ensures Concat(ss + [more]) == Concat(ss) + more
  {
    assert (ss + [more])[..|ss|] == ss;
  }

  lemma FlushKeeps<D(!new), E(!new), V(!new)>(p: Plan<D, E, V>, s: State<D, E, V>)
    requires Inv(p, s) && !s.ended
    ensures Inv(p, Flush(p, s)) && Flush(p, s).partial == []
    ensures Flush(p, s).Added() == s.Added()
  {
    if s.inputs > 0 {
      var n := Addition(s.coeffs, Item(s.current, 0, None, s.inputs, |s.batches|), s.partial);
      SubmittedKeeps(p, s, n);
      assert Flush(p, s) == Submitted(p, s, n);
      ConcatMore(s.batches, s.partial);
    }
  }
}
