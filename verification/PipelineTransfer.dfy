/** The steps of the transfer thread keep the invariant. */
module PipelineTransfer {
  import opened TransferQueues
  import opened WorkQueues
  import opened Pipeline
  import opened PipelineInvariant

  /** The item at the head is about an open batch, and its slot is inside the area. */
  lemma HeadFits<D(!new), E(!new), V(!new)>(p: Plan<D, E, V>, s: State<D, E, V>)
    requires Inv(p, s) && s.queue != []
    ensures CanTake(p, s) <==> s.kernel.Idle?
    ensures s.queue[0].data.Some? ==> Open(s, s.queue[0].batch)
  {
    var x := s.queue[0];
    assert x.area == p.Area(x.batch);
    if x.data.Some? { assert IsSlice(Contents(s.batches, s.partial, x.batch), x.slot, x.data.value); }
  }

  lemma TakeStaged<D(!new), E(!new), V(!new)>(p: Plan<D, E, V>, s: State<D, E, V>)
    requires Inv(p, s) && CanTake(p, s)
    ensures Sizes(p, Take(p, s)) && Staged(p, Take(p, s))
  {
    var t, x := Take(p, s), s.queue[0];
    HeadFits(p, s);
    forall b: nat, slot: nat | Open(t, b) && slot < |Contents(t.batches, t.partial, b)| ensures SlotOK(p, t, b, slot) {
      assert Open(s, b) && SlotOK(p, s, b, slot);
      if x.data.Some? && p.Area(b) == x.area { OneBatchPerArea(p, s, b, x.batch); }
      if Fills(s.queue, b, slot) && !(x.batch == b && x.slot == slot && x.data.Some?) { FillsRest(s.queue, b, slot); }
    }
  }

  lemma TakeTransferring<D(!new), E(!new), V(!new)>(p: Plan<D, E, V>, s: State<D, E, V>)
    requires Inv(p, s) && CanTake(p, s) && Sizes(p, Take(p, s))
    ensures Transferring(p, Take(p, s))
  {
    var t, x := Take(p, s), s.queue[0];
    if x.submit > 0 { FirstLaunch(s.queue, s.batches, s.partial, p.areas, s.started); }
    ProperRest(s.queue, s.batches, s.partial, p.areas, s.started);
    forall b | t.Pending() <= b < |t.batches| ensures Launches(t.queue, b) { LaunchesRest(s.queue, b); }
  }

  lemma ProperRest<D(!new), E(!new)>(q: seq<Item<D>>, batches: seq<seq<Input<D, E>>>, partial: seq<Input<D, E>>,
                                     areas: nat, first: nat)
    requires areas > 0 && Proper(q, batches, partial, areas, first) && q != []
    ensures Proper(q[1..], batches, partial, areas, if q[0].submit > 0 && q[0].batch == first then first + 1 else first)
  {
    forall i | 0 <= i < |q[1..]| ensures q[1..][i] == q[i + 1] && InTurn(q[0], q[i + 1]) {}
  }

  lemma TakeKeeps<D(!new), E(!new), V(!new)>(p: Plan<D, E, V>, s: State<D, E, V>)
    requires Inv(p, s) && CanTake(p, s)
    ensures Inv(p, Take(p, s))
  {
    var t := Take(p, s);
    TakeStaged(p, s);
    TakeTransferring(p, s);
    SameWindow(p, s, t);
    WorkingFrame(p, s, t);
    CountedFrame(p, s, t);
    ComputedFrame(p, s, t);
  }

  lemma SameWindow<D(!new), E(!new), V(!new)>(p: Plan<D, E, V>, s: State<D, E, V>, t: State<D, E, V>)
    requires Sizes(p, s) && Sizes(p, t) && Window(p, s) && t.batches == s.batches && t.partial == s.partial
    requires t.released == s.released && t.started >= s.started && t.done == s.done && t.active == s.active
    requires t.current == s.current
    ensures Window(p, t)
  {
    forall b: nat | Open(t, b) ensures b + p.areas >= |t.batches| && (b < |t.batches| ==> t.active[p.Area(b)]) {
      assert Open(s, b);
    }
  }

  lemma SameStaged<D(!new), E(!new), V(!new)>(p: Plan<D, E, V>, s: State<D, E, V>, t: State<D, E, V>)
    requires Sizes(p, s) && Sizes(p, t) && Staged(p, s) && t.batches == s.batches && t.partial == s.partial
    requires t.released >= s.released && t.src == s.src && t.coeffs == s.coeffs && t.queue == s.queue
    ensures Staged(p, t)
  {
    forall b: nat, slot: nat | Open(t, b) && slot < |Contents(t.batches, t.partial, b)| ensures SlotOK(p, t, b, slot) {
      assert Open(s, b) && SlotOK(p, s, b, slot);
    }
  }

  // The kernel begins.

  lemma LaunchCounted<D(!new), E(!new), V(!new)>(p: Plan<D, E, V>, s: State<D, E, V>)
    requires Inv(p, s) && s.kernel.Launching? && Sizes(p, Launch(p, s))
    ensures Counted(p, Launch(p, s))
  {
    var t, n := Launch(p, s), s.started;
    forall b: nat | Open(t, b) && b < t.started ensures t.refs[p.Area(b)] == Waiting(t.done, b) {
      assert Open(s, b);
      if b == n {
        WaitingAll(s.done, n);
      } else {
        assert Open(s, n);
        if p.Area(b) == p.Area(n) { OneBatchPerArea(p, s, b, n); }
      }
    }
  }

  lemma LaunchKeeps<D(!new), E(!new), V(!new)>(p: Plan<D, E, V>, s: State<D, E, V>)
    requires Inv(p, s) && s.kernel.Launching?
    ensures s.kernel.area < |s.refs| && Inv(p, Launch(p, s))
  {
    var t := Launch(p, s);
    SameWindow(p, s, t);
    SameStaged(p, s, t);
    LaunchCounted(p, s);
    WorkingFrame(p, s, t);
    ComputedFrame(p, s, t);
    assert Transferring(p, t);
  }

  // A request is sent.

  lemma NextIsAfter<D(!new), E(!new), V(!new)>(p: Plan<D, E, V>, s: State<D, E, V>, t: nat)
    requires Inv(p, s) && s.kernel.Sending? && t < p.threads
    ensures forall i :: 0 <= i < |s.Outstanding(t)| ==> Before(s.Outstanding(t)[i], NextRequest(s.kernel))
  {
    assert ThreadOK(p, s, t);
    forall i | 0 <= i < |s.Outstanding(t)| ensures Before(s.Outstanding(t)[i], NextRequest(s.kernel)) {
      var r := s.Outstanding(t)[i];
      assert s.sent[r.part] == SentTo(s, r.part);
    }
  }

  lemma SendThread<D(!new), E(!new), V(!new)>(p: Plan<D, E, V>, s: State<D, E, V>, t: nat)
    requires Inv(p, s) && CanSend(p, s) && Sizes(p, Send(p, s)) && t < p.threads
    ensures ThreadOK(p, Send(p, s), t)
  {
    var u, r := Send(p, s), NextRequest(s.kernel);
    assert ThreadOK(p, s, t);
    var o := s.Outstanding(t);
    if p.parts[r.part].thread == t {
      NextIsAfter(p, s, t);
      assert s.done[r.part] <= s.sent[r.part] == SentTo(s, r.part);
      Sent(o, t, p.parts, s.done, s.sent, r);
      assert u.Outstanding(t) == o + [r];
    } else {
      SentElsewhere(o, t, p.parts, s.done, s.sent, r.part, r.batch + 1);
      assert u.Outstanding(t) == o;
    }
    forall i | 0 <= i < |u.Outstanding(t)| ensures RequestOK(p, u, u.Outstanding(t)[i]) {
      if i < |o| { assert u.Outstanding(t)[i] == o[i] && RequestOK(p, s, o[i]); }
    }
  }

  lemma SendKeeps<D(!new), E(!new), V(!new)>(p: Plan<D, E, V>, s: State<D, E, V>)
    requires Inv(p, s) && s.kernel.Sending?
    ensures CanSend(p, s) && Inv(p, Send(p, s))
  {
    var t := Send(p, s);
    SameWindow(p, s, t);
    SameStaged(p, s, t);
    CountedFrame(p, s, t);
    ComputedFrame(p, s, t);
    assert Transferring(p, t);
    forall k | 0 <= k < p.threads ensures ThreadOK(p, t, k) { SendThread(p, s, k); }
    assert Working(p, t);
  }
}
