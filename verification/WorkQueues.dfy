/** Requests on their way through the queues of the worker threads. */
module WorkQueues {

  /** One part of the output, owned by one thread: which cells it covers. */
  datatype Part = Part(thread: nat, cells: seq<nat>)

  /** Work on one part for one batch. The batch number is there for the proofs only. */
  datatype Request = Request(area: nat, count: nat, add: bool, part: nat, batch: nat)

  /** Earlier batches first, and lower parts first within a batch. */
  predicate Before(q: Request, r: Request) {
    q.batch < r.batch || (q.batch == r.batch && q.part < r.part)
  }

  ghost predicate Ordered(o: seq<Request>) {
    forall i, j :: 0 <= i < j < |o| ==> Before(o[i], o[j])
  }

  ghost predicate Queued(o: seq<Request>, part: nat, batch: nat) {
    exists i :: 0 <= i < |o| && o[i].part == part && o[i].batch == batch
  }

  /** Thread `t` holds the requests for its parts from batch `done` up to batch `sent`, and nothing else. */
  ghost predicate Tracks(o: seq<Request>, t: nat, parts: seq<Part>, done: seq<nat>, sent: seq<nat>) {
    && |done| == |sent| == |parts| && Ordered(o)
    && (forall i :: 0 <= i < |o| ==>
          o[i].part < |parts| && parts[o[i].part].thread == t && done[o[i].part] <= o[i].batch < sent[o[i].part])
    && (forall p, b :: 0 <= p < |parts| && parts[p].thread == t && done[p] <= b < sent[p] ==> Queued(o, p, b))
  }

  lemma HoldsMore(o: seq<Request>, r: Request, p: nat, b: nat)
    requires Queued(o, p, b) || (r.part == p && r.batch == b)
    ensures Queued(o + [r], p, b)
  {
    if Queued(o, p, b) {
      var i :| 0 <= i < |o| && o[i].part == p && o[i].batch == b;
      assert (o + [r])[i] == o[i];
    } else {
      assert (o + [r])[|o|] == r;
    }
  }

  /** A request for the next batch of a part joins the queue of its thread. */
  lemma Sent(o: seq<Request>, t: nat, parts: seq<Part>, done: seq<nat>, sent: seq<nat>, r: Request)
    requires Tracks(o, t, parts, done, sent)
    requires r.part < |parts| && parts[r.part].thread == t && r.batch == sent[r.part] && done[r.part] <= r.batch
    requires forall i :: 0 <= i < |o| ==> Before(o[i], r)
    ensures Tracks(o + [r], t, parts, done, sent[r.part := r.batch + 1])
  {
    var o', sent' := o + [r], sent[r.part := r.batch + 1];
    forall p, b | 0 <= p < |parts| && parts[p].thread == t && done[p] <= b < sent'[p] ensures Queued(o', p, b) {
      HoldsMore(o, r, p, b);
    }
  }

  /** Other threads do not notice. */
  lemma SentElsewhere(o: seq<Request>, t: nat, parts: seq<Part>, done: seq<nat>, sent: seq<nat>, p: nat, b: nat)
    requires Tracks(o, t, parts, done, sent) && p < |parts| && parts[p].thread != t
    ensures Tracks(o, t, parts, done, sent[p := b])
  {}

  /** The request at the head is for the batch that its part is waiting for. */
  lemma HeadIsNext(o: seq<Request>, t: nat, parts: seq<Part>, done: seq<nat>, sent: seq<nat>)
    requires Tracks(o, t, parts, done, sent) && o != []
    ensures o[0].batch == done[o[0].part]
  {
    var r := o[0];
    assert Queued(o, r.part, done[r.part]);
    var i :| 0 <= i < |o| && o[i].part == r.part && o[i].batch == done[r.part];
    assert i > 0 ==> Before(o[0], o[i]);
  }

  /** The head is done with. */
  lemma Finished(o: seq<Request>, t: nat, parts: seq<Part>, done: seq<nat>, sent: seq<nat>)
    requires Tracks(o, t, parts, done, sent) && o != []
    ensures Tracks(o[1..], t, parts, done[o[0].part := o[0].batch + 1], sent)
  {
    HeadIsNext(o, t, parts, done, sent);
    var r, o' := o[0], o[1..];
    var done' := done[r.part := r.batch + 1];
    forall i | 0 <= i < |o'| ensures done'[o'[i].part] <= o'[i].batch {
      assert o'[i] == o[i + 1] && Before(r, o[i + 1]);
    }
    forall p, b | 0 <= p < |parts| && parts[p].thread == t && done'[p] <= b < sent[p] ensures Queued(o', p, b) {
      assert Queued(o, p, b);
      var i :| 0 <= i < |o| && o[i].part == p && o[i].batch == b;
      assert i > 0;
      assert o'[i - 1] == o[i];
    }
  }

  lemma FinishedElsewhere(o: seq<Request>, t: nat, parts: seq<Part>, done: seq<nat>, sent: seq<nat>, p: nat, b: nat)
    requires Tracks(o, t, parts, done, sent) && p < |parts| && parts[p].thread != t
    ensures Tracks(o, t, parts, done[p := b], sent)
  {}

  // Counting the parts that a batch is still waiting for.

  function Waiting(done: seq<nat>, batch: nat): (n: nat)
    ensures n <= |done|
  {
    if done == [] then 0
    else
      var k := |done| - 1;
      Waiting(done[..k], batch) + if done[k] <= batch then 1 else 0
  }

  lemma {:induction false} WaitingNone(done: seq<nat>, batch: nat)
    ensures Waiting(done, batch) == 0 <==> forall p :: 0 <= p < |done| ==> batch < done[p]
  {
    if done != [] { WaitingNone(done[..|done| - 1], batch); }
  }

  lemma {:induction false} WaitingAll(done: seq<nat>, batch: nat)
    requires forall p :: 0 <= p < |done| ==> done[p] <= batch
    ensures Waiting(done, batch) == |done|
  {
    if done != [] { WaitingAll(done[..|done| - 1], batch); }
  }

  /** One part moves past batch `b`: that batch waits for one part less, the others for as many as before. */
  lemma {:induction false} WaitingLess(done: seq<nat>, p: nat, b: nat, batch: nat)
    requires p < |done| && done[p] == b
    ensures Waiting(done[p := b + 1], batch) == Waiting(done, batch) - if batch == b then 1 else 0
  {
    var k := |done| - 1;
    if p < k {
      WaitingLess(done[..k], p, b, batch);
      assert done[p := b + 1][..k] == done[..k][p := b + 1];
    } else {
      assert done[p := b + 1][..k] == done[..k];
    }
  }
}
