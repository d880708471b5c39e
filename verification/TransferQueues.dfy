/** Slices and launch orders on their way through the queue of the transfer thread. */
module TransferQueues {
  import opened Options

  /** One input slice with its coefficients, as far as the outputs are concerned. */
  datatype Input<D, E> = Input(data: D, coeff: E)

  /** Put a slice into a slot of a staging area, or nothing when only a launch is wanted; launch the area when
      `submit` is not zero. The batch number is there for the proofs only. */
  datatype Item<D> = Item(area: nat, slot: nat, data: Option<D>, submit: nat, batch: nat)

  /** The batches that have been submitted, and the one being staged. */
  function Contents<D, E>(batches: seq<seq<Input<D, E>>>, partial: seq<Input<D, E>>, b: nat): seq<Input<D, E>>
    requires b <= |batches|
  {
    if b < |batches| then batches[b] else partial
  }

  ghost predicate IsSlice<D, E>(contents: seq<Input<D, E>>, slot: nat, data: D) {
    slot < |contents| && contents[slot].data == data
  }

  /** Every item is about a batch that has not been launched, and says the right thing about it. */
  ghost predicate Proper<D(!new), E(!new)>(q: seq<Item<D>>, batches: seq<seq<Input<D, E>>>, partial: seq<Input<D, E>>,
                                           areas: nat, first: nat)
    requires areas > 0
  {
    && (forall i :: 0 <= i < |q| ==>
          && first <= q[i].batch <= |batches| && q[i].area == q[i].batch % areas
          && (q[i].submit > 0 ==> q[i].batch < |batches| && q[i].submit == |batches[q[i].batch]|)
          && (q[i].data.Some? ==> IsSlice(Contents(batches, partial, q[i].batch), q[i].slot, q[i].data.value)))
    && (forall i, j :: 0 <= i < j < |q| ==> InTurn(q[i], q[j]))
  }

  /** The launch of a batch comes after everything else about it. */
  predicate InTurn<D>(x: Item<D>, y: Item<D>) {
    x.batch <= y.batch && (x.submit > 0 ==> x.batch < y.batch)
  }

  ghost predicate Launches<D(!new)>(q: seq<Item<D>>, b: nat) {
    exists i :: 0 <= i < |q| && q[i].batch == b && q[i].submit > 0
  }

  ghost predicate Fills<D(!new)>(q: seq<Item<D>>, b: nat, slot: nat) {
    exists i :: 0 <= i < |q| && q[i].batch == b && q[i].slot == slot && q[i].data.Some?
  }

  lemma LaunchesMore<D(!new)>(q: seq<Item<D>>, x: Item<D>, b: nat)
    requires Launches(q, b) || (x.batch == b && x.submit > 0)
    ensures Launches(q + [x], b)
  {
    if Launches(q, b) {
      var i :| 0 <= i < |q| && q[i].batch == b && q[i].submit > 0;
      assert (q + [x])[i] == q[i];
    } else {
      assert (q + [x])[|q|] == x;
    }
  }

  lemma FillsMore<D(!new)>(q: seq<Item<D>>, x: Item<D>, b: nat, slot: nat)
    requires Fills(q, b, slot) || (x.batch == b && x.slot == slot && x.data.Some?)
    ensures Fills(q + [x], b, slot)
  {
    if Fills(q, b, slot) {
      var i :| 0 <= i < |q| && q[i].batch == b && q[i].slot == slot && q[i].data.Some?;
      assert (q + [x])[i] == q[i];
    } else {
      assert (q + [x])[|q|] == x;
    }
  }

  lemma LaunchesRest<D(!new)>(q: seq<Item<D>>, b: nat)
    requires Launches(q, b) && !(q[0].batch == b && q[0].submit > 0)
    ensures Launches(q[1..], b)
  {
    var i :| 0 <= i < |q| && q[i].batch == b && q[i].submit > 0;
    assert q[1..][i - 1] == q[i];
  }

  lemma FillsRest<D(!new)>(q: seq<Item<D>>, b: nat, slot: nat)
    requires Fills(q, b, slot) && !(q[0].batch == b && q[0].slot == slot && q[0].data.Some?)
    ensures Fills(q[1..], b, slot)
  {
    var i :| 0 <= i < |q| && q[i].batch == b && q[i].slot == slot && q[i].data.Some?;
    assert q[1..][i - 1] == q[i];
  }

  /** The first launch in the queue is for the first batch that has not been launched. */
  lemma FirstLaunch<D(!new), E(!new)>(q: seq<Item<D>>, batches: seq<seq<Input<D, E>>>, partial: seq<Input<D, E>>,
                                      areas: nat, first: nat)
    requires areas > 0 && Proper(q, batches, partial, areas, first) && q != [] && q[0].submit > 0
    requires forall b :: first <= b < |batches| ==> Launches(q, b)
    ensures q[0].batch == first
    ensures forall slot :: !Fills(q[1..], first, slot)
  {
    assert Launches(q, first);
    var i :| 0 <= i < |q| && q[i].batch == first && q[i].submit > 0;
    assert i > 0 ==> InTurn(q[0], q[i]);
    assert forall j :: 0 <= j < |q[1..]| ==> q[1..][j] == q[j + 1] && InTurn(q[0], q[j + 1]);
  }
}
