/** What the cells hold when the multiply-add is that of a field: every word of every output. */
module KernelSums {
  import opened Fields
  import opened Vectors
  import ReedSolomonMatrix
  import opened KernelPartition
  import opened KernelCoverage
  import opened TransferQueues
  import opened Pipeline
  import opened PipelineResults
  import opened PipelineRuns

  /** An input has a factor for every output and a word for every place of every chunk. */
  datatype Reading<!D(!new), !E(!new), !T(!new)> = Reading(factor: (E, nat) -> T, word: (D, nat, nat) -> T) {

    /** The factors of some inputs for one output. */
    function Factors(xs: seq<Input<D, E>>, o: nat): (s: seq<T>)
      ensures |s| == |xs| && forall n :: 0 <= n < |s| ==> s[n] == factor(xs[n].coeff, o)
    {
      seq(|xs|, n requires 0 <= n < |xs| => factor(xs[n].coeff, o))
    }

    /** The words of some inputs at one place. */
    function Words(xs: seq<Input<D, E>>, k: nat, i: nat): (s: seq<T>)
      ensures |s| == |xs| && forall n :: 0 <= n < |s| ==> s[n] == word(xs[n].data, k, i)
    {
      seq(|xs|, n requires 0 <= n < |xs| => word(xs[n].data, k, i))
    }
  }

  /** Each word of the cell of chunk `k` and output `o` takes in the factor of the output times the word of the
      chunk. */
  ghost predicate AddsProduct<D(!new), E(!new), T(!new)>(g: Field<T>, l: Layout, p: Plan<D, E, seq<T>>,
                                                         d: Reading<D, E, T>, v: seq<T>, x: Input<D, E>, k: nat, o: nat)
    requires l.Valid()
  {
    k < l.Chunks() && o < l.outputs && |v| == l.chunkLen ==>
      var w := p.muladd(v, x, CellId(l, k, o));
      && |w| == l.chunkLen
      && forall i :: 0 <= i < l.ChunkSize(k) ==> w[i] == g.add(v[i], g.mul(d.factor(x.coeff, o), d.word(x.data, k, i)))
  }

  /** The kernel multiplies and adds in the field, and its parts are those of one run. */
  ghost predicate Multiplies<D(!new), E(!new), T(!new)>(g: Field<T>, l: Layout, p: Plan<D, E, seq<T>>,
                                                        d: Reading<D, E, T>) {
    && l.Valid() && Sound(l, Requests(l)) && p.parts == Parts(l, Requests(l))
    && |p.zero| == l.chunkLen && (forall i :: 0 <= i < |p.zero| ==> p.zero[i] == g.zero)
    && forall v, x, k: nat, o: nat :: AddsProduct(g, l, p, d, v, x, k, o)
  }

  lemma {:induction false} AddAllIsDot<D(!new), E(!new), T(!new)>(g: Field<T>, l: Layout, p: Plan<D, E, seq<T>>,
                                                                  d: Reading<D, E, T>, xs: seq<Input<D, E>>, k: nat,
                                                                  o: nat)
    requires Everywhere(g) && Multiplies(g, l, p, d) && k < l.Chunks() && o < l.outputs
    ensures var v := p.AddAll(p.zero, xs, CellId(l, k, o));
            && |v| == l.chunkLen
            && forall i :: 0 <= i < l.ChunkSize(k) ==> v[i] == Dot(g, d.Factors(xs, o), d.Words(xs, k, i))
  {
    if xs != [] {
      var n, c := |xs| - 1, CellId(l, k, o);
      AddAllIsDot(g, l, p, d, xs[..n], k, o);
      assert AddsProduct(g, l, p, d, p.AddAll(p.zero, xs[..n], c), xs[n], k, o);
      forall i | 0 <= i < l.ChunkSize(k)
        ensures p.AddAll(p.zero, xs, c)[i] == Dot(g, d.Factors(xs, o), d.Words(xs, k, i))
      {
        DotGrows(g, d, xs, k, o, i);
      }
    }
  }

  lemma DotGrows<D(!new), E(!new), T(!new)>(g: Field<T>, d: Reading<D, E, T>, xs: seq<Input<D, E>>, k: nat, o: nat,
                                            i: nat)
    requires Everywhere(g) && xs != []
    ensures var n := |xs| - 1;
            Dot(g, d.Factors(xs, o), d.Words(xs, k, i)) ==
            g.add(Dot(g, d.Factors(xs[..n], o), d.Words(xs[..n], k, i)),
                  g.mul(d.factor(xs[n].coeff, o), d.word(xs[n].data, k, i)))
  {
    var n := |xs| - 1;
    ReedSolomonMatrix.DotLast(g, d.Factors(xs, o), d.Words(xs, k, i));
    assert d.Factors(xs, o)[..n] == d.Factors(xs[..n], o) && d.Words(xs, k, i)[..n] == d.Words(xs[..n], k, i);
  }

  /** Word `i` of the cell of chunk `k` and output `o` is the sum over these inputs. */
  ghost predicate HoldsDot<D(!new), E(!new), T(!new)>(g: Field<T>, l: Layout, d: Reading<D, E, T>,
                                                      memory: seq<seq<T>>, xs: seq<Input<D, E>>, k: nat, o: nat, i: nat)
  {
    && CellId(l, k, o) < |memory| && i < |memory[CellId(l, k, o)]|
    && memory[CellId(l, k, o)][i] == Dot(g, d.Factors(xs, o), d.Words(xs, k, i))
  }

  lemma CellHoldsDot<D(!new), E(!new), T(!new)>(g: Field<T>, l: Layout, p: Plan<D, E, seq<T>>, d: Reading<D, E, T>,
                                                memory: seq<seq<T>>, xs: seq<Input<D, E>>, k: nat, o: nat, i: nat)
    requires Everywhere(g) && Multiplies(g, l, p, d) && |memory| == p.cells && p.Valid()
    requires forall q, j :: 0 <= q < |p.parts| && 0 <= j < |p.parts[q].cells| ==>
               memory[p.parts[q].cells[j]] == p.AddAll(p.zero, xs, p.parts[q].cells[j])
    requires k < l.Chunks() && o < l.outputs && i < l.ChunkSize(k)
    ensures HoldsDot(g, l, d, memory, xs, k, o, i)
  {
    var q, j := EveryCellHasPart(l, k, o);
    assert p.parts[q] == PartOf(l, Requests(l)[q]);
    assert p.parts[q].cells[j] == CellId(l, k, o);
    AddAllIsDot(g, l, p, d, xs, k, o);
  }

  /** After a complete run, every word of every chunk of every output is the sum, over everything that was added, of the
      factor for the output times the word of the input. */
  lemma OutputsAreDots<D(!new), E(!new), T(!new)>(g: Field<T>, l: Layout, p: Plan<D, E, seq<T>>, d: Reading<D, E, T>,
                                                  states: seq<State<D, E, seq<T>>>, steps: seq<Step<D, E>>)
    requires Everywhere(g) && Multiplies(g, l, p, d) && Run(p, states, steps)
    requires Sizes(p, states[|steps|]) && Complete(p, states[|steps|]) && InputsOf(steps) != []
    ensures forall k: nat, o: nat, i: nat :: k < l.Chunks() && o < l.outputs && i < l.ChunkSize(k) ==>
              HoldsDot(g, l, d, states[|steps|].memory, InputsOf(steps), k, o, i)
  {
    var s, xs := states[|steps|], InputsOf(steps);
    EveryCellIsTheSum(p, states, steps);
    forall k: nat, o: nat, i: nat | k < l.Chunks() && o < l.outputs && i < l.ChunkSize(k)
      ensures HoldsDot(g, l, d, s.memory, xs, k, o, i)
    {
      CellHoldsDot(g, l, p, d, s.memory, xs, k, o, i);
    }
  }
}
