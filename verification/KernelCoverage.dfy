/** The requests of one kernel run cover every chunk and output exactly once and write where they should. */
module KernelCoverage {
  import opened Arithmetic
  import opened KernelPartition
  import WorkQueues
  import Pipeline

  // Counting the requests that cover a chunk and an output.

  function Count(rs: seq<Request>, k: nat, o: nat): nat {
    if rs == [] then 0
    else Count(rs[..|rs| - 1], k, o) + if Covers(rs[|rs| - 1], k, o) then 1 else 0
  }

  lemma {:induction false} CountConcat(a: seq<Request>, b: seq<Request>, k: nat, o: nat)
    ensures Count(a + b, k, o) == Count(a, k, o) + Count(b, k, o)
  {
    if b == [] {
      assert a + b == a;
    } else {
      var n := |b| - 1;
      assert (a + b)[..|a + b| - 1] == a + b[..n];
      CountConcat(a, b[..n], k, o);
    }
  }

  lemma {:induction false} CountLeftRow(l: Layout, c: nat, tc: nat, k: nat, o: nat)
    requires l.Valid() && c < l.Left() && tc <= l.PerChunk()
    ensures Count(LeftRow(l, c, tc), k, o) == if k == c && o < Split(l, tc) then 1 else 0
  {
    SplitGrows(l, 0);
    if tc > 0 {
      CountLeftRow(l, c, tc - 1, k, o);
      SplitGrows(l, tc - 1);
      assert LeftRow(l, c, tc)[..tc - 1] == LeftRow(l, c, tc - 1);
    }
  }

  lemma {:induction false} CountLeftRows(l: Layout, c: nat, k: nat, o: nat)
    requires l.Valid() && l.Left() > 0 && c <= l.Left() && o < l.outputs
    ensures Count(LeftRows(l, c), k, o) == if k < c then 1 else 0
  {
    if c > 0 {
      CountLeftRows(l, c - 1, k, o);
      CountLeftRow(l, c - 1, l.PerChunk(), k, o);
      SplitGrows(l, 0);
      CountConcat(LeftRows(l, c - 1), LeftRow(l, c - 1, l.PerChunk()), k, o);
    }
  }

  lemma {:induction false} CountFullRow(l: Layout, t: nat, k: nat, o: nat)
    requires l.Valid() && l.Full() > 0 && t <= l.threads && o < l.outputs
    ensures Count(FullRow(l, t), k, o) == if l.Left() <= k < l.Left() + Product(t, l.Full()) then 1 else 0
  {
    if t > 0 {
      CountFullRow(l, t - 1, k, o);
      ProductNext(t - 1, l.Full());
      assert FullRow(l, t)[..t - 1] == FullRow(l, t - 1);
    }
  }

  /** Every pair of a chunk and an output is covered by exactly one request, and nothing else is covered. */
  lemma CoveredOnce(l: Layout, k: nat, o: nat)
    requires l.Valid() && o < l.outputs
    ensures Count(Requests(l), k, o) == if k < l.Chunks() then 1 else 0
  {
    var left := if l.Left() > 0 then LeftRows(l, l.Left()) else [];
    var full := if l.Full() > 0 then FullRow(l, l.threads) else [];
    CountConcat(left, full, k, o);
    if l.Left() > 0 { CountLeftRows(l, l.Left(), k, o); }
    if l.Full() > 0 { CountFullRow(l, l.threads, k, o); }
    FullInside(l, 0);
    assert l.Full() == 0 ==> Product(l.threads, l.Full()) == 0;
  }

  // What a worker writes for one request.

  function ProcSize(l: Layout, r: Request, round: nat): int {
    var left := r.len - round * l.chunkLen;
    if left < l.chunkLen then left else l.chunkLen
  }

  /** Where it writes in round `round` for the `out`-th output of the request. */
  function Target(l: Layout, r: Request, round: nat, out: nat): int {
    r.output + out * ProcSize(l, r, round) + round * r.outputs * l.chunkLen
  }

  /** Each round of a request writes exactly the cells of its chunk and outputs. */
  ghost predicate WritesCells(l: Layout, r: Request)
    requires l.Valid()
  {
    && r.thread < l.threads && r.chunks >= 1 && r.outputs >= 1
    && r.firstChunk + r.chunks <= l.Chunks() && r.firstOutput + r.outputs <= l.outputs
    && forall round: nat, out: nat :: round < r.chunks && out < r.outputs ==> WritesCell(l, r, round, out)
  }

  ghost predicate WritesCell(l: Layout, r: Request, round: nat, out: nat)
    requires l.Valid() && r.firstChunk + r.chunks <= l.Chunks() && round < r.chunks
  {
    && ProcSize(l, r, round) == l.ChunkSize(r.firstChunk + round)
    && Target(l, r, round, out) == l.CellStart(r.firstChunk + round, r.firstOutput + out)
  }

  lemma LeftWrites(l: Layout, k: nat, tc: nat)
    requires l.Valid() && k < l.Left() && tc < l.PerChunk()
    ensures WritesCells(l, LeftRequest(l, k, tc))
  {
    var r := LeftRequest(l, k, tc);
    SplitGrows(l, tc);
    SplitWithin(l, tc + 1);
    LeftIsChunk(l, k);
    LeftThread(l, k, tc);
    forall round: nat, out: nat | round < r.chunks && out < r.outputs ensures WritesCell(l, r, round, out) {
      LeftWritesCell(l, k, tc, out);
    }
  }

  lemma LeftWritesCell(l: Layout, k: nat, tc: nat, out: nat)
    requires l.Valid() && k < l.Left() && tc < l.PerChunk()
    ensures LeftRequest(l, k, tc).firstChunk + LeftRequest(l, k, tc).chunks <= l.Chunks()
    ensures WritesCell(l, LeftRequest(l, k, tc), 0, out)
  {
    LeftIsChunk(l, k);
    var first, n := Split(l, tc), l.ChunkSize(k);
    assert (first + out) * n == first * n + out * n;
  }

  lemma LeftThread(l: Layout, k: nat, tc: nat)
    requires l.Valid() && k < l.Left() && tc < l.PerChunk()
    ensures Product(k, l.PerChunk()) + tc < l.threads
  {
    MulMono(k + 1, l.Left(), l.PerChunk());
    ProductNext(k, l.PerChunk());
    assert l.PerChunk() * l.Left() <= l.threads;
  }

  lemma FullWrites(l: Layout, t: nat)
    requires l.Valid() && t < l.threads && l.Full() > 0
    ensures WritesCells(l, FullRequest(l, t))
  {
    var r := FullRequest(l, t);
    FullInside(l, t);
    forall round: nat, out: nat | round < r.chunks && out < r.outputs ensures WritesCell(l, r, round, out) {
      FullWritesCell(l, t, round, out);
    }
  }

  lemma FullWritesCell(l: Layout, t: nat, round: nat, out: nat)
    requires l.Valid() && t < l.threads && l.Full() > 0 && round < l.Full() && out < l.outputs
    ensures FullRequest(l, t).firstChunk + FullRequest(l, t).chunks <= l.Chunks()
    ensures WritesCell(l, FullRequest(l, t), round, out)
  {
    var first := FullRequest(l, t).firstChunk;
    FullInside(l, t);
    assert ProcSize(l, FullRequest(l, t), round) == l.ChunkSize(first + round) by { FullRoundSize(l, t, round); }
    CellOffset(first, round, l.chunkLen, l.outputs);
  }

  /** A round of a full request has the size of its chunk. */
  lemma FullRoundSize(l: Layout, t: nat, round: nat)
    requires l.Valid() && t < l.threads && l.Full() > 0 && round < l.Full()
    ensures FullRequest(l, t).firstChunk + round < l.Chunks()
    ensures ProcSize(l, FullRequest(l, t), round) == l.ChunkSize(FullRequest(l, t).firstChunk + round)
  {
    var first := FullRequest(l, t).firstChunk;
    FullInside(l, t);
    l.ChunkBounds(first + round);
    MulMono(round + 1, l.Full(), l.chunkLen);
    ProductNext(round, l.chunkLen);
    ProductSum(first, round, l.chunkLen);
    SameSize(l.sliceLen, first * l.chunkLen, l.chunkLen * l.Full(), round * l.chunkLen, l.chunkLen);
  }

  lemma SameSize(slice: nat, start: nat, len: nat, done: nat, chunk: nat)
    requires start + done <= slice && done + chunk <= len
    ensures var left := Min(slice - start, len) - done;
            (if left < chunk then left else chunk) == Min(slice - (start + done), chunk)
  {}

  lemma ProductSum(a: nat, b: nat, c: nat)
    ensures Product(a + b, c) == Product(a, c) + Product(b, c)
  {}

  /** Where a chunk's results begin, counted from an earlier chunk. */
  lemma CellOffset(first: nat, round: nat, c: nat, outputs: nat)
    ensures Product(Product(first + round, c), outputs) == Product(Product(first, c), outputs) + round * outputs * c
  {
    ProductSum(first, round, c);
    ProductSum(Product(first, c), Product(round, c), outputs);
    assert round * c * outputs == round * outputs * c;
  }

  lemma {:induction false} LeftRowWrites(l: Layout, k: nat, tc: nat)
    requires l.Valid() && k < l.Left() && tc <= l.PerChunk()
    ensures forall i :: 0 <= i < tc ==> WritesCells(l, LeftRow(l, k, tc)[i])
  {
    if tc > 0 {
      LeftRowWrites(l, k, tc - 1);
      LeftWrites(l, k, tc - 1);
      assert forall i :: 0 <= i < tc - 1 ==> LeftRow(l, k, tc)[i] == LeftRow(l, k, tc - 1)[i];
    }
  }

  lemma {:induction false} LeftRowsWrite(l: Layout, k: nat)
    requires l.Valid() && l.Left() > 0 && k <= l.Left()
    ensures forall i :: 0 <= i < |LeftRows(l, k)| ==> WritesCells(l, LeftRows(l, k)[i])
  {
    if k > 0 {
      LeftRowsWrite(l, k - 1);
      LeftRowWrites(l, k - 1, l.PerChunk());
      BothWrite(l, LeftRows(l, k - 1), LeftRow(l, k - 1, l.PerChunk()));
    }
  }

  lemma BothWrite(l: Layout, a: seq<Request>, b: seq<Request>)
    requires l.Valid() && (forall i :: 0 <= i < |a| ==> WritesCells(l, a[i]))
    requires (forall i :: 0 <= i < |b| ==> WritesCells(l, b[i]))
    ensures forall i :: 0 <= i < |a + b| ==> WritesCells(l, (a + b)[i])
  {
    forall i | 0 <= i < |a + b| ensures WritesCells(l, (a + b)[i]) {
      assert (a + b)[i] == if i < |a| then a[i] else b[i - |a|];
    }
  }

  lemma {:induction false} FullRowWrites(l: Layout, t: nat)
    requires l.Valid() && l.Full() > 0 && t <= l.threads
    ensures forall i :: 0 <= i < t ==> WritesCells(l, FullRow(l, t)[i])
  {
    if t > 0 {
      FullRowWrites(l, t - 1);
      FullWrites(l, t - 1);
      assert forall i :: 0 <= i < t - 1 ==> FullRow(l, t)[i] == FullRow(l, t - 1)[i];
    }
  }

  /** Every request is for a real thread, is not empty, and writes the cells of its chunks and outputs and nothing
      else. */
  lemma RequestsWriteCells(l: Layout)
    requires l.Valid()
    ensures Sound(l, Requests(l))
  {
    var left := if l.Left() > 0 then LeftRows(l, l.Left()) else [];
    var full := if l.Full() > 0 then FullRow(l, l.threads) else [];
    if l.Left() > 0 { LeftRowsWrite(l, l.Left()); }
    if l.Full() > 0 { FullRowWrites(l, l.threads); }
    BothWrite(l, left, full);
  }

  // The requests as the parts of a pipeline plan.

  /** The number of the cell of chunk `k` and output `o`. */
  function CellId(l: Layout, k: nat, o: nat): nat {
    Product(k, l.outputs) + o
  }

  function PartOf(l: Layout, r: Request): WorkQueues.Part
    requires r.outputs > 0
  {
    WorkQueues.Part(r.thread, seq(Product(r.chunks, r.outputs), i requires 0 <= i =>
      CellId(l, r.firstChunk + i / r.outputs, r.firstOutput + i % r.outputs)))
  }

  lemma PartCell(l: Layout, r: Request, i: nat)
    requires l.Valid() && WritesCells(l, r) && i < |PartOf(l, r).cells|
    ensures var k, o := r.firstChunk + i / r.outputs, r.firstOutput + i % r.outputs;
            PartOf(l, r).cells[i] == CellId(l, k, o) && Covers(r, k, o) && k < l.Chunks() && o < l.outputs
  {
    DivBelow(i, r.outputs, r.chunks);
    DivMod(i, r.outputs);
  }

  /** Different cells have different numbers. */
  lemma CellIdInjective(l: Layout, k: nat, o: nat, k': nat, o': nat)
    requires l.Valid() && o < l.outputs && o' < l.outputs && CellId(l, k, o) == CellId(l, k', o')
    ensures k == k' && o == o'
  {
    DivModUnique(CellId(l, k, o), l.outputs, k, o);
    DivModUnique(CellId(l, k, o), l.outputs, k', o');
  }

  lemma {:induction false} CountTwo(rs: seq<Request>, i: nat, j: nat, k: nat, o: nat)
    requires i < j < |rs| && Covers(rs[i], k, o) && Covers(rs[j], k, o)
    ensures Count(rs, k, o) >= 2
  {
    var n := |rs| - 1;
    if j < n {
      CountTwo(rs[..n], i, j, k, o);
    } else {
      CountOne(rs[..n], i, k, o);
    }
  }

  lemma {:induction false} CountOne(rs: seq<Request>, i: nat, k: nat, o: nat)
    requires i < |rs| && Covers(rs[i], k, o)
    ensures Count(rs, k, o) >= 1
  {
    var n := |rs| - 1;
    if i < n { CountOne(rs[..n], i, k, o); }
  }

  ghost predicate Sound(l: Layout, rs: seq<Request>)
    requires l.Valid()
  {
    forall i :: 0 <= i < |rs| ==> WritesCells(l, rs[i])
  }

  /** The parts of one kernel run. */
  function Parts(l: Layout, rs: seq<Request>): (parts: seq<WorkQueues.Part>)
    requires forall i :: 0 <= i < |rs| ==> rs[i].outputs > 0
    ensures |parts| == |rs| && forall i :: 0 <= i < |parts| ==> parts[i] == PartOf(l, rs[i])
  {
    if rs == [] then [] else Parts(l, rs[..|rs| - 1]) + [PartOf(l, rs[|rs| - 1])]
  }

  lemma CellsApart(l: Layout, p: nat, j: nat, q: nat, k: nat)
    requires l.Valid() && Sound(l, Requests(l)) && p < |Requests(l)| && q < |Requests(l)|
    requires j < |PartOf(l, Requests(l)[p]).cells| && k < |PartOf(l, Requests(l)[q]).cells|
    requires PartOf(l, Requests(l)[p]).cells[j] == PartOf(l, Requests(l)[q]).cells[k]
    ensures p == q && j == k
  {
    var r, s := Requests(l)[p], Requests(l)[q];
    var c, o := r.firstChunk + j / r.outputs, r.firstOutput + j % r.outputs;
    var d, u := s.firstChunk + k / s.outputs, s.firstOutput + k % s.outputs;
    PartCell(l, r, j);
    PartCell(l, s, k);
    CellIdInjective(l, c, o, d, u);
    CoveredOnce(l, c, o);
    if p < q { CountTwo(Requests(l), p, q, c, o); }
    if q < p { CountTwo(Requests(l), q, p, c, o); }
    DivMod(j, r.outputs);
    DivMod(k, r.outputs);
  }

  lemma CellInside(l: Layout, k: nat, o: nat)
    requires l.Valid() && k < l.Chunks() && o < l.outputs
    ensures CellId(l, k, o) < Product(l.Chunks(), l.outputs)
  {
    MulMono(k + 1, l.Chunks(), l.outputs);
    ProductNext(k, l.outputs);
  }

  lemma {:induction false} Covering(rs: seq<Request>, k: nat, o: nat) returns (i: nat)
    requires Count(rs, k, o) > 0
    ensures i < |rs| && Covers(rs[i], k, o)
  {
    var n := |rs| - 1;
    if Covers(rs[n], k, o) { i := n; } else { i := Covering(rs[..n], k, o); }
  }

  lemma SomeRequest(l: Layout)
    requires l.Valid()
    ensures Requests(l) != []
  {
    DivMod(l.sliceLen + l.chunkLen - 1, l.chunkLen);
    CoveredOnce(l, 0, 0);
  }

  /** The division of a kernel run is one that the pipeline can work with: real threads, and every cell in one place. */
  lemma KernelPlanValid<D(!new), E(!new), V(!new)>(l: Layout, p: Pipeline.Plan<D, E, V>)
    requires l.Valid() && Sound(l, Requests(l)) && p.areas > 0 && p.batchSize > 0 && p.threads == l.threads
    requires p.cells == Product(l.Chunks(), l.outputs) && p.parts == Parts(l, Requests(l))
    ensures p.Valid()
  {
    SomeRequest(l);
    forall q, j | 0 <= q < |p.parts| && 0 <= j < |p.parts[q].cells| ensures p.parts[q].cells[j] < p.cells {
      var r := Requests(l)[q];
      PartCell(l, r, j);
      CellInside(l, r.firstChunk + j / r.outputs, r.firstOutput + j % r.outputs);
    }
    forall q, j, u, k | 0 <= q < |p.parts| && 0 <= j < |p.parts[q].cells|
                        && 0 <= u < |p.parts| && 0 <= k < |p.parts[u].cells|
      ensures p.parts[q].cells[j] == p.parts[u].cells[k] ==> q == u && j == k
    {
      if p.parts[q].cells[j] == p.parts[u].cells[k] { CellsApart(l, q, j, u, k); }
    }
  }

  /** And no cell is missing. */
  lemma EveryCellHasPart(l: Layout, k: nat, o: nat) returns (q: nat, j: nat)
    requires l.Valid() && Sound(l, Requests(l)) && k < l.Chunks() && o < l.outputs
    ensures q < |Requests(l)| && j < |PartOf(l, Requests(l)[q]).cells|
    ensures PartOf(l, Requests(l)[q]).cells[j] == CellId(l, k, o)
  {
    CoveredOnce(l, k, o);
    q := Covering(Requests(l), k, o);
    var r := Requests(l)[q];
    var dk, d := k - r.firstChunk, o - r.firstOutput;
    j := Product(dk, r.outputs) + d;
    MulMono(dk + 1, r.chunks, r.outputs);
    ProductNext(dk, r.outputs);
    DivModUnique(j, r.outputs, dk, d);
  }
}
