/** How one run of the kernel is divided among the worker threads. */
module KernelPartition {
  import opened Arithmetic

  /** Threads, bytes of a slice, bytes of a chunk, and outputs. */
  datatype Layout = Layout(threads: nat, sliceLen: nat, chunkLen: nat, outputs: nat) {

    predicate Valid() {
      threads > 0 && sliceLen > 0 && chunkLen > 0 && outputs > 0
    }

    function Chunks(): (n: nat)
      requires Valid()
    {
      (sliceLen + chunkLen - 1) / chunkLen
    }

    /** Chunks that every thread gets, and chunks that are left over. */
    function Full(): nat
      requires Valid()
    {
      Chunks() / threads
    }

    function Left(): nat
      requires Valid()
    {
      Chunks() % threads
    }

    /** How many threads share a chunk that is left over. */
    function PerChunk(): (n: nat)
      requires Valid() && Left() > 0
      ensures 1 <= n <= outputs && n * Left() <= threads && (n == outputs || threads < (n + 1) * Left())
    {
      var q := threads / Left();
      DivMod(threads, Left());
      MulMono(Min(q, outputs), q, Left());
      assert (q + 1) * Left() == q * Left() + Left();
      Min(q, outputs)
    }

    /** The last chunk may be shorter. */
    function ChunkSize(k: nat): (n: nat)
      requires Valid() && k < Chunks()
      ensures 0 < n <= chunkLen && k * chunkLen + n <= sliceLen
      ensures k + 1 < Chunks() ==> n == chunkLen
      ensures k + 1 == Chunks() ==> k * chunkLen + n == sliceLen
    {
      ChunkBounds(k);
      Min(sliceLen - k * chunkLen, chunkLen)
    }

    lemma ChunkBounds(k: nat)
      requires Valid() && k < Chunks()
      ensures k * chunkLen < sliceLen
      ensures k + 1 < Chunks() ==> (k + 1) * chunkLen < sliceLen
      ensures k + 1 == Chunks() ==> (k + 1) * chunkLen >= sliceLen
    {
      var x, n := sliceLen + chunkLen - 1, Chunks();
      DivMod(x, chunkLen);
      MulMono(k + 1, n, chunkLen);
      assert (k + 1) * chunkLen == k * chunkLen + chunkLen;
      if k + 1 < n {
        MulMono(k + 2, n, chunkLen);
        assert (k + 2) * chunkLen == (k + 1) * chunkLen + chunkLen;
      }
    }

    /** Where the result of chunk `k` for output `o` is kept. */
    function CellStart(k: nat, o: nat): nat
      requires Valid() && k < Chunks()
    {
      Product(Product(k, chunkLen), outputs) + Product(o, ChunkSize(k))
    }
  }

  function Product(a: nat, b: nat): nat {
    MulMono(0, a, b);
    a * b
  }

  /** The cells lie one after the other, without gap or overlap, from 0 to the end of the memory. */
  lemma CellsTile(l: Layout, k: nat, o: nat)
    requires l.Valid() && k < l.Chunks() && o < l.outputs
    ensures l.CellStart(0, 0) == 0
    ensures var end := l.CellStart(k, o) + l.ChunkSize(k);
            end == if o + 1 < l.outputs then l.CellStart(k, o + 1)
                   else if k + 1 < l.Chunks() then l.CellStart(k + 1, 0)
                   else Product(l.sliceLen, l.outputs)
  {
    var n, c := l.ChunkSize(k), l.outputs;
    assert (o + 1) * n == o * n + n;
    if o + 1 == c {
      assert k * l.chunkLen * c + c * n == (k * l.chunkLen + n) * c;
      if k + 1 < l.Chunks() { assert (k + 1) * l.chunkLen == k * l.chunkLen + n; }
    }
  }

  /** Some chunks in a row, for some outputs in a row, on one thread; `output` is where its results begin. */
  datatype Request = Request(thread: nat, firstChunk: nat, chunks: nat, firstOutput: nat, outputs: nat, len: nat,
                             output: nat)

  predicate Covers(r: Request, k: nat, o: nat) {
    r.firstChunk <= k < r.firstChunk + r.chunks && r.firstOutput <= o < r.firstOutput + r.outputs
  }

  /** The first output of share `tc` of a chunk: the exact quotient, rounded to the nearest integer. */
  function Split(l: Layout, tc: nat): nat
    requires l.Valid() && l.Left() > 0
  {
    (Product(2 * l.outputs, tc) + l.PerChunk()) / (2 * l.PerChunk())
  }

  /** Every share has at least one output, and together they are all the outputs. */
  lemma SplitGrows(l: Layout, tc: nat)
    requires l.Valid() && l.Left() > 0
    ensures Split(l, 0) == 0 && Split(l, l.PerChunk()) == l.outputs
    ensures Split(l, tc) + 1 <= Split(l, tc + 1)
  {
    var n, d := l.PerChunk(), 2 * l.PerChunk();
    DivModUnique(n, d, 0, n);
    assert 2 * l.outputs * n == l.outputs * d;
    DivModUnique(l.outputs * d + n, d, l.outputs, n);
    var x := Product(2 * l.outputs, tc) + n;
    assert 2 * l.outputs * (tc + 1) == 2 * l.outputs * tc + 2 * l.outputs;
    QuotientGrows(x, Product(2 * l.outputs, tc + 1) + n, d);
  }

  /** The first output of a share is as near as can be to an even division. */
  lemma SplitIsNearest(l: Layout, tc: nat)
    requires l.Valid() && l.Left() > 0
    ensures var n, even := l.PerChunk(), 2 * l.outputs * tc;
            2 * n * Split(l, tc) <= even + n && even < 2 * n * Split(l, tc) + n
  {
    var n := l.PerChunk();
    DivMod(Product(2 * l.outputs, tc) + n, 2 * n);
    assert Product(2 * l.outputs, tc) == 2 * l.outputs * tc;
  }

  lemma QuotientGrows(x: nat, y: nat, d: nat)
    requires d > 0 && x + d <= y
    ensures x / d + 1 <= y / d
  {
    DivMod(x, d);
    DivMod(y, d);
    if y / d <= x / d { MulMono(y / d, x / d, d); }
  }

  lemma {:induction false} SplitWithin(l: Layout, tc: nat)
    requires l.Valid() && l.Left() > 0 && tc <= l.PerChunk()
    ensures Split(l, tc) <= l.outputs
    decreases l.PerChunk() - tc
  {
    SplitGrows(l, tc);
    if tc < l.PerChunk() { SplitWithin(l, tc + 1); }
  }

  /** Share `tc` of the left-over chunk `k`. */
  function LeftRequest(l: Layout, k: nat, tc: nat): Request
    requires l.Valid() && k < l.Left() && tc < l.PerChunk()
  {
    SplitGrows(l, tc);
    LeftIsChunk(l, k);
    Request(Product(k, l.PerChunk()) + tc, k, 1, Split(l, tc), Split(l, tc + 1) - Split(l, tc), l.ChunkSize(k),
            Product(Product(k, l.chunkLen), l.outputs) + Product(Split(l, tc), l.ChunkSize(k)))
  }

  lemma LeftIsChunk(l: Layout, k: nat)
    requires l.Valid() && k < l.Left()
    ensures k < l.Chunks()
  {
    DivMod(l.Chunks(), l.threads);
    MulMono(0, l.Full(), l.threads);
  }

  /** The chunks that thread `t` has to itself. */
  function FullRequest(l: Layout, t: nat): Request
    requires l.Valid() && t < l.threads && l.Full() > 0
  {
    var first := l.Left() + Product(t, l.Full());
    FullInside(l, t);
    l.ChunkBounds(first);
    Request(t, first, l.Full(), 0, l.outputs,
            Min(l.sliceLen - Product(first, l.chunkLen), Product(l.chunkLen, l.Full())),
            Product(Product(first, l.chunkLen), l.outputs))
  }

  lemma FullInside(l: Layout, t: nat)
    requires l.Valid() && t < l.threads
    ensures l.Left() + Product(t, l.Full()) + l.Full() <= l.Chunks()
    ensures l.Left() + Product(l.threads, l.Full()) == l.Chunks()
  {
    DivMod(l.Chunks(), l.threads);
    MulMono(t + 1, l.threads, l.Full());
    assert (t + 1) * l.Full() == t * l.Full() + l.Full();
  }

  function LeftRow(l: Layout, k: nat, tc: nat): (rs: seq<Request>)
    requires l.Valid() && k < l.Left() && tc <= l.PerChunk()
    ensures |rs| == tc
  {
    if tc == 0 then [] else LeftRow(l, k, tc - 1) + [LeftRequest(l, k, tc - 1)]
  }

  function LeftRows(l: Layout, k: nat): (rs: seq<Request>)
    requires l.Valid() && l.Left() > 0 && k <= l.Left()
    ensures |rs| == Product(k, l.PerChunk())
  {
    if k == 0 then [] else LeftRows(l, k - 1) + LeftRow(l, k - 1, l.PerChunk())
  }

  function FullRow(l: Layout, t: nat): (rs: seq<Request>)
    requires l.Valid() && l.Full() > 0 && t <= l.threads
    ensures |rs| == t
  {
    if t == 0 then [] else FullRow(l, t - 1) + [FullRequest(l, t - 1)]
  }

  /** All requests of one run: shares of the left-over chunks first. */
  function Requests(l: Layout): seq<Request>
    requires l.Valid()
  {
    (if l.Left() > 0 then LeftRows(l, l.Left()) else []) + if l.Full() > 0 then FullRow(l, l.threads) else []
  }

  /** The number stored as the reference count, and the requests in the order in which they are sent. */
  method RunKernel(l: Layout) returns (procRefs: nat, requests: seq<Request>)
    requires l.Valid()
    ensures requests == Requests(l) && procRefs == |requests|
  {
    var full, left := l.Full(), l.Left();
    var chunk: nat := 0;
    requests := [];
    if left > 0 {
      var perChunk := l.PerChunk();
      procRefs := (if full > 0 then l.threads else 0) + Product(left, perChunk);
      var thread: nat := 0;
      while chunk < left
        invariant chunk <= left && thread == Product(chunk, perChunk)
        invariant requests == LeftRows(l, chunk)
      {
        var row, used := ShareChunk(l, chunk, perChunk, thread);
        requests := requests + row;
        ProductNext(chunk, perChunk);
        thread, chunk := used, chunk + 1;
      }
    } else {
      procRefs := l.threads;
      EveryThreadBusy(l);
    }
    if full > 0 {
      ghost var before := requests;
      for thread := 0 to l.threads
        invariant chunk == left + Product(thread, full)
        invariant requests == before + FullRow(l, thread)
      {
        var request := ForThread(l, thread, chunk, full);
        requests := requests + [request];
        chunk := chunk + full;
        ProductNext(thread, full);
      }
    }
  }

  method ForThread(l: Layout, thread: nat, chunk: nat, full: nat) returns (r: Request)
    requires l.Valid() && thread < l.threads && full == l.Full() > 0 && chunk == l.Left() + Product(thread, full)
    ensures r == FullRequest(l, thread)
  {
    FullInside(l, thread);
    l.ChunkBounds(chunk);
    var offset := Product(chunk, l.chunkLen);
    r := Request(thread, chunk, full, 0, l.outputs, Min(l.sliceLen - offset, Product(l.chunkLen, full)),
                 Product(offset, l.outputs));
  }

  lemma ProductNext(a: nat, b: nat)
    ensures Product(a + 1, b) == Product(a, b) + b
  {}

  /** Without left-over chunks every thread has full ones. */
  lemma EveryThreadBusy(l: Layout)
    requires l.Valid() && l.Left() == 0
    ensures l.Full() > 0
  {
    DivMod(l.Chunks(), l.threads);
    DivMod(l.sliceLen + l.chunkLen - 1, l.chunkLen);
  }

  /** Split one left-over chunk across threads. */
  method ShareChunk(l: Layout, chunk: nat, perChunk: nat, first: nat) returns (row: seq<Request>, thread: nat)
    requires l.Valid() && chunk < l.Left() && perChunk == l.PerChunk() && first == Product(chunk, perChunk)
    ensures row == LeftRow(l, chunk, perChunk) && thread == first + perChunk
  {
    LeftIsChunk(l, chunk);
    var base, size := Product(Product(chunk, l.chunkLen), l.outputs), l.ChunkSize(chunk);
    var outputIdx: nat := 0;
    row, thread := [], first;
    SplitGrows(l, 0);
    for tc := 0 to perChunk
      invariant outputIdx == Split(l, tc) && thread == first + tc && row == LeftRow(l, chunk, tc)
    {
      SplitGrows(l, tc);
      var numOutputs := Split(l, tc + 1) - outputIdx;
      row := row + [Request(thread, chunk, 1, outputIdx, numOutputs, size, base + Product(outputIdx, size))];
      outputIdx, thread := outputIdx + numOutputs, thread + 1;
    }
  }

  function CeilDiv(a: nat, b: nat): nat
    requires b > 0
  {
    (a + b - 1) / b
  }

  lemma CeilDivBounds(a: nat, b: nat)
    requires a > 0 && b > 0
    ensures CeilDiv(a, b) > 0 && Product(CeilDiv(a, b), b) >= a && Product(CeilDiv(a, b) - 1, b) < a
  {
    DivMod(a + b - 1, b);
    ProductNext(CeilDiv(a, b) - 1, b);
  }

  lemma CeilDivLeast(a: nat, b: nat, n: nat)
    requires a > 0 && b > 0 && Product(n, b) >= a
    ensures CeilDiv(a, b) <= n
  {
    CeilDivBounds(a, b);
    if n < CeilDiv(a, b) { MulMono(n, CeilDiv(a, b) - 1, b); }
  }

  /** How many chunks are aimed at: enough for every thread, or fewer when they would be much smaller than intended. */
  function WantedChunks(len: nat, threads: nat, chunkLen: nat): (n: nat)
    requires len > 0 && threads > 0 && chunkLen > 0
    ensures n > 0
  {
    var perThread := CeilDiv(len, threads);
    if perThread <= chunkLen / 2 then
      var n := (len + chunkLen / 2) / chunkLen;
      if n < 1 then 1 else n
    else
      var n := (perThread + chunkLen / 2) / chunkLen;
      var m := if n < 1 then 1 else n;
      MulMono(1, m, threads);
      m * threads
  }

  /** `n` is `x` divided by `c`, rounded to the nearest integer, but at least one. */
  predicate Rounded(x: nat, c: nat, n: nat) {
    n > 0 && (n == 1 || n * c <= x + c / 2) && x + c / 2 < (n + 1) * c
  }

  lemma RoundedIs(x: nat, c: nat)
    requires c > 0
    ensures var n := (x + c / 2) / c; Rounded(x, c, if n < 1 then 1 else n)
  {
    var n := (x + c / 2) / c;
    DivMod(x + c / 2, c);
    assert (n + 1) * c == n * c + c && 2 * c == c + c;
  }

  /** When an even share for every thread is at most half a chunk, the whole slice is divided into chunks of about the
      intended length; otherwise the share of every thread is. */
  lemma WantedIsNear(len: nat, threads: nat, chunkLen: nat)
    requires len > 0 && threads > 0 && chunkLen > 0
    ensures var share, wanted := CeilDiv(len, threads), WantedChunks(len, threads, chunkLen);
            && (share - 1) * threads < len <= share * threads
            && if share <= chunkLen / 2 then Rounded(len, chunkLen, wanted)
               else exists n: nat :: wanted == n * threads && Rounded(share, chunkLen, n)
  {
    CeilDivBounds(len, threads);
    RoundedIs(len, chunkLen);
    RoundedIs(CeilDiv(len, threads), chunkLen);
  }

  /** Choose the chunk length: a multiple of the stride that needs no more chunks than aimed at. The number of chunks
      is then the one the layout has. */
  method CalcChunkSize(len: nat, threads: nat, chunkLen: nat, stride: nat) returns (newLen: nat, numChunks: nat)
    requires len > 0 && threads > 0 && chunkLen > 0 && stride > 0
    ensures newLen > 0 && newLen % stride == 0 && numChunks == CeilDiv(len, newLen)
    ensures 0 < numChunks <= WantedChunks(len, threads, chunkLen)
    ensures (newLen - stride) * WantedChunks(len, threads, chunkLen) < len
  {
    var wanted := WantedChunks(len, threads, chunkLen);
    var part := CeilDiv(len, wanted);
    CeilDivBounds(len, wanted);
    CeilDivBounds(part, stride);
    newLen := Product(CeilDiv(part, stride), stride);
    DivModUnique(newLen, stride, CeilDiv(part, stride), 0);
    numChunks := CeilDiv(len, newLen);
    MulMono(part, newLen, wanted);
    CeilDivBounds(len, newLen);
    CeilDivLeast(len, newLen, wanted);
    LeastMultiple(len, wanted, part, stride, newLen);
  }

  /** One stride less would not be enough. */
  lemma LeastMultiple(len: nat, wanted: nat, part: nat, stride: nat, newLen: nat)
    requires len > 0 && wanted > 0 && stride > 0 && part == CeilDiv(len, wanted)
    requires newLen == Product(CeilDiv(part, stride), stride)
    ensures newLen >= stride && (newLen - stride) * wanted < len
  {
    CeilDivBounds(len, wanted);
    CeilDivBounds(part, stride);
    ProductNext(CeilDiv(part, stride) - 1, stride);
    MulMono(newLen - stride, part - 1, wanted);
  }
}
