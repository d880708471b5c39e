/** A data file that is a source file: the scan finds all its blocks in order. */
module IntactFiles {
  import opened HashForest
  import opened VerificationHashTable
  import opened BlockMatches
  import opened BlockHits
  import opened Arithmetic

  /** Entry `first + b` is block `b` of the data file, padded, and has not been found. */
  ghost predicate IsOwnBlock<B(!new)>(q: Search<B>, source: nat, first: nat, n: nat, b: nat)
    requires |q.location0| == |q.g.next| == |q.g.entries| && first + n <= |q.g.entries| && b < n
  {
    var e, at := q.g.entries[first + b], b * q.g.blocksize;
    && at <= |q.g.file| && e.source == source && e.block == b && e.length == Min(q.g.blocksize, |q.g.file| - at)
    && IsSum(q.g.scheme, q.g.Block(at), e.crc, e.hash)
    && q.g.next[first + b] == (if b + 1 < n then first + b + 1 else NULL) && q.location0[first + b] == Missing
  }

  /** Nothing is taken for the first block: it is the only one with its key, or the first one of the file that is looked
      for. */
  ghost predicate FirstIsChosen<B(!new)>(q: Search<B>, source: nat, first: nat)
    requires first < |q.g.entries|
  {
    var e := q.g.entries[first];
    || OnlyWithKey(q.IndexAfter([]), first, e.crc, e.hash)
    || (q.wanted == source && forall j :: 0 <= j < first ==> q.g.entries[j].source != source)
  }

  /** The data file is source file `source`, whose `n` blocks are the entries from `first` on. None has been found,
      and the file is not complete. */
  ghost predicate Intact<B(!new)>(q: Search<B>, source: nat, first: nat, n: nat) {
    && q.Valid() && n > 0 && first + n <= |q.g.entries| && !q.complete(source)
    && q.g.blocksize > 0 && (n - 1) * q.g.blocksize < |q.g.file| <= n * q.g.blocksize
    && (forall b: nat :: b < n ==> IsOwnBlock(q, source, first, n, b)) && FirstIsChosen(q, source, first)
  }

  /** So far exactly the first blocks have been found, each at its place. */
  ghost predicate OnTrack<B(!new)>(q: Search<B>, first: nat, n: nat, hits: seq<Hit>, offset: nat) {
    && |hits| <= n && offset == Min(|q.g.file|, |hits| * q.g.blocksize)
    && forall b :: 0 <= b < |hits| ==> hits[b] == Hit(first + b, b * q.g.blocksize)
  }

  lemma TrackAt<B(!new)>(q: Search<B>, source: nat, first: nat, n: nat, hits: seq<Hit>, offset: nat)
    requires Intact(q, source, first, n) && OnTrack(q, first, n, hits, offset) && offset < |q.g.file|
    ensures |hits| < n && offset == |hits| * q.g.blocksize
    ensures q.g.Left(offset) == q.g.entries[first + |hits|].length
    ensures IsOwnBlock(q, source, first, n, |hits|)
  {
    if |hits| == n { assert false; }
    MulMono(|hits|, n - 1, q.g.blocksize);
    assert IsOwnBlock(q, source, first, n, |hits|);
  }

  /** All blocks but the last one are full. */
  lemma FullBefore<B(!new)>(q: Search<B>, source: nat, first: nat, n: nat, b: nat)
    requires Intact(q, source, first, n) && b + 1 < n
    ensures q.g.entries[first + b].length == q.g.blocksize
  {
    assert IsOwnBlock(q, source, first, n, b);
    MulMono(b + 1, n - 1, q.g.blocksize);
    assert (b + 1) * q.g.blocksize == b * q.g.blocksize + q.g.blocksize;
  }

  lemma {:induction false} TrackIsFull<B(!new)>(q: Search<B>, source: nat, first: nat, n: nat, hits: seq<Hit>,
                                                offset: nat)
    requires Intact(q, source, first, n) && OnTrack(q, first, n, hits, offset) && offset < |q.g.file|
    requires q.g.blocksize > 1
    ensures q.g.OnlyFullMoves(hits, offset)
  {
    if hits == [] {
      TrackAt(q, source, first, n, hits, offset);
    } else {
      var k := |hits| - 1;
      TrackBack(q, source, first, n, hits, offset);
      TrackIsFull(q, source, first, n, hits[..k], hits[k].offset);
    }
  }

  /** One block earlier the scan was on track as well. */
  lemma TrackBack<B(!new)>(q: Search<B>, source: nat, first: nat, n: nat, hits: seq<Hit>, offset: nat)
    requires Intact(q, source, first, n) && OnTrack(q, first, n, hits, offset) && offset < |q.g.file| && hits != []
    ensures var k := |hits| - 1;
            && OnTrack(q, first, n, hits[..k], hits[k].offset) && hits[k].offset + q.g.blocksize == offset
            && hits[k].entry == first + k < |q.g.entries| && q.g.entries[first + k].length == q.g.blocksize
            && q.g.next[first + k] == first + k + 1
  {
    var k := |hits| - 1;
    TrackAt(q, source, first, n, hits, offset);
    FullBefore(q, source, first, n, k);
    assert IsOwnBlock(q, source, first, n, k);
    assert k * q.g.blocksize + q.g.blocksize == |hits| * q.g.blocksize;
  }

  /** So the window shows the block there. */
  lemma TrackShows<B(!new)>(q: Search<B>, source: nat, first: nat, n: nat, hits: seq<Hit>, offset: nat, bytes: seq<B>)
    requires Intact(q, source, first, n) && OnTrack(q, first, n, hits, offset) && offset < |q.g.file|
    requires q.g.Shows(hits, offset, bytes)
    ensures bytes == q.g.Block(offset)
  {
    if q.g.blocksize > 1 { TrackIsFull(q, source, first, n, hits, offset); }
  }

  /** The next block has not been found. */
  lemma NextMissing<B(!new)>(q: Search<B>, source: nat, first: nat, n: nat, hits: seq<Hit>, offset: nat)
    requires Intact(q, source, first, n) && OnTrack(q, first, n, hits, offset) && offset < |q.g.file|
    ensures |hits| < n && q.Locations(hits)[first + |hits|] == Missing
  {
    TrackAt(q, source, first, n, hits, offset);
    RecordedElsewhere(q.location0, q.options.fileId, hits, first + |hits|);
  }

  lemma NextSuggested<B(!new)>(q: Search<B>, source: nat, first: nat, n: nat, hits: seq<Hit>, offset: nat)
    requires Intact(q, source, first, n) && OnTrack(q, first, n, hits, offset) && offset < |q.g.file| && hits != []
    ensures q.g.Suggestion(hits, offset) == first + |hits|
  {
    TrackAt(q, source, first, n, hits, offset);
    TrackBack(q, source, first, n, hits, offset);
  }

  /** All of the block is there, so padding adds nothing. */
  lemma PaddedIsBlock<B(!new)>(g: Setting<B>, offset: nat)
    requires offset <= |g.file|
    ensures Padding(g.scheme, g.Block(offset), g.Left(offset)) == g.Block(offset)
  {
    var n, block := g.Left(offset), g.Block(offset);
    assert block[..n] == g.file[offset..offset + n];
  }

  lemma LaterFound<B(!new)>(q: Search<B>, source: nat, first: nat, n: nat, hits: seq<Hit>, offset: nat)
    requires Intact(q, source, first, n) && OnTrack(q, first, n, hits, offset) && offset < |q.g.file| && hits != []
    ensures q.Yields(hits, offset, q.g.Block(offset), first + |hits|)
  {
    var i := first + |hits|;
    var x, w := q.IndexAfter(hits), q.WindowAt(offset, q.g.Block(offset));
    TrackAt(q, source, first, n, hits, offset);
    NextMissing(q, source, first, n, hits, offset);
    NextSuggested(q, source, first, n, hits, offset);
    PaddedIsBlock(q.g, offset);
    assert w.shortCrc(q.g.Left(offset)) == w.crc && w.shortHash(q.g.Left(offset)) == w.hash;
    ExpectedIsTaken(x, i, w, q.SourceAfter(hits));
  }

  lemma FirstFound<B(!new)>(q: Search<B>, source: nat, first: nat, n: nat)
    requires Intact(q, source, first, n)
    ensures q.Yields([], 0, q.g.Block(0), first)
  {
    var x, w := q.IndexAfter([]), q.WindowAt(0, q.g.Block(0));
    assert OnTrack(q, first, n, [], 0);
    TrackAt(q, source, first, n, [], 0);
    NextMissing(q, source, first, n, [], 0);
    if OnlyWithKey(x, first, w.crc, w.hash) {
      OnlyIsTakenIff(x, NULL, w, q.wanted, first);
    } else {
      FirstPreferredIs(x, w, source, first);
    }
  }

  /** Of several blocks with the key, the first one of the file that is looked for is taken. */
  lemma FirstPreferredIs(x: Index, w: Window, source: nat, first: nat)
    requires x.Valid() && first < |x.entries| && !OnlyWithKey(x, first, w.crc, w.hash)
    requires x.entries[first].Is(w.crc, w.hash) && x.Preferred(first, w, source)
    requires forall j :: 0 <= j < first ==> x.entries[j].source != source
    ensures x.Match(NULL, w, source).0 == first
  {
    var chain := IndexesOf(x.entries, w.crc, w.hash);
    InIndexes(x.entries, w.crc, w.hash, first);
    IndexesAscend(x.entries, w.crc, w.hash);
    if |chain| == 1 { ChainIsOnly(x, w.crc, w.hash); }
    var m :| 0 <= m < |chain| && chain[m] == first;
    assert IsPreferred(x, w, source)(chain[m]);
    MatchPrefers(x, NULL, w, source);
    FirstIs(x, chain, w, source, x.Match(NULL, w, source).0, m);
  }

  lemma FirstIs(x: Index, chain: seq<nat>, w: Window, source: nat, i: int, m: nat)
    requires First(chain, IsPreferred(x, w, source), i) && m < |chain| && IsPreferred(x, w, source)(chain[m])
    requires forall a, b :: 0 <= a < b < |chain| ==> chain[a] < chain[b]
    requires x.Valid() && forall j :: 0 <= j < chain[m] && j < |x.entries| ==> x.entries[j].source != source
    ensures i == chain[m]
  {
    assert i != NULL;
    var k :| 0 <= k < |chain| && chain[k] == i && IsPreferred(x, w, source)(chain[k])
             && forall j :: 0 <= j < k ==> !IsPreferred(x, w, source)(chain[j]);
    assert k <= m;
    assert x.Preferred(chain[k], w, source);
  }

  /** What is found next is the next block. */
  lemma NextIsFound<B(!new)>(q: Search<B>, source: nat, first: nat, n: nat, hits: seq<Hit>, offset: nat, i: int)
    requires Intact(q, source, first, n) && OnTrack(q, first, n, hits, offset) && q.Finds(hits, offset, i)
    ensures i == first + |hits| && |hits| < n
    ensures var hit := Hit(i, offset);
            OnTrack(q, first, n, hits + [hit], HitEnd(q.g.entries, hit, q.g.blocksize, |q.g.file|))
  {
    var bytes :| q.g.Shows(hits, offset, bytes) && q.Yields(hits, offset, bytes, i);
    TrackAt(q, source, first, n, hits, offset);
    TrackShows(q, source, first, n, hits, offset, bytes);
    if hits == [] { FirstFound(q, source, first, n); } else { LaterFound(q, source, first, n, hits, offset); }
    OneMoreOnTrack(q, source, first, n, hits, offset);
  }

  lemma OneMoreOnTrack<B(!new)>(q: Search<B>, source: nat, first: nat, n: nat, hits: seq<Hit>, offset: nat)
    requires Intact(q, source, first, n) && OnTrack(q, first, n, hits, offset) && offset < |q.g.file|
    ensures first + |hits| < |q.g.entries|
    ensures var hit := Hit(first + |hits|, offset);
            OnTrack(q, first, n, hits + [hit], HitEnd(q.g.entries, hit, q.g.blocksize, |q.g.file|))
  {
    TrackAt(q, source, first, n, hits, offset);
    assert (|hits| + 1) * q.g.blocksize == |hits| * q.g.blocksize + q.g.blocksize;
  }

  /** What the verification packet says about a source file that the data file is. */
  ghost predicate SumsOfFile<B(!new)>(g: Setting<B>, blocks: seq<BlockInfo>) {
    && g.blocksize > 0 && blocks != [] && (|blocks| - 1) * g.blocksize < |g.file| <= |blocks| * g.blocksize
    && forall b: nat :: b < |blocks| ==> SumsOfBlock(g, blocks[b], b * g.blocksize)
  }

  ghost predicate SumsOfBlock<B(!new)>(g: Setting<B>, block: BlockInfo, at: nat) {
    at <= |g.file| && block.length == g.Left(at) && IsSum(g.scheme, g.Block(at), block.crc, block.hash)
  }

  /** When the source file has been loaded, before and after others, the data file is intact for the scan. */
  lemma LoadedIsIntact<B(!new)>(q: Search<B>, source: nat, blocks: seq<BlockInfo>, entries: seq<Entry>, next: seq<int>,
                                location: seq<Place>)
    requires SumsOfFile(q.g, blocks) && q.Valid() && |entries| == |next| == |location| && !q.complete(source)
    requires entries + EntriesOf(source, blocks) <= q.g.entries
    requires next + Row(|next|, |next| + |blocks|) <= q.g.next && location + Unfound(|blocks|) <= q.location0
    requires FirstIsChosen(q, source, |entries|)
    ensures Intact(q, source, |entries|, |blocks|)
  {
    forall b: nat | b < |blocks| ensures IsOwnBlock(q, source, |entries|, |blocks|, b) {
      LoadedBlock(q, source, blocks, entries, next, location, b);
    }
  }

  lemma LoadedBlock<B(!new)>(q: Search<B>, source: nat, blocks: seq<BlockInfo>, entries: seq<Entry>, next: seq<int>,
                             location: seq<Place>, b: nat)
    requires b < |blocks| && SumsOfBlock(q.g, blocks[b], b * q.g.blocksize) && |entries| == |next| == |location|
    requires |q.location0| == |q.g.next| == |q.g.entries|
    requires entries + EntriesOf(source, blocks) <= q.g.entries
    requires next + Row(|next|, |next| + |blocks|) <= q.g.next && location + Unfound(|blocks|) <= q.location0
    ensures IsOwnBlock(q, source, |entries|, |blocks|, b)
  {
    Within(entries, EntriesOf(source, blocks), q.g.entries, b);
    Within(next, Row(|next|, |next| + |blocks|), q.g.next, b);
    Within(location, Unfound(|blocks|), q.location0, b);
  }

  lemma Within<T>(before: seq<T>, part: seq<T>, whole: seq<T>, b: nat)
    requires before + part <= whole && b < |part|
    ensures whole[|before| + b] == part[b]
  {
    assert whole[|before| + b] == (before + part)[|before| + b];
  }
}
