/** Scanning a data file for blocks of the source files. */
module ScanDataFile {
  import opened HashForest
  import opened VerificationHashTable
  import opened BlockMatches
  import opened BlockHits
  import opened IntactFiles
  import opened DataBlocks
  import opened FileCheckSummer
  import opened Arithmetic

  datatype MatchType = NoMatch | PartialMatch | FullMatch

  /** What is known about a source file as a whole. */
  datatype FileInfo = FileInfo(blockCount: nat, fileSize: nat, hashFull: nat, hash16k: nat)

  /** What the scanner sees at its offset: the sums of the bytes of its window. */
  method Look<B(!new)>(c: FileCheckSummer<B, nat, nat>, fileId: nat) returns (w: Window)
    requires c.Valid() && c.currentoffset < c.filesize
    ensures w == WindowOf(c.scheme, c.View(), c.BlockLength(), c.currentoffset, fileId)
    ensures Begins(c.View(), c.file, c.blocksize, c.currentoffset)
    ensures !c.ShortBlock() || c.hasher != null ==>
              c.View() == BlockBytes(c.scheme, c.file, c.blocksize, c.currentoffset)
  {
    c.ViewBegins();
    var bytes := c.buffer[c.outpointer..c.outpointer + c.blocksize];
    var hash := c.Hash();
    w := Window(c.Checksum(), hash, c.ShortBlock(), c.BlockLength(), c.currentoffset, fileId,
                ShortCrc(c.scheme, bytes), ShortHash(c.scheme, bytes));
  }

  /** So far this is a perfect match: the hits are the first blocks of one file in order, and nothing lies between
      the last one and the offset. */
  ghost predicate Flawless<B(!new)>(g: Setting<B>, hits: seq<Hit>, source: int, offset: nat) {
    && InOrder(g.entries, g.next, hits, source, g.blocksize)
    && offset == if hits == [] then 0 else HitEnd(g.entries, hits[|hits| - 1], g.blocksize, |g.file|)
  }

  /** In order, the next block is expected, and at its place. */
  lemma NextInOrder<B(!new)>(g: Setting<B>, hits: seq<Hit>, source: int, hit: Hit)
    requires Linked(g.entries, g.next, g.blocksize) && hits != [] && hit.offset < |g.file|
    requires InOrder(g.entries, g.next, hits, source, g.blocksize) && hit.entry < |g.entries|
    requires g.next[hits[|hits| - 1].entry] == hit.entry
    ensures g.entries[hit.entry].source == source && g.entries[hit.entry].block == |hits|
    ensures hit.offset == |hits| * g.blocksize <==>
              hit.offset == HitEnd(g.entries, hits[|hits| - 1], g.blocksize, |g.file|)
    ensures hit.offset == |hits| * g.blocksize ==> g.Suggestion(hits, hit.offset) == hit.entry
  {
    var n := |hits| - 1;
    var last := hits[n];
    assert HitInPlace(g.entries, last, source, n, g.blocksize);
    assert Follows(g.entries, last.entry, g.next[last.entry]);
    assert n * g.blocksize + g.blocksize == |hits| * g.blocksize;
  }

  /** Is a hit what a perfect match has next: the first block at the start, or the block expected? */
  predicate Perfect(e: Entry, i: int, offset: nat, count: nat, expected: int) {
    if count == 0 then e.FirstBlock() && offset == 0 else i == expected
  }

  /** A hit keeps the match perfect exactly when it is what comes next. */
  lemma HitKeepsFlawless<B(!new)>(g: Setting<B>, hits: seq<Hit>, source: int, hit: Hit)
    requires Linked(g.entries, g.next, g.blocksize) && hit.offset < |g.file| && hit.entry < |g.entries|
    ensures var e := g.entries[hit.entry];
            Flawless(g, hits + [hit], if hits == [] then e.source else source,
                     HitEnd(g.entries, hit, g.blocksize, |g.file|)) <==>
            Flawless(g, hits, source, hit.offset)
            && Perfect(e, hit.entry, hit.offset, |hits|, g.Suggestion(hits, hit.offset))
  {
    var more, n := hits + [hit], |hits|;
    var from := if hits == [] then g.entries[hit.entry].source else source;
    if Flawless(g, more, from, HitEnd(g.entries, hit, g.blocksize, |g.file|)) {
      InOrderBefore(g, hits, from, hit);
      if n > 0 { NextInOrder(g, hits, source, hit); }
    }
    if Flawless(g, hits, source, hit.offset)
       && Perfect(g.entries[hit.entry], hit.entry, hit.offset, n, g.Suggestion(hits, hit.offset))
    {
      if n > 0 { NextInOrder(g, hits, source, hit); }
      InOrderMore(g, hits, from, hit);
    }
  }

  lemma InOrderBefore<B(!new)>(g: Setting<B>, hits: seq<Hit>, source: int, hit: Hit)
    requires InOrder(g.entries, g.next, hits + [hit], source, g.blocksize)
    ensures InOrder(g.entries, g.next, hits, source, g.blocksize)
    ensures HitInPlace(g.entries, hit, source, |hits|, g.blocksize)
    ensures hits != [] ==> g.next[hits[|hits| - 1].entry] == hit.entry
  {
    var more := hits + [hit];
    assert more[|hits|] == hit && forall i :: 0 <= i < |hits| ==> more[i] == hits[i];
  }

  lemma InOrderMore<B(!new)>(g: Setting<B>, hits: seq<Hit>, source: int, hit: Hit)
    requires InOrder(g.entries, g.next, hits, source, g.blocksize)
    requires HitInPlace(g.entries, hit, source, |hits|, g.blocksize)
    requires hits != [] ==> g.next[hits[|hits| - 1].entry] == hit.entry
    ensures InOrder(g.entries, g.next, hits + [hit], source, g.blocksize)
  {}

  /** After a miss the match is not perfect any more. */
  lemma MissIsFlaw<B(!new)>(g: Setting<B>, hits: seq<Hit>, source: int, offset: nat, later: nat)
    requires Apart(g.entries, hits, g.blocksize, offset, |g.file|) && offset < later
    ensures !Flawless(g, hits, source, later)
  {
    if hits != [] { assert ApartAt(g.entries, hits, g.blocksize, offset, |g.file|, |hits| - 1); }
  }

  // The loop.

  /** Without a match the window moves on by one byte, and after a while, if data may be skipped, by almost a block. */
  method Miss<B(!new)>(c: FileCheckSummer<B, nat, nat>, skip: nat, distance: nat, scanned: nat)
    returns (scanoffset: nat)
    requires c.Valid() && c.currentoffset < c.filesize
    modifies c, c.buffer, c.hasher
    ensures c.Valid() && (c.hasher == null || c.hasher == old(c.hasher))
    ensures old(c.currentoffset) < c.currentoffset
    ensures c.currentoffset == old(c.currentoffset) + 1 || (skip > 0 && scanned + 1 >= distance && scanoffset == 0)
    ensures c.currentoffset <= old(c.currentoffset) + 1 + skip
  {
    var ok := c.Step();
    scanoffset := scanned;
    if skip > 0 {
      scanoffset := scanoffset + 1;
      if scanoffset >= distance && c.currentoffset < c.filesize {
        ok := c.Jump(skip);
        scanoffset := 0;
      }
    }
  }

  /** Where a scan is: what is known about the match, how many hits, and which entry comes next in their file. */
  datatype State = State(matchtype: MatchType, source: int, count: nat, nextentry: int) {

    /** After a miss this cannot be a perfect match. */
    function Missed(): State {
      this.(matchtype := PartialMatch, nextentry := NULL)
    }

    function Found(e: Entry, i: nat, offset: nat, next: int): State {
      State(if Perfect(e, i, offset, count, nextentry) then matchtype else PartialMatch,
            if count == 0 then e.source else source, count + 1, next)
    }

    /** The match counts as full exactly as long as it is flawless. */
    ghost predicate Describes<B(!new)>(g: Setting<B>, hits: seq<Hit>, offset: nat) {
      && count == |hits| && matchtype != NoMatch && (matchtype == FullMatch <==> Flawless(g, hits, source, offset))
    }
  }

  /** Assume that it will be a perfect match. */
  function Beginning(wanted: int): State {
    State(FullMatch, wanted, 0, NULL)
  }

  /** What holds about the hits whenever the scanner looks at its window. */
  ghost predicate Progress<B(!new)>(q: Search<B>, s: State, hits: seq<Hit>, offset: nat) {
    && q.Valid() && q.HitsFound(hits)
    && s.Describes(q.g, hits, offset) && Apart(q.g.entries, hits, q.g.blocksize, offset, |q.g.file|)
    && s.nextentry == q.g.Suggestion(hits, offset) && s.source == q.SourceAfter(hits)
    && q.NothingPassed(hits, offset)
  }

  /** The search that a summer and a table are used for. */
  ghost predicate IsFor<B(!new)>(q: Search<B>, c: FileCheckSummer<B, nat, nat>, t: VerificationHashTable)
    reads t
  {
    q.g == Setting(c.scheme, c.file, c.blocksize, t.forest.entries, t.next)
  }

  ghost predicate Scanning<B(!new)>(c: FileCheckSummer<B, nat, nat>, t: VerificationHashTable, q: Search<B>, s: State,
                                    hits: seq<Hit>)
    reads c, c.buffer, c.diskfile, c.hasher, t
  {
    && c.Valid() && t.Valid() && IsFor(q, c, t) && t.location == q.Locations(hits)
    && Progress(q, s, hits, c.currentoffset)
    && (q.g.OnlyFullMoves(hits, c.currentoffset) && c.currentoffset < c.filesize ==> c.hasher != null)
  }

  /** After a hit the next block of its file is expected. */
  lemma HitSuggests<B(!new)>(q: Search<B>, s: State, hits: seq<Hit>, hit: Hit)
    requires q.Valid() && hit.entry < |q.g.entries| && s.count == |hits| && s.source == q.SourceAfter(hits)
    ensures var n := s.Found(q.g.entries[hit.entry], hit.entry, hit.offset, q.g.next[hit.entry]);
            && n.nextentry == q.g.Suggestion(hits + [hit], HitEnd(q.g.entries, hit, q.g.blocksize, |q.g.file|))
            && n.source == q.SourceAfter(hits + [hit])
  {
    assert Follows(q.g.entries, hit.entry, q.g.next[hit.entry]);
    assert (hits + [hit])[|hits|] == hit && (hits != [] ==> (hits + [hit])[0] == hits[0]);
  }

  lemma HitProgress<B(!new)>(q: Search<B>, s: State, hits: seq<Hit>, hit: Hit)
    requires Progress(q, s, hits, hit.offset) && q.Finds(hits, hit.offset, hit.entry) && hit.entry < |q.g.entries|
    ensures 0 < q.g.entries[hit.entry].length <= q.g.blocksize
    ensures Progress(q, s.Found(q.g.entries[hit.entry], hit.entry, hit.offset, q.g.next[hit.entry]), hits + [hit],
                     HitEnd(q.g.entries, hit, q.g.blocksize, |q.g.file|))
  {
    HitKeepsFlawless(q.g, hits, s.source, hit);
    HitKeepsApart(q.g.entries, hits, q.g.blocksize, hit.offset, |q.g.file|, hit);
    q.MoreHitsFound(hits, hit);
    HitSuggests(q, s, hits, hit);
    q.HitPassesNothing(hits, hit);
  }

  lemma MissProgress<B(!new)>(q: Search<B>, s: State, hits: seq<Hit>, offset: nat, later: nat)
    requires Progress(q, s, hits, offset) && q.Finds(hits, offset, NULL) && offset < later
    requires later <= offset + 1 + q.Skip()
    ensures Progress(q, s.Missed(), hits, later)
  {
    MissKeepsApart(q.g.entries, hits, q.g.blocksize, offset, |q.g.file|, later);
    MissIsFlaw(q.g, hits, s.source, offset, later);
    if hits != [] { assert ApartAt(q.g.entries, hits, q.g.blocksize, offset, |q.g.file|, |hits| - 1); }
    q.MissPassesNothing(hits, offset, later);
  }

  /** After a miss the scanner is out of step. */
  lemma MissBreaksStep<B(!new)>(q: Search<B>, hits: seq<Hit>, offset: nat, later: nat)
    requires q.Valid() && Apart(q.g.entries, hits, q.g.blocksize, offset, |q.g.file|) && offset < later
    requires offset < |q.g.file|
    ensures !q.g.OnlyFullMoves(hits, later)
  {
    if hits != [] { assert ApartAt(q.g.entries, hits, q.g.blocksize, offset, |q.g.file|, |hits| - 1); }
  }

  /** A scanner that is in step after a hit was so before, and the block was a full one. */
  lemma HitKeepsStep<B(!new)>(q: Search<B>, hits: seq<Hit>, hit: Hit, later: nat)
    requires q.g.OnlyFullMoves(hits + [hit], later)
    ensures q.g.OnlyFullMoves(hits, hit.offset) && hit.entry < |q.g.entries|
    ensures q.g.entries[hit.entry].length == q.g.blocksize > 1
  {
    assert (hits + [hit])[..|hits|] == hits;
  }

  /** All blocks of one source file and nothing else, in order, each at its own place and with its own bytes, up to the
      end of a file that has the size and the hashes of the source file. */
  ghost predicate PerfectMatch<B(!new)>(g: Setting<B>, info: FileInfo, source: int, hits: seq<Hit>) {
    && |hits| == info.blockCount > 0 && |g.file| == info.fileSize && Flawless(g, hits, source, |g.file|)
    && g.scheme.md5(g.file) == info.hashFull && g.scheme.md5(g.file[..Min(SIXTEEN_K, |g.file|)]) == info.hash16k
    && forall i :: 0 <= i < |hits| ==> g.VerifiedInFile(if i == 0 then NULL else hits[i].entry, hits[i])
  }

  /** Before the end of the file there is no perfect match. */
  lemma NotPerfectYet<B(!new)>(q: Search<B>, s: State, hits: seq<Hit>, offset: nat, info: FileInfo, source: int)
    requires Progress(q, s, hits, offset) && offset < |q.g.file|
    ensures !PerfectMatch(q.g, info, source, hits)
  {
    if hits != [] { assert ApartAt(q.g.entries, hits, q.g.blocksize, offset, |q.g.file|, |hits| - 1); }
  }

  // A file that is intact.

  /** If the data file is a source file, exactly its first blocks have been found so far. */
  ghost predicate Tracks<B(!new)>(q: Search<B>, hits: seq<Hit>, offset: nat) {
    forall source: nat, first: nat, n: nat :: Intact(q, source, first, n) ==> OnTrack(q, first, n, hits, offset)
  }

  /** Then the match is flawless so far. */
  lemma TrackIsFlawless<B(!new)>(q: Search<B>, source: nat, first: nat, n: nat, hits: seq<Hit>, offset: nat)
    requires Intact(q, source, first, n) && OnTrack(q, first, n, hits, offset)
    ensures Flawless(q.g, hits, if hits == [] then q.wanted else source, offset)
    ensures hits != [] ==> q.SourceAfter(hits) == source
  {
    forall b | 0 <= b < |hits| ensures HitInPlace(q.g.entries, hits[b], source, b, q.g.blocksize) {
      assert IsOwnBlock(q, source, first, n, b);
    }
    forall b | 0 < b < |hits| ensures q.g.next[hits[b - 1].entry] == hits[b].entry {
      assert IsOwnBlock(q, source, first, n, b - 1);
    }
    if hits != [] { TrackEnds(q, source, first, n, hits, offset); }
  }

  lemma TrackEnds<B(!new)>(q: Search<B>, source: nat, first: nat, n: nat, hits: seq<Hit>, offset: nat)
    requires Intact(q, source, first, n) && OnTrack(q, first, n, hits, offset) && hits != []
    ensures hits[|hits| - 1].entry < |q.g.entries|
    ensures offset == HitEnd(q.g.entries, hits[|hits| - 1], q.g.blocksize, |q.g.file|)
  {
    var k := |hits| - 1;
    assert IsOwnBlock(q, source, first, n, k);
    assert k * q.g.blocksize + q.g.blocksize == |hits| * q.g.blocksize;
  }

  /** What happens to the match when `i` is found, or nothing is. */
  function Next<B(!new)>(q: Search<B>, s: State, i: int, offset: nat): State
    requires |q.g.next| == |q.g.entries| && (i == NULL || 0 <= i < |q.g.entries|)
  {
    if i == NULL then s.Missed() else s.Found(q.g.entries[i], i, offset, q.g.next[i])
  }

  /** In an intact file the next block is found, and the match stays full. */
  lemma IntactStaysFull<B(!new)>(q: Search<B>, s: State, hits: seq<Hit>, offset: nat, i: int, source: nat, first: nat,
                                 n: nat)
    requires Progress(q, s, hits, offset) && q.Finds(hits, offset, i) && (i == NULL || 0 <= i < |q.g.entries|)
    requires Intact(q, source, first, n) && OnTrack(q, first, n, hits, offset)
    ensures i == first + |hits| && Next(q, s, i, offset).matchtype == FullMatch
  {
    TrackIsFlawless(q, source, first, n, hits, offset);
    NextIsFound(q, source, first, n, hits, offset, i);
    assert IsOwnBlock(q, source, first, n, |hits|);
    if hits != [] { NextSuggested(q, source, first, n, hits, offset); }
  }

  lemma StaysOnTrack<B(!new)>(q: Search<B>, s: State, hits: seq<Hit>, offset: nat, i: int, more: seq<Hit>, later: nat)
    requires Progress(q, s, hits, offset) && q.Finds(hits, offset, i) && (i == NULL || 0 <= i < |q.g.entries|)
    requires Tracks(q, hits, offset) && more == (if i == NULL then hits else hits + [Hit(i, offset)])
    requires Progress(q, Next(q, s, i, offset), more, later)
    ensures Tracks(q, more, later)
  {
    forall source: nat, first: nat, n: nat | Intact(q, source, first, n) ensures OnTrack(q, first, n, more, later) {
      IntactStaysFull(q, s, hits, offset, i, source, first, n);
      NextIsFound(q, source, first, n, hits, offset, i);
      assert more[|hits|] == Hit(i, offset);
    }
  }

  /** Where the match is not full any more, the file is not intact. */
  lemma NotIntact<B(!new)>(q: Search<B>, s: State, hits: seq<Hit>, offset: nat, i: int, source: nat, first: nat, n: nat)
    requires Progress(q, s, hits, offset) && q.Finds(hits, offset, i) && (i == NULL || 0 <= i < |q.g.entries|)
    requires Tracks(q, hits, offset) && Next(q, s, i, offset).matchtype != FullMatch
    ensures !Intact(q, source, first, n)
  {
    if Intact(q, source, first, n) { IntactStaysFull(q, s, hits, offset, i, source, first, n); }
  }

  /** An intact file scanned to its end: all of its blocks and nothing else. */
  lemma IntactIsPerfect<B(!new)>(q: Search<B>, s: State, hits: seq<Hit>, info: FileInfo, source: nat, first: nat,
                                 n: nat)
    requires Progress(q, s, hits, |q.g.file|) && Tracks(q, hits, |q.g.file|) && Intact(q, source, first, n)
    requires info == FileInfoOf(q, n)
    ensures s.source == source && PerfectMatch(q.g, info, source, hits)
  {
    assert OnTrack(q, first, n, hits, |q.g.file|);
    if |hits| < n { MulMono(|hits|, n - 1, q.g.blocksize); }
    TrackIsFlawless(q, source, first, n, hits, |q.g.file|);
    InOrderVerified(q, hits, source);
  }

  /** What is known of a source file that the data file is. */
  ghost function FileInfoOf<B(!new)>(q: Search<B>, n: nat): FileInfo {
    FileInfo(n, |q.g.file|, q.g.scheme.md5(q.g.file), q.g.scheme.md5(q.g.file[..Min(SIXTEEN_K, |q.g.file|)]))
  }

  /** Note a hit and jump behind it. */
  method TakeHit<B(!new)>(c: FileCheckSummer<B, nat, nat>, t: VerificationHashTable, i: nat, options: Options, s: State,
                          ghost q: Search<B>, ghost hits: seq<Hit>)
    returns (n: State)
    requires Scanning(c, t, q, s, hits) && c.currentoffset < c.filesize && options == q.options
    requires q.Finds(hits, c.currentoffset, i) && i < |t.forest.entries|
    modifies c, c.buffer, c.hasher, t`location
    ensures Scanning(c, t, q, n, hits + [Hit(i, old(c.currentoffset))])
    ensures n == s.Found(q.g.entries[i], i, old(c.currentoffset), q.g.next[i])
    ensures c.hasher == null || c.hasher == old(c.hasher)
    ensures old(c.currentoffset) < c.currentoffset
  {
    n := s.Found(t.forest.entries[i], i, c.currentoffset, t.next[i]);
    RecordAt(c, t, i, options, q, hits);
    JumpBehind(c, t, t.forest.entries[i].length, q, s, hits, Hit(i, c.currentoffset));
  }

  /** Record a hit at the offset of the window, if hits are recorded. */
  method RecordAt<B(!new)>(c: FileCheckSummer<B, nat, nat>, t: VerificationHashTable, i: nat, options: Options,
                           ghost q: Search<B>, ghost hits: seq<Hit>)
    requires c.Valid() && t.Valid() && IsFor(q, c, t) && t.location == q.Locations(hits) && options == q.options
    requires i < |t.forest.entries|
    modifies t`location
    ensures c.Valid() && t.Valid() && IsFor(q, c, t)
    ensures t.location == q.Locations(hits + [Hit(i, c.currentoffset)])
  {
    RecordedMore(q.location0, options.fileId, hits, Hit(i, c.currentoffset));
    if options.recording {
      t.location := t.location[i := At(options.fileId, c.currentoffset)];
    }
  }

  /** Jump behind a hit that has been recorded. */
  method JumpBehind<B(!new)>(c: FileCheckSummer<B, nat, nat>, t: VerificationHashTable, length: nat,
                             ghost q: Search<B>, ghost s: State, ghost hits: seq<Hit>, ghost hit: Hit)
    requires c.Valid() && c.currentoffset < c.filesize && hit.offset == c.currentoffset
    requires t.Valid() && IsFor(q, c, t) && t.location == q.Locations(hits + [hit])
    requires Progress(q, s, hits, c.currentoffset) && q.Finds(hits, hit.offset, hit.entry)
    requires hit.entry < |q.g.entries| && length == q.g.entries[hit.entry].length
    requires q.g.OnlyFullMoves(hits, c.currentoffset) ==> c.hasher != null
    modifies c, c.buffer, c.hasher
    ensures Scanning(c, t, q, s.Found(q.g.entries[hit.entry], hit.entry, hit.offset, q.g.next[hit.entry]), hits + [hit])
    ensures c.hasher == null || c.hasher == old(c.hasher)
    ensures old(c.currentoffset) < c.currentoffset
  {
    ghost var n := s.Found(q.g.entries[hit.entry], hit.entry, hit.offset, q.g.next[hit.entry]);
    ghost var end := HitEnd(q.g.entries, hit, q.g.blocksize, |q.g.file|);
    HitProgress(q, s, hits, hit);
    if q.g.OnlyFullMoves(hits + [hit], end) { HitKeepsStep(q, hits, hit, end); }
    JumpTo(c, t, length, end, q, n, hits + [hit]);
  }

  method JumpTo<B(!new)>(c: FileCheckSummer<B, nat, nat>, t: VerificationHashTable, length: nat, ghost end: nat,
                         ghost q: Search<B>, ghost n: State, ghost hits: seq<Hit>)
    requires c.Valid() && c.currentoffset < c.filesize && 0 < length <= c.blocksize
    requires t.Valid() && IsFor(q, c, t) && t.location == q.Locations(hits)
    requires Progress(q, n, hits, end) && end == Min(|q.g.file|, c.currentoffset + length)
    requires q.g.OnlyFullMoves(hits, end) ==> c.hasher != null && length == c.blocksize > 1
    modifies c, c.buffer, c.hasher
    ensures Scanning(c, t, q, n, hits)
    ensures c.hasher == null || c.hasher == old(c.hasher)
    ensures old(c.currentoffset) < c.currentoffset
  {
    var ok := c.Jump(length);
    assert c.currentoffset == end;
    assert IsFor(q, c, t);
  }

  /** Note a miss and move on. */
  method PassMiss<B(!new)>(c: FileCheckSummer<B, nat, nat>, t: VerificationHashTable, s: State, distance: nat,
                           scanned: nat, skip: nat, ghost q: Search<B>, ghost hits: seq<Hit>)
    returns (scanoffset: nat)
    requires Scanning(c, t, q, s, hits) && c.currentoffset < c.filesize && skip == q.Skip()
    requires q.Finds(hits, c.currentoffset, NULL)
    modifies c, c.buffer, c.hasher
    ensures Scanning(c, t, q, s.Missed(), hits)
    ensures c.hasher == null || c.hasher == old(c.hasher)
    ensures old(c.currentoffset) < c.currentoffset
  {
    ghost var offset := c.currentoffset;
    scanoffset := Miss(c, skip, distance, scanned);
    MissProgress(q, s, hits, offset, c.currentoffset);
    MissBreaksStep(q, hits, offset, c.currentoffset);
  }

  /** Move on past a hit or a miss. */
  method Advance<B(!new)>(c: FileCheckSummer<B, nat, nat>, t: VerificationHashTable, i: int, options: Options, s: State,
                          scanned: nat, ghost q: Search<B>, ghost hits: seq<Hit>)
    returns (n: State, scanoffset: nat, ghost more: seq<Hit>)
    requires Scanning(c, t, q, s, hits) && c.currentoffset < c.filesize && options == q.options
    requires q.Finds(hits, c.currentoffset, i) && (i == NULL || 0 <= i < |t.forest.entries|)
    modifies c, c.buffer, c.hasher, t`location
    ensures Scanning(c, t, q, n, more) && n == Next(q, s, i, old(c.currentoffset))
    ensures more == if i == NULL then hits else hits + [Hit(i, old(c.currentoffset))]
    ensures c.hasher == null || c.hasher == old(c.hasher)
    ensures old(c.currentoffset) < c.currentoffset
  {
    var distance: nat := options.ScanDistance(c.blocksize);
    if i == NULL {
      var skip := if options.skipData then c.blocksize - distance else 0;
      scanoffset := PassMiss(c, t, s, distance, scanned, skip, q, hits);
      n, more := s.Missed(), hits;
    } else {
      more := hits + [Hit(i, c.currentoffset)];
      n := TakeHit(c, t, i, options, s, q, hits);
      scanoffset := distance / 2;
    }
  }

  /** Go through the file from its start. `done` says that the end was reached; renaming gives up at the first
      imperfection. */
  method ScanAll<B(!new)>(c: FileCheckSummer<B, nat, nat>, t: VerificationHashTable, complete: nat -> bool,
                          options: Options, wanted: int, ghost q: Search<B>)
    returns (s: State, source: int, done: bool, ghost hits: seq<Hit>)
    requires Scanning(c, t, q, Beginning(wanted), []) && options == q.options && complete == q.complete
    modifies c, c.buffer, c.hasher, t`location
    ensures Scanning(c, t, q, s, hits)
    ensures if done then c.currentoffset == c.filesize && source == s.source
            else options.renameOnly && c.currentoffset < c.filesize
    ensures if done then Tracks(q, hits, c.currentoffset)
            else forall source: nat, first: nat, n: nat :: !Intact(q, source, first, n)
  {
    s, hits := Beginning(wanted), [];
    var scanoffset: nat := options.ScanDistance(c.blocksize) / 2;
    while c.currentoffset < c.filesize
      invariant Scanning(c, t, q, s, hits)
      invariant Tracks(q, hits, c.currentoffset)
      invariant c.hasher == null || c.hasher == old(c.hasher)
      decreases c.filesize - c.currentoffset
    {
      var i, after := Inspect(c, t, complete, options, s, q, hits);
      if after.matchtype == PartialMatch && options.renameOnly {
        forall from: nat, first: nat, n: nat ensures !Intact(q, from, first, n) {
          NotIntact(q, s, hits, c.currentoffset, i, from, first, n);
        }
        return s, if s.count == 0 then after.source else s.source, false, hits;
      }
      ghost var was, before, offset := s, hits, c.currentoffset;
      s, scanoffset, hits := Advance(c, t, i, options, s, scanoffset, q, hits);
      StaysOnTrack(q, was, before, offset, i, hits, c.currentoffset);
    }
    source, done := s.source, true;
  }

  /** The entry that the window matches, and what follows from it. */
  method Inspect<B(!new)>(c: FileCheckSummer<B, nat, nat>, t: VerificationHashTable, complete: nat -> bool,
                          options: Options, s: State, ghost q: Search<B>, ghost hits: seq<Hit>)
    returns (i: int, after: State)
    requires Scanning(c, t, q, s, hits) && c.currentoffset < c.filesize
    requires options == q.options && complete == q.complete
    ensures Scanning(c, t, q, s, hits)
    ensures q.Finds(hits, c.currentoffset, i) && (i == NULL || 0 <= i < |t.forest.entries|)
    ensures after == Next(q, s, i, c.currentoffset)
  {
    i := LookUp(c, t, complete, s, options, q, hits);
    after := if i == NULL then s.Missed() else s.Found(t.forest.entries[i], i, c.currentoffset, t.next[i]);
  }

  /** What the scanner sees, said about the search. */
  method LookAt<B(!new)>(c: FileCheckSummer<B, nat, nat>, fileId: nat, ghost q: Search<B>, ghost hits: seq<Hit>)
    returns (w: Window, ghost bytes: seq<B>)
    requires c.Valid() && c.currentoffset < c.filesize && fileId == q.options.fileId
    requires q.g.scheme == c.scheme && q.g.file == c.file && q.g.blocksize == c.blocksize
    requires q.g.OnlyFullMoves(hits, c.currentoffset) ==> c.hasher != null
    ensures w == q.WindowAt(c.currentoffset, bytes) && q.g.Shows(hits, c.currentoffset, bytes)
  {
    w := Look(c, fileId);
    bytes := c.View();
  }

  /** The entry that the window matches. */
  method LookUp<B(!new)>(c: FileCheckSummer<B, nat, nat>, t: VerificationHashTable, complete: nat -> bool, s: State,
                         options: Options, ghost q: Search<B>, ghost hits: seq<Hit>)
    returns (i: int)
    requires c.Valid() && c.currentoffset < c.filesize && t.Valid() && IsFor(q, c, t) && q.Valid()
    requires t.location == q.Locations(hits) && options == q.options && complete == q.complete
    requires s.nextentry == q.g.Suggestion(hits, c.currentoffset) && s.source == q.SourceAfter(hits)
    requires q.g.OnlyFullMoves(hits, c.currentoffset) ==> c.hasher != null
    ensures q.Finds(hits, c.currentoffset, i) && (i == NULL || 0 <= i < |t.forest.entries|)
  {
    var w, bytes := LookAt(c, options.fileId, q, hits);
    var duplicate;
    i, duplicate := FindMatch(t, complete, s.nextentry, w, s.source);
    if i != NULL { MatchIsTrue(IndexOf(t, complete), s.nextentry, w, s.source); }
    assert IndexOf(t, complete) == q.IndexAfter(hits);
    assert q.Yields(hits, c.currentoffset, bytes, i);
  }

  /** A file that matches perfectly is, by its size and its hashes, the source file. */
  predicate Confirmed(info: FileInfo, count: nat, filesize: nat, hashfull: nat, hash16k: nat) {
    count == info.blockCount && filesize == info.fileSize && hashfull == info.hashFull && hash16k == info.hash16k
  }

  /** The verdict after the whole file has been scanned. */
  method Conclude<B(!new)>(c: FileCheckSummer<B, nat, nat>, t: VerificationHashTable, infos: int -> FileInfo, s: State,
                           ghost q: Search<B>, ghost hits: seq<Hit>)
    returns (matchtype: MatchType, hashfull: nat, hash16k: nat)
    requires Scanning(c, t, q, s, hits) && c.currentoffset == c.filesize
    ensures matchtype == NoMatch <==> hits == []
    ensures matchtype == FullMatch <==> PerfectMatch(q.g, infos(s.source), s.source, hits)
    ensures hashfull == c.scheme.md5(c.file) && hash16k == c.scheme.md5(c.file[..Min(SIXTEEN_K, |c.file|)])
  {
    hashfull, hash16k := c.GetFileHashes();
    if s.matchtype == FullMatch { InOrderVerified(q, hits, s.source); }
    if s.count == 0 {
      matchtype := NoMatch;
    } else if s.matchtype != FullMatch || !Confirmed(infos(s.source), s.count, c.filesize, hashfull, hash16k) {
      matchtype := PartialMatch;
    } else {
      matchtype := FullMatch;
    }
  }

  /** The match is full exactly when it is perfect, and there is none exactly when there are no hits; renaming gives up
      before it knows. And a data file that is a source file is a full match of it. */
  ghost predicate Verdict<B(!new)>(q: Search<B>, infos: int -> FileInfo, matchtype: MatchType, source: int,
                                   hits: seq<Hit>) {
    && (matchtype == FullMatch <==> PerfectMatch(q.g, infos(source), source, hits))
    && (matchtype == NoMatch ==> hits == []) && (hits == [] && !q.options.renameOnly ==> matchtype == NoMatch)
    && forall from: nat, first: nat, n: nat :: Intact(q, from, first, n) && infos(from) == FileInfoOf(q, n) ==>
        matchtype == FullMatch && source == from
  }

  /** What a scan has found out about a file: hits that do not overlap, each what the index specified and true of the
      file, of blocks that may be taken; and no entry anywhere between them, as far as data is not skipped. */
  ghost predicate Scanned<B(!new)>(q: Search<B>, hits: seq<Hit>) {
    && q.HitsFound(hits) && (forall i :: 0 <= i < |hits| ==> q.g.HitTrue(hits[..i], hits[i]))
    && Apart(q.g.entries, hits, q.g.blocksize, |q.g.file|, |q.g.file|)
    && |q.location0| == |q.g.entries| && (forall i :: 0 <= i < |hits| ==> q.MayTake(hits[..i], hits[i]))
    && (!q.options.renameOnly ==> q.NothingPassed(hits, |q.g.file|))
  }

  lemma ProgressIsScanned<B(!new)>(q: Search<B>, s: State, hits: seq<Hit>, offset: nat)
    requires Progress(q, s, hits, offset) && offset <= |q.g.file|
    requires offset == |q.g.file| || q.options.renameOnly
    ensures Scanned(q, hits)
  {
    MissKeepsApart(q.g.entries, hits, q.g.blocksize, offset, |q.g.file|, |q.g.file|);
    forall i | 0 <= i < |hits| ensures q.g.HitTrue(hits[..i], hits[i]) && q.MayTake(hits[..i], hits[i]) {
      assert q.Finds(hits[..i], hits[i].offset, hits[i].entry);
      q.FoundIsTrue(hits[..i], hits[i]);
      q.FoundMayBeTaken(hits[..i], hits[i]);
    }
  }

  /** Scan a file for blocks. An empty file is looked at only if it is the target. */
  method ScanDataFile<B(!new)>(diskfile: DiskFile<B>, blocksize: nat, scheme: Scheme<B, nat, nat>,
                               t: VerificationHashTable, complete: nat -> bool, infos: int -> FileInfo,
                               wanted: int, targetExists: bool, options: Options, before: MatchType,
                               memory: nat -> B)
    returns (matchtype: MatchType, source: int, ghost q: Search<B>, ghost hits: seq<Hit>)
    requires blocksize > 0 && scheme.Slides(blocksize) && t.Valid() && Linked(t.forest.entries, t.next, blocksize)
    modifies t`location
    ensures q == Search(Setting(scheme, diskfile.content, blocksize, t.forest.entries, t.next), old(t.location),
                        complete, wanted, options)
    ensures t.Valid() && t.location == q.Locations(hits) && Scanned(q, hits)
    ensures diskfile.content != [] ==> Verdict(q, infos, matchtype, source, hits)
  {
    q := Search(Setting(scheme, diskfile.content, blocksize, t.forest.entries, t.next), t.location, complete, wanted,
                options);
    if !(wanted != NULL && targetExists) && |diskfile.content| == 0 {
      return before, wanted, q, [];
    }
    var c := OpenScan(diskfile, blocksize, scheme, memory, t, q);
    matchtype, source, hits := ScanOpened(c, t, complete, infos, wanted, options, q);
  }

  method ScanOpened<B(!new)>(c: FileCheckSummer<B, nat, nat>, t: VerificationHashTable, complete: nat -> bool,
                             infos: int -> FileInfo, wanted: int, options: Options, ghost q: Search<B>)
    returns (matchtype: MatchType, source: int, ghost hits: seq<Hit>)
    requires Scanning(c, t, q, Beginning(wanted), []) && options == q.options && complete == q.complete
    modifies c, c.buffer, c.hasher, t`location
    ensures t.Valid() && t.location == q.Locations(hits) && Scanned(q, hits)
    ensures Verdict(q, infos, matchtype, source, hits)
  {
    var s, done;
    s, source, done, hits := ScanAll(c, t, complete, options, wanted, q);
    ProgressIsScanned(q, s, hits, c.currentoffset);
    if done {
      matchtype := ConcludeScan(c, t, infos, s, q, hits);
    } else {
      matchtype := PartialMatch;
      NotPerfectYet(q, s, hits, c.currentoffset, infos(source), source);
    }
  }

  method ConcludeScan<B(!new)>(c: FileCheckSummer<B, nat, nat>, t: VerificationHashTable, infos: int -> FileInfo,
                               s: State, ghost q: Search<B>, ghost hits: seq<Hit>)
    returns (matchtype: MatchType)
    requires Scanning(c, t, q, s, hits) && c.currentoffset == c.filesize && Tracks(q, hits, c.currentoffset)
    ensures Verdict(q, infos, matchtype, s.source, hits)
  {
    var hashfull, hash16k;
    matchtype, hashfull, hash16k := Conclude(c, t, infos, s, q, hits);
    IntactVerdict(q, infos, s, hits);
  }

  lemma IntactVerdict<B(!new)>(q: Search<B>, infos: int -> FileInfo, s: State, hits: seq<Hit>)
    requires Progress(q, s, hits, |q.g.file|) && Tracks(q, hits, |q.g.file|)
    ensures forall from: nat, first: nat, n: nat ::
              Intact(q, from, first, n) && infos(from) == FileInfoOf(q, n) ==>
                s.source == from && PerfectMatch(q.g, infos(s.source), s.source, hits)
  {
    forall from: nat, first: nat, n: nat | Intact(q, from, first, n) && infos(from) == FileInfoOf(q, n)
      ensures s.source == from && PerfectMatch(q.g, infos(s.source), s.source, hits)
    {
      IntactIsPerfect(q, s, hits, infos(from), from, first, n);
    }
  }

  method OpenScan<B(!new)>(diskfile: DiskFile<B>, blocksize: nat, scheme: Scheme<B, nat, nat>, memory: nat -> B,
                           t: VerificationHashTable, ghost q: Search<B>)
    returns (c: FileCheckSummer<B, nat, nat>)
    requires blocksize > 0 && scheme.Slides(blocksize) && t.Valid() && q.Valid() && t.location == q.location0
    requires q.g == Setting(scheme, diskfile.content, blocksize, t.forest.entries, t.next)
    ensures fresh(c) && fresh(c.buffer) && fresh(c.hasher) && Scanning(c, t, q, Beginning(q.wanted), [])
  {
    c := Opened(diskfile, blocksize, scheme, memory);
    NothingFound(q);
    assert IsFor(q, c, t);
  }

  lemma NothingFound<B(!new)>(q: Search<B>)
    requires q.Valid()
    ensures Progress(q, Beginning(q.wanted), [], 0) && q.Locations([]) == q.location0
  {}

  method Opened<B(!new)>(diskfile: DiskFile<B>, blocksize: nat, scheme: Scheme<B, nat, nat>, memory: nat -> B)
    returns (c: FileCheckSummer<B, nat, nat>)
    requires blocksize > 0 && scheme.Slides(blocksize)
    ensures fresh(c) && fresh(c.buffer) && c.hasher != null && fresh(c.hasher) && c.Valid() && c.currentoffset == 0
    ensures c.file == diskfile.content && c.blocksize == blocksize && c.scheme == scheme && c.diskfile == diskfile
  {
    c := new FileCheckSummer<B, nat, nat>(diskfile, blocksize, scheme, memory);
    var ok := c.Start();
  }
}
