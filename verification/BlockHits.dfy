/** Blocks found in a data file, and what finding them says about the bytes of the file. */
module BlockHits {
  import opened HashForest
  import opened VerificationHashTable
  import opened BlockMatches
  import opened FileCheckSummer
  import opened Arithmetic

  /** A block that was found, and the offset at which it was found. */
  datatype Hit = Hit(entry: nat, offset: nat)

  datatype Options = Options(fileId: nat, recording: bool, renameOnly: bool, skipData: bool, skipLeaway: nat) {

    /** How far to scan byte by byte before skipping ahead. */
    function ScanDistance(blocksize: nat): (d: nat)
      ensures d <= blocksize
    {
      Min(2 * skipLeaway, blocksize)
    }
  }

  /** Blocks are not empty, and all but the last of a file have the full length. */
  ghost predicate BlockLengths(entries: seq<Entry>, next: seq<int>, blocksize: nat) {
    && |next| == |entries|
    && forall i :: 0 <= i < |entries| ==>
        0 < entries[i].length <= blocksize && (next[i] != NULL ==> entries[i].length == blocksize)
  }

  /** The blocks of a file of this size: as many as it takes, all of them full but for the last. */
  ghost predicate CutAs(blocks: seq<BlockInfo>, filesize: nat, blocksize: nat) {
    && (blocks != [] ==> (|blocks| - 1) * blocksize < filesize)
    && forall b :: 0 <= b < |blocks| ==>
        b * blocksize <= filesize && blocks[b].length == Min(blocksize, filesize - b * blocksize)
  }

  /** `Load` keeps what the scan relies on. */
  lemma LoadKeepsLengths(entries: seq<Entry>, next: seq<int>, source: nat, blocks: seq<BlockInfo>, filesize: nat,
                         blocksize: nat)
    requires BlockLengths(entries, next, blocksize) && CutAs(blocks, filesize, blocksize) && blocksize > 0
    ensures BlockLengths(entries + EntriesOf(source, blocks), next + Row(|entries|, |entries| + |blocks|), blocksize)
  {
    forall b | 0 <= b < |blocks|
      ensures 0 < blocks[b].length <= blocksize && (b + 1 < |blocks| ==> blocks[b].length == blocksize)
    {
      MulMono(b, |blocks| - 1, blocksize);
      if b + 1 < |blocks| {
        MulMono(b + 1, |blocks| - 1, blocksize);
        assert (b + 1) * blocksize == b * blocksize + blocksize;
      }
    }
  }

  /** The hits are the first blocks of one file in order, each at its own place. */
  ghost predicate InOrder(entries: seq<Entry>, next: seq<int>, hits: seq<Hit>, source: int, blocksize: nat) {
    && |next| == |entries|
    && (forall i :: 0 <= i < |hits| ==> HitInPlace(entries, hits[i], source, i, blocksize))
    && forall i :: 0 < i < |hits| ==> next[hits[i - 1].entry] == hits[i].entry
  }

  ghost predicate HitInPlace(entries: seq<Entry>, hit: Hit, source: int, block: nat, blocksize: nat) {
    && hit.entry < |entries| && entries[hit.entry].source == source && entries[hit.entry].block == block
    && hit.offset == block * blocksize
  }

  /** Entries lead to the next block of their file, and have the right lengths. */
  ghost predicate Linked(entries: seq<Entry>, next: seq<int>, blocksize: nat) {
    BlockLengths(entries, next, blocksize) && forall i :: 0 <= i < |next| ==> Follows(entries, i, next[i])
  }

  /** Hits do not overlap, and all end before the offset. */
  ghost predicate Apart(entries: seq<Entry>, hits: seq<Hit>, blocksize: nat, offset: nat, filesize: nat) {
    forall i: nat :: i < |hits| ==> ApartAt(entries, hits, blocksize, offset, filesize, i)
  }

  ghost predicate ApartAt(entries: seq<Entry>, hits: seq<Hit>, blocksize: nat, offset: nat, filesize: nat, i: nat)
    requires i < |hits|
  {
    && hits[i].entry < |entries|
    && HitEnd(entries, hits[i], blocksize, filesize) <= if i + 1 < |hits| then hits[i + 1].offset else offset
  }

  function HitEnd(entries: seq<Entry>, hit: Hit, blocksize: nat, filesize: nat): nat
    requires hit.entry < |entries|
  {
    Min(filesize, hit.offset + Min(entries[hit.entry].length, blocksize))
  }

  /** The locations after recording hits. */
  function Recorded(location: seq<Place>, file: nat, hits: seq<Hit>): (l: seq<Place>)
    ensures |l| == |location|
  {
    if hits == [] then location
    else
      var n := |hits| - 1;
      var l := Recorded(location, file, hits[..n]);
      if hits[n].entry < |l| then l[hits[n].entry := At(file, hits[n].offset)] else l
  }

  lemma RecordedMore(location: seq<Place>, file: nat, hits: seq<Hit>, hit: Hit)
    requires hit.entry < |location|
    ensures Recorded(location, file, hits + [hit]) == Recorded(location, file, hits)[hit.entry := At(file, hit.offset)]
  {
    assert (hits + [hit])[..|hits|] == hits;
  }

  /** Once a hit is recorded its block is in this data file. */
  lemma {:induction false} RecordedAt(location: seq<Place>, file: nat, hits: seq<Hit>, i: nat)
    requires i < |hits| && hits[i].entry < |location|
    ensures var place := Recorded(location, file, hits)[hits[i].entry]; place.At? && place.file == file
  {
    var n := |hits| - 1;
    if i < n { RecordedAt(location, file, hits[..n], i); }
  }

  /** What is not hit stays where it was. */
  lemma {:induction false} RecordedElsewhere(location: seq<Place>, file: nat, hits: seq<Hit>, i: nat)
    requires i < |location| && forall k :: 0 <= k < |hits| ==> hits[k].entry != i
    ensures Recorded(location, file, hits)[i] == location[i]
  {
    if hits != [] { RecordedElsewhere(location, file, hits[..|hits| - 1], i); }
  }

  lemma HitKeepsApart(entries: seq<Entry>, hits: seq<Hit>, blocksize: nat, offset: nat, filesize: nat, hit: Hit)
    requires Apart(entries, hits, blocksize, offset, filesize) && hit.entry < |entries| && hit.offset == offset
    ensures Apart(entries, hits + [hit], blocksize, HitEnd(entries, hit, blocksize, filesize), filesize)
  {
    var more, n := hits + [hit], |hits|;
    forall i: nat | i <= n ensures ApartAt(entries, more, blocksize, HitEnd(entries, hit, blocksize, filesize),
                                           filesize, i) {
      assert i < n ==> ApartAt(entries, hits, blocksize, offset, filesize, i);
    }
  }

  lemma MissKeepsApart(entries: seq<Entry>, hits: seq<Hit>, blocksize: nat, offset: nat, filesize: nat, later: nat)
    requires Apart(entries, hits, blocksize, offset, filesize) && offset <= later
    ensures Apart(entries, hits, blocksize, later, filesize)
  {
    forall i: nat | i < |hits| ensures ApartAt(entries, hits, blocksize, later, filesize, i) {
      assert ApartAt(entries, hits, blocksize, offset, filesize, i);
    }
  }

  // Windows.

  ghost predicate IsSum<B(!new)>(scheme: Scheme<B, nat, nat>, bytes: seq<B>, crc: nat, hash: nat) {
    crc == scheme.checksum(bytes) && hash == scheme.md5(bytes)
  }

  /** The first `n` bytes from an offset on, padded with zeros to a block. */
  ghost function PaddedStretch<B(!new)>(scheme: Scheme<B, nat, nat>, file: seq<B>, blocksize: nat, offset: nat,
                                        n: nat): seq<B>
    requires n <= blocksize && offset + n <= |file|
  {
    Stretch(file, offset, n) + scheme.Zeros(blocksize - n)
  }

  /** The first bytes of a block, the others replaced by zeros. */
  function Padding<B(!new), S, D>(scheme: Scheme<B, S, D>, bytes: seq<B>, n: nat): (p: seq<B>)
    ensures n <= |bytes| ==> p == bytes[..n] + scheme.Zeros(|bytes| - n)
  {
    if n <= |bytes| then bytes[..n] + scheme.Zeros(|bytes| - n) else bytes
  }

  /** The padded checksum and hash of the first bytes of a block. */
  function ShortCrc<B(!new)>(scheme: Scheme<B, nat, nat>, bytes: seq<B>): nat -> nat {
    n => scheme.checksum(Padding(scheme, bytes, n))
  }

  function ShortHash<B(!new)>(scheme: Scheme<B, nat, nat>, bytes: seq<B>): nat -> nat {
    n => scheme.md5(Padding(scheme, bytes, n))
  }

  /** What the scanner says about a window with these bytes, of which so many lie in the file. */
  function WindowOf<B(!new)>(scheme: Scheme<B, nat, nat>, bytes: seq<B>, left: nat, offset: nat, file: nat): Window {
    Window(scheme.checksum(bytes), scheme.md5(bytes), left < |bytes|, left, offset, file, ShortCrc(scheme, bytes),
           ShortHash(scheme, bytes))
  }

  // What a hit says about the bytes of the file.

  /** What a scan is about: the file, the blocks looked for, and which block follows which in its file. */
  datatype Setting<!B(!new)> = Setting(scheme: Scheme<B, nat, nat>, file: seq<B>, blocksize: nat, entries: seq<Entry>,
                                       next: seq<int>) {

    predicate FullWindowAt(offset: nat) {
      offset + blocksize <= |file|
    }

    /** The block would lie in the file. */
    predicate Fits(i: nat, offset: nat) {
      i < |entries| && entries[i].length <= blocksize && offset + entries[i].length <= |file|
    }

    predicate IsLast(i: int) {
      |next| == |entries| && 0 <= i < |entries| && next[i] == NULL
    }

    ghost function Block(offset: nat): seq<B>
      requires offset <= |file|
    {
      BlockBytes(scheme, file, blocksize, offset)
    }

    /** How much of a window at an offset lies in the file. */
    function Left(offset: nat): nat {
      if offset <= |file| then Min(blocksize, |file| - offset) else 0
    }

    /** The bytes of the window at an offset: what there is of the file, and behind it what the buffer of the scanner
        happens to hold. While the multi-hash is in use these are zeros. */
    ghost predicate Shows(before: seq<Hit>, offset: nat, bytes: seq<B>) {
      && Begins(bytes, file, blocksize, offset)
      && (FullWindowAt(offset) || OnlyFullMoves(before, offset) ==> bytes == Block(offset))
    }

    /** The block is what the window shows, or it was expected as the last one of its file and is what the window begins
        with, padded. */
    ghost predicate Verified(suggested: int, hit: Hit, bytes: seq<B>)
      requires hit.entry < |entries|
    {
      var e := entries[hit.entry];
      || IsSum(scheme, bytes, e.crc, e.hash)
      || (hit.entry == suggested && IsLast(suggested) && IsSum(scheme, Padding(scheme, bytes, e.length), e.crc, e.hash))
    }

    /** It is verified by what the file has, padded. */
    ghost predicate VerifiedInFile(suggested: int, hit: Hit) {
      hit.entry < |entries| && hit.offset <= |file| && Verified(suggested, hit, Block(hit.offset))
    }

    /** The last block that is expected agrees with the padded window in its checksum but not in its hash, and the hash
        of the padded window is not that of the window. */
    ghost predicate Stale(suggested: int, bytes: seq<B>) {
      && IsLast(suggested)
      && var padded := Padding(scheme, bytes, entries[suggested].length);
         && scheme.checksum(padded) == entries[suggested].crc && scheme.md5(padded) != entries[suggested].hash
         && scheme.md5(padded) != scheme.md5(bytes)
    }

    /** Every move so far was over one full block, so the multi-hash is still in use. Blocks of one byte are stepped
        over, which ends its use. */
    ghost predicate OnlyFullMoves(hits: seq<Hit>, offset: nat) {
      && blocksize > 1
      && if hits == [] then offset == 0
         else
           var last := hits[|hits| - 1];
           && last.entry < |entries| && entries[last.entry].length == blocksize && offset == last.offset + blocksize
           && OnlyFullMoves(hits[..|hits| - 1], last.offset)
    }

    /** The block expected at an offset: the one after the last hit, unless something was passed over since. */
    ghost function Suggestion(hits: seq<Hit>, offset: nat): (i: int)
      ensures i == NULL || 0 <= i < |entries|
    {
      if hits == [] || |next| != |entries| || hits[|hits| - 1].entry >= |entries| then NULL
      else
        var last := hits[|hits| - 1];
        var i := next[last.entry];
        if offset == HitEnd(entries, last, blocksize, |file|) && 0 <= i < |entries| then i else NULL
    }

    /** Whatever the window showed, its bytes are verified exactly when the hash was not stale; a stale hash has found a
        block with the checksum of the window and the hash of the padded one. A block that was not expected does not
        reach beyond the file. */
    ghost predicate HitTrue(before: seq<Hit>, hit: Hit) {
      && hit.entry < |entries| && hit.offset < |file|
      && (exists bytes :: Shows(before, hit.offset, bytes) && TrueOf(Suggestion(before, hit.offset), hit, bytes))
      && (hit.entry != Suggestion(before, hit.offset) ==> Fits(hit.entry, hit.offset))
    }

    ghost predicate TrueOf(suggested: int, hit: Hit, bytes: seq<B>)
      requires hit.entry < |entries|
    {
      && (Verified(suggested, hit, bytes) <==> !Stale(suggested, bytes))
      && (Stale(suggested, bytes) ==>
            && entries[hit.entry].crc == scheme.checksum(bytes)
            && entries[hit.entry].hash == scheme.md5(Padding(scheme, bytes, entries[suggested].length)))
    }

    /** What the window begins with is what the file has there, as far as the file goes. */
    lemma BeginsWithFile(before: seq<Hit>, offset: nat, bytes: seq<B>, n: nat)
      requires Shows(before, offset, bytes) && n <= Left(offset)
      ensures Padding(scheme, bytes, n) == PaddedStretch(scheme, file, blocksize, offset, n)
    {
      var left := Left(offset);
      forall i | 0 <= i < n ensures bytes[i] == file[offset + i] {
        assert bytes[..left][i] == file[offset..offset + left][i];
      }
      assert bytes[..n] == Stretch(file, offset, n);
    }

    /** The last block of a file, when it was expected and its padded checksum agrees with what the file has there, is
        what the file has there. */
    lemma ExpectedIsTrue(before: seq<Hit>, hit: Hit)
      requires HitTrue(before, hit) && hit.entry == Suggestion(before, hit.offset)
      requires IsLast(hit.entry) && Fits(hit.entry, hit.offset)
      requires var e := entries[hit.entry];
               scheme.checksum(PaddedStretch(scheme, file, blocksize, hit.offset, e.length)) == e.crc
      ensures var e := entries[hit.entry];
              IsSum(scheme, PaddedStretch(scheme, file, blocksize, hit.offset, e.length), e.crc, e.hash)
    {
      var bytes :| Shows(before, hit.offset, bytes) && TrueOf(Suggestion(before, hit.offset), hit, bytes);
      BeginsWithFile(before, hit.offset, bytes, entries[hit.entry].length);
    }
  }

  // What a scan does.

  /** A scan: its setting, where blocks had been found before, which files are complete, the file preferred at first. */
  datatype Search<!B(!new)> = Search(g: Setting<B>, location0: seq<Place>, complete: nat -> bool, wanted: int,
                                     options: Options) {

    ghost predicate Valid() {
      Linked(g.entries, g.next, g.blocksize) && |location0| == |g.entries|
    }

    /** How far ahead the scan jumps after a while without a hit. */
    function Skip(): (n: nat)
      ensures !options.skipData ==> n == 0
      ensures options.skipData ==>
                n == if 2 * options.skipLeaway < g.blocksize then g.blocksize - 2 * options.skipLeaway else 0
    {
      if options.skipData then g.blocksize - options.ScanDistance(g.blocksize) else 0
    }

    function Locations(hits: seq<Hit>): (l: seq<Place>)
      ensures |l| == |location0|
    {
      if options.recording then Recorded(location0, options.fileId, hits) else location0
    }

    function IndexAfter(hits: seq<Hit>): Index {
      Index(g.entries, g.next, Locations(hits), complete)
    }

    /** The file of the first hit is preferred. */
    function SourceAfter(hits: seq<Hit>): int {
      if hits != [] && hits[0].entry < |g.entries| then g.entries[hits[0].entry].source else wanted
    }

    /** After these hits, with the window at this offset, entry `i` is what the index specifies; `NULL` for none. */
    ghost predicate Finds(hits: seq<Hit>, offset: nat, i: int) {
      && Valid() && offset < |g.file|
      && exists bytes :: g.Shows(hits, offset, bytes) && Yields(hits, offset, bytes, i)
    }

    /** Entry `i` is what the index specifies for a window with these bytes. */
    ghost predicate Yields(hits: seq<Hit>, offset: nat, bytes: seq<B>, i: int)
      requires IndexAfter(hits).Valid()
    {
      IndexAfter(hits).Match(g.Suggestion(hits, offset), WindowAt(offset, bytes), SourceAfter(hits)).0 == i
    }

    function WindowAt(offset: nat, bytes: seq<B>): Window {
      WindowOf(g.scheme, bytes, g.Left(offset), offset, options.fileId)
    }

    /** Every hit is what the index specified at its offset. */
    ghost predicate HitsFound(hits: seq<Hit>) {
      forall i {:trigger hits[i]} :: 0 <= i < |hits| ==> Finds(hits[..i], hits[i].offset, hits[i].entry)
    }

    ghost predicate Covered(hits: seq<Hit>, offset: nat) {
      exists i :: 0 <= i < |hits| && Covers(hits[i], offset)
    }

    ghost predicate Covers(hit: Hit, offset: nat) {
      hit.entry < |g.entries| && hit.offset <= offset < HitEnd(g.entries, hit, g.blocksize, |g.file|)
    }

    /** Between two hits the window was at this offset, and the index specified no entry there. */
    ghost predicate Missed(hits: seq<Hit>, offset: nat) {
      exists k: nat :: k <= |hits| && Between(hits, k, offset) && Finds(hits[..k], offset, NULL)
    }

    ghost predicate Between(hits: seq<Hit>, k: nat, offset: nat)
      requires k <= |hits|
    {
      && (k > 0 ==> hits[k - 1].entry < |g.entries| && HitEnd(g.entries, hits[k - 1], g.blocksize, |g.file|) <= offset)
      && (k < |hits| ==> offset < hits[k].offset)
    }

    /** Up to an offset nothing has been passed over: every offset lies in a hit, was looked at in vain or, where
        data is skipped, comes less than a skip behind one that was. */
    ghost predicate NothingPassed(hits: seq<Hit>, upto: nat) {
      forall o: nat :: o < upto ==> Covered(hits, o) || PassedFrom(hits, o)
    }

    ghost predicate PassedFrom(hits: seq<Hit>, o: nat) {
      exists m: nat :: m <= o <= m + Skip() && Missed(hits, m)
    }

    lemma MoreHitsFound(hits: seq<Hit>, hit: Hit)
      requires HitsFound(hits) && Finds(hits, hit.offset, hit.entry)
      ensures HitsFound(hits + [hit])
    {
      var more := hits + [hit];
      forall i | 0 <= i < |more| ensures Finds(more[..i], more[i].offset, more[i].entry) {
        assert more[..i] == if i < |hits| then hits[..i] else hits;
      }
    }

    lemma MissPassesNothing(hits: seq<Hit>, offset: nat, later: nat)
      requires NothingPassed(hits, offset) && Finds(hits, offset, NULL) && later <= offset + 1 + Skip()
      requires Apart(g.entries, hits, g.blocksize, offset, |g.file|)
      ensures NothingPassed(hits, later)
    {
      var k := |hits|;
      if k > 0 { assert ApartAt(g.entries, hits, g.blocksize, offset, |g.file|, k - 1); }
      assert hits[..k] == hits;
      assert Between(hits, k, offset);
      assert Missed(hits, offset);
    }

    lemma MissedStays(hits: seq<Hit>, hit: Hit, o: nat)
      requires Missed(hits, o) && o < hit.offset
      ensures Missed(hits + [hit], o)
    {
      var more := hits + [hit];
      var k: nat :| k <= |hits| && Between(hits, k, o) && Finds(hits[..k], o, NULL);
      assert more[..k] == hits[..k];
      assert Between(more, k, o);
    }

    lemma HitPassesNothing(hits: seq<Hit>, hit: Hit)
      requires NothingPassed(hits, hit.offset) && hit.entry < |g.entries|
      ensures NothingPassed(hits + [hit], HitEnd(g.entries, hit, g.blocksize, |g.file|))
    {
      var more := hits + [hit];
      forall o: nat | o < HitEnd(g.entries, hit, g.blocksize, |g.file|)
        ensures Covered(more, o) || PassedFrom(more, o)
      {
        if o >= hit.offset {
          assert Covers(more[|hits|], o);
        } else if Covered(hits, o) {
          var i :| 0 <= i < |hits| && Covers(hits[i], o);
          assert Covers(more[i], o);
        } else {
          var m: nat :| m <= o <= m + Skip() && Missed(hits, m);
          MissedStays(hits, hit, m);
        }
      }
    }

    // Why hits and misses are true.

    lemma FoundIsTrue(hits: seq<Hit>, hit: Hit)
      requires Finds(hits, hit.offset, hit.entry)
      ensures g.HitTrue(hits, hit)
    {
      var bytes :| g.Shows(hits, hit.offset, bytes) && Yields(hits, hit.offset, bytes, hit.entry);
      YieldIsTrue(hits, hit, bytes);
    }

    lemma YieldIsTrue(hits: seq<Hit>, hit: Hit, bytes: seq<B>)
      requires Valid() && hit.offset < |g.file| && g.Shows(hits, hit.offset, bytes)
      requires Yields(hits, hit.offset, bytes, hit.entry)
      ensures hit.entry < |g.entries| && g.TrueOf(g.Suggestion(hits, hit.offset), hit, bytes)
      ensures hit.entry != g.Suggestion(hits, hit.offset) ==> g.Fits(hit.entry, hit.offset)
    {
      var x, suggested, w := IndexAfter(hits), g.Suggestion(hits, hit.offset), WindowAt(hit.offset, bytes);
      MatchIsTrue(x, suggested, w, SourceAfter(hits));
      AgreesIsVerified(x, suggested, hit, bytes, w);
    }

    /** What the index says about the window, said about its bytes. */
    lemma AgreesIsVerified(x: Index, suggested: int, hit: Hit, bytes: seq<B>, w: Window)
      requires x.Valid() && x.entries == g.entries && x.next == g.next && hit.entry < |g.entries|
      requires (suggested == NULL || 0 <= suggested < |g.entries|) && w == WindowAt(hit.offset, bytes)
      ensures Agrees(x, suggested, w, hit.entry) <==> g.Verified(suggested, hit, bytes)
      ensures StaleHash(x, suggested, w) <==> g.Stale(suggested, bytes)
    {}

    /** What is taken has not been found, except for the first block of a file at the start of the data file, and for
        the block that was expected, when it is the last one of its file or has been found in another data file. */
    ghost predicate MayTake(before: seq<Hit>, hit: Hit)
      requires |location0| == |g.entries|
    {
      && hit.entry < |g.entries|
      && var place := Locations(before)[hit.entry];
         || place == Missing || (g.entries[hit.entry].block == 0 && hit.offset == 0)
         || (hit.entry == g.Suggestion(before, hit.offset) && (g.IsLast(hit.entry) || place.file != options.fileId))
    }

    lemma FoundMayBeTaken(hits: seq<Hit>, hit: Hit)
      requires Finds(hits, hit.offset, hit.entry)
      ensures MayTake(hits, hit)
    {
      var bytes :| g.Shows(hits, hit.offset, bytes) && Yields(hits, hit.offset, bytes, hit.entry);
      TakenMayBe(IndexAfter(hits), g.Suggestion(hits, hit.offset), WindowAt(hit.offset, bytes), SourceAfter(hits));
    }

    /** When hits are recorded, the only block that is taken twice in one data file is an expected last one. */
    lemma TakenTwice(hits: seq<Hit>, i: nat, j: nat)
      requires Valid() && HitsFound(hits) && Apart(g.entries, hits, g.blocksize, |g.file|, |g.file|)
      requires options.recording && i < j < |hits| && hits[i].entry == hits[j].entry
      ensures g.IsLast(hits[j].entry) && hits[j].entry == g.Suggestion(hits[..j], hits[j].offset)
    {
      assert Finds(hits[..j], hits[j].offset, hits[j].entry);
      FoundMayBeTaken(hits[..j], hits[j]);
      RecordedAt(location0, options.fileId, hits[..j], i);
      assert ApartAt(g.entries, hits, g.blocksize, |g.file|, |g.file|, i);
      LaterHit(hits, i, j);
    }

    /** Later hits lie further on. */
    lemma {:induction false} LaterHit(hits: seq<Hit>, i: nat, j: nat)
      requires Valid() && HitsFound(hits) && Apart(g.entries, hits, g.blocksize, |g.file|, |g.file|) && i < j < |hits|
      ensures hits[i].offset < hits[j].offset
    {
      assert Finds(hits[..j - 1], hits[j - 1].offset, hits[j - 1].entry);
      assert ApartAt(g.entries, hits, g.blocksize, |g.file|, |g.file|, j - 1);
      if i < j - 1 { LaterHit(hits, i, j - 1); }
    }

    /** The block may not be used: it has been found, its file is complete, or it is not as long as what is left. */
    predicate Taken(hits: seq<Hit>, offset: nat, i: nat)
      requires IndexAfter(hits).Valid() && i < |g.entries|
    {
      || Locations(hits)[i] != Missing || complete(g.entries[i].source)
      || (g.Left(offset) < g.blocksize && g.Left(offset) != g.entries[i].length)
    }

    /** The window does not begin with the last block that was expected; and unless the hash is stale, every block that
        it shows may not be used. */
    ghost predicate MissTrue(hits: seq<Hit>, offset: nat, bytes: seq<B>)
      requires IndexAfter(hits).Valid()
    {
      var suggested := g.Suggestion(hits, offset);
      && (g.IsLast(suggested) ==>
            var e := g.entries[suggested]; !IsSum(g.scheme, Padding(g.scheme, bytes, e.length), e.crc, e.hash))
      && (!g.Stale(suggested, bytes) ==>
            forall i: nat :: i < |g.entries| && IsSum(g.scheme, bytes, g.entries[i].crc, g.entries[i].hash) ==>
              Taken(hits, offset, i))
    }

    lemma MissIsTrue(hits: seq<Hit>, offset: nat)
      requires Finds(hits, offset, NULL)
      ensures exists bytes :: g.Shows(hits, offset, bytes) && MissTrue(hits, offset, bytes)
    {
      var bytes :| g.Shows(hits, offset, bytes) && Yields(hits, offset, bytes, NULL);
      var suggested, w := g.Suggestion(hits, offset), WindowAt(offset, bytes);
      forall i: nat | i < |g.entries| && IsSum(g.scheme, bytes, g.entries[i].crc, g.entries[i].hash)
                      && !g.Stale(suggested, bytes)
        ensures Taken(hits, offset, i)
      {
        NoMatchIsTrue(IndexAfter(hits), suggested, w, SourceAfter(hits), i);
      }
      assert MissTrue(hits, offset, bytes);
    }
  }

  // A perfect match.

  /** When all blocks of a file are found in order, all of them are verified by what the file has, padded. */
  lemma InOrderVerified<B(!new)>(q: Search<B>, hits: seq<Hit>, source: int)
    requires q.Valid() && q.HitsFound(hits) && InOrder(q.g.entries, q.g.next, hits, source, q.g.blocksize)
    ensures forall i :: 0 <= i < |hits| ==> q.g.VerifiedInFile(if i == 0 then NULL else hits[i].entry, hits[i])
  {
    forall i | 0 <= i < |hits| ensures q.g.VerifiedInFile(if i == 0 then NULL else hits[i].entry, hits[i]) {
      assert q.Finds(hits[..i], hits[i].offset, hits[i].entry);
      q.FoundIsTrue(hits[..i], hits[i]);
      if q.g.blocksize > 1 { OrderKeepsStep(q, hits, source, i); }
      if i > 0 { ExpectedNext(q, hits, source, i); }
    }
  }

  lemma ExpectedNext<B(!new)>(q: Search<B>, hits: seq<Hit>, source: int, i: nat)
    requires q.Valid() && InOrder(q.g.entries, q.g.next, hits, source, q.g.blocksize)
    requires 0 < i < |hits| && hits[i].offset <= |q.g.file|
    ensures q.g.Suggestion(hits[..i], hits[i].offset) == hits[i].entry
  {
    var last := hits[i - 1];
    assert HitInPlace(q.g.entries, last, source, i - 1, q.g.blocksize);
    assert HitInPlace(q.g.entries, hits[i], source, i, q.g.blocksize);
    assert hits[..i][|hits[..i]| - 1] == last && q.g.next[last.entry] == hits[i].entry;
    assert (i - 1) * q.g.blocksize + q.g.blocksize == i * q.g.blocksize;
  }

  lemma {:induction false} OrderKeepsStep<B(!new)>(q: Search<B>, hits: seq<Hit>, source: int, i: nat)
    requires q.Valid() && InOrder(q.g.entries, q.g.next, hits, source, q.g.blocksize)
    requires i < |hits| && q.g.blocksize > 1
    ensures q.g.OnlyFullMoves(hits[..i], hits[i].offset)
  {
    assert HitInPlace(q.g.entries, hits[i], source, i, q.g.blocksize);
    if i > 0 {
      OrderKeepsStep(q, hits, source, i - 1);
      assert HitInPlace(q.g.entries, hits[i - 1], source, i - 1, q.g.blocksize);
      assert hits[..i][..i - 1] == hits[..i - 1] && hits[..i][i - 1] == hits[i - 1];
      assert q.g.next[hits[i - 1].entry] == hits[i].entry;
      assert (i - 1) * q.g.blocksize + q.g.blocksize == i * q.g.blocksize;
    }
  }
}
