/** A scan that takes a block to be found although its bytes are not there. */
module StaleMatches {
  import opened HashForest
  import opened VerificationHashTable
  import opened BlockHits
  import opened FileCheckSummer
  import opened ScanDataFile

  /** In the file there is no doubt what the window shows. */
  lemma FindsWhat<B(!new)>(q: Search<B>, hits: seq<Hit>, offset: nat, i: int)
    requires q.Valid() && offset < |q.g.file| && q.Yields(hits, offset, q.g.Block(offset), i)
    ensures q.Finds(hits, offset, i)
  {
    assert q.g.Shows(hits, offset, q.g.Block(offset));
  }

  // Bytes `x` that do not show in the checksum, for blocks of twice their number.

  function Half<B(!new)>(scheme: Scheme<B, nat, nat>, x: seq<B>): seq<B> {
    scheme.Zeros(|x|)
  }

  /** The first file has a full block and a last one of half the size, the second file one full block of zeros. */
  ghost function Entries<B(!new)>(scheme: Scheme<B, nat, nat>, x: seq<B>): seq<Entry> {
    var z, n := Half(scheme, x), |x|;
    [Entry(0, 0, 2 * n, scheme.checksum(x + z), scheme.md5(x + z)),
     Entry(0, 1, n, scheme.checksum(x + z), scheme.md5(x + z)),
     Entry(1, 0, 2 * n, scheme.checksum(z + z), scheme.md5(z + z))]
  }

  /** A data file whose first half is the first block of the first file. Its second half is no block at all. */
  ghost function DataFile<B(!new)>(scheme: Scheme<B, nat, nat>, x: seq<B>): seq<B> {
    (x + Half(scheme, x)) + (Half(scheme, x) + x)
  }

  ghost function Misled<B(!new)>(scheme: Scheme<B, nat, nat>, x: seq<B>): Search<B> {
    Search(Setting(scheme, DataFile(scheme, x), 2 * |x|, Entries(scheme, x), [1, NULL, NULL]), Unfound(3), n => false,
           NULL, Options(0, true, false, false, 0))
  }

  ghost predicate Unseen<B(!new)>(scheme: Scheme<B, nat, nat>, x: seq<B>) {
    var z := Half(scheme, x);
    && scheme.checksum(x + z) == scheme.checksum(z + z) == scheme.checksum(z + x)
    && scheme.md5(x + z) != scheme.md5(z + z) && scheme.md5(z + x) != scheme.md5(z + z)
  }

  lemma ThreeEntries(entries: seq<Entry>, crc: nat, hash: nat)
    requires |entries| == 3
    ensures IndexesOf(entries, crc, hash)
         == (if entries[0].Is(crc, hash) then [0] else []) + (if entries[1].Is(crc, hash) then [1] else [])
            + if entries[2].Is(crc, hash) then [2] else []
  {
    var none, one, two := entries[..0], entries[..1], entries[..2];
    assert two[..1] == one && one[..0] == none;
    assert IndexesOf(none, crc, hash) == [];
    assert IndexesOf(one, crc, hash) == IndexesOf(none, crc, hash) + if entries[0].Is(crc, hash) then [0] else [];
    assert IndexesOf(two, crc, hash) == IndexesOf(one, crc, hash) + if entries[1].Is(crc, hash) then [1] else [];
  }

  /** The bytes do show in the hash, so there are some. */
  lemma SomeBytes<B(!new)>(scheme: Scheme<B, nat, nat>, x: seq<B>)
    requires Unseen(scheme, x)
    ensures |x| > 0 && Misled(scheme, x).Valid()
  {
    assert x == [] ==> Half(scheme, x) == x;
  }

  lemma Halves<B(!new)>(scheme: Scheme<B, nat, nat>, x: seq<B>)
    ensures var g, z := Misled(scheme, x).g, Half(scheme, x);
            |g.file| == 4 * |x| && g.Block(0) == x + z && g.Block(2 * |x|) == z + x
  {}

  lemma PaddedHalf<B(!new)>(scheme: Scheme<B, nat, nat>, x: seq<B>)
    ensures var z := Half(scheme, x); Padding(scheme, z + x, |x|) == z + z
  {
    var z := Half(scheme, x);
    assert (z + x)[..|x|] == z;
  }

  lemma FirstHalf<B(!new)>(scheme: Scheme<B, nat, nat>, x: seq<B>)
    requires Unseen(scheme, x)
    ensures Misled(scheme, x).Finds([], 0, 0)
  {
    var q, z := Misled(scheme, x), Half(scheme, x);
    SomeBytes(scheme, x);
    Halves(scheme, x);
    ThreeEntries(q.g.entries, scheme.checksum(x + z), scheme.md5(x + z));
    FindsWhat(q, [], 0, 0);
  }

  lemma SecondHalf<B(!new)>(scheme: Scheme<B, nat, nat>, x: seq<B>)
    requires Unseen(scheme, x)
    ensures var q, at := Misled(scheme, x), 2 * |x|;
            q.g.Suggestion([Hit(0, 0)], at) == 1 && q.Finds([Hit(0, 0)], at, 2)
  {
    var q, z, hits, at := Misled(scheme, x), Half(scheme, x), [Hit(0, 0)], 2 * |x|;
    SomeBytes(scheme, x);
    Halves(scheme, x);
    PaddedHalf(scheme, x);
    var w := q.WindowAt(at, z + x);
    assert w.shortCrc(|x|) == scheme.checksum(z + z) && w.shortHash(|x|) == scheme.md5(z + z);
    assert hits[..0] == [];
    ThreeEntries(q.g.entries, w.crc, scheme.md5(z + z));
    FindsWhat(q, hits, at, 2);
  }

  lemma NotVerified<B(!new)>(scheme: Scheme<B, nat, nat>, x: seq<B>)
    requires Unseen(scheme, x)
    ensures var g, at := Misled(scheme, x).g, 2 * |x|;
            at < |g.file| && g.Stale(1, g.Block(at)) && !g.VerifiedInFile(1, Hit(2, at))
  {
    SomeBytes(scheme, x);
    Halves(scheme, x);
    PaddedHalf(scheme, x);
  }

  function BothHalves<B(!new)>(x: seq<B>): seq<Hit> {
    [Hit(0, 0), Hit(2, 2 * |x|)]
  }

  lemma BothFound<B(!new)>(scheme: Scheme<B, nat, nat>, x: seq<B>)
    requires Unseen(scheme, x)
    ensures Misled(scheme, x).HitsFound(BothHalves(x))
  {
    var q, at := Misled(scheme, x), 2 * |x|;
    FirstHalf(scheme, x);
    SecondHalf(scheme, x);
    q.MoreHitsFound([], Hit(0, 0));
    q.MoreHitsFound([Hit(0, 0)], Hit(2, at));
    assert [] + [Hit(0, 0)] == [Hit(0, 0)] && [Hit(0, 0)] + [Hit(2, at)] == BothHalves(x);
  }

  /** The two hits cover the file. */
  lemma BothCover<B(!new)>(scheme: Scheme<B, nat, nat>, x: seq<B>)
    ensures var q := Misled(scheme, x);
            && Apart(q.g.entries, BothHalves(x), q.g.blocksize, |q.g.file|, |q.g.file|)
            && q.NothingPassed(BothHalves(x), |q.g.file|)
  {
    var q, one, at := Misled(scheme, x), [Hit(0, 0)], 2 * |x|;
    Halves(scheme, x);
    assert one == [] + one && BothHalves(x) == one + [Hit(2, at)];
    HitKeepsApart(q.g.entries, [], q.g.blocksize, 0, |q.g.file|, Hit(0, 0));
    HitKeepsApart(q.g.entries, one, q.g.blocksize, at, |q.g.file|, Hit(2, at));
    q.HitPassesNothing([], Hit(0, 0));
    q.HitPassesNothing(one, Hit(2, at));
  }

  lemma BothScanned<B(!new)>(scheme: Scheme<B, nat, nat>, x: seq<B>)
    requires Unseen(scheme, x)
    ensures Scanned(Misled(scheme, x), BothHalves(x))
  {
    var q, hits := Misled(scheme, x), BothHalves(x);
    BothFound(scheme, x);
    BothCover(scheme, x);
    forall i | 0 <= i < |hits| ensures q.g.HitTrue(hits[..i], hits[i]) && q.MayTake(hits[..i], hits[i]) {
      assert q.Finds(hits[..i], hits[i].offset, hits[i].entry);
      q.FoundIsTrue(hits[..i], hits[i]);
      q.FoundMayBeTaken(hits[..i], hits[i]);
    }
  }

  /** The scan takes both halves, blocks of twice the length of `x`, for blocks of source files; and what the file has
      in its second half is not the block. */
  ghost predicate TakesOneForAnother<B(!new)>(scheme: Scheme<B, nat, nat>, x: seq<B>) {
    var q, at := Misled(scheme, x), 2 * |x|;
    && q.Valid() && q.g.blocksize == at && Scanned(q, BothHalves(x)) && q.g.FullWindowAt(at)
    && !q.g.VerifiedInFile(1, Hit(2, at))
  }

  /** Bytes that do not show in the checksum mislead a scan, because of a stale hash. */
  lemma StaleHashMisleads<B(!new)>(scheme: Scheme<B, nat, nat>, x: seq<B>)
    requires Unseen(scheme, x)
    ensures var q, at := Misled(scheme, x), 2 * |x|;
            TakesOneForAnother(scheme, x) && at < |q.g.file| && q.g.Stale(1, q.g.Block(at))
  {
    var q, at := Misled(scheme, x), 2 * |x|;
    SomeBytes(scheme, x);
    Halves(scheme, x);
    BothScanned(scheme, x);
    NotVerified(scheme, x);
  }
}
