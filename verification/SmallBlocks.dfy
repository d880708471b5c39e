/** Which block sizes allow a scan to take one block for another. */
module SmallBlocks {
  import opened Words
  import opened Crc
  import opened CrcDifferences
  import opened CrcCollisions
  import opened FileCheckSummer
  import opened BlockHits
  import opened ScanDataFile
  import opened StaleMatches

  /** The entries are those of source files: each is the sum of as many bytes as it is long, padded with zeros. */
  ghost predicate Honest(g: Setting<u8>) {
    forall i: nat :: i < |g.entries| ==> HonestAt(g, i)
  }

  ghost predicate HonestAt(g: Setting<u8>, i: nat)
    requires i < |g.entries|
  {
    g.entries[i].length <= g.blocksize && exists b :: IsBlock(g, i, b)
  }

  ghost predicate IsBlock(g: Setting<u8>, i: nat, b: seq<u8>)
    requires i < |g.entries| && g.entries[i].length <= g.blocksize
  {
    var e := g.entries[i];
    |b| == e.length && IsSum(g.scheme, b + g.scheme.Zeros(g.blocksize - e.length), e.crc, e.hash)
  }

  /** No two blocks have the same hash. */
  ghost predicate TellsBlocks(md5: seq<u8> -> nat, blocksize: nat) {
    forall a: seq<u8>, b: seq<u8> :: |a| == |b| == blocksize && md5(a) == md5(b) ==> a == b
  }

  /** A scan with a hit whose bytes are not there, whatever the window showed. */
  ghost predicate Misleads(q: Search<u8>, hits: seq<Hit>, i: nat) {
    && q.Valid() && Honest(q.g) && Scanned(q, hits) && i < |hits| && hits[i].entry < |q.g.entries|
    && forall bytes :: q.g.Shows(hits[..i], hits[i].offset, bytes) ==>
        !q.g.Verified(q.g.Suggestion(hits[..i], hits[i].offset), hits[i], bytes)
  }

  ghost predicate CanMislead(scheme: Scheme<u8, nat, nat>, blocksize: nat) {
    exists q: Search<u8>, hits: seq<Hit>, i: nat ::
      Misleads(q, hits, i) && q.g.scheme == scheme && q.g.blocksize == blocksize
  }

  /** CRC-32 as a number, and a hash without collisions. */
  ghost predicate Sound(scheme: Scheme<u8, nat, nat>, blocksize: nat) {
    && scheme.blank == Zeros(8) && TellsBlocks(scheme.md5, blocksize)
    && forall s :: scheme.checksum(s) == Value(Checksum(s))
  }

  lemma NumbersTell(scheme: Scheme<u8, nat, nat>, blocksize: nat, before: seq<u8>, s: seq<u8>, t: seq<u8>,
                    after: seq<u8>)
    requires Sound(scheme, blocksize) && |s| == |t| <= 4
    requires scheme.checksum(before + s + after) == scheme.checksum(before + t + after)
    ensures s == t
  {
    ValueInjective(Checksum(before + s + after), Checksum(before + t + after));
    ChecksumTells(before, s, t, after);
  }

  // Up to nine bytes.

  /** If the expected last block has the checksum of the padded window but not its hash, it has five bytes or more. */
  lemma FiveInFront(g: Setting<u8>, i: nat, bytes: seq<u8>)
    requires Sound(g.scheme, g.blocksize) && i < |g.entries| && HonestAt(g, i) && |bytes| == g.blocksize
    requires g.Stale(i, bytes)
    ensures g.entries[i].length >= 5
  {
    var n := g.entries[i].length;
    var b :| IsBlock(g, i, b);
    HeadTold(g.scheme, g.blocksize, b, bytes[..n], g.scheme.Zeros(g.blocksize - n));
  }

  lemma HeadTold(scheme: Scheme<u8, nat, nat>, blocksize: nat, s: seq<u8>, t: seq<u8>, z: seq<u8>)
    requires Sound(scheme, blocksize) && |s| == |t|
    requires scheme.checksum(s + z) == scheme.checksum(t + z) && scheme.md5(s + z) != scheme.md5(t + z)
    ensures |s| >= 5
  {
    if |s| <= 4 {
      Closed(s, z);
      Closed(t, z);
      NumbersTell(scheme, blocksize, [], s, t, z);
      assert false;
    }
  }

  /** If another block has the hash of the padded window and the checksum of the window, there are five bytes or more
      behind it. */
  lemma FiveBehind(g: Setting<u8>, suggested: nat, i: nat, bytes: seq<u8>)
    requires Sound(g.scheme, g.blocksize) && suggested < |g.entries| && i < |g.entries| && |bytes| == g.blocksize
    requires HonestAt(g, suggested) && HonestAt(g, i) && g.Stale(suggested, bytes)
    requires g.entries[i].crc == g.scheme.checksum(bytes)
    requires g.entries[i].hash == g.scheme.md5(Padding(g.scheme, bytes, g.entries[suggested].length))
    ensures g.blocksize - g.entries[suggested].length >= 5
  {
    var n := g.entries[suggested].length;
    BlockIs(g, i, Padding(g.scheme, bytes, n));
    if g.blocksize - n <= 4 {
      TailTold(g.scheme, bytes, n);
      assert false;
    }
  }

  /** An entry with the hash of a block has its checksum as well. */
  lemma BlockIs(g: Setting<u8>, i: nat, block: seq<u8>)
    requires Sound(g.scheme, g.blocksize) && i < |g.entries| && HonestAt(g, i)
    requires |block| == g.blocksize && g.entries[i].hash == g.scheme.md5(block)
    ensures g.entries[i].crc == g.scheme.checksum(block)
  {
    var b :| IsBlock(g, i, b);
    var padded := b + g.scheme.Zeros(g.blocksize - g.entries[i].length);
    assert |padded| == |block| && g.scheme.md5(padded) == g.scheme.md5(block);
  }

  lemma TailTold(scheme: Scheme<u8, nat, nat>, bytes: seq<u8>, n: nat)
    requires Sound(scheme, |bytes|) && n <= |bytes| <= n + 4
    requires scheme.checksum(bytes) == scheme.checksum(Padding(scheme, bytes, n))
    ensures Padding(scheme, bytes, n) == bytes
  {
    var front, tail, z := bytes[..n], bytes[n..], scheme.Zeros(|bytes| - n);
    Whole(bytes, n);
    Closed(front, tail);
    Closed(front, z);
    NumbersTell(scheme, |bytes|, front, tail, z, []);
  }

  lemma Whole<T>(s: seq<T>, n: nat)
    requires n <= |s|
    ensures s[..n] + s[n..] == s
  {}

  lemma Closed<T>(s: seq<T>, t: seq<T>)
    ensures s + t + [] == s + t == [] + s + t
  {}

  lemma SmallIsTrue(q: Search<u8>, hits: seq<Hit>, i: nat)
    requires Sound(q.g.scheme, q.g.blocksize) && q.g.blocksize < 10 && Honest(q.g)
    requires q.HitsFound(hits) && i < |hits|
    ensures !Misleads(q, hits, i)
  {
    var before, hit := hits[..i], hits[i];
    assert q.Finds(before, hit.offset, hit.entry);
    q.FoundIsTrue(before, hit);
    var suggested := q.g.Suggestion(before, hit.offset);
    var bytes :| q.g.Shows(before, hit.offset, bytes) && q.g.TrueOf(suggested, hit, bytes);
    if q.g.Stale(suggested, bytes) {
      assert HonestAt(q.g, suggested) && HonestAt(q.g, hit.entry);
      FiveInFront(q.g, suggested, bytes);
      FiveBehind(q.g, suggested, hit.entry, bytes);
      assert false;
    }
  }

  lemma SmallNeverMisleads(scheme: Scheme<u8, nat, nat>, blocksize: nat)
    requires Sound(scheme, blocksize) && blocksize < 10
    ensures !CanMislead(scheme, blocksize)
  {
    forall q: Search<u8>, hits: seq<Hit>, i: nat | q.g.scheme == scheme && q.g.blocksize == blocksize
      ensures !Misleads(q, hits, i)
    {
      if Misleads(q, hits, i) { SmallIsTrue(q, hits, i); }
    }
  }

  // From twelve on.

  lemma MisledIsHonest(scheme: Scheme<u8, nat, nat>, x: seq<u8>)
    ensures Honest(Misled(scheme, x).g)
  {
    var g, z := Misled(scheme, x).g, Half(scheme, x);
    assert x + z + scheme.Zeros(0) == x + z && z + z + scheme.Zeros(0) == z + z;
    assert IsBlock(g, 0, x + z) && IsBlock(g, 1, x) && IsBlock(g, 2, z + z);
  }

  lemma LargeMisleads(scheme: Scheme<u8, nat, nat>, x: seq<u8>)
    requires Unseen(scheme, x)
    ensures CanMislead(scheme, 2 * |x|)
  {
    var q, at := Misled(scheme, x), 2 * |x|;
    var hits := BothHalves(x);
    StaleHashMisleads(scheme, x);
    MisledIsHonest(scheme, x);
    SecondHalf(scheme, x);
    assert hits[..1] == [Hit(0, 0)];
    assert Misleads(q, hits, 1);
  }

  lemma NumbersSound(table: seq<u32>, windowtable: seq<u32>, md5: seq<u8> -> nat, blocksize: nat)
    requires |table| == |windowtable| == 256 && TellsBlocks(md5, blocksize)
    ensures Sound(Crc32Numbers(table, windowtable, md5), blocksize)
  {}

  /** With CRC-32, a scan for honest entries can take one block for another exactly when the block size, a multiple of
      four, is at least twelve. The hash tells apart the few blocks that it takes, and all small ones. */
  lemma MisleadsIff(table: seq<u32>, windowtable: seq<u32>, md5: seq<u8> -> nat, blocksize: nat)
    requires |table| == |windowtable| == 256 && blocksize % 4 == 0
    requires if blocksize >= 12 then TellsApart(md5, blocksize / 2) else TellsBlocks(md5, blocksize)
    ensures CanMislead(Crc32Numbers(table, windowtable, md5), blocksize) <==> blocksize >= 12
  {
    var scheme := Crc32Numbers(table, windowtable, md5);
    if blocksize >= 12 {
      Halved(blocksize);
      NumbersUnseen(table, windowtable, md5, blocksize / 2);
      LargeMisleads(scheme, Invisible(blocksize / 2));
    } else {
      NumbersSound(table, windowtable, md5, blocksize);
      SmallNeverMisleads(scheme, blocksize);
    }
  }
}
