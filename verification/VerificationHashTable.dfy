/** The index of all source blocks by checksum and hash. */
module VerificationHashTable {
  import opened HashForest

  /** Where a block has been found. */
  datatype Place = Missing | At(file: nat, offset: nat)

  /** What a verification packet says about one block. */
  datatype BlockInfo = BlockInfo(length: nat, crc: nat, hash: nat)

  class VerificationHashTable {
    var forest: Forest
    var next: seq<int>        // the following block of the same file
    var location: seq<Place>  // where the block of an entry has been found

    ghost predicate Valid()
      reads this
    {
      && forest.Valid() && Complete(forest) && |next| == |location| == |forest.entries|
      && forall i :: 0 <= i < |next| ==> Follows(forest.entries, i, next[i])
    }

    constructor (limit: nat)
      ensures Valid() && forest.entries == []
      ensures 256 <= |forest.buckets| <= 65536 && (limit <= |forest.buckets| || |forest.buckets| == 65536)
      ensures IsTableSize(|forest.buckets|) && (|forest.buckets| == 256 || |forest.buckets| / 2 < limit)
    {
      var size := 256;
      while size < limit && size < 65536
        invariant IsTableSize(size) && (size == 256 || size / 2 < limit)
        decreases 65536 - size
      {
        size := size * 2;
      }
      forest := Forest(seq(size, i => NULL), [], [], [], []);
      next, location := [], [];
    }

    /** Walk down to an entry with the same key or to an empty pointer, then along the chain; hang the entry there. */
    method Insert(e: Entry)
      requires Valid()
      modifies this
      ensures forest == old(Added(forest, InsertSlot(forest, e), e)) && next == old(next) + [NULL]
      ensures location == old(location) + [Missing]
      ensures Valid()
    {
      var slot := Bucket(forest.BucketOf(e.crc));
      var i := forest.Get(slot);
      while i != NULL && !forest.entries[i].Is(e.crc, e.hash)
        invariant forest.Has(slot) && i == forest.Get(slot)
        invariant forest.EndSlot(slot, e.crc, e.hash) == forest.EndSlot(Bucket(forest.BucketOf(e.crc)), e.crc, e.hash)
        decreases if i == NULL then 0 else |forest.entries| - i
      {
        assert forest.Link(i, forest.left[i]) && forest.Link(i, forest.right[i]);
        slot := if forest.entries[i].Less(e.crc, e.hash) then RightOf(i) else LeftOf(i);
        i := forest.Get(slot);
      }
      while i != NULL
        invariant forest.Has(slot) && i == forest.Get(slot)
        invariant forest.EndOfChain(slot) == InsertSlot(forest, e)
        decreases if i == NULL then 0 else |forest.entries| - i
      {
        assert forest.Link(i, forest.same[i]);
        slot := SameOf(i);
        i := forest.Get(slot);
      }
      InsertKeepsComplete(forest, e);
      forest := Added(forest, slot, e);
      next, location := next + [NULL], location + [Missing];
    }

    /** Look for a checksum only. */
    method SearchCrc(crc: nat) returns (i: int)
      requires Valid()
      ensures i == FindCrc(forest, forest.buckets[forest.BucketOf(crc)], crc)
    {
      i := forest.Get(Bucket(forest.BucketOf(crc)));
      while i != NULL && forest.entries[i].crc != crc
        invariant i == NULL || 0 <= i < |forest.entries|
        invariant FindCrc(forest, i, crc) == FindCrc(forest, forest.buckets[forest.BucketOf(crc)], crc)
        decreases if i == NULL then 0 else |forest.entries| - i
      {
        assert forest.Link(i, forest.left[i]) && forest.Link(i, forest.right[i]);
        i := if forest.entries[i].crc < crc then forest.right[i] else forest.left[i];
      }
    }

    /** Go on from an entry with the right checksum, looking for the hash too. */
    method SearchHash(from: nat, hash: nat) returns (i: int)
      requires Valid() && from < |forest.entries|
      ensures i == forest.Find(from, forest.entries[from].crc, hash)
    {
      var crc := forest.entries[from].crc;
      i := from;
      while i != NULL && !forest.entries[i].Is(crc, hash)
        invariant i == NULL || 0 <= i < |forest.entries|
        invariant forest.Find(i, crc, hash) == forest.Find(from, crc, hash)
        decreases if i == NULL then 0 else |forest.entries| - i
      {
        assert forest.Link(i, forest.left[i]) && forest.Link(i, forest.right[i]);
        i := if forest.entries[i].Less(crc, hash) then forest.right[i] else forest.left[i];
      }
    }

    /** Both stages: the result is the oldest entry with the key, and its chain holds all of them. */
    method Lookup(crc: nat, hash: nat) returns (i: int)
      requires Valid()
      ensures i == NULL || 0 <= i < |forest.entries|
      ensures forest.Chain(i) == IndexesOf(forest.entries, crc, hash)
    {
      ghost var root := forest.buckets[forest.BucketOf(crc)];
      assert root == forest.Get(Bucket(forest.BucketOf(crc)));
      TwoStages(forest, root, crc, hash);
      assert forest.Found(crc, hash) == IndexesOf(forest.entries, crc, hash);
      i := SearchCrc(crc);
      if i != NULL {
        i := SearchHash(i, hash);
      }
    }

    /** Insert an entry and let the one before it point to it. */
    method Append(e: Entry, preventry: int)
      requires Valid()
      requires preventry == NULL || (preventry == |forest.entries| - 1 && preventry >= 0
                                     && forest.entries[preventry].source == e.source
                                     && forest.entries[preventry].block + 1 == e.block)
      modifies this
      ensures Valid() && forest.entries == old(forest.entries) + [e] && location == old(location) + [Missing]
      ensures next == (if preventry == NULL then old(next) else old(next)[preventry := |old(next)|]) + [NULL]
    {
      ghost var entries0, next0 := forest.entries, next;
      var entry := |forest.entries|;
      Insert(e);
      if preventry != NULL {
        next := next[preventry := entry];
      }
      forall i | 0 <= i < |next| ensures Follows(forest.entries, i, next[i]) {
        assert i < |next0| ==> Follows(entries0, i, next0[i]);
      }
    }

    /** Make an entry for every block of a file, each pointing forwards to the next. */
    method Load(source: nat, blocks: seq<BlockInfo>)
      requires Valid()
      modifies this
      ensures Valid() && forest.entries == old(forest.entries) + EntriesOf(source, blocks)
      ensures next == old(next) + Row(old(|forest.entries|), |forest.entries|)
      ensures location == old(location) + Unfound(|blocks|)
    {
      ghost var entries0, next0, location0 := forest.entries, next, location;
      var preventry := NULL;
      for b := 0 to |blocks|
        invariant Valid() && forest.entries == entries0 + EntriesOf(source, blocks[..b])
        invariant next == next0 + Row(|entries0|, |entries0| + b) && location == location0 + Unfound(b)
        invariant preventry == if b == 0 then NULL else |entries0| + b - 1
      {
        var e := Entry(source, b, blocks[b].length, blocks[b].crc, blocks[b].hash);
        MoreEntries(source, blocks, b);
        MoreRow(next0, |entries0|, b);
        Append(e, preventry);
        preventry := |forest.entries| - 1;
      }
      assert blocks[..|blocks|] == blocks;
    }
  }

  function Unfound(n: nat): (s: seq<Place>)
    ensures |s| == n && forall i :: 0 <= i < n ==> s[i] == Missing
  {
    seq(n, _ => Missing)
  }

  lemma MoreEntries(source: nat, blocks: seq<BlockInfo>, b: nat)
    requires b < |blocks|
    ensures EntriesOf(source, blocks[..b + 1])
         == EntriesOf(source, blocks[..b]) + [Entry(source, b, blocks[b].length, blocks[b].crc, blocks[b].hash)]
  {}

  lemma MoreRow(before: seq<int>, n: nat, b: nat)
    requires n == |before|
    ensures before + Row(n, n + b + 1)
         == (if b == 0 then before else (before + Row(n, n + b))[n + b - 1 := n + b]) + [NULL]
  {}

  /** A power of two, so that masking the checksum with one less takes the remainder. */
  predicate IsTableSize(size: nat) {
    size in {256, 512, 1024, 2048, 4096, 8192, 16384, 32768, 65536}
  }

  /** The entries of the first `n` blocks of a file. */
  function EntriesOf(source: nat, blocks: seq<BlockInfo>): (s: seq<Entry>)
    ensures |s| == |blocks|
    ensures forall b :: 0 <= b < |s| ==> s[b] == Entry(source, b, blocks[b].length, blocks[b].crc, blocks[b].hash)
  {
    seq(|blocks|, b requires 0 <= b < |blocks| => Entry(source, b, blocks[b].length, blocks[b].crc, blocks[b].hash))
  }

  /** Entries `from` to `to` are linked in a row. */
  function Row(from: nat, to: nat): (s: seq<int>)
    requires from <= to
    ensures |s| == to - from && forall i :: 0 <= i < |s| ==> s[i] == if from + i + 1 < to then from + i + 1 else NULL
  {
    seq(to - from, i => if from + i + 1 < to then from + i + 1 else NULL)
  }

  /** The next entry is that of the next block of the same file. */
  predicate Follows(entries: seq<Entry>, i: nat, next: int)
    requires i < |entries|
  {
    || next == NULL
    || (next == i + 1 < |entries|
        && entries[i + 1].source == entries[i].source && entries[i + 1].block == entries[i].block + 1)
  }
}
