/** Binary trees of entries, one for each bucket, with chains of entries that have the same key. */
module HashForest {

  /** A source block: which block of which file, how long, and its checksum and hash as numbers. */
  datatype Entry = Entry(source: nat, block: nat, length: nat, crc: nat, hash: nat) {

    predicate FirstBlock() {
      block == 0
    }

    predicate Is(c: nat, h: nat) {
      crc == c && hash == h
    }

    predicate Less(c: nat, h: nat) {
      crc < c || (crc == c && hash < h)
    }
  }

  const NULL: int := -1

  /** A place that holds a pointer to an entry. */
  datatype Slot = Bucket(b: nat) | LeftOf(n: nat) | RightOf(n: nat) | SameOf(n: nat)

  /** Entries are numbered in the order in which they were made, so pointers lead from older to newer ones. */
  datatype Forest = Forest(buckets: seq<int>, entries: seq<Entry>, left: seq<int>, right: seq<int>, same: seq<int>) {

    predicate Valid() {
      && buckets != [] && |left| == |right| == |same| == |entries|
      && (forall b :: 0 <= b < |buckets| ==> Link(-1, buckets[b]))
      && (forall i :: 0 <= i < |entries| ==> Link(i, left[i]) && Link(i, right[i]) && Link(i, same[i]))
    }

    predicate Link(from: int, to: int) {
      to == NULL || from < to < |entries|
    }

    predicate Has(s: Slot) {
      match s
      case Bucket(b) => b < |buckets|
      case LeftOf(n) => n < |entries|
      case RightOf(n) => n < |entries|
      case SameOf(n) => n < |entries|
    }

    function Get(s: Slot): (v: int)
      requires Valid() && Has(s)
      ensures v == NULL || 0 <= v < |entries|
    {
      match s
      case Bucket(b) => assert Link(-1, buckets[b]); buckets[b]
      case LeftOf(n) => assert Link(n, left[n]); left[n]
      case RightOf(n) => assert Link(n, right[n]); right[n]
      case SameOf(n) => assert Link(n, same[n]); same[n]
    }

    /** Where a search for this key goes from entry `i`. */
    function Child(i: nat, crc: nat, hash: nat): Slot {
      if i < |entries| && entries[i].Less(crc, hash) then RightOf(i) else LeftOf(i)
    }

    /** The entry that a search for the key ends at. */
    function Find(i: int, crc: nat, hash: nat): (r: int)
      requires Valid() && (i == NULL || 0 <= i < |entries|)
      ensures r == NULL || (0 <= r < |entries| && entries[r].Is(crc, hash))
      decreases if i == NULL then 0 else |entries| - i
    {
      if i == NULL then NULL
      else if entries[i].Is(crc, hash) then i
      else
        assert Link(i, left[i]) && Link(i, right[i]);
        Find(if entries[i].Less(crc, hash) then right[i] else left[i], crc, hash)
    }

    /** The pointer where the search for the key ends: an empty one, or one to an entry with that key. */
    function EndSlot(s: Slot, crc: nat, hash: nat): (t: Slot)
      requires Valid() && Has(s)
      ensures Has(t) && (Get(t) == NULL || entries[Get(t)].Is(crc, hash))
      decreases if Get(s) == NULL then 0 else |entries| - Get(s)
    {
      var i := Get(s);
      if i == NULL || entries[i].Is(crc, hash) then s
      else
        assert Link(i, left[i]) && Link(i, right[i]);
        EndSlot(Child(i, crc, hash), crc, hash)
    }

    /** The entries from `i` on along the `same` pointers. */
    function Chain(i: int): (c: seq<nat>)
      requires Valid() && (i == NULL || 0 <= i < |entries|)
      ensures forall k :: 0 <= k < |c| ==> c[k] < |entries|
      decreases if i == NULL then 0 else |entries| - i
    {
      if i == NULL then [] else (assert Link(i, same[i]); [i as nat] + Chain(same[i]))
    }

    /** The empty pointer at the end of a chain. */
    function EndOfChain(s: Slot): (t: Slot)
      requires Valid() && Has(s)
      ensures Has(t) && Get(t) == NULL
      decreases if Get(s) == NULL then 0 else |entries| - Get(s)
    {
      if Get(s) == NULL then s else (assert Link(Get(s), same[Get(s)]); EndOfChain(SameOf(Get(s))))
    }

    function BucketOf(crc: nat): (b: nat)
      requires buckets != []
      ensures b < |buckets|
    {
      crc % |buckets|
    }

    /** The entries found for a key, in the order of their chain. */
    function Found(crc: nat, hash: nat): seq<nat>
      requires Valid()
    {
      assert Link(-1, buckets[BucketOf(crc)]);
      Chain(Find(buckets[BucketOf(crc)], crc, hash))
    }
  }

  /** All entries with a key, oldest first. */
  function IndexesOf(entries: seq<Entry>, crc: nat, hash: nat): (s: seq<nat>)
    ensures forall k :: 0 <= k < |s| ==> s[k] < |entries| && entries[s[k]].Is(crc, hash)
  {
    if entries == [] then []
    else
      var n := |entries| - 1;
      IndexesOf(entries[..n], crc, hash) + if entries[n].Is(crc, hash) then [n] else []
  }

  /** Looking up a key gives exactly the entries with that key, oldest first. */
  ghost predicate Complete(f: Forest)
    requires f.Valid()
  {
    forall crc: nat, hash: nat {:trigger f.Found(crc, hash)} :: f.Found(crc, hash) == IndexesOf(f.entries, crc, hash)
  }

  // A new entry is hung into an empty slot.

  function Added(f: Forest, s: Slot, e: Entry): (g: Forest)
    requires f.Valid() && f.Has(s) && f.Get(s) == NULL
    ensures g.Valid() && g.entries == f.entries + [e]
    ensures forall t :: f.Has(t) ==> g.Has(t) && g.Get(t) == if t == s then |f.entries| else f.Get(t)
  {
    var n := |f.entries|;
    Forest(if s.Bucket? then f.buckets[s.b := n] else f.buckets,
           f.entries + [e], (if s.LeftOf? then f.left[s.n := n] else f.left) + [NULL],
           (if s.RightOf? then f.right[s.n := n] else f.right) + [NULL],
           (if s.SameOf? then f.same[s.n := n] else f.same) + [NULL])
  }

  lemma NewChain(f: Forest, s: Slot, e: Entry)
    requires f.Valid() && f.Has(s) && f.Get(s) == NULL
    ensures Added(f, s, e).Chain(|f.entries|) == [|f.entries|]
  {
    assert Added(f, s, e).same[|f.entries|] == NULL;
  }

  lemma {:induction false} EndSlotFinds(f: Forest, s: Slot, crc: nat, hash: nat)
    requires f.Valid() && f.Has(s)
    ensures f.Get(f.EndSlot(s, crc, hash)) == f.Find(f.Get(s), crc, hash)
    decreases if f.Get(s) == NULL then 0 else |f.entries| - f.Get(s)
  {
    var i := f.Get(s);
    if i != NULL && !f.entries[i].Is(crc, hash) {
      assert f.Link(i, f.left[i]) && f.Link(i, f.right[i]);
      EndSlotFinds(f, f.Child(i, crc, hash), crc, hash);
    }
  }

  /** A search for another key, or a search past a change in a chain, does not notice the new entry. */
  lemma {:induction false} FindUnaffected(f: Forest, s: Slot, e: Entry, i: int, crc: nat, hash: nat)
    requires f.Valid() && f.Has(s) && f.Get(s) == NULL && (i == NULL || 0 <= i < |f.entries|)
    requires s.SameOf? || !e.Is(crc, hash)
    ensures Added(f, s, e).Find(i, crc, hash) == f.Find(i, crc, hash)
    decreases if i == NULL then 0 else |f.entries| - i
  {
    var g := Added(f, s, e);
    if i != NULL && !f.entries[i].Is(crc, hash) {
      var c := f.Child(i, crc, hash);
      assert f.Link(i, f.left[i]) && f.Link(i, f.right[i]);
      assert g.Get(c) == if c == s then |f.entries| else f.Get(c);
      assert g.Find(i, crc, hash) == g.Find(g.Get(c), crc, hash);
      assert f.Find(i, crc, hash) == f.Find(f.Get(c), crc, hash);
      if c == s {
        NewIsLeaf(f, s, e, crc, hash);
      } else {
        FindUnaffected(f, s, e, f.Get(c), crc, hash);
      }
    }
  }

  lemma NewIsLeaf(f: Forest, s: Slot, e: Entry, crc: nat, hash: nat)
    requires f.Valid() && f.Has(s) && f.Get(s) == NULL && !e.Is(crc, hash)
    ensures Added(f, s, e).Find(|f.entries|, crc, hash) == NULL
  {}

  /** The search for its own key now ends at the new entry. */
  lemma {:induction false} FindNew(f: Forest, t: Slot, e: Entry)
    requires f.Valid() && f.Has(t) && f.Get(f.EndSlot(t, e.crc, e.hash)) == NULL
    ensures var g := Added(f, f.EndSlot(t, e.crc, e.hash), e); g.Find(g.Get(t), e.crc, e.hash) == |f.entries|
    decreases if f.Get(t) == NULL then 0 else |f.entries| - f.Get(t)
  {
    var s, i := f.EndSlot(t, e.crc, e.hash), f.Get(t);
    var g := Added(f, s, e);
    if i != NULL {
      var c := f.Child(i, e.crc, e.hash);
      assert f.Link(i, f.left[i]) && f.Link(i, f.right[i]);
      FindNew(f, c, e);
      assert g.Find(i, e.crc, e.hash) == g.Find(g.Get(c), e.crc, e.hash);
    }
  }

  lemma {:induction false} ChainUnaffected(f: Forest, s: Slot, e: Entry, i: int)
    requires f.Valid() && f.Has(s) && f.Get(s) == NULL && (i == NULL || 0 <= i < |f.entries|)
    requires s.SameOf? ==> s.n !in f.Chain(i)
    ensures Added(f, s, e).Chain(i) == f.Chain(i)
    decreases if i == NULL then 0 else |f.entries| - i
  {
    if i != NULL {
      var g := Added(f, s, e);
      assert f.Link(i, f.same[i]);
      assert f.Chain(i) == [i as nat] + f.Chain(f.same[i]);
      assert s != SameOf(i);
      assert g.Get(SameOf(i)) == f.Get(SameOf(i));
      ChainUnaffected(f, s, e, f.same[i]);
    }
  }

  /** Hung at the end of a chain, the new entry is the last of it. */
  lemma {:induction false} ChainExtended(f: Forest, t: Slot, e: Entry)
    requires f.Valid() && f.Has(t) && f.Get(t) != NULL
    ensures var g := Added(f, f.EndOfChain(t), e); g.Chain(f.Get(t)) == f.Chain(f.Get(t)) + [|f.entries|]
    decreases |f.entries| - f.Get(t)
  {
    var i, s := f.Get(t), f.EndOfChain(t);
    var g := Added(f, s, e);
    assert f.Link(i, f.same[i]);
    if f.same[i] == NULL {
      assert f.Get(SameOf(i)) == NULL && f.EndOfChain(SameOf(i)) == SameOf(i);
      assert f.EndOfChain(t) == f.EndOfChain(SameOf(i));
      assert g.Get(SameOf(i)) == |f.entries|;
      NewChain(f, s, e);
      assert f.Chain(i) == [i as nat] && g.Chain(i) == [i as nat] + g.Chain(|f.entries|);
    } else {
      assert s == f.EndOfChain(SameOf(i));
      ChainExtended(f, SameOf(i), e);
      EndIsLater(f, SameOf(i));
      assert g.Get(SameOf(i)) == f.same[i];
      assert g.Chain(i) == [i as nat] + g.Chain(f.same[i]);
    }
  }

  lemma EndIsLater(f: Forest, t: Slot)
    requires f.Valid() && f.Has(t) && f.Get(t) != NULL
    ensures f.EndOfChain(t) != t
  {}

  lemma {:induction false} EndInChain(f: Forest, t: Slot)
    requires f.Valid() && f.Has(t) && f.Get(t) != NULL
    ensures f.EndOfChain(t).SameOf? && f.EndOfChain(t).n in f.Chain(f.Get(t))
    decreases |f.entries| - f.Get(t)
  {
    var i := f.Get(t);
    assert f.Link(i, f.same[i]);
    if f.same[i] != NULL { EndInChain(f, SameOf(i)); }
  }

  /** Where `Insert` puts a new entry. */
  function InsertSlot(f: Forest, e: Entry): (s: Slot)
    requires f.Valid()
    ensures f.Has(s) && f.Get(s) == NULL
  {
    f.EndOfChain(f.EndSlot(Bucket(f.BucketOf(e.crc)), e.crc, e.hash))
  }

  lemma FoundOther(f: Forest, e: Entry, crc: nat, hash: nat)
    requires f.Valid() && Complete(f) && !e.Is(crc, hash)
    ensures Added(f, InsertSlot(f, e), e).Found(crc, hash) == f.Found(crc, hash)
  {
    var s, root := InsertSlot(f, e), Bucket(f.BucketOf(crc));
    var t := f.EndSlot(Bucket(f.BucketOf(e.crc)), e.crc, e.hash);
    var g := Added(f, s, e);
    if s == root {
      NewIsLeaf(f, s, e, crc, hash);
    } else {
      FindUnaffected(f, s, e, f.Get(root), crc, hash);
      if s.SameOf? {
        if f.Get(t) != NULL {
          EndSlotFinds(f, Bucket(f.BucketOf(e.crc)), e.crc, e.hash);
          EndInChain(f, t);
          assert f.Found(e.crc, e.hash) == IndexesOf(f.entries, e.crc, e.hash);
          assert f.entries[s.n].Is(e.crc, e.hash);
        } else {
          NotSame(f, Bucket(f.BucketOf(e.crc)), e.crc, e.hash);
        }
        assert f.Found(crc, hash) == IndexesOf(f.entries, crc, hash);
      }
      ChainUnaffected(f, s, e, f.Find(f.Get(root), crc, hash));
    }
  }

  lemma {:induction false} NotSame(f: Forest, t: Slot, crc: nat, hash: nat)
    requires f.Valid() && f.Has(t) && !t.SameOf?
    ensures !f.EndSlot(t, crc, hash).SameOf?
    decreases if f.Get(t) == NULL then 0 else |f.entries| - f.Get(t)
  {
    var i := f.Get(t);
    if i != NULL && !f.entries[i].Is(crc, hash) {
      assert f.Link(i, f.left[i]) && f.Link(i, f.right[i]);
      NotSame(f, f.Child(i, crc, hash), crc, hash);
    }
  }

  lemma FoundNew(f: Forest, e: Entry)
    requires f.Valid() && Complete(f)
    ensures Added(f, InsertSlot(f, e), e).Found(e.crc, e.hash) == f.Found(e.crc, e.hash) + [|f.entries|]
  {
    var s, root := InsertSlot(f, e), Bucket(f.BucketOf(e.crc));
    var t := f.EndSlot(root, e.crc, e.hash);
    var g := Added(f, s, e);
    EndSlotFinds(f, root, e.crc, e.hash);
    if f.Get(t) == NULL {
      FindNew(f, root, e);
      NotSame(f, root, e.crc, e.hash);
      NewChain(f, s, e);
      assert f.Found(e.crc, e.hash) == [];
    } else {
      EndInChain(f, t);
      FindUnaffected(f, s, e, f.Get(root), e.crc, e.hash);
      ChainExtended(f, t, e);
    }
  }

  /** Inserting keeps every lookup complete and in order. */
  lemma InsertKeepsComplete(f: Forest, e: Entry)
    requires f.Valid() && Complete(f)
    ensures Complete(Added(f, InsertSlot(f, e), e))
  {
    var g := Added(f, InsertSlot(f, e), e);
    assert g.entries[..|f.entries|] == f.entries;
    forall crc: nat, hash: nat ensures g.Found(crc, hash) == IndexesOf(g.entries, crc, hash) {
      assert f.Found(crc, hash) == IndexesOf(f.entries, crc, hash);
      if e.Is(crc, hash) { FoundNew(f, e); } else { FoundOther(f, e, crc, hash); }
    }
  }

  // Searching in two stages.

  /** The first entry on the way whose checksum matches. */
  function FindCrc(f: Forest, i: int, crc: nat): (r: int)
    requires f.Valid() && (i == NULL || 0 <= i < |f.entries|)
    ensures r == NULL || (0 <= r < |f.entries| && f.entries[r].crc == crc)
    decreases if i == NULL then 0 else |f.entries| - i
  {
    if i == NULL || f.entries[i].crc == crc then i
    else
      assert f.Link(i, f.left[i]) && f.Link(i, f.right[i]);
      FindCrc(f, if f.entries[i].crc < crc then f.right[i] else f.left[i], crc)
  }

  /** Going on from the entry with the right checksum finds what a search for both from the start would have found. */
  lemma {:induction false} TwoStages(f: Forest, i: int, crc: nat, hash: nat)
    requires f.Valid() && (i == NULL || 0 <= i < |f.entries|)
    ensures f.Find(FindCrc(f, i, crc), crc, hash) == f.Find(i, crc, hash)
    decreases if i == NULL then 0 else |f.entries| - i
  {
    if i != NULL && f.entries[i].crc != crc {
      assert f.Link(i, f.left[i]) && f.Link(i, f.right[i]);
      TwoStages(f, if f.entries[i].crc < crc then f.right[i] else f.left[i], crc, hash);
    }
  }
}
