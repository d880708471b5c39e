/** Choosing the source block that the scanner's window matches. */
module BlockMatches {
  import opened HashForest
  import opened VerificationHashTable

  /** What the scanner says about its window. `shortCrc` and `shortHash` are for the first bytes padded to a block. */
  datatype Window = Window(crc: nat, hash: nat, short: bool, length: nat, offset: nat, file: nat,
                           shortCrc: nat -> nat, shortHash: nat -> nat)

  /** Entries, their successors, where their blocks have been found, and which files are complete. */
  datatype Index = Index(entries: seq<Entry>, next: seq<int>, location: seq<Place>, complete: nat -> bool) {

    predicate Valid() {
      |next| == |location| == |entries|
    }

    /** Close to the end of the file the block must be as long as what is left. */
    predicate LengthOK(i: nat, w: Window)
      requires i < |entries|
    {
      !(w.short && w.length != entries[i].length)
    }

    /** Not found yet, and of the right length. */
    predicate Usable(i: nat, w: Window)
      requires Valid() && i < |entries|
    {
      location[i] == Missing && LengthOK(i, w)
    }

    predicate Preferred(i: nat, w: Window, source: int)
      requires Valid() && i < |entries|
    {
      entries[i].source == source && Usable(i, w)
    }

    /** The suggested entry is the right one. The last block of a file is compared with what is left, padded. */
    predicate SuggestionFits(i: nat, w: Window)
      requires Valid() && i < |entries|
    {
      var e := entries[i];
      if next[i] == NULL then w.shortCrc(e.length) == e.crc && w.shortHash(e.length) == e.hash
      else location[i] == Missing && e.crc == w.crc && e.hash == w.hash
    }

    /** The hash that is looked up: after a last block that agreed in its checksum only, it is the padded one. */
    function HashUsed(suggested: int, w: Window): nat
      requires Valid() && (suggested == NULL || 0 <= suggested < |entries|)
    {
      if suggested != NULL && next[suggested] == NULL && w.shortCrc(entries[suggested].length) == entries[suggested].crc
      then w.shortHash(entries[suggested].length) else w.hash
    }

    predicate Within(chain: seq<nat>) {
      forall k :: 0 <= k < |chain| ==> chain[k] < |entries|
    }

    /** The first usable entry of a chain. */
    function FirstUsable(chain: seq<nat>, w: Window): (i: int)
      requires Valid() && Within(chain)
      ensures i == NULL || (i in chain && 0 <= i < |entries| && Usable(i, w))
    {
      if chain == [] then NULL else if Usable(chain[0], w) then chain[0] else FirstUsable(chain[1..], w)
    }

    /** The first usable entry of a chain that is for this source file. */
    function FirstPreferred(chain: seq<nat>, w: Window, source: int): (i: int)
      requires Valid() && Within(chain)
      ensures i == NULL || (i in chain && 0 <= i < |entries| && Preferred(i, w, source))
    {
      if chain == [] then NULL
      else if Preferred(chain[0], w, source) then chain[0]
      else FirstPreferred(chain[1..], w, source)
    }

    /** With one entry for the key, a block that was found before may be found again in another file if it was
        suggested. */
    function OnlyMatch(i: nat, suggested: int, w: Window): (int, bool)
      requires Valid() && i < |entries|
    {
      if complete(entries[i].source) then (NULL, true)
      else if !LengthOK(i, w) then (NULL, false)
      else if entries[i].FirstBlock() && w.offset == 0 then (i, false)
      else if i == suggested then
        if location[i].At? && location[i].file == w.file then (NULL, true) else (i, false)
      else if location[i] != Missing then (NULL, true)
      else (i, false)
    }

    /** With several, the first usable one of the preferred file, and failing that the first usable one of any file. */
    function BestMatch(chain: seq<nat>, w: Window, source: int): int
      requires Valid() && Within(chain)
    {
      if source != NULL && FirstPreferred(chain, w, source) != NULL then FirstPreferred(chain, w, source)
      else FirstUsable(chain, w)
    }

    /** What `FindMatch` returns, said by what is in the index. */
    function Match(suggested: int, w: Window, source: int): (int, bool)
      requires Valid() && (suggested == NULL || 0 <= suggested < |entries|)
    {
      var chain := IndexesOf(entries, w.crc, HashUsed(suggested, w));
      if suggested != NULL && SuggestionFits(suggested, w) then (suggested, false)
      else if chain == [] then (NULL, false)
      else if |chain| == 1 then OnlyMatch(chain[0], suggested, w)
      else (BestMatch(chain, w, source), false)
    }
  }

  /** `i` is the first of the chain for which `p` holds; there is none when `i` is `NULL`. */
  ghost predicate First(chain: seq<nat>, p: nat -> bool, i: int) {
    if i == NULL then forall k :: 0 <= k < |chain| ==> !p(chain[k])
    else exists k :: 0 <= k < |chain| && chain[k] == i && p(chain[k]) && forall j :: 0 <= j < k ==> !p(chain[j])
  }

  lemma FirstLater(chain: seq<nat>, p: nat -> bool, i: int)
    requires chain != [] && !p(chain[0]) && First(chain[1..], p, i)
    ensures First(chain, p, i)
  {
    if i == NULL {
      forall k | 0 <= k < |chain| ensures !p(chain[k]) { assert k > 0 ==> chain[k] == chain[1..][k - 1]; }
    } else {
      var k :| 0 <= k < |chain| - 1 && chain[1..][k] == i && p(chain[1..][k])
               && forall j :: 0 <= j < k ==> !p(chain[1..][j]);
      assert chain[k + 1] == i;
      forall j | 0 <= j < k + 1 ensures !p(chain[j]) { assert j > 0 ==> chain[j] == chain[1..][j - 1]; }
    }
  }

  function IsUsable(x: Index, w: Window): nat -> bool {
    (i: nat) => x.Valid() && i < |x.entries| && x.Usable(i, w)
  }

  function IsPreferred(x: Index, w: Window, source: int): nat -> bool {
    (i: nat) => x.Valid() && i < |x.entries| && x.Preferred(i, w, source)
  }

  lemma {:induction false} FirstUsableIsFirst(x: Index, chain: seq<nat>, w: Window)
    requires x.Valid() && x.Within(chain)
    ensures First(chain, IsUsable(x, w), x.FirstUsable(chain, w))
  {
    if chain != [] && !x.Usable(chain[0], w) {
      FirstUsableIsFirst(x, chain[1..], w);
      FirstLater(chain, IsUsable(x, w), x.FirstUsable(chain[1..], w));
    }
  }

  lemma {:induction false} FirstPreferredIsFirst(x: Index, chain: seq<nat>, w: Window, source: int)
    requires x.Valid() && x.Within(chain)
    ensures First(chain, IsPreferred(x, w, source), x.FirstPreferred(chain, w, source))
  {
    if chain != [] && !x.Preferred(chain[0], w, source) {
      FirstPreferredIsFirst(x, chain[1..], w, source);
      FirstLater(chain, IsPreferred(x, w, source), x.FirstPreferred(chain[1..], w, source));
    }
  }

  /** Among several entries with the key, the oldest usable one of the preferred file is taken, or else the oldest
      usable one. */
  lemma MatchPrefers(x: Index, suggested: int, w: Window, source: int)
    requires x.Valid() && (suggested == NULL || 0 <= suggested < |x.entries|)
    requires suggested == NULL || !x.SuggestionFits(suggested, w)
    requires |IndexesOf(x.entries, w.crc, x.HashUsed(suggested, w))| > 1
    ensures var chain, i := IndexesOf(x.entries, w.crc, x.HashUsed(suggested, w)), x.Match(suggested, w, source).0;
            if source != NULL && exists k :: 0 <= k < |chain| && IsPreferred(x, w, source)(chain[k])
            then First(chain, IsPreferred(x, w, source), i) else First(chain, IsUsable(x, w), i)
  {
    var chain := IndexesOf(x.entries, w.crc, x.HashUsed(suggested, w));
    FirstUsableIsFirst(x, chain, w);
    FirstPreferredIsFirst(x, chain, w, source);
  }

  function IndexOf(t: VerificationHashTable, complete: nat -> bool): Index
    reads t
  {
    Index(t.forest.entries, t.next, t.location, complete)
  }

  /** Checksum and hash are those of the window, or those of its first bytes, padded, if the suggested last block is
      returned. */
  predicate Agrees(x: Index, suggested: int, w: Window, i: nat)
    requires x.Valid() && i < |x.entries|
  {
    var e := x.entries[i];
    || (e.crc == w.crc && e.hash == w.hash)
    || (i == suggested && x.next[i] == NULL && e.crc == w.shortCrc(e.length) && e.hash == w.shortHash(e.length))
  }

  /** The suggested last block agrees with the padded window in its checksum but not in its hash, and the hash of the
      padded window is not that of the window. `FindMatch` then goes on with the checksum of the window and the hash of
      the padded one. */
  predicate StaleHash(x: Index, suggested: int, w: Window)
    requires x.Valid() && (suggested == NULL || 0 <= suggested < |x.entries|)
  {
    && suggested != NULL && x.next[suggested] == NULL
    && var e := x.entries[suggested];
       w.shortCrc(e.length) == e.crc && w.shortHash(e.length) != e.hash && w.shortHash(e.length) != w.hash
  }

  /** A match that is returned agrees with the window exactly when the hash it was looked up by is not stale. */
  lemma MatchIsTrue(x: Index, suggested: int, w: Window, source: int)
    requires x.Valid() && (suggested == NULL || 0 <= suggested < |x.entries|) && x.Match(suggested, w, source).0 != NULL
    ensures var i := x.Match(suggested, w, source).0;
            && 0 <= i < |x.entries|
            && (Agrees(x, suggested, w, i) <==> !StaleHash(x, suggested, w))
            && (StaleHash(x, suggested, w) ==>
                  x.entries[i].crc == w.crc && x.entries[i].hash == w.shortHash(x.entries[suggested].length))
  {}

  lemma {:induction false} InIndexes(entries: seq<Entry>, crc: nat, hash: nat, i: nat)
    requires i < |entries| && entries[i].Is(crc, hash)
    ensures i in IndexesOf(entries, crc, hash)
  {
    if i + 1 < |entries| { InIndexes(entries[..|entries| - 1], crc, hash, i); }
  }

  /** When there is no match, the suggestion does not fit, and, unless the hash is stale, an entry that agrees with the
      window has been found, belongs to a complete file or has the wrong length. */
  lemma NoMatchIsTrue(x: Index, suggested: int, w: Window, source: int, i: nat)
    requires x.Valid() && (suggested == NULL || 0 <= suggested < |x.entries|) && x.Match(suggested, w, source).0 == NULL
    requires i < |x.entries| && x.entries[i].crc == w.crc && x.entries[i].hash == w.hash
    requires !StaleHash(x, suggested, w)
    ensures suggested != NULL ==> !x.SuggestionFits(suggested, w)
    ensures x.location[i] != Missing || x.complete(x.entries[i].source) || !x.LengthOK(i, w)
  {
    var chain := IndexesOf(x.entries, w.crc, w.hash);
    InIndexes(x.entries, w.crc, w.hash, i);
    FirstUsableIsFirst(x, chain, w);
    assert IsUsable(x, w)(i) <==> x.Usable(i, w);
  }

  // Which entries may be taken.

  /** `k` is the only entry with this key. */
  predicate OnlyWithKey(x: Index, k: nat, crc: nat, hash: nat) {
    && k < |x.entries| && x.entries[k].crc == crc && x.entries[k].hash == hash
    && forall j :: 0 <= j < |x.entries| && x.entries[j].crc == crc && x.entries[j].hash == hash ==> j == k
  }

  lemma {:induction false} IndexesAscend(entries: seq<Entry>, crc: nat, hash: nat)
    ensures var s := IndexesOf(entries, crc, hash); forall a, b :: 0 <= a < b < |s| ==> s[a] < s[b]
    ensures var s := IndexesOf(entries, crc, hash); |s| > 1 ==> s[0] < s[1]
  {
    if entries != [] { IndexesAscend(entries[..|entries| - 1], crc, hash); }
  }

  lemma OnlyIsChain(x: Index, k: nat, crc: nat, hash: nat)
    requires OnlyWithKey(x, k, crc, hash)
    ensures IndexesOf(x.entries, crc, hash) == [k]
  {
    var chain := IndexesOf(x.entries, crc, hash);
    InIndexes(x.entries, crc, hash, k);
    IndexesAscend(x.entries, crc, hash);
    forall a | 0 <= a < |chain| ensures chain[a] == k { assert x.entries[chain[a]].Is(crc, hash); }
    assert chain != [] && chain[0] == k;
    if |chain| > 1 { assert false; }
  }

  lemma ChainIsOnly(x: Index, crc: nat, hash: nat)
    requires |IndexesOf(x.entries, crc, hash)| == 1
    ensures OnlyWithKey(x, IndexesOf(x.entries, crc, hash)[0], crc, hash)
  {
    var chain := IndexesOf(x.entries, crc, hash);
    assert x.entries[chain[0]].Is(crc, hash);
    forall j | 0 <= j < |x.entries| && x.entries[j].crc == crc && x.entries[j].hash == hash ensures j == chain[0] {
      InIndexes(x.entries, crc, hash, j);
      assert chain == [chain[0]];
    }
  }

  /** The suggested last block is what the window begins with, padded; or a suggested block that has not been found is
      what the window shows. */
  predicate Expected(x: Index, suggested: int, w: Window)
    requires x.Valid()
  {
    && 0 <= suggested < |x.entries|
    && var e := x.entries[suggested];
       if x.next[suggested] == NULL then e.crc == w.shortCrc(e.length) && e.hash == w.shortHash(e.length)
       else x.location[suggested] == Missing && e.crc == w.crc && e.hash == w.hash
  }

  /** A block that was expected is taken, whatever else there is. */
  lemma ExpectedIsTaken(x: Index, suggested: int, w: Window, source: int)
    requires x.Valid() && (suggested == NULL || 0 <= suggested < |x.entries|) && Expected(x, suggested, w)
    ensures x.Match(suggested, w, source) == (suggested, false)
  {}

  /** The only block with its key is taken exactly when its file is not complete, it is as long as what is left, and it
      has not been found, or is the first one of its file at the start of the data file, or was suggested and has been
      found in another data file. If it is not taken, and not for its length, it counts as a duplicate. */
  lemma OnlyIsTakenIff(x: Index, suggested: int, w: Window, source: int, k: nat)
    requires x.Valid() && (suggested == NULL || 0 <= suggested < |x.entries|) && !Expected(x, suggested, w)
    requires OnlyWithKey(x, k, w.crc, x.HashUsed(suggested, w))
    ensures var e, place, (i, duplicate) := x.entries[k], x.location[k], x.Match(suggested, w, source);
            var long := !w.short || w.length == e.length;
            && i == (if !x.complete(e.source) && long
                        && (place == Missing || (e.block == 0 && w.offset == 0)
                            || (k == suggested && place.file != w.file)) then k else NULL)
            && (duplicate <==> i == NULL && (x.complete(e.source) || long))
  {
    OnlyIsChain(x, k, w.crc, x.HashUsed(suggested, w));
  }

  /** Without an expected block, and without or with several entries for the key, nothing is a duplicate, and what is
      taken is one of them, has not been found and has the right length. */
  lemma OthersAreMissing(x: Index, suggested: int, w: Window, source: int)
    requires x.Valid() && (suggested == NULL || 0 <= suggested < |x.entries|) && !Expected(x, suggested, w)
    requires forall k: nat :: !OnlyWithKey(x, k, w.crc, x.HashUsed(suggested, w))
    ensures var (i, duplicate) := x.Match(suggested, w, source);
            && !duplicate
            && (i != NULL ==>
                  && 0 <= i < |x.entries| && x.location[i] == Missing && (w.short ==> w.length == x.entries[i].length)
                  && x.entries[i].crc == w.crc && x.entries[i].hash == x.HashUsed(suggested, w))
  {
    var chain := IndexesOf(x.entries, w.crc, x.HashUsed(suggested, w));
    if |chain| == 1 { ChainIsOnly(x, w.crc, x.HashUsed(suggested, w)); }
  }

  /** What is taken has not been found, except for the first block of a file at the start of a data file, and for the
      block that was suggested, when it is the last one of its file or has been found in another data file. */
  predicate MayTake(x: Index, suggested: int, i: nat, w: Window)
    requires x.Valid() && i < |x.entries|
  {
    || x.location[i] == Missing || (x.entries[i].block == 0 && w.offset == 0)
    || (i == suggested && (x.next[i] == NULL || x.location[i].file != w.file))
  }

  lemma TakenMayBe(x: Index, suggested: int, w: Window, source: int)
    requires x.Valid() && (suggested == NULL || 0 <= suggested < |x.entries|) && x.Match(suggested, w, source).0 != NULL
    ensures var i := x.Match(suggested, w, source).0; 0 <= i < |x.entries| && MayTake(x, suggested, i, w)
  {
    if k: nat :| OnlyWithKey(x, k, w.crc, x.HashUsed(suggested, w)) {
      if !Expected(x, suggested, w) { OnlyIsTakenIff(x, suggested, w, source, k); }
    } else if !Expected(x, suggested, w) {
      OthersAreMissing(x, suggested, w, source);
    }
  }

  /** The head of a chain with several entries, from the preferred file if possible. */
  method SearchChain(t: VerificationHashTable, head: int, w: Window, source: int, ghost complete: nat -> bool)
    returns (r: int)
    requires t.Valid() && (head == NULL || 0 <= head < |t.forest.entries|)
    ensures r == IndexOf(t, complete).BestMatch(t.forest.Chain(head), w, source)
  {
    ghost var x, chain := IndexOf(t, complete), t.forest.Chain(head);
    var nextentry := head;
    if source != NULL {
      var currententry := head;
      nextentry := NULL;
      while currententry != NULL
            && (t.forest.entries[currententry].source != source || t.location[currententry] != Missing
                || (w.short && w.length != t.forest.entries[currententry].length))
        invariant currententry == NULL || 0 <= currententry < |t.forest.entries|
        invariant x.FirstPreferred(t.forest.Chain(currententry), w, source) == x.FirstPreferred(chain, w, source)
        invariant if nextentry == NULL then x.FirstUsable(t.forest.Chain(currententry), w) == x.FirstUsable(chain, w)
                  else nextentry == x.FirstUsable(chain, w)
        decreases if currententry == NULL then 0 else |t.forest.entries| - currententry
      {
        if nextentry == NULL && !(t.location[currententry] != Missing
                                  || (w.short && w.length != t.forest.entries[currententry].length)) {
          nextentry := currententry;
        }
        ChainStep(t, currententry);
        currententry := t.forest.same[currententry];
      }
      if currententry != NULL {
        return currententry;
      }
    }
    ghost var rest := t.forest.Chain(nextentry);
    while nextentry != NULL && (t.location[nextentry] != Missing
                                || (w.short && w.length != t.forest.entries[nextentry].length))
      invariant nextentry == NULL || 0 <= nextentry < |t.forest.entries|
      invariant x.FirstUsable(t.forest.Chain(nextentry), w) == x.FirstUsable(chain, w)
      decreases if nextentry == NULL then 0 else |t.forest.entries| - nextentry
    {
      ChainStep(t, nextentry);
      nextentry := t.forest.same[nextentry];
    }
    r := nextentry;
  }

  lemma ChainStep(t: VerificationHashTable, i: int)
    requires t.Valid() && 0 <= i < |t.forest.entries|
    ensures t.forest.same[i] == NULL || i < t.forest.same[i] < |t.forest.entries|
    ensures t.forest.Chain(i) == [i as nat] + t.forest.Chain(t.forest.same[i])
    ensures t.forest.Chain(i)[1..] == t.forest.Chain(t.forest.same[i])
  {
    assert t.forest.Link(i, t.forest.same[i]);
  }

  /** Does the suggested entry fit, and by which hash is the window looked up if it does not? */
  method TrySuggestion(t: VerificationHashTable, suggested: nat, w: Window, ghost complete: nat -> bool)
    returns (fits: bool, hash: nat)
    requires t.Valid() && suggested < |t.forest.entries|
    ensures fits == IndexOf(t, complete).SuggestionFits(suggested, w)
    ensures hash == IndexOf(t, complete).HashUsed(suggested, w)
  {
    var e := t.forest.entries[suggested];
    fits, hash := false, w.hash;
    if t.next[suggested] == NULL {
      if w.shortCrc(e.length) == e.crc {
        hash := w.shortHash(e.length);
        fits := hash == e.hash;
      }
    } else if t.location[suggested] == Missing && e.crc == w.crc {
      fits := hash == e.hash;
    }
  }

  /** Look at the suggestion first, then look the window up. */
  method FindMatch(t: VerificationHashTable, complete: nat -> bool, suggested: int, w: Window, source: int)
    returns (entry: int, duplicate: bool)
    requires t.Valid() && (suggested == NULL || 0 <= suggested < |t.forest.entries|)
    ensures (entry, duplicate) == IndexOf(t, complete).Match(suggested, w, source)
  {
    var hash := w.hash;
    if suggested != NULL {
      var fits;
      fits, hash := TrySuggestion(t, suggested, w, complete);
      if fits {
        return suggested, false;
      }
    }
    entry, duplicate := FindOther(t, complete, suggested, w, source, hash);
  }

  /** Look the window up. */
  method FindOther(t: VerificationHashTable, complete: nat -> bool, suggested: int, w: Window, source: int, hash: nat)
    returns (entry: int, duplicate: bool)
    requires t.Valid() && (suggested == NULL || 0 <= suggested < |t.forest.entries|)
    ensures var chain := IndexesOf(t.forest.entries, w.crc, hash);
            (entry, duplicate) == if chain == [] then (NULL, false)
                                  else if |chain| == 1 then IndexOf(t, complete).OnlyMatch(chain[0], suggested, w)
                                  else (IndexOf(t, complete).BestMatch(chain, w, source), false)
  {
    duplicate := false;
    var head := t.Lookup(w.crc, hash);
    if head == NULL {
      return NULL, false;
    }
    ChainStep(t, head);
    if t.forest.same[head] == NULL {
      entry, duplicate := CheckOnly(t, complete, head, suggested, w);
    } else {
      ChainStep(t, t.forest.same[head]);
      entry := SearchChain(t, head, w, source, complete);
    }
  }

  method CheckOnly(t: VerificationHashTable, complete: nat -> bool, i: nat, suggested: int, w: Window)
    returns (entry: int, duplicate: bool)
    requires t.Valid() && i < |t.forest.entries|
    ensures (entry, duplicate) == IndexOf(t, complete).OnlyMatch(i, suggested, w)
  {
    var e := t.forest.entries[i];
    if complete(e.source) {
      return NULL, true;
    }
    if w.short && w.length != e.length {
      return NULL, false;
    }
    if e.FirstBlock() && w.offset == 0 {
      return i, false;
    }
    if i == suggested {
      if t.location[i].At? && t.location[i].file == w.file {
        return NULL, true;
      }
      return i, false;
    }
    if t.location[i] != Missing {
      return NULL, true;
    }
    return i, false;
  }
}
