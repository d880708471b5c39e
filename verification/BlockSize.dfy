/** The block size that makes the most of a requested number of source blocks. */
module BlockSize {
  import opened Arithmetic

  const MOST_BLOCKS: nat := 32768

  function Ceil(q: nat, s: nat): nat
    requires s > 0
  {
    (q + s - 1) / s
  }

  /** Rounding up gives the least number of pieces that is enough. */
  lemma CeilAtMost(q: nat, s: nat, c: nat)
    requires s > 0
    ensures Ceil(q, s) <= c <==> q <= c * s
  {
    DivMod(q + s - 1, s);
    if q <= c * s {
      assert (c + 1) * s == c * s + s;
      DivBelow(q + s - 1, s, c + 1);
    } else {
      if Ceil(q, s) <= c { MulMono(Ceil(q, s), c, s); }
    }
  }

  lemma CeilTimes(q: nat, s: nat)
    requires s > 0
    ensures q <= Ceil(q, s) * s <= q + s - 1
  {
    DivMod(q + s - 1, s);
  }

  lemma CeilMono(q: nat, s: nat, t: nat)
    requires 0 < s <= t
    ensures Ceil(q, t) <= Ceil(q, s)
  {
    CeilTimes(q, s);
    MulMono(s, t, Ceil(q, s));
    CeilAtMost(q, t, Ceil(q, s));
  }

  /** Rounding up to fours first makes no difference. */
  lemma CeilNested(q: nat, s: nat)
    requires s > 0
    ensures Ceil(q, 4 * s) == Ceil(Ceil(q, 4), s)
  {
    var a, b := Ceil(q, 4 * s), Ceil(Ceil(q, 4), s);
    CeilAtMost(q, 4 * s, a);
    CeilAtMost(Ceil(q, 4), s, a);
    CeilAtMost(q, 4, a * s);
    CeilAtMost(q, 4 * s, b);
    CeilAtMost(Ceil(q, 4), s, b);
    CeilAtMost(q, 4, b * s);
    assert a * (4 * s) == a * s * 4 && b * (4 * s) == b * s * 4;
  }

  // All files.

  /** How many blocks the files make. */
  function Blocks(sizes: seq<nat>, s: nat): nat
    requires s > 0
  {
    if sizes == [] then 0 else Blocks(sizes[..|sizes| - 1], s) + Ceil(sizes[|sizes| - 1], s)
  }

  /** The sizes in units of four bytes. */
  function Quarters(sizes: seq<nat>): (q: seq<nat>)
    ensures |q| == |sizes| && forall i :: 0 <= i < |q| ==> q[i] == Ceil(sizes[i], 4)
  {
    seq(|sizes|, i requires 0 <= i < |sizes| => Ceil(sizes[i], 4))
  }

  lemma {:induction false} BlocksMono(sizes: seq<nat>, s: nat, t: nat)
    requires 0 < s <= t
    ensures Blocks(sizes, t) <= Blocks(sizes, s)
  {
    if sizes != [] {
      BlocksMono(sizes[..|sizes| - 1], s, t);
      CeilMono(sizes[|sizes| - 1], s, t);
    }
  }

  lemma {:induction false} BlocksOfQuarters(sizes: seq<nat>, s: nat)
    requires s > 0
    ensures Blocks(sizes, 4 * s) == Blocks(Quarters(sizes), s)
  {
    if sizes != [] {
      var n := |sizes| - 1;
      assert Quarters(sizes)[..n] == Quarters(sizes[..n]);
      BlocksOfQuarters(sizes[..n], s);
      CeilNested(sizes[n], s);
    }
  }

  lemma Distribute(a: nat, b: nat, c: nat)
    ensures (a + b) * c == a * c + b * c
  {}

  /** The blocks are at least large enough, and each file wastes less than one. */
  lemma {:induction false} BlocksTimes(sizes: seq<nat>, s: nat)
    requires s > 0
    ensures Blocks(sizes, 1) <= Blocks(sizes, s) * s <= Blocks(sizes, 1) + |sizes| * (s - 1)
  {
    if sizes != [] {
      var n := |sizes| - 1;
      var rest, last := Blocks(sizes[..n], s), Ceil(sizes[n], s);
      BlocksTimes(sizes[..n], s);
      CeilTimes(sizes[n], s);
      assert Ceil(sizes[n], 1) == sizes[n];
      Distribute(rest, last, s);
      Distribute(n, 1, s - 1);
    }
  }

  ghost predicate NonEmpty(sizes: seq<nat>) {
    sizes != [] && forall i :: 0 <= i < |sizes| ==> sizes[i] > 0
  }

  /** There are at least as many blocks as files, and no more only if every file fits in one. */
  lemma {:induction false} BlocksAtLeast(sizes: seq<nat>, s: nat)
    requires s > 0 && forall i :: 0 <= i < |sizes| ==> sizes[i] > 0
    ensures Blocks(sizes, s) >= |sizes|
    ensures Blocks(sizes, s) <= |sizes| <==> forall i :: 0 <= i < |sizes| ==> sizes[i] <= s
  {
    if sizes != [] {
      var n := |sizes| - 1;
      BlocksAtLeast(sizes[..n], s);
      CeilAtMost(sizes[n], s, 0);
      CeilAtMost(sizes[n], s, 1);
      assert forall i :: 0 <= i < n ==> sizes[i] == sizes[..n][i];
    }
  }

  // Counting them one by one.

  /** Every block by its file and its number: those that start inside the file. */
  ghost function Starts(sizes: seq<nat>, s: nat): set<(nat, nat)>
    requires s > 0
  {
    set i: nat, b: nat | i < |sizes| && b < Ceil(sizes[i], s) && b * s < sizes[i] :: (i, b)
  }

  ghost function FileStarts(i: nat, c: nat): set<(nat, nat)> {
    set b: nat | b < c :: (i, b)
  }

  lemma {:induction false} FileStartsCount(i: nat, c: nat)
    ensures |FileStarts(i, c)| == c
  {
    if c > 0 {
      FileStartsCount(i, c - 1);
      assert FileStarts(i, c) == FileStarts(i, c - 1) + {(i, c - 1)};
    }
  }

  lemma StartsInside(q: nat, s: nat, b: nat)
    requires s > 0
    ensures b < Ceil(q, s) <==> b * s < q
  {
    CeilAtMost(q, s, b);
  }

  /** A file has a block for every multiple of the block size that lies inside it. */
  lemma {:induction false} BlocksCounted(sizes: seq<nat>, s: nat)
    requires s > 0
    ensures Blocks(sizes, s) == |Starts(sizes, s)|
    ensures forall i: nat, b: nat :: (i, b) in Starts(sizes, s) <==> i < |sizes| && b * s < sizes[i]
  {
    forall i: nat, b: nat ensures (i, b) in Starts(sizes, s) <==> i < |sizes| && b * s < sizes[i] {
      if i < |sizes| { StartsInside(sizes[i], s, b); }
    }
    if sizes != [] {
      var n := |sizes| - 1;
      var c := Ceil(sizes[n], s);
      BlocksCounted(sizes[..n], s);
      FileStartsCount(n, c);
      StartsSplit(sizes, s, n);
      assert Starts(sizes[..n], s) !! FileStarts(n, c);
    }
  }

  lemma StartsSplit(sizes: seq<nat>, s: nat, n: nat)
    requires s > 0 && |sizes| == n + 1
    ensures Starts(sizes, s) == Starts(sizes[..n], s) + FileStarts(n, Ceil(sizes[n], s))
  {
    forall b: nat ensures b < Ceil(sizes[n], s) <==> b * s < sizes[n] { StartsInside(sizes[n], s, b); }
  }

  // The search.

  /** Below the lower bound there are too many blocks. */
  lemma LowerBound(q: seq<nat>, wanted: nat, s: nat)
    requires wanted > 0 && 0 < s < Blocks(q, 1) / wanted
    ensures Blocks(q, s) > wanted
  {
    var total := Blocks(q, 1);
    BlocksTimes(q, s);
    DivMod(total, wanted);
    MulMono(s + 1, total / wanted, wanted);
    assert (s + 1) * wanted == s * wanted + wanted;
    if Blocks(q, s) <= wanted { MulMono(Blocks(q, s), wanted, s); }
  }

  /** At the upper bound there are not. */
  lemma UpperBound(q: seq<nat>, wanted: nat)
    requires |q| < wanted && Blocks(q, 1) > 0
    ensures var u := Ceil(Blocks(q, 1), wanted - |q|); u > 0 && Blocks(q, u) <= wanted && Blocks(q, 1) / wanted <= u
  {
    var n, total := |q|, Blocks(q, 1);
    var d := wanted - n;
    var u := Ceil(total, d);
    CeilTimes(total, d);
    CeilAtMost(total, d, 0);
    BlocksTimes(q, u);
    FewEnough(Blocks(q, u), total, n, d, u);
    QuotientFits(total, n, d, u);
  }

  lemma FewEnough(b: nat, total: nat, n: nat, d: nat, u: nat)
    requires b * u <= total + n * (u - 1) && total <= u * d && u > 0
    ensures b <= d + n
  {
    if b > d + n {
      Distribute(d + n, 1, u);
      Distribute(d, n, u);
      Distribute(u - 1, 1, n);
      MulMono(d + n + 1, b, u);
    }
  }

  lemma QuotientFits(total: nat, n: nat, d: nat, u: nat)
    requires total <= u * d && d > 0
    ensures total / (d + n) <= u
  {
    MulMono(d, d + n, u);
    Distribute(u, 1, d + n);
    DivBelow(total, d + n, u + 1);
  }

  method CountBlocks(sizes: seq<nat>, s: nat) returns (count: nat)
    requires s > 0
    ensures count == Blocks(sizes, s)
  {
    count := 0;
    for i := 0 to |sizes|
      invariant count == Blocks(sizes[..i], s)
    {
      assert sizes[..i + 1][..i] == sizes[..i];
      count := count + (sizes[i] + s - 1) / s;
    }
    assert sizes[..|sizes|] == sizes;
  }

  /** The least size that does not make too many blocks. */
  ghost predicate Least(q: seq<nat>, wanted: nat, size: nat) {
    size > 0 && Blocks(q, size) <= wanted && forall s: nat :: 0 < s < size ==> Blocks(q, s) > wanted
  }

  method Search(q: seq<nat>, wanted: nat) returns (size: nat, count: nat)
    requires q != [] && |q| < wanted <= Blocks(q, 1)
    ensures Least(q, wanted, size) && count == Blocks(q, size)
  {
    var totalsize := CountBlocks(q, 1);
    var lowerBound := totalsize / wanted;
    var upperBound := Ceil(totalsize, wanted - |q|);
    UpperBound(q, wanted);
    assert lowerBound > 0 by { DivMod(totalsize, wanted); }
    forall s: nat | 0 < s < lowerBound ensures Blocks(q, s) > wanted { LowerBound(q, wanted, s); }
    var first := true;
    size, count := 0, 0;
    while first || lowerBound < upperBound
      invariant 0 < lowerBound <= upperBound && Blocks(q, upperBound) <= wanted
      invariant forall s: nat :: 0 < s < lowerBound ==> Blocks(q, s) > wanted
      invariant !first && lowerBound == upperBound ==> size == upperBound && count == Blocks(q, size)
      decreases first, upperBound - lowerBound
    {
      first := false;
      size := (lowerBound + upperBound) / 2;
      count := CountBlocks(q, size);
      if count > wanted {
        forall s: nat | 0 < s <= size ensures Blocks(q, s) > wanted { BlocksMono(q, s, size); }
        lowerBound := size + 1;
        if lowerBound >= upperBound {
          size := lowerBound;
          count := CountBlocks(q, size);
        }
      } else {
        upperBound := size;
      }
    }
  }

  /** The least multiple of four that does not make too many blocks. */
  ghost predicate LeastBlockSize(sizes: seq<nat>, wanted: nat, blocksize: nat) {
    && blocksize > 0 && blocksize % 4 == 0 && Blocks(sizes, blocksize) <= wanted
    && forall b: nat :: 0 < b < blocksize && b % 4 == 0 ==> Blocks(sizes, b) > wanted
  }

  lemma FromQuarters(sizes: seq<nat>, wanted: nat, size: nat)
    requires Least(Quarters(sizes), wanted, size)
    ensures LeastBlockSize(sizes, wanted, 4 * size)
  {
    BlocksOfQuarters(sizes, size);
    forall b: nat | 0 < b < 4 * size && b % 4 == 0 ensures Blocks(sizes, b) > wanted {
      BlocksOfQuarters(sizes, b / 4);
    }
  }

  method LargestFile(sizes: seq<nat>) returns (largest: nat)
    ensures forall i :: 0 <= i < |sizes| ==> sizes[i] <= largest
    ensures largest == 0 || largest in sizes
  {
    largest := 0;
    for i := 0 to |sizes|
      invariant forall k :: 0 <= k < i ==> sizes[k] <= largest
      invariant largest == 0 || largest in sizes
    {
      if sizes[i] > largest { largest := sizes[i]; }
    }
  }

  /** With one block for every file, the largest file must fit. */
  method OneBlockEach(sizes: seq<nat>) returns (blocksize: nat)
    requires NonEmpty(sizes)
    ensures LeastBlockSize(sizes, |sizes|, blocksize)
  {
    var largest := LargestFile(sizes);
    assert sizes[0] > 0;
    blocksize := RoundUp(largest);
    BlocksAtLeast(sizes, blocksize);
    forall b: nat | 0 < b < blocksize && b % 4 == 0 ensures Blocks(sizes, b) > |sizes| {
      FourLess(largest, b);
      TooSmall(sizes, largest, b);
    }
  }

  function RoundUp(n: nat): (r: nat)
    ensures r % 4 == 0 && n <= r < n + 4
  {
    (n + 3) / 4 * 4
  }

  lemma FourLess(n: nat, b: nat)
    requires b % 4 == 0 && b < RoundUp(n)
    ensures b < n
  {}

  lemma TooSmall(sizes: seq<nat>, largest: nat, b: nat)
    requires NonEmpty(sizes) && largest in sizes && 0 < b < largest
    ensures Blocks(sizes, b) > |sizes|
  {
    BlocksAtLeast(sizes, b);
  }

  /** Find the block size, unless one is given. There must be at least one block for every file. */
  method ComputeBlockSize(sizes: seq<nat>, wanted: nat, given: nat) returns (ok: bool, blocksize: nat)
    requires NonEmpty(sizes)
    ensures given > 0 ==> ok && blocksize == given
    ensures given == 0 && ok ==> LeastBlockSize(sizes, wanted, blocksize)
    ensures given == 0 && wanted < |sizes| ==> !ok
    ensures given == 0 && |sizes| <= wanted <= MOST_BLOCKS ==> ok
    ensures given == 0 && wanted == |sizes| ==> ok
    ensures given == 0 && wanted > |sizes| ==> (ok <==> Accepted(sizes, wanted))
  {
    blocksize, ok := given, true;
    if given == 0 {
      if wanted < |sizes| {
        ok := false;
      } else if wanted == |sizes| {
        blocksize := OneBlockEach(sizes);
      } else {
        ok, blocksize := FromTotal(sizes, wanted);
      }
    }
  }

  /** There are not even as many blocks of four bytes as wanted, or not too many of the least size. */
  ghost predicate Accepted(sizes: seq<nat>, wanted: nat) {
    Blocks(sizes, 4) < wanted || exists b :: LeastBlockSize(sizes, wanted, b) && Blocks(sizes, b) <= MOST_BLOCKS
  }

  lemma LeastIsUnique(sizes: seq<nat>, wanted: nat, b: nat, c: nat)
    requires LeastBlockSize(sizes, wanted, b) && LeastBlockSize(sizes, wanted, c)
    ensures b == c
  {}

  method FromTotal(sizes: seq<nat>, wanted: nat) returns (ok: bool, blocksize: nat)
    requires NonEmpty(sizes) && wanted > |sizes|
    ensures ok ==> LeastBlockSize(sizes, wanted, blocksize)
    ensures wanted <= MOST_BLOCKS ==> ok
    ensures ok <==> Accepted(sizes, wanted)
  {
    var q := Quarters(sizes);
    var totalsize := CountBlocks(q, 1);
    BlocksOfQuarters(sizes, 1);
    if wanted > totalsize {
      blocksize, ok := 4, true;
      FromQuarters(sizes, wanted, 1);
    } else {
      var size, count := Search(q, wanted);
      FromQuarters(sizes, wanted, size);
      QuartersNonEmpty(sizes);
      BlocksAtLeast(q, size);
      BlocksOfQuarters(sizes, size);
      if b: nat :| LeastBlockSize(sizes, wanted, b) && Blocks(sizes, b) <= MOST_BLOCKS {
        LeastIsUnique(sizes, wanted, b, 4 * size);
      }
      ok := !(count > MOST_BLOCKS || count == 0);
      blocksize := if ok then size * 4 else 0;
    }
  }

  lemma QuartersNonEmpty(sizes: seq<nat>)
    requires NonEmpty(sizes)
    ensures NonEmpty(Quarters(sizes))
  {}
}
