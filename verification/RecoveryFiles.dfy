/** How many recovery files there are, and which recovery blocks go into which. */
module RecoveryFiles {
  import opened Arithmetic
  import opened Words
  import opened Doublings

  datatype Scheme = Unknown | Variable | Limited | Uniform

  /** The exponents from `exponent` on, `count` of them. */
  datatype Allocation = Allocation(exponent: nat, count: nat)

  // How many files.

  /** Source blocks of the largest file. */
  function Largest(largestfilesize: nat, blocksize: nat): (n: nat)
    requires blocksize > 0
    ensures n * blocksize >= largestfilesize && (n > 0 ==> (n - 1) * blocksize < largestfilesize)
  {
    DivMod(largestfilesize + blocksize - 1, blocksize);
    assert var n := (largestfilesize + blocksize - 1) / blocksize; n > 0 ==>
        (n - 1) * blocksize == n * blocksize - blocksize;
    (largestfilesize + blocksize - 1) / blocksize
  }

  /** Full files of the limited scheme. */
  function Whole(blocks: nat, largest: nat): nat
    requires largest > 0
  {
    if blocks / largest >= 1 then blocks / largest - 1 else 0
  }

  /** What is left for the others. */
  function Extra(blocks: nat, largest: nat): (n: nat)
    requires largest > 0
    ensures n < 2 * largest && (blocks > 0 ==> n > 0)
  {
    if blocks / largest >= 1 then largest + blocks % largest else blocks
  }

  lemma ExtraIsLeft(blocks: nat, largest: nat)
    requires largest > 0
    ensures Extra(blocks, largest) + Whole(blocks, largest) * largest == blocks
  {
    DivMod(blocks, largest);
    assert blocks / largest >= 1 ==> (blocks / largest - 1) * largest == blocks / largest * largest - largest;
  }

  function LimitedFiles(blocks: nat, largest: nat): nat
    requires largest > 0
  {
    Whole(blocks, largest) + BitLength(Extra(blocks, largest))
  }

  /** Of `files` files, the lowest `low` share `left` blocks, less than twice the largest; the others hold the largest
      each. There are as many low files as it takes when each may hold twice as much as the one before. */
  predicate LimitedCounts(blocks: nat, largest: nat, files: nat, left: nat, low: nat) {
    && 0 < low <= files && left + (files - low) * largest == blocks && 0 < left < 2 * largest
    && (low < files ==> largest <= left) && Pow2(low - 1) <= left < Pow2(low)
  }

  lemma LimitedFilesCount(blocks: nat, largest: nat)
    requires largest > 0 && blocks > 0
    ensures LimitedCounts(blocks, largest, LimitedFiles(blocks, largest), Extra(blocks, largest),
                          BitLength(Extra(blocks, largest)))
  {
    ExtraIsLeft(blocks, largest);
  }

  function FileCount(requested: nat, scheme: Scheme, blocks: nat, largest: nat): nat
    requires scheme == Limited ==> largest > 0
  {
    if scheme == Limited then LimitedFiles(blocks, largest)
    else if requested == 0 then BitLength(blocks) else requested
  }

  method ComputeRecoveryFileCount(requested: nat, scheme: Scheme, blocks: nat, largestfilesize: nat, blocksize: nat)
    returns (ok: bool, filecount: nat)
    requires blocksize > 0 && (scheme == Limited && blocks > 0 ==> Largest(largestfilesize, blocksize) > 0)
    ensures blocks == 0 ==> ok && filecount == 0
    ensures blocks > 0 ==> (ok <==> scheme != Unknown && (scheme == Limited || requested <= blocks))
    ensures blocks > 0 && ok ==> filecount == FileCount(requested, scheme, blocks, Largest(largestfilesize, blocksize))
    ensures blocks > 0 && ok ==> 0 < filecount <= blocks
    ensures blocks > 0 && ok && scheme != Limited ==>
              if requested > 0 then filecount == requested else Pow2(filecount - 1) <= blocks < Pow2(filecount)
    ensures blocks > 0 && ok && scheme == Limited ==>
              exists left, low: nat :: LimitedCounts(blocks, Largest(largestfilesize, blocksize), filecount, left, low)
  {
    filecount := requested;
    if blocks == 0 {
      return true, 0;
    }
    match scheme
    case Unknown =>
      return false, filecount;
    case Variable | Uniform =>
      if filecount == 0 {
        filecount := Halvings(blocks);
        BitLengthBelow(blocks);
      }
      ok := filecount <= blocks;
    case Limited =>
      var largest := Largest(largestfilesize, blocksize);
      var whole := blocks / largest;
      whole := if whole >= 1 then whole - 1 else 0;
      ExtraIsLeft(blocks, largest);
      var extra := blocks - whole * largest;
      var more := Halvings(extra);
      filecount, ok := whole + more, true;
      BitLengthBelow(extra);
      MulMono(1, largest, whole);
      LimitedFilesCount(blocks, largest);
  }

  // Which blocks.

  /** Ranges that follow each other without a gap. */
  predicate Contiguous(s: seq<Allocation>, from: nat, to: nat) {
    if s == [] then from == to else s[0].exponent == from && Contiguous(s[1..], from + s[0].count, to)
  }

  lemma {:induction false} ContiguousConcat(s: seq<Allocation>, t: seq<Allocation>, from: nat, mid: nat, to: nat)
    requires Contiguous(s, from, mid) && Contiguous(t, mid, to)
    ensures Contiguous(s + t, from, to)
  {
    if s == [] {
      assert s + t == t;
    } else {
      assert (s + t)[1..] == s[1..] + t;
      ContiguousConcat(s[1..], t, from + s[0].count, mid, to);
    }
  }

  predicate HasExponent(a: Allocation, exponent: nat) {
    a.exponent <= exponent < a.exponent + a.count
  }

  /** Every exponent of the range is in exactly one file, and no other exponent is in any. */
  lemma {:induction false} EachExponentOnce(s: seq<Allocation>, from: nat, to: nat, e: nat)
    requires Contiguous(s, from, to)
    ensures from <= to
    ensures from <= e < to ==>
              exists i :: 0 <= i < |s| && HasExponent(s[i], e)
                          && forall j :: 0 <= j < |s| && HasExponent(s[j], e) ==> j == i
    ensures !(from <= e < to) ==> forall j :: 0 <= j < |s| ==> !HasExponent(s[j], e)
  {
    if s != [] {
      var rest, mid := s[1..], from + s[0].count;
      EachExponentOnce(rest, mid, to, e);
      assert forall j :: 0 < j < |s| ==> s[j] == rest[j - 1];
      if from <= e < to {
        var i := 0;
        if e >= mid {
          var k :| 0 <= k < |rest| && HasExponent(rest[k], e)
                   && forall j :: 0 <= j < |rest| && HasExponent(rest[j], e) ==> j == k;
          i := k + 1;
        }
        assert HasExponent(s[i], e);
        forall j | 0 <= j < |s| && HasExponent(s[j], e) ensures j == i {}
      }
    }
  }

  /** Extend a run of ranges by one file. */
  method Put(a: seq<Allocation>, i: nat, from: nat, exponent: nat, count: nat) returns (b: seq<Allocation>)
    requires i < |a| && Contiguous(a[..i], from, exponent)
    ensures b == a[i := Allocation(exponent, count)] && Contiguous(b[..i + 1], from, exponent + count)
  {
    b := a[i := Allocation(exponent, count)];
    assert b[..i + 1] == a[..i] + [b[i]];
    assert Contiguous([b[i]], exponent, exponent + count);
    ContiguousConcat(a[..i], [b[i]], from, exponent, exponent + count);
  }

  /** What the first `i` files hold when all hold about the same. */
  function Shared(base: nat, remainder: nat, i: nat): nat {
    i * base + Min(i, remainder)
  }

  lemma SharedMore(base: nat, remainder: nat, i: nat)
    ensures Shared(base, remainder, i + 1) == Shared(base, remainder, i) + if i < remainder then base + 1 else base
  {
    assert (i + 1) * base == i * base + base;
  }

  lemma SharedAll(blocks: nat, files: nat)
    requires files > 0
    ensures Shared(blocks / files, blocks % files, files) == blocks
  {
    DivMod(blocks, files);
  }

  /** All files hold the same, but for one more in the first ones, as many as there are blocks left over. */
  predicate EvenShares(s: seq<Allocation>, files: nat, blocks: nat) {
    && 0 < files <= |s|
    && forall i :: 0 <= i < files ==> s[i].count == if i < blocks % files then blocks / files + 1 else blocks / files
  }

  /** All files hold about the same. */
  method AllocateUniform(a: seq<Allocation>, files: nat, first: nat, blocks: nat) returns (b: seq<Allocation>)
    requires 0 < files < |a|
    ensures |b| == |a| && Contiguous(b[..files], first, first + blocks)
    ensures EvenShares(b, files, blocks)
  {
    SharedAll(blocks, files);
    b := AllocateShares(a, files, first, blocks / files, blocks % files);
  }

  /** The first files hold one more. */
  method AllocateShares(a: seq<Allocation>, files: nat, first: nat, base: nat, remainder: nat)
    returns (b: seq<Allocation>)
    requires files < |a|
    ensures |b| == |a| && Contiguous(b[..files], first, first + Shared(base, remainder, files))
    ensures forall i :: 0 <= i < files ==> b[i].count == if i < remainder then base + 1 else base
  {
    var exponent: nat := first;
    SharedNone(base, remainder);
    b := a;
    for filenumber := 0 to files
      invariant |b| == |a| && Contiguous(b[..filenumber], first, exponent)
      invariant exponent == first + Shared(base, remainder, filenumber)
      invariant forall i :: 0 <= i < filenumber ==> b[i].count == if i < remainder then base + 1 else base
    {
      var count := if filenumber < remainder then base + 1 else base;
      SharedMore(base, remainder, filenumber);
      b := Put(b, filenumber, first, exponent, count);
      exponent := exponent + count;
    }
  }

  lemma SharedNone(base: nat, remainder: nat)
    ensures Shared(base, remainder, 0) == 0
  {}

  /** What file `i` may hold when the first may hold `low` and each of the others twice as much as the one before. */
  function Level(low: nat, i: nat): nat {
    if i == 0 then low else 2 * Level(low, i - 1)
  }

  /** What the first `i` files may hold. */
  function Capacity(low: nat, i: nat): nat {
    if i == 0 then 0 else Capacity(low, i - 1) + Level(low, i - 1)
  }

  lemma {:induction false} CapacityIs(low: nat, i: nat)
    ensures Capacity(low, i) + low == Level(low, i)
  {
    if i > 0 { CapacityIs(low, i - 1); }
  }

  lemma {:induction false} CapacityOfOne(i: nat)
    ensures Level(1, i) == Pow2(i) && Capacity(1, i) == Pow2(i) - 1
  {
    if i > 0 { CapacityOfOne(i - 1); }
  }

  lemma {:induction false} CapacityTwice(low: nat, i: nat)
    ensures Level(2 * low, i) == 2 * Level(low, i) && Capacity(2 * low, i) == 2 * Capacity(low, i)
  {
    if i > 0 { CapacityTwice(low, i - 1); }
  }

  lemma {:induction false} CapacityMono(low: nat, i: nat, n: nat)
    requires i <= n
    ensures Capacity(low, i) <= Capacity(low, n) && (low > 0 ==> Level(low, i) > 0)
    ensures low > 0 ==> Capacity(1, n) <= Capacity(low, n) && Level(1, n) <= Level(low, n)
    decreases n
  {
    if n > 0 { CapacityMono(low, if i < n then i else n - 1, n - 1); }
  }

  /** What the first `i` files do hold, and what file `i` holds. */
  function Doubled(low: nat, i: nat, blocks: nat): (n: nat)
    ensures n <= blocks
  {
    Min(blocks, Capacity(low, i))
  }

  function DoubledAt(low: nat, i: nat, blocks: nat): nat {
    Min(Level(low, i), blocks - Doubled(low, i, blocks))
  }

  lemma DoubledMore(low: nat, i: nat, blocks: nat)
    ensures Doubled(low, i + 1, blocks) == Doubled(low, i, blocks) + DoubledAt(low, i, blocks)
  {}

  /** File `i` holds `2^(e+i)` blocks, or what is left of them, or nothing when nothing is left. */
  predicate Doubles(s: seq<Allocation>, files: nat, blocks: nat, e: nat) {
    files <= |s| && forall i: nat :: i < files ==> DoublesAt(s[i].count, i, blocks, e)
  }

  predicate DoublesAt(count: nat, i: nat, blocks: nat, e: nat) {
    var before := Pow2(e) * (Pow2(i) - 1);
    count == if blocks <= before then 0 else Min(Pow2(e) * Pow2(i), blocks - before)
  }

  /** `2^e` is the least power of two with which all blocks fit. */
  predicate LeastPower(e: nat, files: nat, blocks: nat) {
    blocks <= Pow2(e) * (Pow2(files) - 1) && (e > 0 ==> Pow2(e - 1) * (Pow2(files) - 1) < blocks)
  }

  lemma {:induction false} LevelIs(low: nat, i: nat)
    ensures Level(low, i) == low * Pow2(i) && Capacity(low, i) == low * (Pow2(i) - 1)
  {
    if i > 0 {
      LevelIs(low, i - 1);
      TwiceMore(low, Pow2(i - 1));
    }
  }

  lemma TwiceMore(low: nat, p: nat)
    ensures low * (2 * p) == 2 * (low * p) && low * (2 * p - 1) == low * (p - 1) + low * p
  {
    assert low * (2 * p - 1) == 2 * (low * p) - low;
    assert low * (p - 1) == low * p - low;
  }

  lemma DoubledDoubles(s: seq<Allocation>, files: nat, blocks: nat, e: nat)
    requires files <= |s| && forall i :: 0 <= i < files ==> s[i].count == DoubledAt(Pow2(e), i, blocks)
    ensures Doubles(s, files, blocks, e)
  {
    forall i: nat | i < files ensures DoublesAt(s[i].count, i, blocks, e) { LevelIs(Pow2(e), i); }
  }

  /** Fill the first files, each with up to twice as much as the one before. */
  method AllocateDoubling(a: seq<Allocation>, files: nat, first: nat, blocks: nat, low: nat)
    returns (b: seq<Allocation>, exponent: nat)
    requires files < |a|
    ensures |b| == |a| && b[files..] == a[files..] && exponent == first + Doubled(low, files, blocks)
    ensures Contiguous(b[..files], first, exponent)
    ensures forall i :: 0 <= i < files ==> b[i].count == DoubledAt(low, i, blocks)
  {
    var left, count: nat := blocks, low;
    b, exponent := a, first;
    for filenumber := 0 to files
      invariant |b| == |a| && b[files..] == a[files..] && Contiguous(b[..filenumber], first, exponent)
      invariant exponent == first + Doubled(low, filenumber, blocks)
      invariant left == blocks - Doubled(low, filenumber, blocks)
      invariant count == Level(low, filenumber)
      invariant forall i :: 0 <= i < filenumber ==> b[i].count == DoubledAt(low, i, blocks)
    {
      var number := Min(count, left);
      DoubledMore(low, filenumber, blocks);
      b := Put(b, filenumber, first, exponent, number);
      exponent, left, count := exponent + number, left - number, count * 2;
    }
  }

  /** The smallest file holds enough for all files to hold everything, and half of that would not be enough. */
  ghost predicate LeastLow(low: nat, files: nat, blocks: nat) {
    && low > 0 && blocks <= Capacity(low, files)
    && (low == 1 || exists half: nat :: low == 2 * half && Capacity(half, files) < blocks)
  }

  lemma LeastPowerIs(low: nat, e: nat, files: nat, blocks: nat)
    requires LeastLow(low, files, blocks) && low == Pow2(e)
    ensures LeastPower(e, files, blocks)
  {
    LevelIs(low, files);
    if e > 0 { LevelIs(Pow2(e - 1), files); }
  }

  method LowBlockCount(files: nat, blocks: nat) returns (low: nat, ghost e: nat)
    requires files > 0
    ensures LeastLow(low, files, blocks) && low == Pow2(e)
  {
    low, e := 1, 0;
    var maxrecoveryblocks: nat := Pow2(files) - 1;
    CapacityOfOne(files);
    Pow2Mono(1, files);
    while maxrecoveryblocks < blocks
      invariant low == Pow2(e) && maxrecoveryblocks == Capacity(low, files) > 0
      invariant low == 1 || exists half: nat :: low == 2 * half && Capacity(half, files) < blocks
      decreases blocks - maxrecoveryblocks
    {
      CapacityTwice(low, files);
      low, maxrecoveryblocks, e := low * 2, maxrecoveryblocks * 2, e + 1;
    }
  }

  /** With doubling file sizes no file is empty exactly when there are at most as many files as the number of blocks
      has bits. */
  method AllocateVariable(a: seq<Allocation>, files: nat, first: nat, blocks: nat)
    returns (b: seq<Allocation>, ghost e: nat)
    requires 0 < files < |a| && blocks > 0
    ensures |b| == |a| && Contiguous(b[..files], first, first + blocks)
    ensures (forall i :: 0 <= i < files ==> b[i].count > 0) <==> files <= BitLength(blocks)
    ensures files > BitLength(blocks) ==> b[files - 1].count == 0
    ensures LeastPower(e, files, blocks) && Doubles(b, files, blocks, e)
  {
    var low, exponent;
    low, e := LowBlockCount(files, blocks);
    LeastPowerIs(low, e, files, blocks);
    b, exponent := AllocateDoubling(a, files, first, blocks, low);
    NoneEmpty(low, files, blocks);
    DoubledDoubles(b, files, blocks, e);
    assert files > BitLength(blocks) ==> b[files - 1].count == 0;
  }

  /** Ten blocks in five files leave the last one empty. */
  lemma TenBlocksInFiveFiles(low: nat)
    requires LeastLow(low, 5, 10)
    ensures BitLength(10) == 4 && DoubledAt(low, 4, 10) == 0
  {
    assert BitLength(10) == 1 + BitLength(5) == 2 + BitLength(2) == 3 + BitLength(1) == 4;
    NoneEmpty(low, 5, 10);
  }

  lemma NoneEmpty(low: nat, files: nat, blocks: nat)
    requires files > 0 && blocks > 0 && LeastLow(low, files, blocks)
    ensures files <= BitLength(blocks) ==> forall i :: 0 <= i < files ==> DoubledAt(low, i, blocks) > 0
    ensures files > BitLength(blocks) ==> DoubledAt(low, files - 1, blocks) == 0
  {
    var n: nat := files - 1;
    CapacityOfOne(n);
    if files <= BitLength(blocks) {
      Pow2Mono(n, BitLength(blocks) - 1);
      if low > 1 {
        var half: nat :| low == 2 * half && Capacity(half, files) < blocks;
        CapacityIs(half, files);
        CapacityIs(low, n);
        CapacityTwice(half, n);
      }
      forall i | 0 <= i < files ensures DoubledAt(low, i, blocks) > 0 { CapacityMono(low, i, n); }
    } else {
      Pow2Mono(BitLength(blocks), n);
      if low > 1 {
        var half: nat :| low == 2 * half && Capacity(half, files) < blocks;
        CapacityMono(half, n, files);
        CapacityOfOne(files);
      }
    }
  }

  // The limited scheme: full files at the top, doubling ones below.

  lemma TopGoesOn(blocks: nat, largest: nat, t: nat)
    requires largest > 0 && t <= Whole(blocks, largest)
    ensures t * largest <= blocks
    ensures t < Whole(blocks, largest) <==> blocks - t * largest >= 2 * largest
  {
    var whole := Whole(blocks, largest);
    ExtraIsLeft(blocks, largest);
    MulMono(t, whole, largest);
    if t < whole {
      MulMono(t + 1, whole, largest);
      assert (t + 1) * largest == t * largest + largest;
      DivMod(blocks, largest);
      assert blocks / largest * largest == whole * largest + largest;
    }
  }

  /** `t` files have been filled from the top; `left` blocks go into the first `filenumber` files. */
  ghost predicate TopFilled(s: seq<Allocation>, files: nat, filenumber: nat, first: nat, blocks: nat, left: nat,
                            largest: nat, t: nat)
    requires largest > 0
  {
    && t <= Whole(blocks, largest) && filenumber + t == files < |s| && left + t * largest == blocks
    && Contiguous(s[filenumber..files], first + left, first + blocks)
    && forall i :: filenumber <= i < files ==> s[i].count == largest
  }

  /** Fill one more file at the top. */
  method PutTop(s: seq<Allocation>, files: nat, filenumber: nat, first: nat, blocks: nat, left: nat, largest: nat,
                ghost t: nat)
    returns (b: seq<Allocation>)
    requires largest > 0 && filenumber > 0 && left >= 2 * largest
    requires TopFilled(s, files, filenumber, first, blocks, left, largest, t)
    ensures |b| == |s| && TopFilled(b, files, filenumber - 1, first, blocks, left - largest, largest, t + 1)
  {
    TopGoesOn(blocks, largest, t);
    b := s[filenumber - 1 := Allocation(first + left - largest, largest)];
    assert b[filenumber - 1..files] == [b[filenumber - 1]] + s[filenumber..files];
    assert (t + 1) * largest == t * largest + largest;
  }

  /** Fill files from the last one down, as long as at least two full ones remain to be filled. */
  method AllocateTop(a: seq<Allocation>, files: nat, first: nat, blocks: nat, largest: nat)
    returns (b: seq<Allocation>, filenumber: nat, left: nat)
    requires files < |a| && largest > 0 && blocks > 0 && files == LimitedFiles(blocks, largest)
    ensures filenumber == BitLength(left) > 0 && left == Extra(blocks, largest) && filenumber <= files && |b| == |a|
    ensures Contiguous(b[filenumber..files], first + left, first + blocks)
    ensures forall i :: filenumber <= i < files ==> b[i].count == largest
  {
    b, filenumber, left := a, files, blocks;
    ghost var t: nat := 0;
    assert a[files..files] == [];
    while left >= 2 * largest && filenumber > 0
      invariant |b| == |a| && TopFilled(b, files, filenumber, first, blocks, left, largest, t)
      decreases filenumber
    {
      b := PutTop(b, files, filenumber, first, blocks, left, largest, t);
      filenumber, left, t := filenumber - 1, left - largest, t + 1;
    }
    TopDone(files, filenumber, blocks, left, largest, t);
    assert left > 0 && filenumber > 0;
  }

  lemma TopDone(files: nat, filenumber: nat, blocks: nat, left: nat, largest: nat, t: nat)
    requires largest > 0 && blocks > 0 && t <= Whole(blocks, largest)
    requires filenumber + t == files == LimitedFiles(blocks, largest)
    requires left + t * largest == blocks && (left < 2 * largest || filenumber == 0)
    ensures left == Extra(blocks, largest) && filenumber == BitLength(left)
  {
    TopGoesOn(blocks, largest, t);
    ExtraIsLeft(blocks, largest);
  }

  /** The lowest files double from one on, the others hold the largest. */
  predicate LimitedShape(s: seq<Allocation>, files: nat, largest: nat, left: nat, low: nat) {
    && low <= files <= |s| && Doubles(s, low, left, 0)
    && forall i :: low <= i < files ==> s[i].count == largest
  }

  /** Nowhere are there more blocks than it would take to replace the largest source file. */
  method AllocateLimited(a: seq<Allocation>, files: nat, first: nat, blocks: nat, largest: nat)
    returns (b: seq<Allocation>, exponent: nat, ghost left: nat, ghost low: nat)
    requires files < |a| && largest > 0 && blocks > 0 && files == LimitedFiles(blocks, largest)
    ensures |b| == |a| && Contiguous(b[..files], first, first + blocks)
    ensures forall i :: 0 <= i < files ==> 0 < b[i].count <= largest
    ensures LimitedCounts(blocks, largest, files, left, low) && LimitedShape(b, files, largest, left, low)
  {
    var filenumber, rest;
    b, filenumber, rest := AllocateTop(a, files, first, blocks, largest);
    left, low := rest, filenumber;
    ghost var top := b;
    b, exponent := AllocateDoubling(b, filenumber, first, rest, 1);
    BottomFits(filenumber, left, largest);
    LimitedFilesCount(blocks, largest);
    DoubledDoubles(b, low, left, 0);
    SameTail(b, top, filenumber, files);
    assert exponent == first + left;
    ContiguousConcat(b[..filenumber], top[filenumber..files], first, exponent, first + blocks);
  }

  lemma SameTail(b: seq<Allocation>, top: seq<Allocation>, n: nat, files: nat)
    requires n <= files <= |b| == |top| && b[n..] == top[n..]
    ensures b[..files] == b[..n] + top[n..files]
    ensures forall i :: n <= i < files ==> b[i] == top[i]
  {
    forall i | n <= i < files ensures b[i] == top[i] { assert b[n..][i - n] == top[n..][i - n]; }
  }

  lemma BottomFits(files: nat, blocks: nat, largest: nat)
    requires 0 < blocks < 2 * largest && files == BitLength(blocks)
    ensures Doubled(1, files, blocks) == blocks
    ensures forall i :: 0 <= i < files ==> 0 < DoubledAt(1, i, blocks) <= largest
  {
    CapacityOfOne(files);
    NoneEmpty(1, files, blocks);
    forall i | 0 <= i < files ensures DoubledAt(1, i, blocks) <= largest {
      CapacityOfOne(i);
      if i + 1 < files { Pow2Mono(i + 1, files - 1); }
    }
  }

  /** Divide the blocks among the files; one more file holds none. */
  method AllocateBlocks(scheme: Scheme, files: nat, first: nat, blocks: nat, largest: nat) returns (a: seq<Allocation>)
    requires scheme != Unknown && (files == 0 <==> blocks == 0) && files <= blocks
    requires scheme == Limited && blocks > 0 ==> largest > 0 && files == LimitedFiles(blocks, largest)
    ensures |a| == files + 1 && a[files].count == 0 && Contiguous(a[..files], first, first + blocks)
    ensures (forall i :: 0 <= i < files ==> a[i].count > 0) <==> scheme != Variable || files <= BitLength(blocks)
    ensures scheme == Limited ==> forall i :: 0 <= i < files ==> a[i].count <= largest
    ensures files > 0 && scheme == Uniform ==> EvenShares(a, files, blocks)
    ensures files > 0 && scheme == Variable ==> exists e :: LeastPower(e, files, blocks) && Doubles(a, files, blocks, e)
    ensures files > 0 && scheme == Limited ==>
              exists left, low: nat ::
                LimitedCounts(blocks, largest, files, left, low) && LimitedShape(a, files, largest, left, low)
  {
    var exponent := first + blocks;
    ghost var e, left, low;
    a := seq(files + 1, i => Allocation(0, 0));
    if files > 0 {
      match scheme
      case Uniform =>
        a := AllocateUniform(a, files, first, blocks);
        DivMod(blocks, files);
        MulMono(files, blocks, 1);
        DivAtLeastOne(blocks, files);
      case Variable => a, e := AllocateVariable(a, files, first, blocks);
      case Limited => a, exponent, left, low := AllocateLimited(a, files, first, blocks, largest);
    }
    ghost var before := a;
    a := a[files := Allocation(exponent, 0)];
    assert a[..files] == before[..files];
    forall i | 0 <= i < files ensures a[i] == before[i] {}
    assert files > 0 && scheme == Variable ==> Doubles(a, files, blocks, e);
    assert files > 0 && scheme == Limited ==> LimitedShape(a, files, largest, left, low);
  }

  lemma DivAtLeastOne(x: nat, d: nat)
    requires 0 < d <= x
    ensures x / d >= 1
  {
    DivMod(x, d);
  }
}
