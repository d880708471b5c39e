/** Hashing the source files of a recovery set: at once when they are opened, or while their blocks are read for
    processing. */
module SourceHashes {
  import opened Arithmetic
  import opened FileCheckSummer

  datatype BlockSum<S, D> = BlockSum(crc: S, hash: D)

  function BlockStart(i: nat, blocksize: nat): nat {
    i * blocksize
  }

  function BlockCount(filesize: nat, blocksize: nat): nat
    requires blocksize > 0
  {
    (filesize + blocksize - 1) / blocksize
  }

  lemma NextStart(i: nat, blocksize: nat)
    ensures BlockStart(i + 1, blocksize) == BlockStart(i, blocksize) + blocksize && BlockStart(0, blocksize) == 0
  {}

  /** Exactly the blocks below the count start inside the file. */
  lemma BlockInside(i: nat, filesize: nat, blocksize: nat)
    requires blocksize > 0
    ensures i < BlockCount(filesize, blocksize) <==> BlockStart(i, blocksize) < filesize
  {
    var x, n := filesize + blocksize - 1, BlockCount(filesize, blocksize);
    DivMod(x, blocksize);
    if i < n {
      MulMono(i + 1, n, blocksize);
      NextStart(i, blocksize);
    } else {
      MulMono(n, i, blocksize);
    }
  }

  /** An empty file has no blocks, whatever their size. */
  lemma EmptyFileHasNoRoom(blocksize: nat)
    requires blocksize > 0
    ensures BlockCount(0, blocksize) == 0
  {
    BlockInside(0, 0, blocksize);
    NextStart(0, blocksize);
  }

  function SumOf<B(!new), S, D>(scheme: Scheme<B, S, D>, bytes: seq<B>): BlockSum<S, D> {
    BlockSum(scheme.checksum(bytes), scheme.md5(bytes))
  }

  /** What the verification packet says about the first `n` blocks. */
  function BlockSums<B(!new), S, D>(scheme: Scheme<B, S, D>, file: seq<B>, blocksize: nat,
                                    n: nat): (s: seq<BlockSum<S, D>>)
    requires blocksize > 0 && n <= BlockCount(|file|, blocksize)
    ensures |s| == n
  {
    if n == 0 then []
    else
      BlockInside(n - 1, |file|, blocksize);
      BlockSums(scheme, file, blocksize, n - 1) + [SumOf(scheme,
                                                         BlockBytes(scheme, file, blocksize,
                                                                    BlockStart(n - 1, blocksize)))]
  }

  class Par2CreatorSourceFile<B(!new), S, D> {
    const file: seq<B>
    const blocksize: nat
    const scheme: Scheme<B, S, D>
    const filesize: nat
    const blockcount: nat
    const hasher: HasherInput<B>
    var verification: seq<BlockSum<S, D>>
    var hashfull: D
    var hash16k: D

    ghost predicate Sized()
      reads this`verification
    {
      && blocksize > 0 && filesize == |file| && blockcount == BlockCount(filesize, blocksize)
      && |verification| == blockcount
    }

    /** The hash of the first 16k, or of all there is. */
    ghost function Hash16k(): D {
      scheme.md5(file[..Min(SIXTEEN_K, |file|)])
    }

    /** The packets of this file say what they should. */
    ghost predicate Described()
      reads this
    {
      && Sized() && verification == BlockSums(scheme, file, blocksize, blockcount)
      && hashfull == scheme.md5(file) && hash16k == Hash16k()
    }

    constructor (file: seq<B>, blocksize: nat, scheme: Scheme<B, S, D>)
      requires blocksize > 0
      ensures Sized() && this.file == file && this.blocksize == blocksize && this.scheme == scheme
      ensures fresh(hasher) && hasher.file == hasher.block == []
    {
      this.file, this.blocksize, this.scheme := file, blocksize, scheme;
      filesize, blockcount := |file|, BlockCount(|file|, blocksize);
      verification := seq(BlockCount(|file|, blocksize), _ => BlockSum(scheme.none, scheme.md5([])));
      hashfull, hash16k := scheme.md5([]), scheme.md5([]);
      hasher := new HasherInput<B>();
    }

    /** Store the sum of the next block. */
    method SetBlockHashAndCRC(blocknumber: nat, sum: BlockSum<S, D>)
      requires Sized() && blocknumber < blockcount
      requires verification[..blocknumber] == BlockSums(scheme, file, blocksize, blocknumber)
      requires BlockStart(blocknumber, blocksize) < filesize
      requires sum == SumOf(scheme, BlockBytes(scheme, file, blocksize, BlockStart(blocknumber, blocksize)))
      modifies this`verification
      ensures Sized() && verification[..blocknumber + 1] == BlockSums(scheme, file, blocksize, blocknumber + 1)
    {
      ghost var before := verification;
      verification := verification[blocknumber := sum];
      assert verification[..blocknumber + 1] == before[..blocknumber] + [sum];
    }

    // Hashing at once.

    /** The hasher has been fed the file up to `at`, and `need` more bytes would complete block `blocknumber`. */
    ghost predicate Hashing(at: nat, blocknumber: nat, need: nat)
      reads this`verification, hasher
    {
      && Sized() && at <= filesize && blocknumber <= blockcount
      && hasher.file == file[..at]
      && verification[..blocknumber] == BlockSums(scheme, file, blocksize, blocknumber)
      && if need == 0 then blocknumber == blockcount && at == filesize && hasher.block == []
         else
           var start := BlockStart(blocknumber, blocksize);
           blocknumber < blockcount && start <= at && at + need == start + blocksize && hasher.block == file[start..at]
    }

    /** Finish the block in progress, padded with zeros if the file ends in it. */
    method FinishBlock(blocknumber: nat, zeropad: nat, ghost at: nat)
      requires Sized() && blocknumber < blockcount
      requires verification[..blocknumber] == BlockSums(scheme, file, blocksize, blocknumber)
      requires BlockStart(blocknumber, blocksize) <= at <= filesize
      requires at + zeropad == BlockStart(blocknumber, blocksize) + blocksize
      requires hasher.block == file[BlockStart(blocknumber, blocksize)..at] && (zeropad > 0 ==> at == filesize)
      modifies this`verification, hasher`block
      ensures Sized() && hasher.block == []
      ensures verification[..blocknumber + 1] == BlockSums(scheme, file, blocksize, blocknumber + 1)
    {
      var bytes := hasher.GetBlock(scheme.Zeros(zeropad));
      BlockInside(blocknumber, filesize, blocksize);
      assert bytes == BlockBytes(scheme, file, blocksize, BlockStart(blocknumber, blocksize));
      SetBlockHashAndCRC(blocknumber, SumOf(scheme, bytes));
    }

    /** Feed the hasher with what was read, finishing blocks on the way. */
    method UseAll(data: seq<B>, blocknumber0: nat, need0: nat, ghost at: nat) returns (blocknumber: nat, need: nat)
      requires Hashing(at, blocknumber0, need0) && at + |data| <= filesize && data == file[at..at + |data|]
      modifies this`verification, hasher
      ensures Hashing(at + |data|, blocknumber, need)
    {
      blocknumber, need := blocknumber0, need0;
      var used := 0;
      while used < |data|
        invariant used <= |data| && Hashing(at + used, blocknumber, need)
        decreases |data| - used
      {
        var use := Min(need, |data| - used);
        PartOfFile(file, data, at, used, use);
        blocknumber, need := UseSome(data[used..used + use], blocknumber, need, at + used);
        used := used + use;
      }
    }

    method UseSome(data: seq<B>, blocknumber0: nat, need0: nat, ghost at: nat) returns (blocknumber: nat, need: nat)
      requires Hashing(at, blocknumber0, need0) && 0 < |data| <= need0 && at + |data| <= filesize
      requires data == file[at..at + |data|]
      modifies this`verification, hasher
      ensures Hashing(at + |data|, blocknumber, need)
    {
      blocknumber, need := blocknumber0, need0 - |data|;
      TakenMore(file, hasher.file, 0, at, |data|);
      TakenMore(file, hasher.block, BlockStart(blocknumber, blocksize), at, |data|);
      hasher.Update(data);
      if need == 0 {
        blocknumber, need := NextBlock(blocknumber, at + |data|);
      }
    }

    /** Finish a full block and begin the next one, if there is one. */
    method NextBlock(blocknumber0: nat, ghost at: nat) returns (blocknumber: nat, need: nat)
      requires Sized() && blocknumber0 < blockcount
      requires verification[..blocknumber0] == BlockSums(scheme, file, blocksize, blocknumber0)
      requires at <= filesize && at == BlockStart(blocknumber0, blocksize) + blocksize
      requires hasher.file == file[..at] && hasher.block == file[BlockStart(blocknumber0, blocksize)..at]
      modifies this`verification, hasher`block
      ensures Hashing(at, blocknumber, need)
    {
      FinishBlock(blocknumber0, 0, at);
      blocknumber, need := blocknumber0 + 1, 0;
      NextStart(blocknumber0, blocksize);
      BlockInside(blocknumber, filesize, blocksize);
      if blocknumber < blockcount {
        need := blocksize;
      }
    }

    /** The first 16k are hashed on the way. */
    ghost predicate FirstHashed(offset: nat, context: seq<B>)
      reads this`hash16k
    {
      offset <= |file| && if offset < SIXTEEN_K then context == file[..offset] else hash16k == Hash16k()
    }

    method HashFirst(context: seq<B>, offset: nat, data: seq<B>) returns (more: seq<B>)
      requires FirstHashed(offset, context) && offset + |data| <= |file| && data == file[offset..offset + |data|]
      modifies this`hash16k
      ensures FirstHashed(offset + |data|, more)
    {
      more := context;
      if offset < SIXTEEN_K {
        more := more + data[..Min(|data|, SIXTEEN_K - offset)];
        assert more == file[..Min(SIXTEEN_K, offset + |data|)];
        if offset + |data| >= SIXTEEN_K {
          hash16k := scheme.md5(more);
        }
      }
    }

    /** Read the whole file through a buffer and compute all hashes. `ok` says that there was room for the sum of every
        block that was finished; for an empty file one block is left to finish, but there is no room for its sum. */
    method HashNow() returns (ok: bool)
      requires Sized() && hasher.file == hasher.block == []
      modifies this, hasher
      ensures ok <==> filesize > 0
      ensures ok ==> Described()
    {
      var buffersize: nat := Min(1024 * 1024, Min(blocksize, filesize));
      var offset: nat, blocknumber: nat, need: nat := 0, 0, blocksize;
      var context: seq<B> := [];
      NextStart(0, blocksize);
      BlockInside(0, filesize, blocksize);
      while offset < filesize
        invariant offset <= filesize && FirstHashed(offset, context)
        invariant if filesize == 0 then blocknumber == 0 && need == blocksize else Hashing(offset, blocknumber, need)
        decreases filesize - offset
      {
        var want := Min(filesize - offset, buffersize);
        var buffer := file[offset..offset + want];
        context := HashFirst(context, offset, buffer);
        blocknumber, need := UseAll(buffer, blocknumber, need, offset);
        offset := offset + want;
      }
      ok := need == 0 || blocknumber < blockcount;
      if ok {
        FinishFile(blocknumber, need, offset);
      }
    }

    /** Finish the last block and the hashes of the file. */
    method FinishFile(blocknumber: nat, need: nat, offset: nat)
      requires Hashing(filesize, blocknumber, need) && offset == filesize
      requires (offset >= SIXTEEN_K ==> hash16k == Hash16k())
      modifies this, hasher
      ensures Described()
    {
      assert file[..|file|] == file;
      if need > 0 {
        NextStart(blocknumber, blocksize);
        BlockInside(blocknumber + 1, filesize, blocksize);
        FinishBlock(blocknumber, need, filesize);
      }
      assert verification[..|verification|] == verification;
      hashfull := scheme.md5(hasher.file);
      if offset < SIXTEEN_K {
        hash16k := hashfull;
      }
    }

    // Hashing while the blocks are read.

    /** The first `n` blocks have been seen. */
    ghost predicate Deferring(n: nat)
      reads this, hasher
    {
      && Sized() && n <= blockcount && hash16k == Hash16k() && hasher.block == []
      && hasher.file == file[..Min(filesize, BlockStart(n, blocksize))]
      && verification[..n] == BlockSums(scheme, file, blocksize, n)
    }

    /** Hash the first 16k and leave the rest for later. */
    method HashLater()
      requires Sized() && hasher.file == hasher.block == []
      modifies this`hash16k
      ensures Deferring(0)
    {
      var buffersize := Min(16 * 1024, filesize);
      hash16k := scheme.md5(file[..buffersize]);
      NextStart(0, blocksize);
    }

    /** Hash a block that was read, up to the end of the file. */
    method UpdateHashes(blocknumber: nat, buffer: seq<B>)
      requires Deferring(blocknumber) && blocknumber < blockcount && BlockStart(blocknumber, blocksize) <= |file|
      requires buffer == BlockBytes(scheme, file, blocksize, BlockStart(blocknumber, blocksize))
      modifies this`verification, hasher
      ensures Deferring(blocknumber + 1)
    {
      var start := BlockStart(blocknumber, blocksize);
      var left := filesize - start;
      var length, zeropad := |buffer|, 0;
      if length > left {
        zeropad := length - left;
        length := left;
      }
      BlockInside(blocknumber, filesize, blocksize);
      NextStart(blocknumber, blocksize);
      hasher.Update(buffer[..length]);
      assert hasher.file == file[..start + length];
      assert hasher.block == file[start..start + length];
      FinishBlock(blocknumber, zeropad, start + length);
    }

    method FinishHashes()
      requires Deferring(blockcount)
      modifies this`hashfull
      ensures Described()
    {
      BlockInside(blockcount, filesize, blocksize);
      assert file[..|file|] == file;
      assert verification[..|verification|] == verification;
      hashfull := scheme.md5(hasher.file);
    }
  }

  lemma {:induction false} BlockSumsAt<B(!new), S, D>(scheme: Scheme<B, S, D>, file: seq<B>, blocksize: nat, n: nat,
                                                      i: nat)
    requires blocksize > 0 && i < n <= BlockCount(|file|, blocksize)
    ensures var at := i * blocksize;
            && at < |file|
            && BlockSums(scheme, file, blocksize, n)[i].crc == scheme.checksum(BlockBytes(scheme, file, blocksize, at))
            && BlockSums(scheme, file, blocksize, n)[i].hash == scheme.md5(BlockBytes(scheme, file, blocksize, at))
  {
    BlockInside(i, |file|, blocksize);
    if i < n - 1 { BlockSumsAt(scheme, file, blocksize, n - 1, i); }
  }

  /** What a file that is described has in its packets: for every block that starts in the file the checksum and the
      hash of its bytes, padded with zeros, and the hashes of the file and of its first 16384 bytes. */
  lemma DescribedSays<B(!new), S, D>(f: Par2CreatorSourceFile<B, S, D>)
    requires f.Described()
    ensures forall i: nat :: i < |f.verification| <==> i * f.blocksize < |f.file|
    ensures forall i: nat :: i < |f.verification| ==>
              var block := BlockBytes(f.scheme, f.file, f.blocksize, i * f.blocksize);
              f.verification[i].crc == f.scheme.checksum(block) && f.verification[i].hash == f.scheme.md5(block)
    ensures f.hashfull == f.scheme.md5(f.file)
    ensures f.hash16k == f.scheme.md5(if |f.file| < 16384 then f.file else f.file[..16384])
  {
    forall i: nat ensures i < |f.verification| <==> i * f.blocksize < |f.file| {
      BlockInside(i, |f.file|, f.blocksize);
    }
    forall i: nat | i < |f.verification|
      ensures var block := BlockBytes(f.scheme, f.file, f.blocksize, i * f.blocksize);
              f.verification[i].crc == f.scheme.checksum(block) && f.verification[i].hash == f.scheme.md5(block)
    {
      BlockSumsAt(f.scheme, f.file, f.blocksize, |f.verification|, i);
    }
    assert f.file[..|f.file|] == f.file;
  }

  lemma PartOfFile<T>(file: seq<T>, data: seq<T>, at: nat, used: nat, use: nat)
    requires at + |data| <= |file| && data == file[at..at + |data|] && used + use <= |data|
    ensures data[used..used + use] == file[at + used..at + used + use]
  {
    forall k | used <= k < used + use ensures data[k] == file[at + k] {}
  }

  lemma TakenMore<T>(file: seq<T>, taken: seq<T>, start: nat, at: nat, n: nat)
    requires start <= at && at + n <= |file| && taken == file[start..at]
    ensures taken + file[at..at + n] == file[start..at + n]
  {}

  // All source files.

  /** A source block: which block of which file. */
  datatype SourceBlock = SourceBlock(file: nat, block: nat)

  /** The blocks of the first `n` files, file after file, from the block counts of the files. */
  function SourceBlocks(counts: seq<nat>, n: nat): (s: seq<SourceBlock>)
    requires n <= |counts|
  {
    if n == 0 then [] else SourceBlocks(counts, n - 1) + seq(counts[n - 1],
                                                             i requires 0 <= i < counts[n - 1] => SourceBlock(n - 1, i))
  }

  lemma {:induction false} SourceBlocksGrow(counts: seq<nat>, n: nat, m: nat)
    requires n <= m <= |counts|
    ensures var s, t := SourceBlocks(counts, n), SourceBlocks(counts, m); |s| <= |t| && s == t[..|s|]
    decreases m
  {
    if n < m { SourceBlocksGrow(counts, n, m - 1); }
  }

  lemma {:induction false} SourceBlocksExist(counts: seq<nat>, n: nat, k: nat)
    requires n <= |counts| && k < |SourceBlocks(counts, n)|
    ensures var b := SourceBlocks(counts, n)[k]; b.file < n && b.block < counts[b.file]
  {
    if k < |SourceBlocks(counts, n - 1)| { SourceBlocksExist(counts, n - 1, k); }
  }

  /** The file and the block that are counted for source block `k`: the next block of the file, or the first of the
      next file. */
  function Counted(counts: seq<nat>, k: nat): SourceBlock {
    if k == 0 then SourceBlock(0, 0) else After(counts, Counted(counts, k - 1))
  }

  function After(counts: seq<nat>, b: SourceBlock): SourceBlock {
    if b.file < |counts| && b.block + 1 < counts[b.file] then SourceBlock(b.file, b.block + 1)
    else SourceBlock(b.file + 1, 0)
  }

  /** Counting goes through the files as the list of all blocks does. */
  ghost predicate CountsMatch(counts: seq<nat>) {
    forall k :: 0 <= k < |SourceBlocks(counts, |counts|)| ==> Counted(counts, k) == SourceBlocks(counts, |counts|)[k]
  }

  /** Only the last files may be empty. */
  predicate EmptyLast(counts: seq<nat>) {
    forall i, j :: 0 <= i < j < |counts| && counts[j] > 0 ==> counts[i] > 0
  }

  lemma {:induction false} CountedWithin(counts: seq<nat>, file: nat, block: nat)
    requires file < |counts| && block < counts[file]
    requires Counted(counts, |SourceBlocks(counts, file)|) == SourceBlock(file, 0)
    ensures Counted(counts, |SourceBlocks(counts, file)| + block) == SourceBlock(file, block)
    ensures SourceBlocks(counts, file + 1)[|SourceBlocks(counts, file)| + block] == SourceBlock(file, block)
  {
    if block > 0 { CountedWithin(counts, file, block - 1); }
  }

  /** Counting reaches every file before which none is empty. */
  lemma {:induction false} CountedReaches(counts: seq<nat>, file: nat)
    requires file <= |counts| && forall i :: 0 <= i < file ==> counts[i] > 0
    ensures Counted(counts, |SourceBlocks(counts, file)|) == SourceBlock(file, 0)
  {
    if file > 0 {
      CountedReaches(counts, file - 1);
      CountedWithin(counts, file - 1, counts[file - 1] - 1);
    }
  }

  /** How many files there are before the first empty one. */
  function NonEmptyFirst(counts: seq<nat>): (n: nat)
    ensures n <= |counts| && (forall i :: 0 <= i < n ==> counts[i] > 0) && (n < |counts| ==> counts[n] == 0)
  {
    if counts == [] || counts[0] == 0 then 0 else 1 + NonEmptyFirst(counts[1..])
  }

  lemma {:induction false} NoMoreBlocks(counts: seq<nat>, n: nat, m: nat)
    requires n <= m <= |counts| && forall i :: n <= i < m ==> counts[i] == 0
    ensures SourceBlocks(counts, m) == SourceBlocks(counts, n)
    decreases m
  {
    if n < m {
      NoMoreBlocks(counts, n, m - 1);
      assert SourceBlocks(counts, m) == SourceBlocks(counts, m - 1);
    }
  }

  /** Counting keeps step exactly when no empty file comes before one that is not empty. */
  lemma CountsMatchIff(counts: seq<nat>)
    ensures CountsMatch(counts) <==> EmptyLast(counts)
  {
    var n, all := NonEmptyFirst(counts), SourceBlocks(counts, |counts|);
    if EmptyLast(counts) {
      forall i | n <= i < |counts| ensures counts[i] == 0 { assert i > n ==> counts[n] == 0; }
      NoMoreBlocks(counts, n, |counts|);
      forall k | 0 <= k < |all| ensures Counted(counts, k) == all[k] { CountedBefore(counts, n, k); }
    } else {
      var i, j :| 0 <= i < j < |counts| && counts[j] > 0 && counts[i] == 0;
      CountedForEmpty(counts, n, j);
    }
  }

  /** Counting comes to the first empty file although a later file has blocks. */
  lemma CountedForEmpty(counts: seq<nat>, n: nat, j: nat)
    requires n == NonEmptyFirst(counts) < j < |counts| && counts[j] > 0
    ensures var k := |SourceBlocks(counts, n)|;
            k < |SourceBlocks(counts, |counts|)| && Counted(counts, k) != SourceBlocks(counts, |counts|)[k]
  {
    var k := |SourceBlocks(counts, n)|;
    CountedReaches(counts, n);
    SourceBlocksGrow(counts, n, j);
    SourceBlocksGrow(counts, j + 1, |counts|);
    SourceBlocksExist(counts, |counts|, k);
  }

  lemma {:induction false} CountedBefore(counts: seq<nat>, n: nat, k: nat)
    requires n <= |counts| && k < |SourceBlocks(counts, n)| && forall i :: 0 <= i < n ==> counts[i] > 0
    ensures Counted(counts, k) == SourceBlocks(counts, n)[k]
  {
    var before := |SourceBlocks(counts, n - 1)|;
    if k < before {
      CountedBefore(counts, n - 1, k);
    } else {
      CountedReaches(counts, n - 1);
      CountedWithin(counts, n - 1, k - before);
    }
  }

  /** With an empty file first, the first block is hashed for the empty file. */
  lemma EmptyFileOutOfStep()
    ensures Counted([0, 1], 0) == SourceBlock(0, 0) && SourceBlocks([0, 1], 2)[0] == SourceBlock(1, 0)
  {
    assert SourceBlocks([0, 1], 0) == [] && SourceBlocks([0, 1], 1) == [];
  }

  function Counts<B(!new), S, D>(files: seq<Par2CreatorSourceFile<B, S, D>>): (c: seq<nat>)
    ensures |c| == |files| && forall i :: 0 <= i < |files| ==> c[i] == files[i].blockcount
  {
    seq(|files|, i requires 0 <= i < |files| => files[i].blockcount)
  }

  /** No two files are the same object or share a hasher. */
  ghost predicate Separate<B(!new), S, D>(files: seq<Par2CreatorSourceFile<B, S, D>>) {
    forall i, j :: 0 <= i < j < |files| ==> files[i] != files[j] && files[i].hasher != files[j].hasher
  }

  /** Files before `file` are done, `file` has come to `block`, and the others have not begun. */
  ghost predicate Reached<B(!new), S, D>(files: seq<Par2CreatorSourceFile<B, S, D>>, file: nat, block: nat)
    reads files, set f | f in files :: f.hasher
  {
    forall i :: 0 <= i < |files| ==>
        files[i].Deferring(if i < file then files[i].blockcount else if i == file then block else 0)
  }

  /** Go through all blocks in order, hashing each for its file. */
  method ProcessData<B(!new), S, D>(files: seq<Par2CreatorSourceFile<B, S, D>>)
    requires Separate(files) && EmptyLast(Counts(files)) && forall i :: 0 <= i < |files| ==> files[i].Deferring(0)
    modifies files, set f | f in files :: f.hasher
    ensures forall i :: 0 <= i < |files| ==> files[i].Described()
  {
    HashBlocks(files, Counts(files));
    FinishAll(files);
  }

  method HashBlocks<B(!new), S, D>(files: seq<Par2CreatorSourceFile<B, S, D>>, counts: seq<nat>)
    requires Separate(files) && Reached(files, 0, 0) && counts == Counts(files) && EmptyLast(counts)
    modifies files, set f | f in files :: f.hasher
    ensures Reached(files, |files|, 0)
  {
    var sourceblocks := SourceBlocks(counts, |counts|);
    var sourcefile: nat, sourceindex: nat := 0, 0;
    CountsMatchIff(counts);
    for k := 0 to |sourceblocks|
      invariant SourceBlock(sourcefile, sourceindex) == Counted(counts, k) && Reached(files, sourcefile, sourceindex)
    {
      SourceBlocksExist(counts, |counts|, k);
      sourcefile, sourceindex := HashOne(files, counts, sourceblocks[k], sourcefile, sourceindex);
    }
    AllCounted(counts);
    RestIsEmpty(files, sourcefile);
  }

  /** At the end only empty files are left. */
  lemma AllCounted(counts: seq<nat>)
    requires EmptyLast(counts)
    ensures var b := Counted(counts, |SourceBlocks(counts, |counts|)|);
            b.block == 0 && b.file <= |counts| && forall i :: b.file <= i < |counts| ==> counts[i] == 0
  {
    var n := NonEmptyFirst(counts);
    forall i | n <= i < |counts| ensures counts[i] == 0 { assert i > n ==> counts[n] == 0; }
    NoMoreBlocks(counts, n, |counts|);
    CountedReaches(counts, n);
  }

  lemma RestIsEmpty<B(!new), S, D>(files: seq<Par2CreatorSourceFile<B, S, D>>, file: nat)
    requires Reached(files, file, 0) && forall i :: file <= i < |files| ==> files[i].blockcount == 0
    ensures Reached(files, |files|, 0)
  {}

  /** Read a block, hash it for the file it is counted for, and work out which file the next one belongs to. */
  method HashOne<B(!new), S, D>(files: seq<Par2CreatorSourceFile<B, S, D>>, ghost counts: seq<nat>, source: SourceBlock,
                                file: nat, block: nat)
    returns (nextfile: nat, nextblock: nat)
    requires Separate(files) && Reached(files, file, block) && source == SourceBlock(file, block)
    requires file < |files| && block < files[file].blockcount && counts == Counts(files)
    modifies files, set f | f in files :: f.hasher
    ensures Reached(files, nextfile, nextblock)
    ensures SourceBlock(nextfile, nextblock) == After(counts, SourceBlock(file, block))
  {
    UpdateOne(files, source, file, block);
    nextfile, nextblock := file, block + 1;
    if nextblock >= files[nextfile].blockcount {
      ReachedNext(files, file, nextblock);
      nextfile, nextblock := nextfile + 1, 0;
    }
  }

  lemma ReachedNext<B(!new), S, D>(files: seq<Par2CreatorSourceFile<B, S, D>>, file: nat, block: nat)
    requires file < |files| && Reached(files, file, block) && block >= files[file].blockcount
    ensures Reached(files, file + 1, 0)
  {}

  /** Read a block and hash it for the file it is counted for. */
  method UpdateOne<B(!new), S, D>(files: seq<Par2CreatorSourceFile<B, S, D>>, source: SourceBlock, file: nat,
                                  block: nat)
    requires Separate(files) && Reached(files, file, block) && source == SourceBlock(file, block)
    requires file < |files| && block < files[file].blockcount
    modifies files, set f | f in files :: f.hasher
    ensures Reached(files, file, block + 1)
  {
    var from := files[source.file];
    BlockInside(source.block, from.filesize, from.blocksize);
    var buffer := BlockBytes(from.scheme, from.file, from.blocksize, BlockStart(source.block, from.blocksize));
    files[file].UpdateHashes(block, buffer);
  }

  method FinishAll<B(!new), S, D>(files: seq<Par2CreatorSourceFile<B, S, D>>)
    requires Separate(files) && Reached(files, |files|, 0)
    modifies files
    ensures forall i :: 0 <= i < |files| ==> files[i].Described()
  {
    for f := 0 to |files|
      invariant forall i :: 0 <= i < f ==> files[i].Described()
      invariant forall i :: f <= i < |files| ==> files[i].Deferring(files[i].blockcount)
    {
      files[f].FinishHashes();
    }
  }
}
