/** A window of one block sliding over a file, with its checksum, its hash, and the hashes of the whole file. */
module FileCheckSummer {
  import opened Arithmetic
  import opened DataBlocks
  import opened ScanBuffers

  const SIXTEEN_K: nat := 16384

  /** The checksum and the hash of a block. Bytes, checksums and digests stay abstract, so that the proofs
      below use nothing of them but the law of sliding. */
  datatype Scheme<!B(!new), !S, !D> = Scheme(
    checksum: seq<B> -> S, slide: (S, B, B) -> S, md5: seq<B> -> D, blank: B, none: S)
  {

    ghost predicate SlideLaw(first: B, rest: seq<B>, last: B) {
      slide(checksum([first] + rest), last, first) == checksum(rest + [last])
    }

    /** Sliding a window of `n` bytes is recomputing its checksum. */
    ghost predicate Slides(n: nat) {
      forall first: B, rest: seq<B>, last: B :: |rest| + 1 == n ==> SlideLaw(first, rest, last)
    }

    function Zeros(n: nat): (s: seq<B>)
      ensures |s| == n
    {
      seq(n, _ => blank)
    }
  }

  /** The multi-hash context, by the bytes it was fed: all of them, and those of the block in progress. */
  class HasherInput<B> {
    var file: seq<B>
    var block: seq<B>

    constructor ()
      ensures file == [] && block == []
    {
      file, block := [], [];
    }

    method Update(bytes: seq<B>)
      modifies this
      ensures file == old(file) + bytes && block == old(block) + bytes
    {
      file, block := file + bytes, block + bytes;
    }

    /** The block so far, padded with zeros; the next block starts empty. */
    method GetBlock(zeropad: seq<B>) returns (bytes: seq<B>)
      modifies this`block
      ensures bytes == old(block) + zeropad && block == []
    {
      bytes := block + zeropad;
      block := [];
    }
  }

  // Where the three pointers and the two offsets are. `out`, `tail` count from the start of the buffer.

  ghost predicate Positions(bs: nat, fs: nat, current: nat, out: nat, tail: nat, readoffset: nat) {
    && bs > 0 && current <= fs && readoffset <= fs && tail <= 2 * bs
    && if current < fs then
         && out < bs && out <= current && current + tail == readoffset + out
         && Min(fs, current + bs) <= readoffset
       else
         out == tail == 0 && readoffset == fs
  }

  /** The window lies inside the file. */
  predicate FullWindow(bs: nat, fs: nat, current: nat) {
    current + bs <= fs
  }

  function Stretch<T>(file: seq<T>, at: nat, n: nat): (w: seq<T>)
    requires at + n <= |file|
    ensures |w| == n
  {
    file[at..at + n]
  }

  /** The block that starts at `at`, padded with zeros. */
  function BlockBytes<B(!new), S, D>(scheme: Scheme<B, S, D>, file: seq<B>, blocksize: nat, at: nat): (b: seq<B>)
    requires at <= |file|
    ensures |b| == blocksize
  {
    var n := Min(blocksize, |file| - at);
    file[at..at + n] + scheme.Zeros(blocksize - n)
  }

  /** A block of bytes that begins with what there is of the file from an offset on. */
  ghost predicate Begins<B>(bytes: seq<B>, file: seq<B>, blocksize: nat, at: nat) {
    && at <= |file| && |bytes| == blocksize
    && var n := Min(blocksize, |file| - at); bytes[..n] == file[at..at + n]
  }

  lemma HeldBegins<B>(buf: seq<B>, file: seq<B>, tail: nat, base: nat, out: nat, blocksize: nat, at: nat)
    requires HoldsFile(buf, file, tail, base) && at == base + out <= |file| && out + blocksize <= |buf|
    requires out + Min(blocksize, |file| - at) <= tail
    ensures Begins(buf[out..out + blocksize], file, blocksize, at)
  {
    var n := Min(blocksize, |file| - at);
    HeldSlice(buf, file, tail, base, out, n);
    Slices(buf, out, blocksize, n);
  }

  lemma Slices<T>(s: seq<T>, from: nat, n: nat, m: nat)
    requires m <= n && from + n <= |s|
    ensures s[from..from + n][..m] == s[from..from + m]
  {}

  lemma PaddedBegins<B(!new), S, D>(scheme: Scheme<B, S, D>, bytes: seq<B>, file: seq<B>, blocksize: nat, at: nat)
    requires Begins(bytes, file, blocksize, at)
    requires forall i :: |file| - at <= i < blocksize ==> bytes[i] == scheme.blank
    ensures bytes == BlockBytes(scheme, file, blocksize, at)
  {
    var n := Min(blocksize, |file| - at);
    assert bytes == bytes[..n] + bytes[n..] && bytes[n..] == scheme.Zeros(blocksize - n);
  }

  // What the hash contexts have been fed.

  ghost predicate Fed<B>(file: seq<B>, readoffset: nat, hashing: bool, full: seq<B>, first: seq<B>)
    requires readoffset <= |file|
  {
    && first == file[..Min(SIXTEEN_K, readoffset)]
    && (!hashing && readoffset >= SIXTEEN_K ==> full == file[..readoffset])
  }

  /** The 16k and the full context after more of the file, as `UpdateHashes` feeds them. */
  function FirstAfter<B>(first: seq<B>, offset: nat, bytes: seq<B>): seq<B> {
    if offset >= SIXTEEN_K then first
    else if offset + |bytes| >= SIXTEEN_K then first + bytes[..SIXTEEN_K - offset]
    else first + bytes
  }

  function FullAfter<B>(full: seq<B>, first: seq<B>, hashing: bool, offset: nat, bytes: seq<B>): seq<B> {
    if hashing then full
    else if offset >= SIXTEEN_K then full + bytes
    else if offset + |bytes| >= SIXTEEN_K then
      var n := SIXTEEN_K - offset;
      first + bytes[..n] + bytes[n..]
    else full
  }

  lemma FedMore<B>(file: seq<B>, readoffset: nat, want: nat, hashing: bool, full: seq<B>, first: seq<B>)
    requires readoffset + want <= |file| && Fed(file, readoffset, hashing, full, first)
    ensures var bytes := file[readoffset..readoffset + want];
            Fed(file, readoffset + want, hashing, FullAfter(full, first, hashing, readoffset, bytes),
                FirstAfter(first, readoffset, bytes))
  {
    var bytes, to := file[readoffset..readoffset + want], readoffset + want;
    if readoffset >= SIXTEEN_K {
      assert file[..to] == file[..readoffset] + bytes;
    } else if to >= SIXTEEN_K {
      var n := SIXTEEN_K - readoffset;
      assert bytes[..n] + bytes[n..] == bytes;
      assert first + bytes[..n] == file[..SIXTEEN_K];
      assert first + bytes == file[..to];
      assert first + bytes[..n] + bytes[n..] == first + (bytes[..n] + bytes[n..]);
    } else {
      assert first + bytes == file[..to];
    }
  }

  /** When `Fill` does anything, and up to where; what it does not read there it blanks. */
  predicate Fills(bs: nat, fs: nat, tail: nat, readoffset: nat, longfill: bool) {
    readoffset < fs && (tail < bs || longfill)
  }

  function FillTarget(bs: nat, tail: nat): nat {
    if tail == 0 then bs else 2 * bs
  }

  /** How much `Fill` reads. */
  function FillWant(bs: nat, fs: nat, tail: nat, readoffset: nat, longfill: bool): (want: nat)
    requires tail <= 2 * bs
    ensures tail + want <= 2 * bs && (readoffset <= fs ==> readoffset + want <= fs)
  {
    if Fills(bs, fs, tail, readoffset, longfill) then Min(fs - readoffset, FillTarget(bs, tail) - tail) else 0
  }

  /** Once a block is held, a short fill does nothing; `Jump` relies on this when it hashes the block meanwhile. */
  lemma FillEnough(bs: nat, fs: nat, tail: nat, readoffset: nat, longfill: bool)
    requires tail <= 2 * bs && readoffset <= fs
    ensures var want := FillWant(bs, fs, tail, readoffset, longfill);
            && (tail >= bs && !longfill ==> want == 0)
            && (readoffset + want == fs || tail + want >= bs)
            && (longfill && tail > 0 ==> readoffset + want == fs || tail + want == 2 * bs)
  {}

  class FileCheckSummer<B(!new), S(==), D> {
    const diskfile: DiskFile<B>
    const blocksize: nat
    const scheme: Scheme<B, S, D>
    const filesize: nat
    ghost const file: seq<B>
    const buffer: array<B>

    var currentoffset: nat
    var outpointer: nat
    var inpointer: nat
    var tailpointer: nat
    var readoffset: nat
    var checksum: S
    var blockhash: D
    var hasblockhash: bool
    var contextfull: seq<B>
    var context16k: seq<B>
    var hasher: HasherInput?<B>

    /** What never changes. */
    ghost predicate Fixed()
      reads diskfile
    {
      Sized() && scheme.Slides(blocksize)
    }

    ghost predicate Sized()
      reads diskfile
    {
      diskfile.content == file && filesize == |file| && blocksize > 0 && buffer.Length == 2 * blocksize
    }

    /** What is in the buffer. */
    ghost predicate Loaded()
      reads this`tailpointer, this`readoffset, buffer
    {
      tailpointer <= readoffset <= |file| && HoldsFile(buffer[..], file, tailpointer, readoffset - tailpointer)
    }

    /** The buffer starts as whatever the memory holds. */
    constructor (diskfile: DiskFile<B>, blocksize: nat, scheme: Scheme<B, S, D>, memory: nat -> B)
      requires blocksize > 0 && scheme.Slides(blocksize)
      ensures this.diskfile == diskfile && this.blocksize == blocksize && this.scheme == scheme
      ensures file == diskfile.content
      ensures Fixed() && fresh(buffer) && contextfull == context16k == [] && hasher == null && !hasblockhash
    {
      this.diskfile, this.blocksize, this.scheme := diskfile, blocksize, scheme;
      filesize, file := |diskfile.content|, diskfile.content;
      buffer := new B[2 * blocksize](i requires 0 <= i => memory(i));
      currentoffset, outpointer, inpointer, tailpointer, readoffset := 0, 0, 0, 0, 0;
      checksum, blockhash, hasblockhash := scheme.none, scheme.md5([]), false;
      contextfull, context16k, hasher := [], [], null;
    }

    method UpdateHashes(offset: nat, bytes: seq<B>)
      modifies this`contextfull, this`context16k
      ensures context16k == FirstAfter(old(context16k), offset, bytes)
      ensures contextfull == FullAfter(old(contextfull), old(context16k), hasher != null, offset, bytes)
    {
      if offset >= SIXTEEN_K {
        if hasher == null { contextfull := contextfull + bytes; }
      } else if offset + |bytes| >= SIXTEEN_K {
        var first := SIXTEEN_K - offset;
        context16k := context16k + bytes[..first];
        if hasher == null {
          contextfull := context16k;
          if offset + |bytes| > SIXTEEN_K { contextfull := contextfull + bytes[first..]; }
        }
      } else {
        context16k := context16k + bytes;
      }
    }

    /** Read on, up to one block or, on demand, two. */
    method Fill(longfill: bool) returns (ok: bool)
      requires Sized() && Loaded() && tailpointer <= 2 * blocksize
      requires Fed(file, readoffset, hasher != null, contextfull, context16k)
      modifies buffer, this`readoffset, this`tailpointer, this`contextfull, this`context16k
      ensures ok && Loaded()
      ensures Fed(file, readoffset, hasher != null, contextfull, context16k)
      ensures var want := FillWant(blocksize, filesize, old(tailpointer), old(readoffset), longfill);
              readoffset == old(readoffset) + want && tailpointer == old(tailpointer) + want
      ensures Fills(blocksize, filesize, old(tailpointer), old(readoffset), longfill) ==>
                forall i :: tailpointer <= i < FillTarget(blocksize, old(tailpointer)) ==> buffer[i] == scheme.blank
      ensures forall i :: 0 <= i < buffer.Length && !InFill(i, old(tailpointer), old(readoffset), longfill) ==>
                buffer[i] == old(buffer[i])
    {
      ok := true;
      if readoffset >= filesize || (tailpointer >= blocksize && !longfill) {
        return;
      }
      var target := if tailpointer == 0 then blocksize else 2 * blocksize;
      var want := Min(filesize - readoffset, target - tailpointer);
      if want > 0 {
        ReadMore(want);
      }
      if target > tailpointer {
        BlankRest(target);
      }
    }

    /** `Fill` may change this place of the buffer. */
    predicate InFill(i: int, tail: nat, offset: nat, longfill: bool) {
      Fills(blocksize, filesize, tail, offset, longfill) && tail <= i < FillTarget(blocksize, tail)
    }

    /** Blank the buffer from the tail up to `target`. */
    method BlankRest(target: nat)
      requires Sized() && Loaded() && tailpointer <= target <= 2 * blocksize
      modifies buffer
      ensures Loaded() && forall i :: tailpointer <= i < target ==> buffer[i] == scheme.blank
      ensures forall i :: 0 <= i < buffer.Length && !(tailpointer <= i < target) ==> buffer[i] == old(buffer[i])
    {
      ghost var before, part := buffer[..], scheme.Zeros(target - tailpointer);
      Blank(buffer, tailpointer, target - tailpointer, scheme.blank);
      HoldsUnderBlank(before, buffer[..], file, tailpointer, readoffset - tailpointer, tailpointer, part);
    }

    method ReadMore(want: nat)
      requires Sized() && Loaded() && 0 < want && readoffset + want <= filesize && tailpointer + want <= 2 * blocksize
      requires Fed(file, readoffset, hasher != null, contextfull, context16k)
      modifies buffer, this`readoffset, this`tailpointer, this`contextfull, this`context16k
      ensures Loaded() && Fed(file, readoffset, hasher != null, contextfull, context16k)
      ensures readoffset == old(readoffset) + want && tailpointer == old(tailpointer) + want
      ensures forall i :: 0 <= i < buffer.Length && !(old(tailpointer) <= i < tailpointer) ==>
                buffer[i] == old(buffer[i])
    {
      ReadHeld(diskfile, buffer, readoffset, tailpointer, want);
      HashRead(buffer[tailpointer..tailpointer + want]);
      readoffset := readoffset + want;
      tailpointer := tailpointer + want;
    }

    /** Feed the contexts with what follows in the file. */
    method HashRead(bytes: seq<B>)
      requires readoffset + |bytes| <= |file| && bytes == file[readoffset..readoffset + |bytes|]
      requires Fed(file, readoffset, hasher != null, contextfull, context16k)
      modifies this`contextfull, this`context16k
      ensures Fed(file, readoffset + |bytes|, hasher != null, contextfull, context16k)
    {
      FedMore(file, readoffset, |bytes|, hasher != null, contextfull, context16k);
      UpdateHashes(readoffset, bytes);
    }

    /** The pointers agree with the offsets. */
    ghost predicate Placed()
      reads this`currentoffset, this`outpointer, this`inpointer, this`tailpointer, this`readoffset
    {
      && Positions(blocksize, filesize, currentoffset, outpointer, tailpointer, readoffset)
      && (currentoffset < filesize ==> inpointer == outpointer + blocksize)
    }

    /** The contexts of the whole file have been fed what has been read. */
    ghost predicate Hashed()
      requires readoffset <= |file|
      reads this`currentoffset, this`readoffset, this`contextfull, this`context16k, this`hasher, hasher
    {
      && Fed(file, readoffset, hasher != null, contextfull, context16k)
      && (hasher != null ==> hasher.block == [] && hasher.file == file[..Min(|file|, currentoffset + blocksize)])
    }

    /** The bytes of the window. Behind the tail they are what the buffer happens to hold. */
    ghost function View(): (w: seq<B>)
      requires outpointer + blocksize <= buffer.Length
      reads this`outpointer, buffer
      ensures |w| == blocksize
    {
      buffer[outpointer..outpointer + blocksize]
    }

    /** Checksum and hash are those of the window. */
    ghost predicate Summed()
      reads this`currentoffset, this`outpointer, this`checksum, this`hasblockhash, this`blockhash, buffer
    {
      currentoffset < filesize ==> SummedView() && (hasblockhash ==> blockhash == scheme.md5(View()))
    }

    ghost predicate SummedView()
      reads this`outpointer, this`checksum, buffer
    {
      outpointer + blocksize <= buffer.Length && checksum == scheme.checksum(View())
    }

    /** While the multi-hash is in use, the window is at the start of the buffer, and behind the tail it is blank. */
    ghost predicate InStep()
      reads this`currentoffset, this`outpointer, this`tailpointer, this`hasher, buffer
    {
      hasher != null && currentoffset < filesize ==>
        && outpointer == 0 && tailpointer <= blocksize <= buffer.Length
        && forall i :: tailpointer <= i < blocksize ==> buffer[i] == scheme.blank
    }

    ghost predicate Valid()
      reads this, buffer, diskfile, hasher
    {
      Fixed() && Placed() && Loaded() && Hashed() && Summed() && InStep()
    }

    /** Hand the file hash over from the multi-hash to the context for single updates. */
    method StopHasher()
      requires Sized() && Placed() && Loaded() && Hashed() && currentoffset < filesize
      modifies this`contextfull, this`hasher
      ensures hasher == null && Hashed()
    {
      if hasher == null {
        return;
      }
      contextfull := hasher.file;
      hasher := null;
      if tailpointer > inpointer {
        HeldSlice(buffer[..], file, tailpointer, readoffset - tailpointer, inpointer, tailpointer - inpointer);
        PrefixOf(file, currentoffset + blocksize, readoffset);
        contextfull := contextfull + buffer[inpointer..tailpointer];
      }
    }

    /** The block in the buffer, cut at the end of the file and padded with zeros. */
    ghost function Block(): (b: seq<B>)
      requires currentoffset <= filesize && buffer.Length == 2 * blocksize
      reads this, buffer
      ensures |b| == blocksize
    {
      var n := Min(blocksize, filesize - currentoffset);
      buffer[..n] + scheme.Zeros(blocksize - n)
    }

    method ComputeCurrentChecksum(domd5: bool)
      requires Sized() && currentoffset <= filesize && (hasher != null ==> hasher.block == [])
      modifies this`checksum, this`blockhash, this`hasblockhash, hasher
      ensures hasher != null ==>
                && hasher.block == []
                && hasher.file == old(hasher.file) + buffer[..Min(blocksize, filesize - currentoffset)]
                && SumsOf(Block()) && hasblockhash
      ensures hasher == null ==>
                && checksum == scheme.checksum(buffer[..blocksize]) && hasblockhash == (domd5 || old(hasblockhash))
                && (if domd5 then blockhash == scheme.md5(buffer[..blocksize]) else blockhash == old(blockhash))
    {
      if hasher != null {
        SumWithHasher();
      } else {
        SumAlone(domd5);
      }
    }

    /** Checksum and cached hash are those of these bytes. */
    ghost predicate SumsOf(bytes: seq<B>)
      reads this`checksum, this`blockhash
    {
      checksum == scheme.checksum(bytes) && blockhash == scheme.md5(bytes)
    }

    method SumWithHasher()
      requires Sized() && currentoffset <= filesize && hasher != null && hasher.block == []
      modifies this`checksum, this`blockhash, this`hasblockhash, hasher
      ensures hasher.block == [] && hasher.file == old(hasher.file) + buffer[..Min(blocksize, filesize - currentoffset)]
      ensures SumsOf(Block()) && hasblockhash
    {
      var block := FeedBlock();
      SumBytes(block);
      hasblockhash := true;
    }

    /** Feed the multi-hash with the current block. */
    method FeedBlock() returns (block: seq<B>)
      requires Sized() && currentoffset <= filesize && hasher != null && hasher.block == []
      modifies hasher
      ensures block == Block()
      ensures hasher.block == [] && hasher.file == old(hasher.file) + buffer[..Min(blocksize, filesize - currentoffset)]
    {
      var blocklen := Min(blocksize, filesize - currentoffset);
      hasher.Update(buffer[..blocklen]);
      block := hasher.GetBlock(scheme.Zeros(blocksize - blocklen));
    }

    method SumBytes(bytes: seq<B>)
      modifies this`checksum, this`blockhash
      ensures SumsOf(bytes)
    {
      checksum := scheme.checksum(bytes);
      blockhash := scheme.md5(bytes);
    }

    method SumAlone(domd5: bool)
      requires Sized()
      modifies this`checksum, this`blockhash, this`hasblockhash
      ensures checksum == scheme.checksum(buffer[..blocksize]) && hasblockhash == (domd5 || old(hasblockhash))
      ensures if domd5 then blockhash == scheme.md5(buffer[..blocksize]) else blockhash == old(blockhash)
    {
      if domd5 {
        SumBytes(buffer[..blocksize]);
        hasblockhash := true;
      } else {
        checksum := scheme.checksum(buffer[..blocksize]);
      }
    }

    /** The window starts at the start of the buffer and the multi-hash has been fed everything before it. */
    ghost predicate Ready()
      reads this, buffer, hasher
    {
      && outpointer == 0 && inpointer == blocksize && currentoffset <= filesize
      && Placed() && Loaded() && readoffset <= |file| && InStep()
      && Fed(file, readoffset, hasher != null, contextfull, context16k)
      && (hasher != null ==> hasher.block == [] && currentoffset <= |file| && hasher.file == file[..currentoffset])
    }

    lemma ReadyBlock()
      requires Sized() && Ready()
      ensures var n := Min(blocksize, filesize - currentoffset); buffer[..n] == file[currentoffset..currentoffset + n]
      ensures hasher != null && currentoffset < filesize ==> Block() == View()
    {
      var n := Min(blocksize, filesize - currentoffset);
      HeldSlice(buffer[..], file, tailpointer, readoffset - tailpointer, 0, n);
    }

    /** Sum the block at the start of the buffer. */
    method SumReady(domd5: bool)
      requires Fixed() && Ready() && (hasher == null && !domd5 ==> !hasblockhash)
      modifies this`checksum, this`blockhash, this`hasblockhash, hasher
      ensures Hashed() && Summed() && InStep()
    {
      if hasher == null {
        SumOutOfSync(domd5);
      } else {
        SumInSync(domd5);
      }
    }

    method SumOutOfSync(domd5: bool)
      requires Fixed() && Ready() && hasher == null && (!domd5 ==> !hasblockhash)
      modifies this`checksum, this`blockhash, this`hasblockhash
      ensures Hashed() && Summed()
    {
      ReadyBlock();
      ComputeCurrentChecksum(domd5);
    }

    method SumInSync(domd5: bool)
      requires Fixed() && Ready() && hasher != null
      modifies this`checksum, this`blockhash, this`hasblockhash, hasher
      ensures Hashed() && Summed() && InStep()
    {
      ReadyBlock();
      ghost var n, fed := Min(blocksize, filesize - currentoffset), hasher.file;
      ComputeCurrentChecksum(domd5);
      CaughtUp(file, fed, hasher.file, currentoffset, n);
    }

    /** Start reading at the beginning of the file. */
    method Start() returns (ok: bool)
      requires Fixed() && contextfull == context16k == [] && !hasblockhash
      modifies this, buffer
      ensures ok && Valid() && currentoffset == 0 && fresh(hasher)
    {
      Reset();
      ok := FillReady();
      SumReady(true);
    }

    method Reset()
      requires Sized() && contextfull == context16k == []
      modifies this
      ensures currentoffset == readoffset == tailpointer == outpointer == 0 && inpointer == blocksize
      ensures contextfull == context16k == [] && hasblockhash == old(hasblockhash) && Caught() && Loaded()
      ensures fresh(hasher)
    {
      currentoffset, readoffset := 0, 0;
      tailpointer, outpointer, inpointer := 0, 0, blocksize;
      hasher := new HasherInput<B>();
    }

    /** Make sure that a block is at hand. */
    method FillReady() returns (ok: bool)
      requires Sized() && Loaded() && Caught()
      requires currentoffset <= filesize && outpointer == 0 && inpointer == blocksize
      requires tailpointer <= 2 * blocksize && currentoffset + tailpointer == readoffset
      requires hasher != null || currentoffset == filesize ==> tailpointer == 0
      modifies buffer, this`readoffset, this`tailpointer, this`contextfull, this`context16k
      ensures ok && Ready()
    {
      FillEnough(blocksize, filesize, tailpointer, readoffset, false);
      ok := Fill(false);
    }

    /** At the end of the file there is no window. */
    method GoToEnd()
      requires Sized() && readoffset == filesize
      modifies this`currentoffset, this`tailpointer, this`outpointer, this`checksum, buffer
      ensures currentoffset == filesize && Placed() && Loaded() && Summed()
    {
      currentoffset := filesize;
      tailpointer, outpointer := 0, 0;
      Blank(buffer, 0, blocksize, scheme.blank);
      checksum := scheme.none;
      HoldsNothing(buffer[..], file, readoffset);
    }

    /** The offset has moved on by one, the pointers have not. What there is of the next window has been read. */
    ghost predicate Stepping()
      reads this, buffer
    {
      && 0 < currentoffset < filesize
      && Positions(blocksize, filesize, currentoffset - 1, outpointer, tailpointer, readoffset)
      && inpointer == outpointer + blocksize && Min(filesize, currentoffset + blocksize) <= readoffset
      && Loaded()
    }

    /** Slide the checksum by the byte after the window and the first byte of it. */
    method SlideChecksum()
      requires Fixed() && SummedView() && outpointer < blocksize && inpointer == outpointer + blocksize
      modifies this`checksum
      ensures checksum == scheme.checksum(Stretch(buffer[..], outpointer + 1, blocksize))
    {
      var inch, outch := buffer[inpointer], buffer[outpointer];
      SlideStretch(scheme, buffer[..], outpointer, blocksize, inch, outch);
      assert Stretch(buffer[..], outpointer, blocksize) == View();
      checksum := scheme.slide(checksum, inch, outch);
    }

    /** Move the window back to the start of the buffer when it has reached the second half. */
    method WrapWindow()
      requires Sized() && Loaded() && blocksize <= tailpointer <= 2 * blocksize
      modifies this`inpointer, this`outpointer, this`tailpointer, buffer
      ensures Loaded() && outpointer == 0 && inpointer == blocksize && tailpointer == old(tailpointer) - blocksize
      ensures View() == old(Stretch(buffer[..], blocksize, blocksize))
    {
      ghost var tail, base, second := tailpointer, readoffset - tailpointer, Stretch(buffer[..], blocksize, blocksize);
      assert second == buffer[blocksize..blocksize + blocksize];
      inpointer, outpointer, tailpointer := blocksize, 0, tailpointer - blocksize;
      assert readoffset - tailpointer == base + blocksize;
      Shift(buffer, blocksize, blocksize, file, tail, base);
      assert View() == buffer[..blocksize] == second;
    }

    /** Move both pointers on by one. */
    method Advance()
      requires Sized() && Stepping()
      modifies this`inpointer, this`outpointer, this`tailpointer, buffer
      ensures Placed() && Loaded() && View() == old(Stretch(buffer[..], outpointer + 1, blocksize))
    {
      inpointer, outpointer := inpointer + 1, outpointer + 1;
      if outpointer < blocksize {
        assert View() == Stretch(buffer[..], outpointer, blocksize);
        return;
      }
      WrapWindow();
    }

    /** Slide the window by one byte. */
    method Slide()
      requires Fixed() && Stepping() && SummedView()
      modifies this`inpointer, this`outpointer, this`tailpointer, this`checksum, buffer
      ensures Placed() && Loaded() && SummedView()
    {
      SlideChecksum();
      Advance();
    }

    /** Read on when the window would run into the tail. */
    method FillAhead()
      requires Sized() && 0 < currentoffset < filesize && Loaded() && inpointer == outpointer + blocksize
      requires Positions(blocksize, filesize, currentoffset - 1, outpointer, tailpointer, readoffset)
      requires Fed(file, readoffset, hasher != null, contextfull, context16k)
      modifies buffer, this`readoffset, this`tailpointer, this`contextfull, this`context16k
      ensures Positions(blocksize, filesize, currentoffset - 1, outpointer, tailpointer, readoffset)
      ensures Loaded() && Min(filesize, currentoffset + blocksize) <= readoffset
      ensures Fed(file, readoffset, hasher != null, contextfull, context16k)
      ensures View() == old(View())
    {
      if tailpointer <= inpointer {
        FillEnough(blocksize, filesize, tailpointer, readoffset, true);
        var ok := Fill(true);
      }
    }

    /** Everything is still about the offset one byte back, and hashing block by block is over. */
    ghost predicate Behind()
      reads this, buffer, hasher
    {
      && hasher == null && !hasblockhash && 0 < currentoffset < filesize && inpointer == outpointer + blocksize
      && Positions(blocksize, filesize, currentoffset - 1, outpointer, tailpointer, readoffset)
      && Loaded() && readoffset <= |file| && Fed(file, readoffset, false, contextfull, context16k) && SummedView()
    }

    method CatchUp()
      requires Fixed() && Behind()
      modifies this`outpointer, this`inpointer, this`tailpointer, this`readoffset, this`checksum
      modifies this`contextfull, this`context16k, buffer
      ensures Placed() && Loaded() && Hashed() && Summed()
    {
      FillAhead();
      Slide();
    }

    /** Move the offset on by one. File hash and block hash go separate ways. */
    method LeaveByte()
      requires Valid() && currentoffset < filesize
      modifies this`currentoffset, this`hasblockhash, this`contextfull, this`hasher
      ensures currentoffset == old(currentoffset) + 1 && hasher == null && !hasblockhash
      ensures if currentoffset < filesize then Behind() else readoffset == filesize && Hashed()
    {
      StopHasher();
      hasblockhash := false;
      currentoffset := currentoffset + 1;
    }

    /** Step forward one byte. */
    method Step() returns (ok: bool)
      requires Valid()
      modifies this, buffer
      ensures Valid() && ok == (old(currentoffset) < filesize)
      ensures currentoffset == if ok then old(currentoffset) + 1 else old(currentoffset)
      ensures hasher == null || hasher == old(hasher)
    {
      if currentoffset >= filesize {
        return false;
      }
      LeaveByte();
      if currentoffset >= filesize {
        GoToEnd();
      } else {
        CatchUp();
      }
      ok := true;
    }

    /** Drop the first `distance` bytes of the window and move what is left to the start of the buffer. */
    method Discard(distance: nat)
      requires Sized() && Loaded() && outpointer + distance <= tailpointer <= 2 * blocksize
      modifies this`outpointer, this`inpointer, this`tailpointer, buffer
      ensures Loaded() && outpointer == 0 && inpointer == blocksize
      ensures tailpointer == old(tailpointer) - old(outpointer) - distance
    {
      outpointer := outpointer + distance;
      var keep := tailpointer - outpointer;
      Shift(buffer, outpointer, keep, file, tailpointer, readoffset - tailpointer);
      tailpointer := keep;
      outpointer, inpointer := 0, blocksize;
    }

    /** The file hash has taken in exactly what lies before the window. */
    ghost predicate Caught()
      requires readoffset <= |file|
      reads this`currentoffset, this`readoffset, this`contextfull, this`context16k, this`hasher, hasher
    {
      && Fed(file, readoffset, hasher != null, contextfull, context16k)
      && (hasher != null ==> hasher.block == [] && currentoffset <= |file| && hasher.file == file[..currentoffset])
    }

    /** Make sure that a block is at hand, and sum it. */
    method FillAndSum(domd5: bool) returns (ok: bool)
      requires Fixed() && Loaded() && Caught() && (hasher == null && !domd5 ==> !hasblockhash)
      requires currentoffset < filesize && outpointer == 0 && inpointer == blocksize
      requires tailpointer <= 2 * blocksize && currentoffset + tailpointer == readoffset
      requires hasher != null ==> tailpointer == 0
      modifies buffer, this`readoffset, this`tailpointer, this`contextfull, this`context16k
      modifies this`checksum, this`blockhash, this`hasblockhash, hasher
      ensures ok && Valid()
    {
      ok := FillReady();
      SumReady(domd5);
    }

    /** Move the offset on. After less than a block, file hash and block hash go separate ways. */
    method LeaveWindow(d: nat)
      requires Valid() && 0 < d <= blocksize && currentoffset < filesize
      modifies this`currentoffset, this`hasblockhash, this`contextfull, this`hasher
      ensures currentoffset == old(currentoffset) + d && !hasblockhash
      ensures currentoffset < filesize ==> Caught() && (d != blocksize ==> hasher == null)
      ensures currentoffset < filesize && hasher != null ==> outpointer == 0 && tailpointer <= blocksize
      ensures hasher == null || hasher == old(hasher)
      ensures d == blocksize ==> hasher == old(hasher)
      ensures currentoffset >= filesize ==> readoffset == filesize && Hashed()
    {
      if d != blocksize && currentoffset + d < filesize {
        StopHasher();
      }
      hasblockhash := false;
      currentoffset := currentoffset + d;
    }

    /** Jump ahead, by one block at most. */
    method Jump(distance: nat) returns (ok: bool)
      requires Valid()
      modifies this, buffer, hasher
      ensures Valid() && ok == (old(currentoffset) < filesize && distance > 0)
      ensures currentoffset == if ok then Min(filesize, old(currentoffset) + Min(distance, blocksize))
                               else old(currentoffset)
      ensures hasher == null || hasher == old(hasher)
      ensures distance >= blocksize > 1 ==> hasher == old(hasher)
    {
      if currentoffset >= filesize || distance == 0 {
        return false;
      }
      if distance == 1 {
        ok := Step();
        return;
      }
      JumpFar(Min(distance, blocksize));
      ok := true;
    }

    method JumpFar(d: nat)
      requires Valid() && 0 < d <= blocksize && currentoffset < filesize
      modifies this, buffer, hasher
      ensures Valid() && currentoffset == Min(filesize, old(currentoffset) + d)
      ensures hasher == null || hasher == old(hasher)
      ensures d == blocksize ==> hasher == old(hasher)
    {
      LeaveWindow(d);
      if currentoffset >= filesize {
        GoToEnd();
        return;
      }
      Discard(d);
      // A full block that is already at hand is summed while `Fill` runs; `Fill` then has nothing to do.
      var ok := FillAndSum(d == blocksize);
    }

    /** How much of a block is left. */
    function BlockLength(): nat
      requires currentoffset <= filesize
      reads this`currentoffset
    {
      Min(blocksize, filesize - currentoffset)
    }

    predicate ShortBlock()
      requires currentoffset <= filesize
      reads this`currentoffset
    {
      BlockLength() < blocksize
    }

    /** The window begins with what there is of the file, and is padded with zeros while the multi-hash is in use. */
    lemma ViewBegins()
      requires Valid() && currentoffset < filesize
      ensures Begins(View(), file, blocksize, currentoffset)
      ensures !ShortBlock() || hasher != null ==> View() == BlockBytes(scheme, file, blocksize, currentoffset)
    {
      HeldBegins(buffer[..], file, tailpointer, readoffset - tailpointer, outpointer, blocksize, currentoffset);
      assert buffer[..][outpointer..outpointer + blocksize] == View();
      if !ShortBlock() || hasher != null { PaddedBegins(scheme, View(), file, blocksize, currentoffset); }
    }

    /** The checksum that is kept is that of the window. */
    function Checksum(): (crc: S)
      requires Valid()
      reads this, buffer, diskfile, hasher
      ensures currentoffset < filesize ==>
                crc == scheme.checksum(View()) && Begins(View(), file, blocksize, currentoffset)
      ensures currentoffset < filesize && (!ShortBlock() || hasher != null) ==>
                crc == scheme.checksum(BlockBytes(scheme, file, blocksize, currentoffset))
    {
      assert currentoffset < filesize ==>
          && Begins(View(), file, blocksize, currentoffset)
          && (!ShortBlock() || hasher != null ==> View() == BlockBytes(scheme, file, blocksize, currentoffset)) by {
        if currentoffset < filesize { ViewBegins(); }
      }
      checksum
    }

    /** The hash of the window, computed now unless it has been already. */
    method Hash() returns (hash: D)
      requires Valid() && currentoffset < filesize
      ensures hash == scheme.md5(View()) && Begins(View(), file, blocksize, currentoffset)
      ensures !ShortBlock() || hasher != null ==>
                hash == scheme.md5(BlockBytes(scheme, file, blocksize, currentoffset))
    {
      ViewBegins();
      if hasblockhash {
        return blockhash;
      }
      hash := scheme.md5(buffer[outpointer..outpointer + blocksize]);
    }

    /** The first bytes of the window. */
    method FirstBytes(length: nat) returns (bytes: seq<B>)
      requires Valid() && currentoffset < filesize && length <= BlockLength()
      ensures bytes == Stretch(file, currentoffset, length)
    {
      HeldSlice(buffer[..], file, tailpointer, readoffset - tailpointer, outpointer, length);
      bytes := buffer[outpointer..outpointer + length];
    }

    /** The hash of the first bytes of the window, padded with zeros to a block. */
    method ShortHash(length: nat) returns (hash: D)
      requires Valid() && currentoffset < filesize && length <= BlockLength()
      ensures hash == scheme.md5(Stretch(file, currentoffset, length) + scheme.Zeros(blocksize - length))
    {
      var bytes := FirstBytes(length);
      if blocksize > length { bytes := bytes + scheme.Zeros(blocksize - length); }
      assert blocksize == length ==> bytes + scheme.Zeros(0) == bytes;
      hash := scheme.md5(bytes);
    }

    /** At the end of the file, however it was reached, the reported hashes are those of the whole file
        and of its first 16k. */
    method GetFileHashes() returns (hashfull: D, hash16k: D)
      requires Valid() && currentoffset == filesize
      ensures hashfull == scheme.md5(file)
      ensures hash16k == scheme.md5(file[..Min(SIXTEEN_K, filesize)])
    {
      assert file[..|file|] == file;
      hash16k := scheme.md5(context16k);
      if filesize < SIXTEEN_K {
        hashfull := hash16k;
      } else if hasher != null {
        hashfull := scheme.md5(hasher.file);
      } else {
        hashfull := scheme.md5(contextfull);
      }
    }
  }

  /** The law of sliding on a stretch. */
  lemma SlideStretch<B(!new), S, D>(scheme: Scheme<B, S, D>, file: seq<B>, at: nat, n: nat, inch: B, outch: B)
    requires n > 0 && scheme.Slides(n) && at + n < |file| && inch == file[at + n] && outch == file[at]
    ensures scheme.slide(scheme.checksum(Stretch(file, at, n)), inch, outch)
         == scheme.checksum(Stretch(file, at + 1, n))
  {
    var rest := file[at + 1..at + n];
    assert Stretch(file, at, n) == [outch] + rest;
    assert Stretch(file, at + 1, n) == rest + [inch];
    assert scheme.SlideLaw(outch, rest, inch);
  }

  lemma PrefixOf<T>(file: seq<T>, n: nat, m: nat)
    requires n <= m <= |file|
    ensures file[..n] + file[n..m] == file[..m]
  {}

  lemma CaughtUp<T>(file: seq<T>, before: seq<T>, after: seq<T>, current: nat, n: nat)
    requires current + n <= |file| && before == file[..current] && after == before + file[current..current + n]
    ensures after == file[..current + n]
  {}

  /** Read on into a buffer that holds a stretch of the file. */
  method ReadHeld<B>(diskfile: DiskFile<B>, buffer: array<B>, readoffset: nat, tail: nat, want: nat)
    requires 0 < want && tail + want <= buffer.Length && tail <= readoffset && readoffset + want <= |diskfile.content|
    requires HoldsFile(buffer[..], diskfile.content, tail, readoffset - tail)
    modifies buffer
    ensures HoldsFile(buffer[..], diskfile.content, tail + want, readoffset - tail)
    ensures buffer[tail..tail + want] == diskfile.content[readoffset..readoffset + want]
    ensures forall i :: 0 <= i < buffer.Length && !(tail <= i < tail + want) ==> buffer[i] == old(buffer[i])
  {
    ghost var before, base := buffer[..], readoffset - tail;
    var ok := diskfile.Read(readoffset, buffer, tail, want);
    HoldsMore(before, buffer[..], diskfile.content, tail, base, want);
    HeldSlice(buffer[..], diskfile.content, tail + want, base, tail, want);
  }
}
