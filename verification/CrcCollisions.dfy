/** Blocks that differ although their CRC-32 does not, and a scan that takes one for the other. */
module CrcCollisions {
  import opened Words
  import opened HexWords
  import opened HexBits
  import opened CrcField
  import opened CrcSquares
  import opened CrcPeriod
  import opened Feeding
  import opened Crc
  import opened CrcWindow
  import opened FileCheckSummer
  import opened StaleMatches

  const B0: u8 := [true, false, false, false, false, false, true, false]  // 0x41
  const B1: u8 := [false, true, true, false, false, false, false, false]  // 0x06
  const B2: u8 := [true, false, false, false, true, true, true, false]  // 0x71
  const B3: u8 := [true, true, false, true, true, false, true, true]  // 0xDB
  const B4: u8 := [true, false, false, false, false, false, false, false]  // 0x01

  /** The polynomial as five bytes: 41 06 71 DB 01. */
  const POLYNOMIAL: seq<u8> := [B0, B1, B2, B3, B4]

  /** Eight steps on a hexadecimal value. */
  function Step8Hex(v: bv32): bv32 {
    StepHex(StepHex(StepHex(StepHex(StepHex(StepHex(StepHex(StepHex(v))))))))
  }

  lemma Steps8Is(v: bv32, w: u32)
    requires Is(v, w)
    ensures Is(Step8Hex(v), Steps(w, 8))
  {
    FourSteps(v, w);
    FourSteps(StepHex(StepHex(StepHex(StepHex(v)))), Steps(w, 4));
    StepsAdd(w, 4, 4);
  }

  lemma FourSteps(v: bv32, w: u32)
    requires Is(v, w)
    ensures Is(StepHex(StepHex(StepHex(StepHex(v)))), Steps(w, 4))
  {
    OneStep(v, w, 0, w);
    OneStep(StepHex(v), w, 1, Steps(w, 1));
    OneStep(StepHex(StepHex(v)), w, 2, Steps(w, 2));
    OneStep(StepHex(StepHex(StepHex(v))), w, 3, Steps(w, 3));
  }

  lemma OneStep(v: bv32, w: u32, n: nat, x: u32)
    requires Steps(w, n) == x && Is(v, x)
    ensures Is(StepHex(v), Steps(w, n + 1))
  {
    StepIs(v, x);
  }

  /** One byte into the register. */
  lemma ByteFed(v: bv32, w: u32, byte: bv32, b: u8, after: bv32)
    requires Is(v, w) && Is(byte, Embed(b)) && Step8Hex(v ^ byte) == after
    ensures Is(after, FeedOne(Ring().r, w, Embed(b)))
  {
    XorIs(v, byte, w, Embed(b));
    Steps8Is(v ^ byte, Xor(w, Embed(b)));
  }

  /** The register after the first `n` bytes of the polynomial. */
  function After(n: nat): u32
    requires n <= 5
  {
    Update(Zeros(32), POLYNOMIAL[..n])
  }

  lemma NextByte(n: nat, v: bv32, byte: bv32, b: u8, after: bv32)
    requires n < 5 && b == POLYNOMIAL[n] && Is(v, After(n)) && Is(byte, Embed(b)) && Step8Hex(v ^ byte) == after
    ensures Is(after, After(n + 1))
  {
    UpdateLast(Zeros(32), POLYNOMIAL, n);
    ByteFed(v, After(n), byte, b, after);
  }

  lemma BytesAre()
    ensures Is(0x41, Embed(B0))
    ensures Is(0x6, Embed(B1))
    ensures Is(0x71, Embed(B2))
    ensures Is(0xDB, Embed(B3))
    ensures Is(0x1, Embed(B4))
  {}

  lemma StepsAre()
    ensures Step8Hex(0x0 ^ 0x41) == 0x1DB7106
    ensures Step8Hex(0x1DB7106 ^ 0x6) == 0x1DB71
    ensures Step8Hex(0x1DB71 ^ 0x71) == 0x1DB
    ensures Step8Hex(0x1DB ^ 0xDB) == 0x1
    ensures Step8Hex(0x1 ^ 0x1) == 0x0
  {}

  // `n` is zero; as a variable it keeps the sums from being unrolled.

  lemma NoBytesYet(n: nat)
    requires n == 0
    ensures Is(0, After(n)) && Is(0, Zeros(32))
  {
    OneIs();
    assert POLYNOMIAL[..n] == [];
  }

  lemma ThreeBytes(n: nat)
    requires n == 0
    ensures Is(0x1DB, After(n + 3))
  {
    NoBytesYet(n);
    BytesAre();
    StepsAre();
    NextByte(n, 0x0, 0x41, B0, 0x1DB7106);
    NextByte(n + 1, 0x1DB7106, 0x6, B1, 0x1DB71);
    NextByte(n + 2, 0x1DB71, 0x71, B2, 0x1DB);
  }

  lemma FiveBytes(n: nat)
    requires n == 0
    ensures Is(0, After(n + 5))
  {
    ThreeBytes(n);
    BytesAre();
    StepsAre();
    NextByte(n + 3, 0x1DB, 0xDB, B3, 0x1);
    NextByte(n + 4, 0x1, 0x1, B4, 0x0);
  }

  /** The polynomial leaves nothing in an empty register. */
  lemma PolynomialVanishes(n: nat)
    requires n == 0
    ensures Update(Zeros(32), POLYNOMIAL) == Zeros(32)
  {
    FiveBytes(n);
    NoBytesYet(n);
    assert POLYNOMIAL[..n + 5] == POLYNOMIAL;
    SameWord(0, After(n + 5), Zeros(32));
  }

  /** Whatever is in the register, the polynomial does to it what five zeros do. */
  lemma PolynomialUnseen(crc: u32)
    ensures Update(crc, POLYNOMIAL) == Update(crc, ZeroBytes(5))
  {
    PolynomialVanishes(0);
    ShiftingLawful(CCITT);
    FeedSplits(Ring().r, crc, Embeds(POLYNOMIAL));
    UpdateZeros(crc, 5);
    XorLaws(Steps(crc, 40), Steps(crc, 40), Steps(crc, 40));
  }

  /** The polynomial and zeros behind it. */
  function Invisible(n: nat): (x: seq<u8>)
    requires n >= 5
    ensures |x| == n
  {
    POLYNOMIAL + ZeroBytes(n - 5)
  }

  lemma InvisibleUnseen(crc: u32, n: nat)
    requires n >= 5
    ensures Update(crc, Invisible(n)) == Update(crc, ZeroBytes(n))
  {
    PolynomialUnseen(crc);
    UpdateConcat(crc, POLYNOMIAL, ZeroBytes(n - 5));
    UpdateConcat(crc, ZeroBytes(5), ZeroBytes(n - 5));
    assert ZeroBytes(5) + ZeroBytes(n - 5) == ZeroBytes(n);
  }

  lemma SameChecksums(n: nat)
    requires n >= 5
    ensures var x, z := Invisible(n), ZeroBytes(n); Checksum(x + z) == Checksum(z + z) == Checksum(z + x)
  {
    var x, z := Invisible(n), ZeroBytes(n);
    UpdateConcat(ONES, x, z);
    UpdateConcat(ONES, z, z);
    UpdateConcat(ONES, z, x);
    InvisibleUnseen(ONES, n);
    InvisibleUnseen(Update(ONES, z), n);
  }

  /** CRC-32 with checksums as numbers; the hash function is a parameter. */
  function Crc32Numbers(table: seq<u32>, windowtable: seq<u32>, md5: seq<u8> -> nat): Scheme<u8, nat, nat>
    requires |table| == |windowtable| == 256
  {
    Scheme<u8, nat, nat>.Scheme(
      (s: seq<u8>) => Value(Checksum(s)),
      (crc: nat, inch: u8, outch: u8) => Value(CRCSlideChar(table, ToBits(crc, 32), inch, outch, windowtable)),
      md5, Zeros(8), 0)
  }

  lemma NumbersSlide(table: seq<u32>, windowtable: seq<u32>, md5: seq<u8> -> nat, n: nat)
    requires IsTable(table) && IsWindowTable(windowtable, n)
    ensures Crc32Numbers(table, windowtable, md5).Slides(n)
  {
    var scheme := Crc32Numbers(table, windowtable, md5);
    forall first: u8, rest: seq<u8>, last: u8 | |rest| + 1 == n ensures scheme.SlideLaw(first, rest, last) {
      SlideIsRecompute(table, windowtable, first, rest, last);
      ToBitsOfValue(Checksum([first] + rest));
    }
  }

  /** The hash tells three blocks apart. */
  ghost predicate TellsApart(md5: seq<u8> -> nat, n: nat)
    requires n >= 5
  {
    var x, z := Invisible(n), ZeroBytes(n); md5(x + z) != md5(z + z) && md5(z + x) != md5(z + z)
  }

  lemma NumbersUnseen(table: seq<u32>, windowtable: seq<u32>, md5: seq<u8> -> nat, n: nat)
    requires |table| == |windowtable| == 256 && n >= 5 && TellsApart(md5, n)
    ensures Unseen(Crc32Numbers(table, windowtable, md5), Invisible(n))
  {
    SameChecksums(n);
    assert Crc32Numbers(table, windowtable, md5).Zeros(n) == ZeroBytes(n);
  }

  /** With CRC-32, any hash that tells these three blocks apart, and any block size that is a multiple of four and not
      below twelve, the scan of `StaleMatches` is misled. */
  lemma CollisionMisleads(table: seq<u32>, windowtable: seq<u32>, md5: seq<u8> -> nat, blocksize: nat)
    requires IsTable(table) && IsWindowTable(windowtable, blocksize)
    requires blocksize % 4 == 0 && blocksize >= 12 && TellsApart(md5, blocksize / 2)
    ensures var scheme, x := Crc32Numbers(table, windowtable, md5), Invisible(blocksize / 2);
            scheme.Slides(blocksize) && 2 * |x| == blocksize && TakesOneForAnother(scheme, x)
  {
    Halved(blocksize);
    NumbersSlide(table, windowtable, md5, blocksize);
    NumbersUnseen(table, windowtable, md5, blocksize / 2);
    StaleHashMisleads(Crc32Numbers(table, windowtable, md5), Invisible(blocksize / 2));
  }

  lemma Halved(n: nat)
    requires n % 4 == 0 && n >= 12
    ensures n / 2 >= 6 && 2 * |Invisible(n / 2)| == n
  {
    assert |Invisible(n / 2)| == n / 2;
  }
}
