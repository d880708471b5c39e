/** Sliding the checksum of a window along a buffer by one byte. */
module CrcWindow {
  import opened Words
  import opened Polynomials
  import opened CrcField
  import opened CrcSquares
  import opened Feeding
  import opened Crc
  import opened CrcTables
  import opened Filling

  /** What removes the byte `b` that has left a window of `window` bytes, and restarts the register one byte later. */
  ghost function WindowEntry(window: nat, b: u8): u32 {
    Xor(Steps(Embed(b), 8 * window + 8), Mask(window))
  }

  ghost function Mask(window: nat): u32 {
    Xor(ONES, Xor(Steps(ONES, 8 * window), Steps(ONES, 8 * window + 8)))
  }

  ghost predicate IsWindowTable(t: seq<u32>, window: nat) {
    && |t| == 256
    && forall b: u8 {:trigger Embed(b)} :: Entry(t, b) == WindowEntry(window, b)
  }

  /** Slide the checksum: take in `chNew`, drop `chOld`. */
  function CRCSlideChar(t: seq<u32>, crc: u32, chNew: u8, chOld: u8, windowtable: seq<u32>): u32
    requires |t| == |windowtable| == 256
  {
    var c: u32 := Xor(crc, ONES);
    Xor(Xor(ShiftDown(c, 8), Entry(t, Xor(Low(c), chNew))), Entry(windowtable, chOld))
  }

  /** Taking in one byte by table. */
  lemma TakenIn(t: seq<u32>, crc: u32, b: u8)
    requires IsTable(t)
    ensures Xor(ShiftDown(crc, 8), Entry(t, Xor(Low(crc), b))) == Xor(Steps(crc, 8), Steps(Embed(b), 8))
  {
    TableStep(t, crc, b);
    StepsXor(crc, Embed(b), 8);
  }

  lemma Inverted(x: u32)
    ensures Xor(Xor(ONES, x), ONES) == x
  {}

  lemma SlideWords(first: u32, ws: seq<u32>, last: u32, n: nat)
    requires n == 8 * |ws| + 8
    ensures Xor(Xor(Steps(Feed(Ring().r, ONES, [first] + ws), 8), Steps(last, 8)),
                Xor(Steps(first, n + 8), Xor(ONES, Xor(Steps(ONES, n), Steps(ONES, n + 8)))))
            == Xor(ONES, Feed(Ring().r, ONES, ws + [last]))
  {
    ShiftingLawful(CCITT);
    SlideFed(Ring().r, ONES, first, ws, last, n);
  }

  lemma EmbedsFirst(b: u8, s: seq<u8>)
    ensures Embeds([b] + s) == [Embed(b)] + Embeds(s)
  {}

  lemma EmbedsLast(s: seq<u8>, b: u8)
    ensures Embeds(s + [b]) == Embeds(s) + [Embed(b)]
  {}

  lemma SlideByTables(t: seq<u32>, windowtable: seq<u32>, c: u32, chOld: u8, chNew: u8, window: nat)
    requires IsTable(t) && IsWindowTable(windowtable, window)
    ensures CRCSlideChar(t, Xor(ONES, c), chNew, chOld, windowtable)
         == Xor(Xor(Steps(c, 8), Steps(Embed(chNew), 8)), WindowEntry(window, chOld))
  {
    Inverted(c);
    TakenIn(t, c, chNew);
    assert Entry(windowtable, chOld) == WindowEntry(window, chOld);
  }

  lemma WindowEntryAt(window: nat, b: u8, n: nat)
    requires n == 8 * window
    ensures WindowEntry(window, b) == Xor(Steps(Embed(b), n + 8), Xor(ONES, Xor(Steps(ONES, n), Steps(ONES, n + 8))))
  {}

  lemma SlideBytes(chOld: u8, s: seq<u8>, chNew: u8, n: nat)
    requires n == 8 * |s| + 8
    ensures Xor(Xor(Steps(Update(ONES, [chOld] + s), 8), Steps(Embed(chNew), 8)), WindowEntry(|s| + 1, chOld))
         == Checksum(s + [chNew])
  {
    EmbedsFirst(chOld, s);
    EmbedsLast(s, chNew);
    WindowEntryAt(|s| + 1, chOld, n);
    SlideWords(Embed(chOld), Embeds(s), Embed(chNew), n);
  }

  /** The slid checksum is the checksum of the window one byte later, for every window and every buffer. */
  lemma SlideIsRecompute(t: seq<u32>, windowtable: seq<u32>, chOld: u8, s: seq<u8>, chNew: u8)
    requires IsTable(t) && IsWindowTable(windowtable, |s| + 1)
    ensures CRCSlideChar(t, Checksum([chOld] + s), chNew, chOld, windowtable) == Checksum(s + [chNew])
  {
    SlideByTables(t, windowtable, Update(ONES, [chOld] + s), chOld, chNew, |s| + 1);
    SlideBytes(chOld, s, chNew, 8 * |s| + 8);
  }

  /** The value 0x80800000: one plus the eighth power of the unknown. */
  const ONE_AND_BYTE: u32 := Xor(Bit(32, 31), Bit(32, 23))

  lemma OneAndByte()
    ensures ONE_AND_BYTE == Xor(Ring().X(0), Ring().X(8))
  {
    LowPower(CCITT, 0);
    LowPower(CCITT, 8);
  }

  lemma TimesOneAndByte(x: u32)
    ensures Ring().Mul(x, ONE_AND_BYTE) == Xor(x, Steps(x, 8))
  {
    NoSteps(x);
    ModuloLawful(CCITT);
    OneAndByte();
    MulByTwoPowers(Ring(), x, 0, 8);
  }

  lemma TimesByteRun(x: u32, n: nat)
    ensures Ring().Mul(x, ByteRun(n)) == Steps(x, 8 * n)
  {
    ModuloLawful(CCITT);
    MulByPower(Ring(), x, 8 * n);
  }

  lemma MaskFrom(window: nat, x: u32, n: nat)
    requires n == 8 * window && x == Steps(ONES, n)
    ensures Xor(Xor(x, Steps(x, 8)), ONES) == Mask(window)
  {
    StepsAdd(ONES, n, 8);
    Swapped(Xor(x, Steps(x, 8)), ONES);
  }

  lemma Swapped(x: u32, y: u32)
    ensures Xor(x, y) == Xor(y, x)
  {}

  method WindowMask(coeff: u32, window: nat) returns (mask: u32)
    requires coeff == ByteRun(window)
    ensures mask == Mask(window)
  {
    TimesByteRun(ONES, window);
    var x := GF32Multiply(ONES, coeff, CCITT);
    TimesOneAndByte(x);
    var y := GF32Multiply(x, ONE_AND_BYTE, CCITT);
    MaskFrom(window, x, 8 * window);
    mask := Xor(y, ONES);
  }

  ghost function WindowAt(window: nat, i: nat): u32 {
    Xor(Steps(Steps(ToBits(i, 32), 8), 8 * window), Mask(window))
  }

  method WindowByte(entry: u32, coeff: u32, mask: u32, ghost window: nat, ghost i: nat) returns (r: u32)
    requires coeff == ByteRun(window) && mask == Mask(window) && entry == Steps(ToBits(i, 32), 8)
    ensures r == WindowAt(window, i)
  {
    TimesByteRun(entry, window);
    r := GF32Multiply(entry, coeff, CCITT);
    r := Xor(r, mask);
  }

  method GenerateWindowTable(t: CrcTable, window: nat, target: array<u32>)
    requires IsCrc32(t) && target.Length == 256 && target != t.table && target != t.power
    modifies target
    ensures IsWindowTable(target[..], window)
  {
    var coeff := CRCExp8(t.power[..], window);
    var mask := WindowMask(coeff, window);
    FillWindow(t.table[..], coeff, mask, target, window);
    FilledIsWindow(target[..], window);
  }

  method FillWindow(table: seq<u32>, coeff: u32, mask: u32, target: array<u32>, ghost window: nat)
    requires coeff == ByteRun(window) && mask == Mask(window) && target.Length == 256
    requires |table| == 256 && Filled(table, i => Entry8(CCITT, i), 256)
    modifies target
    ensures Filled(target[..], i => WindowAt(window, i), 256)
  {
    ghost var at := i => WindowAt(window, i);
    for i := 0 to 256
      invariant Filled(target[..], at, i)
    {
      EntryFilled(table, i);
      var r := WindowByte(table[i], coeff, mask, window, i);
      Put(target, i, r, at);
    }
  }

  lemma FilledIsWindow(s: seq<u32>, window: nat)
    requires |s| == 256 && Filled(s, i => WindowAt(window, i), 256)
    ensures IsWindowTable(s, window)
  {
    forall b: u8 ensures Entry(s, b) == WindowEntry(window, b) {
      ByteBelow(b);
      FilledAt(s, window, Value(b));
      WindowAtByte(window, b, 8 * window);
    }
  }

  lemma FilledAt(s: seq<u32>, window: nat, i: nat)
    requires |s| == 256 && Filled(s, k => WindowAt(window, k), 256) && i < 256
    ensures s[i] == WindowAt(window, i)
  {}

  lemma WindowAtByte(window: nat, b: u8, n: nat)
    requires n == 8 * window
    ensures WindowAt(window, Value(b)) == WindowEntry(window, b)
  {
    IndexIsByte(b);
    StepsAdd(Embed(b), 8, n);
    WindowAtWord(window, Value(b), Embed(b), Steps(Embed(b), n + 8), n);
    WindowEntryWord(window, b, Steps(Embed(b), n + 8), n);
  }

  lemma WindowAtWord(window: nat, i: nat, w: u32, x: u32, n: nat)
    requires n == 8 * window && ToBits(i, 32) == w && Steps(Steps(w, 8), n) == x
    ensures WindowAt(window, i) == Xor(x, Mask(window))
  {}

  lemma WindowEntryWord(window: nat, b: u8, x: u32, n: nat)
    requires n == 8 * window && x == Steps(Embed(b), n + 8)
    ensures WindowEntry(window, b) == Xor(x, Mask(window))
  {}
}
