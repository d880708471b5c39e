/** The CRC table object: the lookup table, the powers, and what is computed with them. */
module CrcTables {
  import opened Words
  import opened Arithmetic
  import opened LinearSteps
  import opened Polynomials
  import opened CrcField
  import opened CrcSquares
  import opened CrcPeriod
  import opened Crc
  import opened Filling

  lemma {:induction false} ToBitsWide(v: nat, n: nat, m: nat)
    requires v < Pow2(n)
    ensures ToBits(v, n + m) == ToBits(v, n) + Zeros(m)
  {
    if n > 0 {
      ToBitsWide(v / 2, n - 1, m);
    } else if m > 0 {
      ToBitsWide(v, n, m - 1);
      assert Zeros(m) == [false] + Zeros(m - 1);
    }
  }

  lemma IndexIsByte(b: u8)
    ensures ToBits(Value(b), 32) == Embed(b)
  {
    ValueBound(b);
    ToBitsOfValue(b);
    ToBitsWide(Value(b), 8, 24);
  }

  class CrcTable {
    const polynom: u32
    const table: array<u32>
    const power: array<u32>

    ghost predicate Built()
      reads table, power
    {
      && table.Length == 256 && Filled(table[..], i => Entry8(polynom, i), 256)
      && Rotated(power[..], i => Square(polynom, i), 32)
    }

    constructor (polynomial: u32)
      ensures polynom == polynomial && Built() && fresh(table) && fresh(power)
    {
      polynom := polynomial;
      table := new u32[256](i => Zeros(32));
      power := new u32[32](i => Zeros(32));
      new;
      FillTable(polynomial, table);
      FillPower(polynomial, power);
    }
  }

  method FillTable(polynomial: u32, table: array<u32>)
    requires table.Length == 256
    modifies table
    ensures Filled(table[..], i => Entry8(polynomial, i), 256)
  {
    ghost var entry := i => Entry8(polynomial, i);
    for i := 0 to 256
      invariant Filled(table[..], entry, i)
    {
      var crc := TableEntry(polynomial, i);
      Put(table, i, crc, entry);
    }
  }

  /** The first `n` values of `f` are stored, each three places to the left. */
  ghost predicate Rotated<T>(s: seq<T>, f: nat -> T, n: nat) {
    n <= |s| == 32 && forall k :: 0 <= k < 32 && (k + 3) % 32 < n ==> s[k] == f((k + 3) % 32)
  }

  method PutRotated<T>(a: array<T>, i: nat, v: T, ghost f: nat -> T)
    requires Rotated(a[..], f, i) && i < 32 && v == f(i)
    modifies a
    ensures Rotated(a[..], f, i + 1)
  {
    a[(i + 29) % 32] := v;
  }

  /** Squares, one after the other, stored three places to the left. */
  method FillPower(polynomial: u32, power: array<u32>)
    requires power.Length == 32
    modifies power
    ensures Rotated(power[..], i => Square(polynomial, i), 32)
  {
    ghost var square := i => Square(polynomial, i);
    var k: u32 := Bit(32, 30);
    LowPower(polynomial, 1);
    for i := 0 to 32
      invariant k == Square(polynomial, i)
      invariant Rotated(power[..], square, i)
    {
      PutRotated(power, i, k, square);
      k := NextSquare(polynomial, k, i);
    }
  }

  /** Eight steps from the word `i`. */
  ghost function Entry8(polynomial: u32, i: nat): u32 {
    Shifting(polynomial).Run(ToBits(i, 32), 8)
  }

  method TableEntry(polynomial: u32, i: nat) returns (crc: u32)
    ensures crc == Entry8(polynomial, i)
  {
    crc := ToBits(i, 32);
    for j := 0 to 8
      invariant crc == Shifting(polynomial).Run(ToBits(i, 32), j)
    {
      crc := StepX(polynomial, crc);
    }
  }

  method NextSquare(polynomial: u32, k: u32, i: nat) returns (next: u32)
    requires k == Square(polynomial, i)
    ensures next == Square(polynomial, i + 1)
  {
    ModuloLawful(polynomial);
    MulPowers(Modulo(polynomial), Pow2(i), Pow2(i));
    next := GF32Multiply(k, k, polynomial);
  }

  /** The unknown squared `i` times. */
  ghost function Square(polynomial: u32, i: nat): u32 {
    Modulo(polynomial).X(Pow2(i))
  }

  // The one table of the program is built from the CRC-32 polynomial.

  ghost predicate IsCrc32(t: CrcTable)
    reads t.table, t.power
  {
    t.polynom == CCITT && t.Built()
  }

  lemma BuiltIsTable(t: CrcTable)
    requires IsCrc32(t)
    ensures IsTable(t.table[..])
  {
    forall b: u8 ensures Entry(t.table[..], b) == Steps(Embed(b), 8) {
      ValueBound(b);
      Bytes256();
      IndexIsByte(b);
      EntryFilled(t.table[..], Value(b));
    }
  }

  lemma EntryFilled(s: seq<u32>, i: nat)
    requires |s| == 256 && Filled(s, i => Entry8(CCITT, i), 256) && i < 256
    ensures s[i] == Steps(ToBits(i, 32), 8)
  {}

  // Exponents count modulo 2^32 - 1.

  const PERIOD: nat := 0xFFFF_FFFF

  lemma PeriodicPower(total: nat, turns: nat, n: nat)
    requires total == turns * PERIOD + n
    ensures Ring().X(total) == Ring().X(n)
  {
    Period();
    RunTurns(Ring().r, ONE, PERIOD, turns, n);
  }

  lemma {:induction false} Pow2Sum(m: nat, n: nat)
    ensures Pow2(m + n) == Pow2(m) * Pow2(n)
  {
    if n > 0 {
      Pow2Sum(m, n - 1);
      assert Pow2(m) * (2 * Pow2(n - 1)) == 2 * (Pow2(m) * Pow2(n - 1));
    }
  }

  lemma Pow2Period()
    ensures Pow2(32) == PERIOD + 1
  {
    assert Pow2(8) == 256;
    Pow2Sum(8, 8);
    Pow2Sum(16, 16);
  }

  lemma RotatedExponent(k: nat) returns (turns: nat)
    requires k < 32
    ensures 8 * Pow2(k) == turns * PERIOD + Pow2((k + 3) % 32)
  {
    Pow2Sum(k, 3);
    assert Pow2(3) == 8;
    turns := 0;
    if k >= 29 {
      turns := Pow2(k - 29);
      Pow2Sum(k - 29, 32);
      Pow2Period();
      assert turns * (PERIOD + 1) == turns * PERIOD + turns;
    }
  }

  /** The rotated table holds the powers with exponents 8, 16, 32 and so on; the last three have wrapped around. */
  lemma RotatedPower(k: nat)
    requires k < 32
    ensures Square(CCITT, (k + 3) % 32) == ByteRun(Pow2(k))
  {
    var turns := RotatedExponent(k);
    PeriodicPower(8 * Pow2(k), turns, Pow2((k + 3) % 32));
  }

  ghost function ByteRun(n: nat): u32 {
    Ring().X(8 * n)
  }

  lemma NoBytes()
    ensures ByteRun(0) == ONE
  {}

  lemma ByteRunSum(m: nat, n: nat)
    ensures Ring().Mul(ByteRun(m), ByteRun(n)) == ByteRun(m + n)
  {
    ModuloLawful(CCITT);
    MulPowers(Ring(), 8 * m, 8 * n);
  }

  lemma ByteRunReduced(n: nat)
    ensures ByteRun(n % PERIOD) == ByteRun(n)
  {
    DivMod(n, PERIOD);
    PeriodicPower(8 * n, 8 * (n / PERIOD), 8 * (n % PERIOD));
  }

  /** Exponentiation by squaring over the rotated table. */
  method CRCExp8(power: seq<u32>, n: nat) returns (result: u32)
    requires Rotated(power, i => Square(CCITT, i), 32)
    ensures result == ByteRun(n)
  {
    ByteRunReduced(n);
    result := RunBelow(power, n % PERIOD);
  }

  method RunBelow(power: seq<u32>, start: nat) returns (result: u32)
    requires Rotated(power, i => Square(CCITT, i), 32) && start < PERIOD
    ensures result == ByteRun(start)
  {
    NoBytes();
    Unstarted(start);
    result := ONE;
    ghost var k: nat, done: nat := 0, 0;
    var at: nat, m: nat := 0, start;
    while m > 0
      invariant result == ByteRun(done) && Remaining(done, m, k, start)
      invariant k <= 32 && at == if k < 32 then k else 0
      decreases m
    {
      BelowPeriod(done, m, k, start);
      Halved(done, m, k, start);
      result := TimesPowerIf(m % 2 == 1, result, power, at, done);
      done := if m % 2 == 1 then done + Pow2(k) else done;
      m, k, at := m / 2, k + 1, if at < 31 then at + 1 else 0;
    }
    NoneRemaining(done, k, start);
  }

  lemma Unstarted(start: nat)
    requires start < PERIOD
    ensures Remaining(0, start, 0, start)
  {}

  lemma NoneRemaining(done: nat, k: nat, start: nat)
    requires Remaining(done, 0, k, start)
    ensures done == start
  {}

  /** The bits of the exponent from bit `k` on are still to come. */
  ghost predicate Remaining(done: nat, m: nat, k: nat, start: nat) {
    done + m * Pow2(k) == start < PERIOD
  }

  lemma Halved(done: nat, m: nat, k: nat, start: nat)
    requires Remaining(done, m, k, start)
    ensures Remaining(if m % 2 == 1 then done + Pow2(k) else done, m / 2, k + 1, start)
  {
    var p := Pow2(k);
    assert m * p == m / 2 * (2 * p) + m % 2 * p;
  }

  lemma BelowPeriod(done: nat, m: nat, k: nat, start: nat)
    requires m > 0 && Remaining(done, m, k, start)
    ensures k < 32
  {
    if k >= 32 {
      Pow2Sum(32, k - 32);
      Pow2Period();
      MulMono(1, Pow2(k - 32), Pow2(32));
      MulMono(1, m, Pow2(k));
    }
  }

  method TimesPowerIf(on: bool, x: u32, power: seq<u32>, k: nat, ghost done: nat) returns (r: u32)
    requires Rotated(power, i => Square(CCITT, i), 32) && k < 32 && x == ByteRun(done)
    ensures r == ByteRun(if on then done + Pow2(k) else done)
  {
    r := x;
    if on {
      PowerAt(power, k);
      r := TimesRun(x, power[k], done, Pow2(k));
    }
  }

  lemma PowerAt(power: seq<u32>, k: nat)
    requires Rotated(power, i => Square(CCITT, i), 32) && k < 32
    ensures power[k] == ByteRun(Pow2(k))
  {
    RotatedPower(k);
  }

  method TimesRun(x: u32, y: u32, ghost m: nat, ghost n: nat) returns (r: u32)
    requires x == ByteRun(m) && y == ByteRun(n)
    ensures r == ByteRun(m + n)
  {
    ByteRunSum(m, n);
    r := GF32Multiply(x, y, CCITT);
  }

  /** Update the register with a run of zeros of any length. */
  method CRCUpdateZeros(t: CrcTable, crc: u32, length: nat) returns (r: u32)
    requires IsCrc32(t)
    ensures r == Update(crc, ZeroBytes(length))
  {
    var coeff := CRCExp8(t.power[..], length);
    r := GF32Multiply(crc, coeff, t.polynom);
    ModuloLawful(CCITT);
    MulByPower(Ring(), crc, 8 * length);
    UpdateZeros(crc, length);
  }
}
