/** The powers of the unknown return to one after 2^32 - 1 steps. */
module CrcPeriod {
  import opened Words
  import opened LinearSteps
  import opened HexWords
  import opened HexBits
  import opened CrcField
  import opened CrcSquares

  lemma PolynomialIs()
    ensures Is(0xEDB88320, CCITT)
  {}

  lemma OneIs()
    ensures Is(0x80000000, ONE) && Is(0, Zeros(32))
  {}

  lemma StepIs(v: bv32, w: u32)
    requires Is(v, w)
    ensures Is(StepHex(v), StepX(CCITT, w))
  {
    ShiftIs(v, w);
    StepOdd(v, ShiftDown(w, 1));
    LowestBit(v, w);
  }

  lemma LowestBit(v: bv32, w: u32)
    requires Is(v, w)
    ensures w[0] <==> v & 1 != 0
  {}

  lemma StepOdd(v: bv32, shifted: u32)
    requires Is(v >> 1, shifted)
    ensures Is((v >> 1) ^ 0xEDB88320, Xor(shifted, CCITT))
  {
    PolynomialIs();
    XorIs(v >> 1, 0xEDB88320, shifted, CCITT);
  }

  /** A relation that the machine operations keep. */
  ghost predicate Kept(sim: Simulation<bv32>) {
    sim.Lawful() && sim.o == HEX && sim.stands(0x80000000, ONE)
  }

  lemma DoubledHex(sim: Simulation<bv32>, n: nat, v: bv32, w: bv32)
    requires Kept(sim) && sim.PowerIs(n, v) && SquareHex(v) == w
    ensures sim.PowerIs(2 * n, w)
  {
    Doubled(sim, n, v);
    SquareSame(v);
  }

  lemma FirstPower(sim: Simulation<bv32>)
    requires Kept(sim)
    ensures sim.PowerIs(1, 0x40000000)
  {
    assert sim.Law(0x80000000, ONE);
    assert Ring().X(0) == ONE;
    assert HEX.step(0x80000000) == 0x40000000;
  }

  lemma Doublings4(sim: Simulation<bv32>)
    requires Kept(sim)
    ensures sim.PowerIs(16, 0x00008000)
  {
    FirstPower(sim);
    Squares4();
    DoubledHex(sim, 1, 0x40000000, 0x20000000);
    DoubledHex(sim, 2, 0x20000000, 0x08000000);
    DoubledHex(sim, 4, 0x08000000, 0x00800000);
    DoubledHex(sim, 8, 0x00800000, 0x00008000);
  }

  lemma Doublings8(sim: Simulation<bv32>)
    requires Kept(sim)
    ensures sim.PowerIs(256, 0xED627DAE)
  {
    Doublings4(sim);
    Squares8();
    DoubledHex(sim, 16, 0x00008000, 0xEDB88320);
    DoubledHex(sim, 32, 0xEDB88320, 0xB1E6B092);
    DoubledHex(sim, 64, 0xB1E6B092, 0xA06A2517);
    DoubledHex(sim, 128, 0xA06A2517, 0xED627DAE);
  }

  lemma Doublings12(sim: Simulation<bv32>)
    requires Kept(sim)
    ensures sim.PowerIs(4096, 0x8E7EA170)
  {
    Doublings8(sim);
    Squares12();
    DoubledHex(sim, 256, 0xED627DAE, 0x88D14467);
    DoubledHex(sim, 512, 0x88D14467, 0xD7BBFE6A);
    DoubledHex(sim, 1024, 0xD7BBFE6A, 0xEC447F11);
    DoubledHex(sim, 2048, 0xEC447F11, 0x8E7EA170);
  }

  lemma Doublings16(sim: Simulation<bv32>)
    requires Kept(sim)
    ensures sim.PowerIs(65536, 0x83852D0F)
  {
    Doublings12(sim);
    Squares16();
    DoubledHex(sim, 4096, 0x8E7EA170, 0x6427800E);
    DoubledHex(sim, 8192, 0x6427800E, 0x4D47BAE0);
    DoubledHex(sim, 16384, 0x4D47BAE0, 0x09FE548F);
    DoubledHex(sim, 32768, 0x09FE548F, 0x83852D0F);
  }

  lemma Doublings20(sim: Simulation<bv32>)
    requires Kept(sim)
    ensures sim.PowerIs(1048576, 0x9FEC022A)
  {
    Doublings16(sim);
    Squares20();
    DoubledHex(sim, 65536, 0x83852D0F, 0x30362F1A);
    DoubledHex(sim, 131072, 0x30362F1A, 0x7B5A9CC3);
    DoubledHex(sim, 262144, 0x7B5A9CC3, 0x31FEC169);
    DoubledHex(sim, 524288, 0x31FEC169, 0x9FEC022A);
  }

  lemma Doublings24(sim: Simulation<bv32>)
    requires Kept(sim)
    ensures sim.PowerIs(16777216, 0xBAD90E37)
  {
    Doublings20(sim);
    Squares24();
    DoubledHex(sim, 1048576, 0x9FEC022A, 0x6C8DEDC4);
    DoubledHex(sim, 2097152, 0x6C8DEDC4, 0x15D6874D);
    DoubledHex(sim, 4194304, 0x15D6874D, 0x5FDE7A4E);
    DoubledHex(sim, 8388608, 0x5FDE7A4E, 0xBAD90E37);
  }

  lemma Doublings28(sim: Simulation<bv32>)
    requires Kept(sim)
    ensures sim.PowerIs(268435456, 0x429A969E)
  {
    Doublings24(sim);
    Squares28();
    DoubledHex(sim, 16777216, 0xBAD90E37, 0x2E4E5EEF);
    DoubledHex(sim, 33554432, 0x2E4E5EEF, 0x4EABA214);
    DoubledHex(sim, 67108864, 0x4EABA214, 0xA8A472C0);
    DoubledHex(sim, 134217728, 0xA8A472C0, 0x429A969E);
  }

  lemma Doublings32(sim: Simulation<bv32>)
    requires Kept(sim)
    ensures sim.PowerIs(4294967296, 0x40000000)
  {
    Doublings28(sim);
    Squares32();
    DoubledHex(sim, 268435456, 0x429A969E, 0x148D302A);
    DoubledHex(sim, 536870912, 0x148D302A, 0xC40BA6D0);
    DoubledHex(sim, 1073741824, 0xC40BA6D0, 0xC4E22C3C);
    DoubledHex(sim, 2147483648, 0xC4E22C3C, 0x40000000);
  }

  function Stands(): Simulation<bv32> {
    Simulation(HEX, (v: bv32, w: u32) => Is(v, w))
  }

  lemma KeepsHalf(v: bv32, w: u32)
    requires Stands().stands(v, w)
    ensures Stands().stands(HEX.half(v), ShiftDown(w, 1))
  {
    ShiftIs(v, w);
  }

  lemma KeepsStep(v: bv32, w: u32)
    requires Stands().stands(v, w)
    ensures Stands().stands(HEX.step(v), StepX(CCITT, w))
  {
    StepIs(v, w);
  }

  lemma KeepsFlip(v: bv32, w: u32)
    requires Stands().stands(v, w)
    ensures Stands().stands(HEX.flip(v), Xor(w, ONE))
  {
    OneIs();
    XorIs(v, 0x80000000, w, ONE);
  }

  lemma IsKeeps(v: bv32, w: u32)
    ensures Stands().Law(v, w)
  {
    if Stands().stands(v, w) {
      KeepsHalf(v, w);
      KeepsStep(v, w);
      KeepsFlip(v, w);
    }
  }

  lemma IsStarts()
    ensures Stands().stands(0, Zeros(32)) && Stands().stands(0x80000000, ONE)
  {
    OneIs();
  }

  lemma IsKept()
    ensures Kept(Stands())
  {
    var sim := Stands();
    IsStarts();
    forall v: bv32, w: u32 ensures sim.Law(v, w) { IsKeeps(v, w); }
    assert sim.Lawful();
  }

  /** The unknown has order dividing 2^32 - 1. */
  lemma Period()
    ensures Ring().X(0xFFFF_FFFF) == ONE
  {
    PowerReturns();
    var r := Ring().r;
    ShiftingLawful(CCITT);
    assert r.Run(Ring().X(0xFFFF_FFFF), 0) == Ring().X(0xFFFF_FFFF);
    assert r.Run(ONE, 0) == ONE;
    forall x: u32 | StepX(CCITT, x) == Zeros(32) ensures x == Zeros(32) {
      if x != Zeros(32) { NothingLost(x); }
    }
    RunInjective(r, Ring().X(0xFFFF_FFFF), ONE, 1);
  }

  lemma PowerReturns()
    ensures Ring().X(0x1_0000_0000) == Ring().X(1)
  {
    var sim := Stands();
    IsKept();
    Doublings32(sim);
    FirstPower(sim);
    SameWord(0x40000000, Ring().X(0x1_0000_0000), Ring().X(1));
  }

  /** The highest coefficient of the polynomial is there, so no word but zero steps to zero. */
  lemma NothingLost(x: u32)
    requires x != Zeros(32)
    ensures StepX(CCITT, x) != Zeros(32)
  {
    var y := StepX(CCITT, x);
    if x[0] {
      assert y[31];
    } else {
      var i :| 0 <= i < 32 && x[i] != Zeros(32)[i];
      assert y[i - 1];
    }
  }
}
