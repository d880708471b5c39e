/** The byte field: width 8 with generator 0x11D. */
module Galois8 {
  import opened Words
  import opened LinearSteps
  import opened Fields
  import opened Arithmetic
  import opened Galois
  import opened GaloisTables
  import GaloisField

  /** The bits of 0x11D. */
  const GENERATOR: Bits := [true, false, true, true, true, false, false, false, true]

  lemma Parameters()
    ensures IsGenerator(8, GENERATOR) && Limit(8) == 255 && Pow2(8) == 256
  {}

  // The orbit is followed on eight separate bits, where each doubling is a constant-time rewrite.

  datatype Octet = Octet(b0: bool, b1: bool, b2: bool, b3: bool, b4: bool, b5: bool, b6: bool, b7: bool) {
    predicate Is(w: Bits) {
      && |w| == 8
      && w[0] == b0 && w[1] == b1 && w[2] == b2 && w[3] == b3
      && w[4] == b4 && w[5] == b5 && w[6] == b6 && w[7] == b7
    }

    function Twice(): Octet {
      Octet(b7, b0, b1 != b7, b2 != b7, b3 != b7, b4, b5, b6)
    }

    function Twice4(): Octet {
      Twice().Twice().Twice().Twice()
    }

    function Twice16(): Octet {
      Twice4().Twice4().Twice4().Twice4()
    }
  }

  lemma GeneratorBits()
    ensures GENERATOR[0] && !GENERATOR[1] && GENERATOR[2] && GENERATOR[3]
    ensures GENERATOR[4] && !GENERATOR[5] && !GENERATOR[6] && !GENERATOR[7]
  {}

  lemma TwiceIsDouble(w: Bits, o: Octet)
    requires IsGenerator(8, GENERATOR) && o.Is(w)
    ensures o.Twice().Is(Double(8, GENERATOR, w))
  {
    GeneratorBits();
    DoubleBit(8, GENERATOR, w, 0);
    DoubleBit(8, GENERATOR, w, 1);
    DoubleBit(8, GENERATOR, w, 2);
    DoubleBit(8, GENERATOR, w, 3);
    DoubleBit(8, GENERATOR, w, 4);
    DoubleBit(8, GENERATOR, w, 5);
    DoubleBit(8, GENERATOR, w, 6);
    DoubleBit(8, GENERATOR, w, 7);
  }

  ghost predicate At(l: nat, o: Octet) {
    IsGenerator(8, GENERATOR) && o.Is(Orbit(8, GENERATOR, l))
  }

  lemma At1(l: nat, o: Octet)
    requires At(l, o)
    ensures At(l + 1, o.Twice())
  {
    TwiceIsDouble(Orbit(8, GENERATOR, l), o);
  }

  lemma At4(l: nat, o: Octet)
    requires At(l, o)
    ensures At(l + 4, o.Twice4())
  {
    At1(l, o);
    At1(l + 1, o.Twice());
    At1(l + 2, o.Twice().Twice());
    At1(l + 3, o.Twice().Twice().Twice());
  }

  lemma At16(l: nat, o: Octet)
    requires At(l, o)
    ensures At(l + 16, o.Twice16())
  {
    At4(l, o);
    At4(l + 4, o.Twice4());
    At4(l + 8, o.Twice4().Twice4());
    At4(l + 12, o.Twice4().Twice4().Twice4());
  }

  lemma Orbit0()
    ensures At(0, Octet(true, false, false, false, false, false, false, false))
  {
    Parameters();
  }

  lemma Orbit15()
    ensures At(15, Octet(false, true, true, false, false, true, false, false))
  {
    Orbit0();
    At4(0, Octet(true, false, false, false, false, false, false, false));
    At4(4, Octet(false, false, false, false, true, false, false, false));
    At4(8, Octet(true, false, true, true, true, false, false, false));
    At1(12, Octet(true, false, true, true, false, false, true, true));
    At1(13, Octet(true, true, true, false, false, false, false, true));
    At1(14, Octet(true, true, false, false, true, false, false, false));
  }

  lemma Orbit48()
    ensures At(48, Octet(false, true, true, false, false, false, true, false))
  {
    Orbit0();
    At16(0, Octet(true, false, false, false, false, false, false, false));
    At16(16, Octet(false, false, true, true, false, false, true, false));
    At16(32, Octet(true, false, true, true, true, false, false, true));
  }

  lemma Orbit51()
    ensures At(51, Octet(false, true, false, true, false, false, false, false))
  {
    Orbit48();
    At1(48, Octet(false, true, true, false, false, false, true, false));
    At1(49, Octet(false, false, true, true, false, false, false, true));
    At1(50, Octet(true, false, true, false, false, false, false, false));
  }

  lemma Orbit80()
    ensures At(80, Octet(true, false, true, true, true, true, true, true))
  {
    Orbit48();
    At16(48, Octet(false, true, true, false, false, false, true, false));
    At16(64, Octet(true, true, true, true, true, false, true, false));
  }

  lemma Orbit85()
    ensures At(85, Octet(false, true, true, false, true, false, true, true))
  {
    Orbit80();
    At4(80, Octet(true, false, true, true, true, true, true, true));
    At1(84, Octet(true, true, false, true, false, true, true, false));
  }

  lemma Orbit128()
    ensures At(128, Octet(true, false, true, false, false, false, false, true))
  {
    Orbit80();
    At16(80, Octet(true, false, true, true, true, true, true, true));
    At16(96, Octet(true, false, false, true, true, false, true, true));
    At16(112, Octet(true, false, false, false, false, false, false, true));
  }

  lemma Orbit176()
    ensures At(176, Octet(true, true, false, false, false, true, true, true))
  {
    Orbit128();
    At16(128, Octet(true, false, true, false, false, false, false, true));
    At16(144, Octet(false, false, false, true, false, true, false, true));
    At16(160, Octet(false, true, true, false, false, true, true, true));
  }

  lemma Orbit240()
    ensures At(240, Octet(false, false, true, true, false, true, false, false))
  {
    Orbit176();
    At16(176, Octet(true, true, false, false, false, true, true, true));
    At16(192, Octet(false, true, false, false, false, false, false, true));
    At16(208, Octet(true, false, false, false, true, false, true, false));
    At16(224, Octet(false, true, false, false, true, false, false, false));
  }

  lemma Orbit255()
    ensures At(255, Octet(true, false, false, false, false, false, false, false))
  {
    Orbit240();
    At4(240, Octet(false, false, true, true, false, true, false, false));
    At4(244, Octet(false, true, false, true, true, true, true, true));
    At4(248, Octet(true, true, false, true, true, false, false, false));
    At1(252, Octet(true, false, true, true, false, true, false, true));
    At1(253, Octet(true, true, true, false, false, false, true, false));
    At1(254, Octet(false, true, true, true, false, false, false, true));
  }

  /** 1 returns after 255 doublings, but not after a third, a fifth or a seventeenth of that. */
  lemma OrbitReturns()
    ensures IsGenerator(8, GENERATOR)
    ensures Orbit(8, GENERATOR, 255) == One(8)
    ensures Orbit(8, GENERATOR, 85) != One(8)
    ensures Orbit(8, GENERATOR, 51) != One(8)
    ensures Orbit(8, GENERATOR, 15) != One(8)
  {
    Orbit0();
    Orbit15();
    Orbit51();
    Orbit85();
    Orbit255();
    IsOne(Orbit(8, GENERATOR, 255), Octet(true, false, false, false, false, false, false, false));
  }

  lemma IsOne(w: Bits, o: Octet)
    requires o == Octet(true, false, false, false, false, false, false, false) && o.Is(w)
    ensures w == One(8)
  {}

  lemma ProperDivisor(d: nat)
    requires 0 < d < 255 && 255 % d == 0
    ensures 85 % d == 0 || 51 % d == 0 || 15 % d == 0
  {
    var q := 255 / d;
    assert q * d == 255;
    if d <= 15 {
      assert d == 1 || d == 3 || d == 5 || d == 15;
    } else {
      if q >= 16 { MulMono(16, q, d); }
      assert q == 3 || q == 5 || q == 15;
    }
  }

  lemma RunsOut(d: nat, n: nat)
    requires IsGenerator(8, GENERATOR) && d > 0 && Orbit(8, GENERATOR, d) == One(8)
    ensures Orbit(8, GENERATOR, n) == Orbit(8, GENERATOR, n % d)
  {
    DivMod(n, d);
    RunTurns(Doubling(8, GENERATOR), One(8), d, n / d, n % d);
  }

  lemma {:induction false} NoEarlyReturn(l: nat)
    requires 0 < l < 255
    ensures IsGenerator(8, GENERATOR) && Orbit(8, GENERATOR, l) != One(8)
  {
    OrbitReturns();
    forall k | 0 < k < l ensures Orbit(8, GENERATOR, k) != One(8) { NoEarlyReturn(k); }
    if Orbit(8, GENERATOR, l) == One(8) {
      RunsOut(l, 255);
      ProperDivisor(l);
      RunsOut(l, 85);
      RunsOut(l, 51);
      RunsOut(l, 15);
    }
  }

  /** 0x11D reaches all 255 non-zero bytes. */
  lemma GeneratorVisitsAll()
    ensures VisitsAll(8, GENERATOR)
  {
    Parameters();
    OrbitReturns();
    forall l | 0 < l < 255 ensures Orbit(8, GENERATOR, l) != One(8) { NoEarlyReturn(l); }
    VisitsAllIffOrder(8, GENERATOR);
  }

  /** The operators of `Galois8`, on bytes. */
  function ByteField(t: Tables): Field<u8>
    requires t.Sized() && t.bits == 8
  {
    Field<u8>.Field(
      (a: u8) => true, Zeros(8), One(8),
      (a: u8, b: u8) => t.Add(a, b), (a: u8, b: u8) => t.Mul(a, b), (a: u8, b: u8) => t.Div(a, b),
      (a: u8, e: nat) => if e <= Limit(8) then t.Pow(a, e) else a,
      Limit(8))
  }

  lemma {:induction false} BytePower(t: Tables, a: u8, e: nat)
    requires t.Sized() && t.bits == 8
    ensures ByteField(t).Power(a, e) == t.AsField().Power(a, e)
  {
    if e > 0 { BytePower(t, a, e - 1); }
  }

  /** The one table object of the program turns bytes into a field. */
  lemma ByteFieldLawful(t: Tables)
    requires t.Built() && t.bits == 8 && t.generator == GENERATOR
    ensures t.Sized() && ByteField(t).Lawful() && ByteField(t).limit == 255
  {
    Parameters();
    GeneratorVisitsAll();
    GaloisField.TablesFormField(t);
    var f, g := ByteField(t), t.AsField();
    forall a: u8, b: u8, c: u8 ensures f.Law(a, b, c) {
      assert g.Law(a, b, c);
    }
    forall a: u8, e: nat ensures f.PowLaw(a, e) {
      assert g.PowLaw(a, e);
      BytePower(t, a, e);
    }
    assert g.RingLaws();
  }
}
