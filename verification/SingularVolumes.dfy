/** Recovery volumes that cannot be used together: the matrix of powers is not always invertible. */
module SingularVolumes {
  import opened Words
  import opened Fields
  import opened Vectors
  import opened Elimination
  import opened ReedSolomonMatrix
  import opened CyclicFields
  import opened Galois
  import opened GaloisTables
  import opened Galois8
  import opened MultiplyBuffers
  import GaloisField
  import RS = ReedSolomon

  /** The field of the byte tables is one that the Reed Solomon object works over; every volume number is a valid
      exponent. */
  lemma BytesServe(t: Tables)
    requires t.Built() && t.bits == 8 && t.generator == GENERATOR
    ensures t.Sized() && Everywhere(ByteField(t)) && AddsByXor(ByteField(t)) && ByteField(t).limit == 255
  {
    ByteFieldLawful(t);
    var g := ByteField(t);
    forall a: u8, b: u8 ensures AddLaw(g, a, b) {
      assert g.Law(a, b, b);
    }
  }

  /** Two missing blocks can be rebuilt exactly when the first power is not zero and the determinant does not vanish. */
  lemma PairSolves<T(!new)>(g: Field<T>, base: nat -> T, l: Layout)
    requires Everywhere(g) && |l.missing| == 2 && |l.exponents| >= 2
    ensures var a, b := g.pow(base(l.missing[0]), l.exponents[0]), g.pow(base(l.missing[1]), l.exponents[0]);
            var c, d := g.pow(base(l.missing[0]), l.exponents[1]), g.pow(base(l.missing[1]), l.exponents[1]);
            l.Solves(g, base) <==> a != g.zero && g.mul(a, d) != g.mul(b, c)
  {
    var m, c0 := l.Initial(g, base), |l.present| + |l.missing|;
    var a, b, c, d := m[0][c0], m[0][c0 + 1], m[1][c0], m[1][c0 + 1];
    SolvableTwo(g, m, c0);
    if a != g.zero {
      var t := Run(g, m, c0, 1);
      RunStep(g, m, c0, 1);
      assert t[1][c0 + 1] == g.add(d, g.mul(g.div(b, a), c));
      PivotIsDeterminant(g, a, b, c, d);
    }
  }

  lemma SolvableTwo<T(!new)>(g: Field<T>, m: Matrix<T>, c0: nat)
    requires Shape(m, c0 + |m|) && |m| >= 2
    ensures Solvable(g, m, c0, 2) <==> m[0][c0] != g.zero && Run(g, m, c0, 1)[1][c0 + 1] != g.zero
  {
    assert PivotNonZero(g, m, c0, 0) <==> m[0][c0] != g.zero;
    assert PivotNonZero(g, m, c0, 1) <==> Run(g, m, c0, 1)[1][c0 + 1] != g.zero;
  }

  lemma PivotIsDeterminant<T(!new)>(g: Field<T>, a: T, b: T, c: T, d: T)
    requires Everywhere(g) && a != g.zero
    ensures g.add(d, g.mul(g.div(b, a), c)) == g.zero <==> g.mul(a, d) == g.mul(b, c)
  {
    var q := g.div(b, a);
    var x := g.add(d, g.mul(q, c));
    assert g.Law(b, a, a);
    assert g.Law(d, g.mul(q, c), a);
    assert g.Law(q, c, a);
    assert g.Law(c, a, a);
    assert g.Law(q, a, c);
    assert g.Law(a, d, d);
    assert g.mul(x, a) == g.add(g.mul(a, d), g.mul(b, c));
    SumZero(g, g.mul(a, d), g.mul(b, c));
    Products(g, a, a);
    if g.mul(a, d) == g.mul(b, c) { MulCancel(g, x, a); }
  }

  /** The base of input 213 has order three: its third and sixth powers are 1. */
  lemma PowersOf214(t: Tables, e: nat)
    requires t.Built() && t.bits == 8 && t.generator == GENERATOR && (e == 3 || e == 6)
    ensures t.Sized() && ByteField(t).pow(RS.ByteBase(213), e) == One(8)
  {
    Parameters();
    GeneratorVisitsAll();
    CompleteIsSized(t);
    GaloisField.TableCycleFits(t);
    var c, x := GaloisField.TableCycle(t), RS.ByteBase(213);
    Base213();
    GaloisField.TablesAgree(t, c);
    CubeIsOne(c, t.AsField(), x, e);
    GaloisField.PowIsPower(t, x, e);
  }

  lemma CubeIsOne(c: Cycle<Bits>, f: Field<Bits>, x: Bits, e: nat)
    requires c.Valid() && c.limit == 255 && c.r.member(x) && c.Exp(85) == x && Agrees(c, f) && (e == 3 || e == 6)
    ensures f.Power(x, e) == c.one
  {
    ExpNonZero(c, 85);
    PowerIsExp(c, f, x, 85, e);
    ExpWraps(c, e / 3, 0);
  }

  lemma Base213()
    ensures IsGenerator(8, GENERATOR) && RS.ByteBase(213) == Orbit(8, GENERATOR, 85)
  {
    Orbit85();
    BitsOf214();
    SameBits(RS.ByteBase(213), Orbit(8, GENERATOR, 85), Octet(false, true, true, false, true, false, true, true));
  }

  lemma SameBits(v: Bits, w: Bits, o: Octet)
    requires o.Is(v) && o.Is(w)
    ensures v == w
  {}

  lemma BitsOf214()
    ensures Octet(false, true, true, false, true, false, true, true).Is(ToBits(214, 8))
  {
    assert ToBits(3, 2) == [true, true];
    assert ToBits(13, 4) == [true, false] + ToBits(3, 2);
    assert ToBits(53, 6) == [true, false] + ToBits(13, 4);
    assert ToBits(214, 8) == [false, true] + ToBits(53, 6);
  }

  /** Files 0 and 213 are missing and the volumes with exponents 3 and 6 are at hand: `Compute` fails although there are
      enough volumes. */
  lemma EnoughVolumesMayNotDo(t: Tables, present: seq<nat>)
    requires t.Built() && t.bits == 8 && t.generator == GENERATOR
    ensures t.Sized() && !Layout(present, [0, 213], [3, 6]).Solves(ByteField(t), RS.ByteBase)
  {
    ByteFieldLawful(t);
    var g := ByteField(t);
    PowersOf214(t, 3);
    PowersOf214(t, 6);
    PowersOf1(t, 3);
    PowersOf1(t, 6);
    PairSolves(g, RS.ByteBase, Layout(present, [0, 213], [3, 6]));
  }

  lemma PowersOf1(t: Tables, e: nat)
    requires t.Built() && t.bits == 8 && t.generator == GENERATOR && e <= 255
    ensures t.Sized() && ByteField(t).pow(RS.ByteBase(0), e) == One(8)
  {
    ByteFieldLawful(t);
    var g := ByteField(t);
    assert RS.ByteBase(0) == One(8) by {
      assert ToBits(0, 7) == Zeros(7);
      assert ToBits(1, 8) == [true] + ToBits(0, 7);
    }
    assert g.PowLaw(One(8), e);
    PowerOfOne(g, e);
  }

  lemma {:induction false} PowerOfOne(g: Field<u8>, e: nat)
    requires Everywhere(g)
    ensures g.Power(g.one, e) == g.one
  {
    if e > 0 {
      PowerOfOne(g, e - 1);
      Products(g, g.one, g.one);
    }
  }
}
