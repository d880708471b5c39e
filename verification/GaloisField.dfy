/** The table-driven operators obey the field laws, and `Pow` is repeated multiplication. */
module GaloisField {
  import opened Words
  import opened CyclicFields
  import opened Galois
  import opened GaloisTables

  /** The doubling orbit with the logarithms the table holds. */
  ghost function TableCycle(t: Tables): Cycle<Bits>
    requires t.Complete()
  {
    CompleteIsSized(t);
    Cycle(Doubling(t.bits, t.generator), One(t.bits), Limit(t.bits), (v: Bits) => if |v| == t.bits then t.Log(v) else 0)
  }

  // What the tables say about a cycle, without the doubling step itself.
  ghost predicate Fits(t: Tables, c: Cycle<Bits>)
    requires t.Sized()
  {
    && c.Valid()
    && c.r.zero == Zeros(t.bits) && c.one == One(t.bits) && c.limit == Limit(t.bits)
    && (forall v: Bits {:trigger c.r.member(v)} :: c.r.member(v) <==> |v| == t.bits)
    && (forall v: Bits {:trigger c.log(v)} :: |v| == t.bits ==> c.log(v) == t.Log(v))
    && (forall a: Bits, b: Bits {:trigger c.r.xor(a, b)} :: |a| == |b| == t.bits ==> c.r.xor(a, b) == Xor(a, b))
    && forall l :: 0 <= l < Limit(t.bits) ==> t.antilog[l] == c.Exp(l)
  }

  lemma TableCycleFits(t: Tables)
    requires t.Complete()
    ensures t.Sized() && Fits(t, TableCycle(t))
  {
    CompleteIsSized(t);
    DoublingLawful(t.bits, t.generator);
    OneIsNotZero(t.bits);
    VisitsAllIffOrder(t.bits, t.generator);
    var c := TableCycle(t);
    forall v: Bits | c.r.member(v) && v != c.r.zero ensures c.log(v) < c.limit && c.r.Run(c.one, c.log(v)) == v {
      assert Orbit(t.bits, t.generator, t.Log(v)) == v;
    }
    forall l | 0 <= l < Limit(t.bits) ensures t.antilog[l] == c.Exp(l) {
      assert t.antilog[l] == Orbit(t.bits, t.generator, l);
    }
  }

  lemma TablesAgree(t: Tables, c: Cycle<Bits>)
    requires t.Sized() && Fits(t, c)
    ensures Agrees(c, t.AsField())
  {
    var f := t.AsField();
    forall a: Bits, b: Bits | c.r.member(a) && c.r.member(b)
      ensures f.add(a, b) == c.r.xor(a, b) && f.mul(a, b) == c.Mul(a, b) && f.div(a, b) == c.Div(a, b)
    {
      MulIsCycleMul(t, c, a, b);
      DivIsCycleDiv(t, c, a, b);
    }
  }

  lemma MulIsCycleMul(t: Tables, c: Cycle<Bits>, a: Bits, b: Bits)
    requires t.Sized() && Fits(t, c) && |a| == |b| == t.bits
    ensures t.Mul(a, b) == c.Mul(a, b)
  {
    if a != Zeros(t.bits) && b != Zeros(t.bits) { SumIndex(c, t.Log(a) + t.Log(b)); }
  }

  /** The table product with twice one is the doubled value, so the product is that of polynomials modulo the
      generator. */
  lemma TimesTwoIsDouble(t: Tables, a: Bits)
    requires t.Complete() && |a| == t.bits
    ensures t.Sized() && t.Mul(a, Double(t.bits, t.generator, One(t.bits))) == Double(t.bits, t.generator, a)
  {
    TableCycleFits(t);
    var c := TableCycle(t);
    MulByNext(c, a);
    MulIsCycleMul(t, c, a, Double(t.bits, t.generator, One(t.bits)));
  }

  lemma DivIsCycleDiv(t: Tables, c: Cycle<Bits>, a: Bits, b: Bits)
    requires t.Sized() && Fits(t, c) && |a| == |b| == t.bits
    ensures t.Div(a, b) == c.Div(a, b)
  {
    if a != Zeros(t.bits) && b != Zeros(t.bits) { DifferenceIndex(c, t.Log(a), t.Log(b)); }
  }

  lemma {:induction false} PowerOfZero(t: Tables, e: nat)
    requires t.Sized() && e > 0
    ensures t.AsField().Power(Zeros(t.bits), e) == Zeros(t.bits)
  {
    if e > 1 { PowerOfZero(t, e - 1); }
  }

  /** Folding the scaled logarithm once lands on the right table entry for every exponent up to `Limit`. */
  lemma PowIsPower(t: Tables, a: Bits, e: nat)
    requires t.Complete() && |a| == t.bits && e <= Limit(t.bits)
    ensures t.Sized() && t.Pow(a, e) == t.AsField().Power(a, e)
  {
    CompleteIsSized(t);
    if a == Zeros(t.bits) {
      if e > 0 { PowerOfZero(t, e); }
    } else if e > 0 {
      TableCycleFits(t);
      PowOfNonZero(t, TableCycle(t), a, e);
    }
  }

  lemma PowOfNonZero(t: Tables, c: Cycle<Bits>, a: Bits, e: nat)
    requires t.Sized() && Fits(t, c)
    requires |a| == t.bits && a != Zeros(t.bits) && 0 < e <= Limit(t.bits)
    ensures t.Pow(a, e) == t.AsField().Power(a, e)
  {
    PowIsExp(t, c, a, e);
    PowerOfTable(t, c, a, e);
    FoldIndex(c, t.Log(a), e);
  }

  lemma PowIsExp(t: Tables, c: Cycle<Bits>, a: Bits, e: nat)
    requires t.Sized() && Fits(t, c)
    requires |a| == t.bits && a != Zeros(t.bits) && 0 < e <= Limit(t.bits)
    ensures t.Pow(a, e) == c.Exp(Fold(Pow2(t.bits), t.Log(a), e))
  {
    SumIndex(c, Fold(Pow2(t.bits), t.Log(a), e));
  }

  lemma PowerOfTable(t: Tables, c: Cycle<Bits>, a: Bits, e: nat)
    requires t.Sized() && Fits(t, c) && |a| == t.bits && a != Zeros(t.bits)
    ensures t.AsField().Power(a, e) == c.Exp(Scaled(t.Log(a), e))
  {
    assert c.r.member(a) && c.log(a) == t.Log(a);
    TablesAgree(t, c);
    PowerIsExp(c, t.AsField(), a, t.Log(a), e);
  }

  /** Every generator that reaches all values makes the table operators a field. */
  lemma TablesFormField(t: Tables)
    requires t.Complete()
    ensures t.Sized() && t.AsField().Lawful()
  {
    TableCycleFits(t);
    var f := t.AsField();
    TablesAgree(t, TableCycle(t));
    CycleIsField(TableCycle(t), f);
    forall a: Bits, e: nat ensures f.PowLaw(a, e) {
      if |a| == t.bits && e <= f.limit { PowIsPower(t, a, e); }
    }
  }
}
