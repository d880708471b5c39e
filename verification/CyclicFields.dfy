/** A linear step whose run from 1 returns to 1 and meets every non-zero word gives a field,
    with multiplication by adding logarithms. */
module CyclicFields {
  import opened LinearSteps
  import opened Fields
  import opened Arithmetic

  datatype Cycle<!W(!new)> = Cycle(r: Register<W>, one: W, limit: nat, log: W -> nat) {

    ghost predicate Valid() {
      && r.Lawful()
      && r.member(one) && one != r.zero
      && r.Run(one, limit) == one
      && forall v: W {:trigger log(v)} ::
           r.member(v) && v != r.zero ==> log(v) < limit && r.Run(one, log(v)) == v
    }

    /** The word with logarithm `l`. */
    ghost function Exp(l: nat): W {
      r.Run(one, l)
    }

    ghost function Mul(a: W, b: W): W {
      if a == r.zero || b == r.zero then r.zero else Exp(log(a) + log(b))
    }

    ghost function Div(a: W, b: W): W
      requires Valid() && r.member(b)
    {
      if a == r.zero || b == r.zero then r.zero else Exp(limit - log(b) + log(a))
    }
  }

  lemma ExpMember<W(!new)>(c: Cycle<W>, l: nat)
    requires c.Valid()
    ensures c.r.member(c.Exp(l))
  {
    RunMember(c.r, c.one, l);
  }

  lemma ExpWraps<W(!new)>(c: Cycle<W>, turns: nat, l: nat)
    requires c.Valid()
    ensures c.Exp(turns * c.limit + l) == c.Exp(l)
  {
    RunTurns(c.r, c.one, c.limit, turns, l);
  }

  /** The orbit never meets zero: running on to the next return to 1 would stay at zero. */
  lemma ExpNonZero<W(!new)>(c: Cycle<W>, l: nat)
    requires c.Valid()
    ensures c.Exp(l) != c.r.zero
  {
    if c.Exp(l) == c.r.zero {
      assert c.log(c.one) < c.limit;
      var rest := l * c.limit;
      MulMono(1, c.limit, l);
      ExpWraps(c, l, 0);
      RunAdd(c.r, c.one, l, rest - l);
      RunZero(c.r, rest - l);
    }
  }

  lemma MulIsRun<W(!new)>(c: Cycle<W>, a: W, b: W)
    requires c.Valid() && c.r.member(a) && c.r.member(b) && b != c.r.zero
    ensures c.Mul(a, b) == c.r.Run(a, c.log(b))
  {
    if a == c.r.zero {
      RunZero(c.r, c.log(b));
    } else {
      assert c.r.Run(c.one, c.log(a)) == a;
      RunAdd(c.r, c.one, c.log(a), c.log(b));
    }
  }

  /** A run depends on its length only through the word with that logarithm. */
  lemma RunByExp<W(!new)>(c: Cycle<W>, a: W, m: nat, n: nat)
    requires c.Valid() && c.r.member(a) && c.Exp(m) == c.Exp(n)
    ensures c.r.Run(a, m) == c.r.Run(a, n)
  {
    if a == c.r.zero {
      RunZero(c.r, m);
      RunZero(c.r, n);
    } else {
      var l := c.log(a);
      RunAdd(c.r, c.one, l, m);
      RunAdd(c.r, c.one, m, l);
      RunAdd(c.r, c.one, l, n);
      RunAdd(c.r, c.one, n, l);
    }
  }

  /** Multiplying by the word after one is taking one step. */
  lemma MulByNext<W(!new)>(c: Cycle<W>, a: W)
    requires c.Valid() && c.r.member(a)
    ensures c.Mul(a, c.r.step(c.one)) == c.r.step(a)
  {
    var next := c.Exp(1);
    assert c.r.Run(c.one, 0) == c.one && c.r.Run(a, 0) == a;
    ExpMember(c, 1);
    ExpNonZero(c, 1);
    MulIsRun(c, a, next);
    RunByExp(c, a, c.log(next), 1);
  }

  lemma MulMember<W(!new)>(c: Cycle<W>, a: W, b: W)
    requires c.Valid() && c.r.member(a) && c.r.member(b)
    ensures c.r.member(c.Mul(a, b))
  {
    ExpMember(c, c.log(a) + c.log(b));
  }

  lemma MulAssoc<W(!new)>(c: Cycle<W>, x: W, y: W, z: W)
    requires c.Valid() && c.r.member(x) && c.r.member(y) && c.r.member(z)
    ensures c.Mul(c.Mul(x, y), z) == c.Mul(x, c.Mul(y, z))
  {
    if x != c.r.zero && y != c.r.zero && z != c.r.zero {
      var yz, l := c.Mul(y, z), c.log(y) + c.log(z);
      MulMember(c, x, y);
      MulIsRun(c, x, y);
      MulIsRun(c, c.Mul(x, y), z);
      RunAdd(c.r, x, c.log(y), c.log(z));
      ExpMember(c, l);
      ExpNonZero(c, l);
      MulIsRun(c, x, yz);
      RunByExp(c, x, l, c.log(yz));
    } else if x != c.r.zero && y != c.r.zero {
      assert z == c.r.zero;
    } else {
      assert c.Mul(x, y) == c.r.zero;
    }
  }

  lemma MulDistributes<W(!new)>(c: Cycle<W>, x: W, y: W, z: W)
    requires c.Valid() && c.r.member(x) && c.r.member(y) && c.r.member(z)
    ensures c.Mul(c.r.xor(x, y), z) == c.r.xor(c.Mul(x, z), c.Mul(y, z))
  {
    assert c.r.Law(x, y, y);
    if z == c.r.zero {
      assert c.r.Law(z, z, z);
    } else {
      MulIsRun(c, c.r.xor(x, y), z);
      MulIsRun(c, x, z);
      MulIsRun(c, y, z);
      RunXor(c.r, x, y, c.log(z));
    }
  }

  lemma MulOne<W(!new)>(c: Cycle<W>, x: W)
    requires c.Valid() && c.r.member(x)
    ensures c.Mul(x, c.one) == x
  {
    MulIsRun(c, x, c.one);
    RunByExp(c, x, c.log(c.one), 0);
  }

  lemma DivMul<W(!new)>(c: Cycle<W>, x: W, y: W)
    requires c.Valid() && c.r.member(x) && c.r.member(y) && y != c.r.zero
    ensures c.r.member(c.Div(x, y)) && c.Mul(c.Div(x, y), y) == x
  {
    if x != c.r.zero {
      var l := c.limit - c.log(y) + c.log(x);
      ExpMember(c, l);
      MulIsRun(c, c.Exp(l), y);
      RunAdd(c.r, c.one, l, c.log(y));
      ExpWraps(c, 1, c.log(x));
    }
  }

  /** The field laws for three words, whatever the word type. */
  lemma CycleLaws<W(!new)>(c: Cycle<W>, x: W, y: W, z: W)
    requires c.Valid() && c.r.member(x) && c.r.member(y) && c.r.member(z)
    ensures c.r.member(c.Mul(x, y)) && c.r.member(c.Div(x, y))
    ensures c.Mul(x, y) == c.Mul(y, x)
    ensures c.Mul(c.Mul(x, y), z) == c.Mul(x, c.Mul(y, z))
    ensures c.Mul(x, c.one) == x && c.Mul(x, c.r.zero) == c.r.zero
    ensures c.Mul(c.r.xor(x, y), z) == c.r.xor(c.Mul(x, z), c.Mul(y, z))
    ensures y != c.r.zero ==> c.Mul(c.Div(x, y), y) == x
  {
    MulMember(c, x, y);
    MulAssoc(c, x, y, z);
    MulOne(c, x);
    MulDistributes(c, x, y, z);
    if y != c.r.zero { DivMul(c, x, y); }
  }

  ghost predicate Agrees<W(!new)>(c: Cycle<W>, f: Field<W>)
    requires c.Valid()
  {
    && f.zero == c.r.zero && f.one == c.one
    && (forall x: W :: f.member(x) == c.r.member(x))
    && forall x: W, y: W :: c.r.member(x) && c.r.member(y) ==>
         f.add(x, y) == c.r.xor(x, y) && f.mul(x, y) == c.Mul(x, y) && f.div(x, y) == c.Div(x, y)
  }

  /** Operators that agree with the cycle's form a field. */
  lemma CycleIsField<W(!new)>(c: Cycle<W>, f: Field<W>)
    requires c.Valid() && Agrees(c, f)
    ensures f.RingLaws()
  {
    forall x: W, y: W, z: W ensures f.Law(x, y, z) {
      if c.r.member(x) && c.r.member(y) && c.r.member(z) {
        CycleLaws(c, x, y, z);
        MulMember(c, y, z);
        assert c.r.Law(x, y, z);
        assert c.r.Law(y, z, x);
        assert f.mul(f.mul(x, y), z) == f.mul(x, f.mul(y, z));
        assert f.mul(f.add(x, y), z) == f.add(f.mul(x, z), f.mul(y, z)) by { MulMember(c, x, z); }
        assert f.add(f.add(x, y), z) == f.add(x, f.add(y, z));
      }
    }
  }

  // Looking up a logarithm outside the table: one turn more or less reaches the same word.

  lemma SumIndex<W(!new)>(c: Cycle<W>, sum: nat)
    requires c.Valid() && sum < 2 * c.limit
    ensures c.Exp(if sum >= c.limit then sum - c.limit else sum) == c.Exp(sum)
  {
    if sum >= c.limit { ExpWraps(c, 1, sum - c.limit); }
  }

  lemma DifferenceIndex<W(!new)>(c: Cycle<W>, x: nat, y: nat)
    requires c.Valid() && x < c.limit && y < c.limit
    ensures c.Exp(if x < y then x - y + c.limit else x - y) == c.Exp(c.limit - y + x)
  {
    if x >= y { ExpWraps(c, 1, x - y); }
  }

  function Scaled(l: nat, e: nat): nat {
    MulMono(0, l, e);
    l * e
  }

  /** Raising to a power scales the logarithm, or any other index of the word. */
  lemma {:induction false} PowerIsExp<W(!new)>(c: Cycle<W>, f: Field<W>, x: W, m: nat, e: nat)
    requires c.Valid() && c.r.member(x) && x != c.r.zero && c.Exp(m) == x
    requires f.one == c.one && forall y: W, z: W :: c.r.member(y) && c.r.member(z) ==> f.mul(y, z) == c.Mul(y, z)
    ensures c.r.member(f.Power(x, e)) && f.Power(x, e) == c.Exp(Scaled(m, e))
  {
    ExpMember(c, Scaled(m, e));
    if e > 0 {
      var y := f.Power(x, e - 1);
      PowerIsExp(c, f, x, m, e - 1);
      MulIsRun(c, y, x);
      RunByExp(c, y, c.log(x), m);
      RunAdd(c.r, c.one, Scaled(m, e - 1), m);
      assert Scaled(m, e - 1) + m == Scaled(m, e);
    }
  }

  /** A scaled logarithm, its high part added to its low part. */
  function Fold(size: nat, l: nat, e: nat): (sum: nat)
    requires l + 2 <= size && e + 1 <= size
    ensures sum < 2 * (size - 1)
  {
    FoldInRange(size, l, e);
    Scaled(l, e) / size + Scaled(l, e) % size
  }

  lemma FoldInRange(size: nat, l: nat, e: nat)
    requires l + 2 <= size && e + 1 <= size
    ensures Scaled(l, e) / size + Scaled(l, e) % size < 2 * (size - 1)
  {
    var x := Scaled(l, e);
    MulMono(e, size - 1, l);
    MulMono(l, size - 2, size - 1);
    assert x < (size - 1) * size by { assert (size - 1) * size == (size - 2) * (size - 1) + 2 * (size - 1); }
    DivBelow(x, size, size - 1);
    DivMod(x, size);
  }

  /** Folding leaves the word unchanged, because the run has period `limit`. */
  lemma FoldIndex<W(!new)>(c: Cycle<W>, l: nat, e: nat)
    requires c.Valid() && l < c.limit && e <= c.limit
    ensures c.Exp(Fold(c.limit + 1, l, e)) == c.Exp(Scaled(l, e))
  {
    FoldTurns(Scaled(l, e), c.limit + 1);
    ExpWraps(c, Scaled(l, e) / (c.limit + 1), Fold(c.limit + 1, l, e));
  }

  lemma FoldTurns(x: nat, size: nat)
    requires size > 0
    ensures x == x / size * (size - 1) + (x / size + x % size)
  {
    DivMod(x, size);
    assert x / size * size == x / size * (size - 1) + x / size;
  }
}
