/** Words over GF(2): a group under exclusive-or together with one linear step.
    The Galois tables (doubling) and the CRC register (one zero bit) are both of this kind. */
module LinearSteps {

  /** The word type stays abstract so that the proofs below use nothing but the laws. */
  datatype Register<!W(!new)> = Register(member: W -> bool, zero: W, xor: (W, W) -> W, step: W -> W) {

    // The laws at three words. A proof instantiates them by asserting `Law` where it needs them.
    ghost predicate Law(a: W, b: W, c: W) {
      member(a) && member(b) && member(c) ==>
        && member(xor(a, b))
        && member(step(a))
        && xor(a, b) == xor(b, a)
        && xor(xor(a, b), c) == xor(a, xor(b, c))
        && xor(a, zero) == a
        && xor(a, a) == zero
        && step(xor(a, b)) == xor(step(a), step(b))
    }

    ghost predicate Lawful() {
      member(zero) && forall a: W, b: W, c: W :: Law(a, b, c)
    }

    /** `n` steps from `a`. */
    function Run(a: W, n: nat): (w: W) {
      if n == 0 then a else step(Run(a, n - 1))
    }
  }

  lemma {:induction false} RunMember<W(!new)>(r: Register<W>, a: W, n: nat)
    requires r.Lawful() && r.member(a)
    ensures r.member(r.Run(a, n))
  {
    if n > 0 {
      RunMember(r, a, n - 1);
      assert r.Law(r.Run(a, n - 1), a, a);
    }
  }

  lemma {:induction false} RunAdd<W(!new)>(r: Register<W>, a: W, m: nat, n: nat)
    ensures r.Run(r.Run(a, m), n) == r.Run(a, m + n)
  {
    if n > 0 { RunAdd(r, a, m, n - 1); }
  }

  lemma {:induction false} RunXor<W(!new)>(r: Register<W>, a: W, b: W, n: nat)
    requires r.Lawful() && r.member(a) && r.member(b)
    ensures r.Run(r.xor(a, b), n) == r.xor(r.Run(a, n), r.Run(b, n))
  {
    if n > 0 {
      RunXor(r, a, b, n - 1);
      RunMember(r, a, n - 1);
      RunMember(r, b, n - 1);
      assert r.Law(r.Run(a, n - 1), r.Run(b, n - 1), r.zero);
    }
  }

  lemma {:induction false} RunZero<W(!new)>(r: Register<W>, n: nat)
    requires r.Lawful()
    ensures r.Run(r.zero, n) == r.zero
  {
    if n > 0 {
      RunZero(r, n - 1);
      assert r.Law(r.zero, r.zero, r.zero);
      assert r.Law(r.step(r.zero), r.zero, r.zero);
    }
  }

  /** Rearranging a sum of four words. */
  lemma Interchange<W(!new)>(r: Register<W>, a: W, b: W, c: W, d: W)
    requires r.Lawful() && r.member(a) && r.member(b) && r.member(c) && r.member(d)
    ensures r.xor(r.xor(a, b), r.xor(c, d)) == r.xor(r.xor(a, c), r.xor(b, d))
  {
    assert r.Law(c, d, a);
    assert r.Law(a, b, r.xor(c, d));
    assert r.Law(b, c, d);
    assert r.Law(c, b, d);
    assert r.Law(b, d, a);
    assert r.Law(a, c, r.xor(b, d));
  }

  /** Once the run returns to its start, whole turns do not matter. */
  lemma {:induction false} RunTurns<W(!new)>(r: Register<W>, a: W, period: nat, turns: nat, n: nat)
    requires r.Run(a, period) == a
    ensures r.Run(a, turns * period + n) == r.Run(a, n)
  {
    if turns > 0 {
      RunTurns(r, a, period, turns - 1, n);
      RunAdd(r, a, period, (turns - 1) * period + n);
      assert turns * period + n == period + ((turns - 1) * period + n);
    }
  }

  /** A step that loses nothing can be undone: two runs that meet started apart by the same amount. */
  lemma {:induction false} RunInjective<W(!new)>(r: Register<W>, a: W, b: W, n: nat)
    requires r.Lawful() && r.member(a) && r.member(b)
    requires forall x: W :: r.member(x) && r.step(x) == r.zero ==> x == r.zero
    requires r.Run(a, n) == r.Run(b, n)
    ensures a == b
  {
    if n == 0 {
    } else {
      var x, y := r.Run(a, n - 1), r.Run(b, n - 1);
      RunMember(r, a, n - 1);
      RunMember(r, b, n - 1);
      assert r.Law(x, y, y);
      assert r.Law(r.step(x), r.step(x), r.zero);
      assert r.xor(x, y) == r.zero;
      assert r.Law(y, y, y);
      assert r.Law(r.zero, y, y);
      assert x == y;
      RunInjective(r, a, b, n - 1);
    }
  }
}
