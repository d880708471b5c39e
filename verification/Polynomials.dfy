/** Multiplication of words as polynomials, by shifting and adding. */
module Polynomials {
  import opened LinearSteps

  /** The words of a register as sums of the first `width` powers of its step applied to one. */
  datatype Basis<!W(!new)> = Basis(r: Register<W>, one: W, width: nat, bit: (W, nat) -> bool) {

    ghost predicate BitLaw(a: W, b: W, i: nat) {
      r.member(a) && r.member(b) && i < width ==>
        && bit(r.xor(a, b), i) == (bit(a, i) != bit(b, i))
        && !bit(r.zero, i)
    }

    /** A word is the sum of the powers at its set bits. */
    ghost predicate Expands(w: W) {
      r.member(w) ==> Sum(one, w, width) == w
    }

    ghost predicate Lawful() {
      && r.Lawful() && r.member(one)
      && (forall a: W, b: W, i: nat :: BitLaw(a, b, i))
      && forall w: W :: Expands(w)
    }

    /** `a` times the part of `b` below degree `k`. */
    ghost function Sum(a: W, b: W, k: nat): W {
      if k == 0 then r.zero
      else if bit(b, k - 1) then r.xor(Sum(a, b, k - 1), r.Run(a, k - 1))
      else Sum(a, b, k - 1)
    }

    ghost function Mul(a: W, b: W): W {
      Sum(a, b, width)
    }

    /** The power of the step with exponent `n`. */
    ghost function X(n: nat): W {
      r.Run(one, n)
    }
  }

  lemma {:induction false} SumMember<W(!new)>(p: Basis<W>, a: W, b: W, k: nat)
    requires p.Lawful() && p.r.member(a)
    ensures p.r.member(p.Sum(a, b, k))
  {
    if k > 0 {
      SumMember(p, a, b, k - 1);
      RunMember(p.r, a, k - 1);
      assert p.r.Law(p.Sum(a, b, k - 1), p.r.Run(a, k - 1), a);
    }
  }

  /** Adding to the first factor. */
  lemma {:induction false} SumXorLeft<W(!new)>(p: Basis<W>, a: W, c: W, b: W, k: nat)
    requires p.Lawful() && p.r.member(a) && p.r.member(c)
    ensures p.Sum(p.r.xor(a, c), b, k) == p.r.xor(p.Sum(a, b, k), p.Sum(c, b, k))
  {
    if k == 0 {
      assert p.r.Law(p.r.zero, p.r.zero, p.r.zero);
    } else {
      SumXorLeft(p, a, c, b, k - 1);
      if p.bit(b, k - 1) {
        var s, t := p.Sum(a, b, k - 1), p.Sum(c, b, k - 1);
        SumMember(p, a, b, k - 1);
        SumMember(p, c, b, k - 1);
        RunMember(p.r, a, k - 1);
        RunMember(p.r, c, k - 1);
        RunXor(p.r, a, c, k - 1);
        Interchange(p.r, s, t, p.r.Run(a, k - 1), p.r.Run(c, k - 1));
      }
    }
  }

  /** Adding to the second factor. */
  lemma {:induction false} SumXorRight<W(!new)>(p: Basis<W>, a: W, b: W, c: W, k: nat)
    requires p.Lawful() && p.r.member(a) && p.r.member(b) && p.r.member(c) && k <= p.width
    ensures p.Sum(a, p.r.xor(b, c), k) == p.r.xor(p.Sum(a, b, k), p.Sum(a, c, k))
  {
    if k == 0 {
      assert p.r.Law(p.r.zero, p.r.zero, p.r.zero);
    } else {
      SumXorRight(p, a, b, c, k - 1);
      assert p.BitLaw(b, c, k - 1);
      var s, t, u := p.Sum(a, b, k - 1), p.Sum(a, c, k - 1), p.r.Run(a, k - 1);
      SumMember(p, a, b, k - 1);
      SumMember(p, a, c, k - 1);
      RunMember(p.r, a, k - 1);
      AddOnce(p.r, s, t, u);
    }
  }

  lemma AddOnce<W(!new)>(r: Register<W>, s: W, t: W, u: W)
    requires r.Lawful() && r.member(s) && r.member(t) && r.member(u)
    ensures r.xor(r.xor(s, u), t) == r.xor(r.xor(s, t), u)
    ensures r.xor(s, r.xor(t, u)) == r.xor(r.xor(s, t), u)
    ensures r.xor(r.xor(s, u), r.xor(t, u)) == r.xor(s, t)
  {
    assert r.Law(s, u, t);
    assert r.Law(s, t, u);
    assert r.Law(u, t, s);
    Interchange(r, s, u, t, u);
    assert r.Law(u, u, u);
    assert r.Law(r.xor(s, t), u, u);
  }

  /** Steps on the first factor are steps on the product. */
  lemma {:induction false} SumRun<W(!new)>(p: Basis<W>, a: W, b: W, m: nat, k: nat)
    requires p.Lawful() && p.r.member(a)
    ensures p.Sum(p.r.Run(a, m), b, k) == p.r.Run(p.Sum(a, b, k), m)
  {
    if k == 0 {
      RunZero(p.r, m);
    } else {
      SumRun(p, a, b, m, k - 1);
      if p.bit(b, k - 1) {
        SumMember(p, a, b, k - 1);
        RunMember(p.r, a, k - 1);
        RunXor(p.r, p.Sum(a, b, k - 1), p.r.Run(a, k - 1), m);
        RunAdd(p.r, a, k - 1, m);
        RunAdd(p.r, a, m, k - 1);
      }
    }
  }

  lemma {:induction false} SumOfZero<W(!new)>(p: Basis<W>, b: W, k: nat)
    requires p.Lawful()
    ensures p.Sum(p.r.zero, b, k) == p.r.zero
  {
    if k > 0 {
      SumOfZero(p, b, k - 1);
      RunZero(p.r, k - 1);
      assert p.r.Law(p.r.zero, p.r.zero, p.r.zero);
    }
  }

  /** Multiplying a partial sum of powers by `c` gives the partial sum of the runs of `c`. */
  lemma {:induction false} SumTimes<W(!new)>(p: Basis<W>, a: W, c: W, k: nat)
    requires p.Lawful() && p.r.member(c)
    ensures p.Mul(p.Sum(p.one, a, k), c) == p.Sum(c, a, k)
  {
    if k == 0 {
      SumOfZero(p, c, p.width);
    } else {
      SumTimes(p, a, c, k - 1);
      if p.bit(a, k - 1) {
        SumMember(p, p.one, a, k - 1);
        RunMember(p.r, p.one, k - 1);
        SumXorLeft(p, p.Sum(p.one, a, k - 1), p.X(k - 1), c, p.width);
        SumRun(p, p.one, c, k - 1, p.width);
        assert p.Expands(c);
      }
    }
  }

  lemma MulCommutes<W(!new)>(p: Basis<W>, a: W, b: W)
    requires p.Lawful() && p.r.member(a) && p.r.member(b)
    ensures p.Mul(a, b) == p.Mul(b, a)
  {
    assert p.Expands(a);
    SumTimes(p, a, b, p.width);
  }

  /** Multiplying by a power of the step is taking that many steps. */
  lemma MulByPower<W(!new)>(p: Basis<W>, a: W, n: nat)
    requires p.Lawful() && p.r.member(a)
    ensures p.Mul(a, p.X(n)) == p.r.Run(a, n) && p.Mul(p.X(n), a) == p.r.Run(a, n)
  {
    RunMember(p.r, p.one, n);
    MulCommutes(p, a, p.X(n));
    SumRun(p, p.one, a, n, p.width);
    assert p.Expands(a);
  }

  lemma MulPowers<W(!new)>(p: Basis<W>, m: nat, n: nat)
    requires p.Lawful()
    ensures p.Mul(p.X(m), p.X(n)) == p.X(m + n)
  {
    RunMember(p.r, p.one, m);
    MulByPower(p, p.X(m), n);
    RunAdd(p.r, p.one, m, n);
  }

  /** Squaring adds no cross terms. */
  lemma SquareOfSum<W(!new)>(p: Basis<W>, a: W, b: W)
    requires p.Lawful() && p.r.member(a) && p.r.member(b)
    ensures p.Mul(p.r.xor(a, b), p.r.xor(a, b)) == p.r.xor(p.Mul(a, a), p.Mul(b, b))
  {
    var s := p.r.xor(a, b);
    assert p.r.Law(a, b, a);
    SumXorLeft(p, a, b, s, p.width);
    SumXorRight(p, a, a, b, p.width);
    SumXorRight(p, b, a, b, p.width);
    MulCommutes(p, a, b);
    var aa, bb, ab := p.Mul(a, a), p.Mul(b, b), p.Mul(a, b);
    SumMember(p, a, a, p.width);
    SumMember(p, b, b, p.width);
    SumMember(p, a, b, p.width);
    assert p.r.Law(ab, bb, ab);
    AddOnce(p.r, aa, bb, ab);
  }

  lemma SquareOfRun<W(!new)>(p: Basis<W>, a: W, m: nat)
    requires p.Lawful() && p.r.member(a)
    ensures p.Mul(p.r.Run(a, m), p.r.Run(a, m)) == p.r.Run(p.Mul(a, a), 2 * m)
  {
    var t := p.r.Run(a, m);
    RunMember(p.r, a, m);
    SumRun(p, a, t, m, p.width);
    MulCommutes(p, a, t);
    SumRun(p, a, a, m, p.width);
    RunAdd(p.r, p.Mul(a, a), m, m);
  }

  lemma MulByTwoPowers<W(!new)>(p: Basis<W>, a: W, m: nat, n: nat)
    requires p.Lawful() && p.r.member(a)
    ensures p.Mul(a, p.r.xor(p.X(m), p.X(n))) == p.r.xor(p.r.Run(a, m), p.r.Run(a, n))
  {
    RunMember(p.r, p.one, m);
    RunMember(p.r, p.one, n);
    SumXorRight(p, a, p.X(m), p.X(n), p.width);
    MulByPower(p, a, m);
    MulByPower(p, a, n);
  }
}
