/** Log and antilog tables for arithmetic in GF(2^bits), for every width and generator. */
module Galois {
  import opened Words
  import opened LinearSteps
  import Pigeonhole

  /** `generator` stands for a polynomial of degree `bits` with a constant term. */
  predicate IsGenerator(bits: nat, generator: Bits) {
    bits >= 1 && |generator| == bits + 1 && generator[0] && generator[bits]
  }

  /** The number of non-zero values. */
  function Limit(bits: nat): nat {
    Pow2(bits) - 1
  }

  function One(bits: nat): (w: Bits)
    ensures |w| == bits
  {
    Bit(bits, 0)
  }

  /** Shift up by one bit and reduce by the generator when the shift leaves the width. */
  function Double(bits: nat, generator: Bits, b: Bits): (w: Bits)
    requires IsGenerator(bits, generator) && |b| == bits
    ensures |w| == bits
  {
    var shifted := [false] + b;
    (if shifted[bits] then Xor(shifted, generator) else shifted)[..bits]
  }

  lemma DoubleBit(bits: nat, generator: Bits, b: Bits, i: nat)
    requires IsGenerator(bits, generator) && |b| == bits && i < bits
    ensures Double(bits, generator, b)[i] == ((i > 0 && b[i - 1]) != (b[bits - 1] && generator[i]))
  {}

  function Doubling(bits: nat, generator: Bits): Register<Bits>
    requires IsGenerator(bits, generator)
  {
    Register(
      (a: Bits) => |a| == bits,
      Zeros(bits),
      (a: Bits, b: Bits) => if |a| == |b| then Xor(a, b) else a,
      (a: Bits) => if |a| == bits then Double(bits, generator, a) else a)
  }

  /** The value reached after doubling 1 `l` times. */
  ghost function Orbit(bits: nat, generator: Bits, l: nat): (w: Bits)
    requires IsGenerator(bits, generator)
    ensures |w| == bits
  {
    DoublingLawful(bits, generator);
    RunMember(Doubling(bits, generator), One(bits), l);
    Doubling(bits, generator).Run(One(bits), l)
  }

  lemma DoublingLawful(bits: nat, generator: Bits)
    requires IsGenerator(bits, generator)
    ensures Doubling(bits, generator).Lawful()
    ensures forall x: Bits :: |x| == bits && Double(bits, generator, x) == Zeros(bits) ==> x == Zeros(bits)
  {
    var r := Doubling(bits, generator);
    forall a: Bits, b: Bits, c: Bits ensures r.Law(a, b, c) {
      if |a| == |b| == |c| == bits {
        XorLaws(a, b, c);
        assert Double(bits, generator, Xor(a, b)) == Xor(Double(bits, generator, a), Double(bits, generator, b));
      }
    }
    forall x: Bits | |x| == bits && Double(bits, generator, x) == Zeros(bits)
      ensures x == Zeros(bits)
    {
      var d := Double(bits, generator, x);
      assert !d[0];
      assert !x[bits - 1];
      forall i | 0 <= i < bits - 1 ensures !x[i] { assert !d[i + 1]; }
    }
  }

  ghost predicate Visited(bits: nat, generator: Bits, v: Bits)
    requires IsGenerator(bits, generator)
  {
    exists l :: 0 <= l < Limit(bits) && Orbit(bits, generator, l) == v
  }

  /** The doubling orbit of 1 visits every non-zero value. */
  ghost predicate VisitsAll(bits: nat, generator: Bits) {
    && IsGenerator(bits, generator)
    && forall v: Bits {:trigger Visited(bits, generator, v)} ::
         |v| == bits && v != Zeros(bits) ==> Visited(bits, generator, v)
  }

  /** 1 comes back for the first time after exactly `Limit` doublings. */
  ghost predicate OrderIsLimit(bits: nat, generator: Bits) {
    && IsGenerator(bits, generator)
    && Orbit(bits, generator, Limit(bits)) == One(bits)
    && forall l :: 0 < l < Limit(bits) ==> Orbit(bits, generator, l) != One(bits)
  }

  lemma OneIsNotZero(bits: nat)
    requires bits >= 1
    ensures One(bits) != Zeros(bits) && Limit(bits) >= 1
  {
    assert One(bits)[0] && !Zeros(bits)[0];
  }

  lemma OrbitNonZero(bits: nat, generator: Bits, l: nat)
    requires IsGenerator(bits, generator)
    ensures Orbit(bits, generator, l) != Zeros(bits)
  {
    var r := Doubling(bits, generator);
    DoublingLawful(bits, generator);
    OneIsNotZero(bits);
    if Orbit(bits, generator, l) == Zeros(bits) {
      RunZero(r, l);
      RunInjective(r, One(bits), Zeros(bits), l);
    }
  }

  lemma OrbitMeets(bits: nat, generator: Bits, i: nat, d: nat)
    requires IsGenerator(bits, generator)
    requires Orbit(bits, generator, i) == Orbit(bits, generator, i + d)
    ensures Orbit(bits, generator, d) == One(bits)
  {
    var r := Doubling(bits, generator);
    DoublingLawful(bits, generator);
    RunAdd(r, One(bits), d, i);
    RunMember(r, One(bits), d);
    RunInjective(r, One(bits), r.Run(One(bits), d), i);
  }

  /** The orbit up to `Limit`, as numbers. */
  ghost function OrbitValues(bits: nat, generator: Bits): (s: seq<nat>)
    requires IsGenerator(bits, generator)
    ensures |s| == Limit(bits)
    ensures forall l :: 0 <= l < |s| ==> s[l] == Value(Orbit(bits, generator, l))
  {
    seq(Limit(bits), l requires 0 <= l => Value(Orbit(bits, generator, l)))
  }

  lemma OrbitValuesWithin(bits: nat, generator: Bits)
    requires IsGenerator(bits, generator)
    ensures Pigeonhole.Within(OrbitValues(bits, generator), Limit(bits))
  {
    forall l | 0 <= l < Limit(bits) ensures 1 <= OrbitValues(bits, generator)[l] <= Limit(bits) {
      var v := Orbit(bits, generator, l);
      OrbitNonZero(bits, generator, l);
      ValueBound(v);
      ValueOfZeros(bits);
      if Value(v) == 0 { ValueInjective(v, Zeros(bits)); }
    }
  }

  lemma CoversIffVisitsAll(bits: nat, generator: Bits)
    requires IsGenerator(bits, generator)
    ensures Pigeonhole.Covers(OrbitValues(bits, generator), Limit(bits)) <==> VisitsAll(bits, generator)
  {
    var s := OrbitValues(bits, generator);
    if Pigeonhole.Covers(s, Limit(bits)) {
      forall v: Bits | |v| == bits && v != Zeros(bits)
        ensures Visited(bits, generator, v)
      {
        ValueBound(v);
        ValueOfZeros(bits);
        if Value(v) == 0 { ValueInjective(v, Zeros(bits)); }
        assert Value(v) in s;
        var l :| 0 <= l < |s| && s[l] == Value(v);
        ValueInjective(Orbit(bits, generator, l), v);
      }
    }
    if VisitsAll(bits, generator) {
      forall n: nat | 1 <= n <= Limit(bits) ensures n in s {
        var v := ToBits(n, bits);
        ValueOfToBits(n, bits);
        ValueOfZeros(bits);
        assert Visited(bits, generator, v);
        var l :| 0 <= l < Limit(bits) && Orbit(bits, generator, l) == v;
        assert s[l] == n;
      }
    }
  }

  /** A generator visits every non-zero value exactly when 1 has order `Limit` under doubling. */
  lemma VisitsAllIffOrder(bits: nat, generator: Bits)
    requires IsGenerator(bits, generator)
    ensures VisitsAll(bits, generator) <==> OrderIsLimit(bits, generator)
  {
    var s := OrbitValues(bits, generator);
    OrbitValuesWithin(bits, generator);
    CoversIffVisitsAll(bits, generator);
    Pigeonhole.DistinctIffCovers(s);
    if Pigeonhole.Distinct(s) {
      OrderFromDistinct(bits, generator);
    }
    if OrderIsLimit(bits, generator) {
      forall i, j | 0 <= i < j < |s| ensures s[i] != s[j] {
        if s[i] == s[j] {
          ValueInjective(Orbit(bits, generator, i), Orbit(bits, generator, j));
          OrbitMeets(bits, generator, i, j - i);
        }
      }
    }
  }

  lemma OrderFromDistinct(bits: nat, generator: Bits)
    requires VisitsAll(bits, generator)
    requires Pigeonhole.Distinct(OrbitValues(bits, generator))
    ensures OrderIsLimit(bits, generator)
  {
    var limit := Limit(bits);
    OneIsNotZero(bits);
    OrbitNonZero(bits, generator, limit);
    assert Visited(bits, generator, Orbit(bits, generator, limit));
    var l :| 0 <= l < limit && Orbit(bits, generator, l) == Orbit(bits, generator, limit);
    OrbitMeets(bits, generator, l, limit - l);
    if l > 0 { DistinctFromOne(bits, generator, limit - l); }
    forall k | 0 < k < limit ensures Orbit(bits, generator, k) != One(bits) {
      DistinctFromOne(bits, generator, k);
    }
  }

  lemma DistinctFromOne(bits: nat, generator: Bits, k: nat)
    requires IsGenerator(bits, generator)
    requires Pigeonhole.Distinct(OrbitValues(bits, generator))
    requires 0 < k < Limit(bits)
    ensures Orbit(bits, generator, k) != One(bits)
  {
    var s := OrbitValues(bits, generator);
    assert s[0] != s[k];
    assert Orbit(bits, generator, 0) == One(bits);
  }
}
