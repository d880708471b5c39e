/** Machine words as their bits, least significant bit first. */
module Words {
  import opened Arithmetic

  type Bits = seq<bool>
  type u8 = w: Bits | |w| == 8 witness Zeros(8)
  type u32 = w: Bits | |w| == 32 witness Zeros(32)

  function Zeros(n: nat): (w: Bits)
    ensures |w| == n && forall i :: 0 <= i < n ==> !w[i]
  {
    seq(n, i => false)
  }

  /** The word of `n` bits whose only set bit is bit `k`. */
  function Bit(n: nat, k: nat): (w: Bits)
    ensures |w| == n && forall i :: 0 <= i < n ==> w[i] == (i == k)
  {
    seq(n, i => i == k)
  }

  function Xor(a: Bits, b: Bits): (w: Bits)
    requires |a| == |b|
    ensures |w| == |a| && forall i :: 0 <= i < |w| ==> w[i] == (a[i] != b[i])
  {
    seq(|a|, i requires 0 <= i < |a| => a[i] != b[i])
  }

  function Not(a: Bits): (w: Bits)
    ensures |w| == |a| && forall i :: 0 <= i < |w| ==> w[i] == !a[i]
  {
    seq(|a|, i requires 0 <= i < |a| => !a[i])
  }

  lemma XorLaws(a: Bits, b: Bits, c: Bits)
    requires |a| == |b| == |c|
    ensures Xor(a, b) == Xor(b, a)
    ensures Xor(Xor(a, b), c) == Xor(a, Xor(b, c))
    ensures Xor(a, Zeros(|a|)) == a
    ensures Xor(a, a) == Zeros(|a|)
  {}

  /** Shifts keep the width of the word. */
  function ShiftUp(a: Bits, k: nat): (w: Bits)
    requires k <= |a|
    ensures |w| == |a|
  {
    Zeros(k) + a[..|a| - k]
  }

  function ShiftDown(a: Bits, k: nat): (w: Bits)
    requires k <= |a|
    ensures |w| == |a|
  {
    a[k..] + Zeros(k)
  }

  /** The number a word stands for. */
  function Value(a: Bits): nat {
    if a == [] then 0 else (if a[0] then 1 else 0) + 2 * Value(a[1..])
  }

  /** The low `n` bits of a number. */
  function ToBits(v: nat, n: nat): (w: Bits)
    ensures |w| == n
  {
    if n == 0 then [] else [v % 2 == 1] + ToBits(v / 2, n - 1)
  }

  function Pow2(n: nat): (p: nat)
    ensures p > 0
  {
    if n == 0 then 1 else 2 * Pow2(n - 1)
  }

  lemma Bytes256()
    ensures Pow2(8) == 256
  {}

  lemma {:induction false} ValueBound(a: Bits)
    ensures Value(a) < Pow2(|a|)
  {
    if a != [] { ValueBound(a[1..]); }
  }

  lemma {:induction false} ValueOfToBits(v: nat, n: nat)
    ensures v < Pow2(n) ==> Value(ToBits(v, n)) == v
  {
    if n > 0 {
      ValueOfToBits(v / 2, n - 1);
      assert ToBits(v, n)[1..] == ToBits(v / 2, n - 1);
    }
  }

  /** The low bits are the remainder. */
  lemma {:induction false} ValueOfLowBits(v: nat, n: nat)
    ensures Value(ToBits(v, n)) == v % Pow2(n)
  {
    if n > 0 {
      ValueOfLowBits(v / 2, n - 1);
      assert ToBits(v, n)[1..] == ToBits(v / 2, n - 1);
      HalvedRemainder(v, Pow2(n - 1));
    }
  }

  lemma HalvedRemainder(v: nat, p: nat)
    requires p > 0
    ensures v % (2 * p) == v % 2 + 2 * (v / 2 % p)
  {
    var q, r := v / 2 / p, v / 2 % p;
    DivMod(v / 2, p);
    assert v == q * (2 * p) + (v % 2 + 2 * r);
    DivModUnique(v, 2 * p, q, v % 2 + 2 * r);
  }

  lemma {:induction false} ToBitsOfValue(a: Bits)
    ensures ToBits(Value(a), |a|) == a
  {
    if a != [] { ToBitsOfValue(a[1..]); }
  }

  lemma ValueInjective(a: Bits, b: Bits)
    requires |a| == |b| && Value(a) == Value(b)
    ensures a == b
  {
    ToBitsOfValue(a);
    ToBitsOfValue(b);
  }

  lemma {:induction false} ValueOfZeros(n: nat)
    ensures Value(Zeros(n)) == 0
  {
    if n > 0 {
      assert Zeros(n)[1..] == Zeros(n - 1);
      ValueOfZeros(n - 1);
    }
  }
}
