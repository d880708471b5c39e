/** Polynomials modulo the CRC polynomial: the highest bit of a word is the coefficient of degree zero. */
module CrcField {
  import opened Words
  import opened LinearSteps
  import opened Polynomials

  /** Multiply by the unknown: shift towards the low end and reduce the bit that falls out. */
  function StepX(polynomial: u32, w: u32): u32 {
    if w[0] then Xor(ShiftDown(w, 1), polynomial) else ShiftDown(w, 1)
  }

  function Shifting(polynomial: u32): Register<u32> {
    Register<u32>.Register((a: u32) => true, Zeros(32), (a: u32, b: u32) => Xor(a, b), (a: u32) => StepX(polynomial, a))
  }

  /** The coefficient of degree `i`. */
  predicate Coefficient(w: u32, i: nat) {
    i < 32 && w[31 - i]
  }

  const ONE: u32 := Bit(32, 31)

  function Modulo(polynomial: u32): Basis<u32> {
    Basis<u32>.Basis(Shifting(polynomial), ONE, 32, (w: u32, i: nat) => Coefficient(w, i))
  }

  lemma StepIsLinear(polynomial: u32, a: u32, b: u32)
    ensures StepX(polynomial, Xor(a, b)) == Xor(StepX(polynomial, a), StepX(polynomial, b))
  {
    var s, x, y := StepX(polynomial, Xor(a, b)), StepX(polynomial, a), StepX(polynomial, b);
    forall i | 0 <= i < 32 ensures s[i] == (x[i] != y[i]) {}
  }

  lemma ShiftingLawful(polynomial: u32)
    ensures Shifting(polynomial).Lawful()
  {
    var r := Shifting(polynomial);
    forall a: u32, b: u32, c: u32 ensures r.Law(a, b, c) {
      XorLaws(a, b, c);
      StepIsLinear(polynomial, a, b);
    }
  }

  /** The first 32 powers are the single bits. */
  lemma {:induction false} LowPower(polynomial: u32, i: nat)
    requires i < 32
    ensures Modulo(polynomial).X(i) == Bit(32, 31 - i)
  {
    if i > 0 {
      LowPower(polynomial, i - 1);
      assert ShiftDown(Bit(32, 32 - i), 1) == Bit(32, 31 - i);
    }
  }

  lemma {:induction false} SumOfBits(polynomial: u32, w: u32, k: nat)
    requires k <= 32
    ensures forall j :: 0 <= j < 32 ==> Modulo(polynomial).Sum(ONE, w, k)[j] == (j >= 32 - k && w[j])
  {
    if k > 0 {
      SumOfBits(polynomial, w, k - 1);
      LowPower(polynomial, k - 1);
    }
  }

  lemma ModuloLawful(polynomial: u32)
    ensures Modulo(polynomial).Lawful()
  {
    ShiftingLawful(polynomial);
    var p := Modulo(polynomial);
    forall a: u32, b: u32, i: nat ensures p.BitLaw(a, b, i) {}
    forall w: u32 ensures p.Expands(w) {
      SumOfBits(polynomial, w, 32);
      assert p.Sum(ONE, w, 32) == w;
    }
  }

  /** The multiplication loop: one step of `a` for each coefficient of `b`. */
  method GF32Multiply(a: u32, b: u32, polynomial: u32) returns (product: u32)
    ensures product == Modulo(polynomial).Mul(a, b)
  {
    ghost var p := Modulo(polynomial);
    product := Zeros(32);
    var x, y := a, b;
    for i := 0 to 31
      invariant product == p.Sum(a, b, i) && x == p.r.Run(a, i)
      invariant forall j :: 0 <= j < 32 - i ==> y[j + i] == b[j]
    {
      if y[31] { product := Xor(product, x); }
      x := StepX(polynomial, x);
      y := ShiftUp(y, 1);
    }
    if y[31] { product := Xor(product, x); }
  }
}
