/** Squaring a polynomial modulo the CRC polynomial. */
module CrcSquares {
  import opened Words
  import opened Polynomials
  import opened CrcField
  import opened Squarings

  /** The bits of 0xEDB88320. */
  const CCITT: u32 :=
    [false, false, false, false, false, true, false, false]
    + [true, true, false, false, false, false, false, true]
    + [false, false, false, true, true, true, false, true]
    + [true, false, true, true, false, true, true, true]

  function Ring(): Basis<u32> {
    Modulo(CCITT)
  }

  // Squaring by Horner's rule.

  /** The square of the part of `a` from degree `k` on. */
  ghost function SquareFrom(a: u32, k: nat): u32
    requires k <= 32
    decreases 32 - k
  {
    if k == 32 then Zeros(32) else PlusOne(Twice(SquareFrom(a, k + 1)), a[31 - k])
  }

  function Twice(w: u32): u32 {
    StepX(CCITT, StepX(CCITT, w))
  }

  function PlusOne(w: u32, on: bool): u32 {
    if on then Xor(w, ONE) else w
  }

  lemma {:induction false} HornerSquares(a: u32, k: nat)
    requires k <= 32
    ensures SquareFrom(a, k) == Ring().Mul(ShiftUp(a, k), ShiftUp(a, k))
    decreases 32 - k
  {
    if k == 32 {
      assert ShiftUp(a, 32) == Zeros(32);
      ZeroSquared();
    } else {
      HornerSquares(a, k + 1);
      SquareStep(a, k, ShiftUp(a, k), ShiftUp(a, k + 1));
    }
  }

  lemma ZeroSquared()
    ensures Ring().Mul(Zeros(32), Zeros(32)) == Zeros(32)
  {
    ModuloLawful(CCITT);
    SumOfZero(Ring(), Zeros(32), 32);
  }

  /** Dropping the lowest coefficient and lowering the degrees leaves the rest times the unknown. */
  lemma SplitLowest(a: u32, k: nat)
    requires k < 32
    ensures ShiftUp(a, k) == PlusOne(StepX(CCITT, ShiftUp(a, k + 1)), a[31 - k])
  {
    var s := ShiftUp(a, k + 1);
    forall i | 0 <= i < 32 ensures ShiftUp(a, k)[i] == (StepX(CCITT, s)[i] != (i == 31 && a[31 - k])) {}
  }

  lemma SquareStep(a: u32, k: nat, s: u32, t: u32)
    requires k < 32 && s == ShiftUp(a, k) && t == ShiftUp(a, k + 1)
    ensures Ring().Mul(s, s) == PlusOne(Twice(Ring().Mul(t, t)), a[31 - k])
  {
    var p := Ring();
    var u := StepX(CCITT, t);
    ModuloLawful(CCITT);
    SplitLowest(a, k);
    assert p.r.Run(t, 0) == t;
    assert p.r.Run(t, 1) == u;
    SquareOfRun(p, t, 1);
    TwoSteps(p.Mul(t, t));
    if a[31 - k] {
      SquareOfSum(p, u, ONE);
      assert p.X(0) == ONE;
      MulPowers(p, 0, 0);
    }
  }

  lemma TwoSteps(s: u32)
    ensures Ring().r.Run(s, 2) == Twice(s)
  {
    var r := Ring().r;
    assert r.Run(s, 0) == s;
    assert r.Run(s, 1) == StepX(CCITT, s);
  }

  // Numbers of some other kind stand for words. Kind and relation are parameters, so that the proofs below
  // use nothing but what the operations keep.

  datatype Simulation<!V(!new)> = Simulation(o: Operations<V>, stands: (V, u32) -> bool) {

    ghost predicate Law(v: V, w: u32) {
      stands(v, w) ==>
        && o.odd(v) == w[0]
        && stands(o.half(v), ShiftDown(w, 1))
        && stands(o.step(v), StepX(CCITT, w))
        && stands(o.flip(v), Xor(w, ONE))
    }

    ghost predicate Lawful() {
      stands(o.zero, Zeros(32)) && forall v: V, w: u32 :: Law(v, w)
    }

    /** Coefficients of degree `k` and above have been taken. */
    ghost predicate Reached(s: Squaring<V>, a: u32, k: nat)
      requires k <= 32
    {
      stands(s.done, SquareFrom(a, k)) && stands(s.rest, ShiftDown(a, 32 - k))
    }

    /** `v` stands for the `n`-th power of the unknown. */
    ghost predicate PowerIs(n: nat, v: V) {
      stands(v, Ring().X(n))
    }
  }

  lemma NextReaches<V(!new)>(sim: Simulation<V>, s: Squaring<V>, a: u32, k: nat)
    requires sim.Lawful() && k < 32 && sim.Reached(s, a, k + 1)
    ensures sim.Reached(sim.o.Next(s), a, k)
  {
    var w := SquareFrom(a, k + 1);
    assert sim.Law(s.done, w);
    assert sim.Law(sim.o.step(s.done), StepX(CCITT, w));
    assert sim.Law(sim.o.step(sim.o.step(s.done)), Twice(w));
    assert sim.Law(s.rest, ShiftDown(a, 31 - k));
    ShiftOn(a, 31 - k);
  }

  lemma ShiftOn(a: u32, n: nat)
    requires n < 32
    ensures ShiftDown(ShiftDown(a, n), 1) == ShiftDown(a, n + 1) && ShiftDown(a, n)[0] == a[n]
  {}

  lemma Next4Reaches<V(!new)>(sim: Simulation<V>, s: Squaring<V>, a: u32, k: nat)
    requires sim.Lawful() && k + 4 <= 32 && sim.Reached(s, a, k + 4)
    ensures sim.Reached(sim.o.Next4(s), a, k)
  {
    var t := sim.o.Next(s);
    NextReaches(sim, s, a, k + 3);
    NextReaches(sim, t, a, k + 2);
    NextReaches(sim, sim.o.Next(t), a, k + 1);
    NextReaches(sim, sim.o.Next(sim.o.Next(t)), a, k);
  }

  lemma Next16Reaches<V(!new)>(sim: Simulation<V>, s: Squaring<V>, a: u32, k: nat)
    requires sim.Lawful() && k + 16 <= 32 && sim.Reached(s, a, k + 16)
    ensures sim.Reached(sim.o.Next16(s), a, k)
  {
    var t := sim.o.Next4(s);
    Next4Reaches(sim, s, a, k + 12);
    Next4Reaches(sim, t, a, k + 8);
    Next4Reaches(sim, sim.o.Next4(t), a, k + 4);
    Next4Reaches(sim, sim.o.Next4(sim.o.Next4(t)), a, k);
  }

  // `k` is always zero here; as a variable it keeps the recursion above from being unrolled.

  lemma SquareStands<V(!new)>(sim: Simulation<V>, v: V, a: u32, k: nat)
    requires sim.Lawful() && sim.stands(v, a) && k == 0
    ensures sim.stands(sim.o.Square(v), SquareFrom(a, k))
  {
    var s := Squaring(sim.o.zero, v);
    assert ShiftDown(a, 0) == a;
    Next16Reaches(sim, s, a, k + 16);
    Next16Reaches(sim, sim.o.Next16(s), a, k);
  }

  lemma SquareIsProduct<V(!new)>(sim: Simulation<V>, v: V, a: u32, k: nat)
    requires sim.Lawful() && sim.stands(v, a) && k == 0
    ensures sim.stands(sim.o.Square(v), Ring().Mul(a, a))
  {
    SquareStands(sim, v, a, k);
    HornerSquares(a, k);
    assert ShiftUp(a, 0) == a;
  }

  lemma Doubled<V(!new)>(sim: Simulation<V>, n: nat, v: V)
    requires sim.Lawful() && sim.PowerIs(n, v)
    ensures sim.PowerIs(2 * n, sim.o.Square(v))
  {
    SquareIsProduct(sim, v, Ring().X(n), 0);
    ModuloLawful(CCITT);
    MulPowers(Ring(), n, n);
  }
}
