/** The table-driven operators, and the proof that they form a field. */
module GaloisTables {
  import opened Words
  import opened Fields
  import opened Galois
  import opened CyclicFields
  import opened Filling

  /** What the two tables hold once they have been constructed. */
  datatype Tables = Tables(bits: nat, generator: Bits, log: seq<nat>, antilog: seq<Bits>) {

    ghost predicate Built() {
      && IsGenerator(bits, generator)
      && |log| == |antilog| == Pow2(bits)
      && (forall l :: 0 <= l < Limit(bits) ==> antilog[l] == Orbit(bits, generator, l))
      && antilog[Limit(bits)] == Zeros(bits)
      && log[0] == Limit(bits)
      && (forall v: Bits {:trigger Visited(bits, generator, v)} ::
            |v| == bits && Visited(bits, generator, v) ==> HasLog(v))
    }

    ghost predicate HasLog(v: Bits)
      requires IsGenerator(bits, generator) && |log| == Pow2(bits) && |v| == bits
    {
      ValueBound(v);
      log[Value(v)] < Limit(bits) && Orbit(bits, generator, log[Value(v)]) == v
    }

    /** Tables built from a generator that reaches every value. */
    ghost predicate Complete() {
      Built() && VisitsAll(bits, generator)
    }

    /** Every lookup the operators make stays inside the tables. */
    ghost predicate Sized() {
      && bits >= 1 && |log| == |antilog| == Pow2(bits)
      && (forall i :: 0 < i < |log| ==> log[i] < Limit(bits))
      && (forall i :: 0 <= i < |antilog| ==> |antilog[i]| == bits)
    }

    function Log(v: Bits): (l: nat)
      requires Sized() && |v| == bits
      ensures v != Zeros(bits) ==> l < Limit(bits)
    {
      ValueBound(v);
      ValueOfZeros(bits);
      assert Value(v) == 0 ==> v == Zeros(bits) by {
        if Value(v) == 0 { ValueInjective(v, Zeros(bits)); }
      }
      log[Value(v)]
    }

    function Add(a: Bits, b: Bits): (w: Bits)
      requires |a| == |b|
      ensures |w| == |a|
    {
      Xor(a, b)
    }

    function Mul(a: Bits, b: Bits): (w: Bits)
      requires Sized() && |a| == bits && |b| == bits
      ensures |w| == bits
    {
      if a == Zeros(bits) || b == Zeros(bits) then Zeros(bits)
      else
        var sum := Log(a) + Log(b);
        if sum >= Limit(bits) then antilog[sum - Limit(bits)] else antilog[sum]
    }

    function Div(a: Bits, b: Bits): (w: Bits)
      requires Sized() && |a| == bits && |b| == bits
      ensures |w| == bits
    {
      if a == Zeros(bits) || b == Zeros(bits) then Zeros(bits)
      else
        var sum: int := Log(a) - Log(b);
        if sum < 0 then antilog[sum + Limit(bits)] else antilog[sum]
    }

    /** The exponent is folded once: high part plus low part of the scaled logarithm. */
    function Pow(a: Bits, e: nat): (w: Bits)
      requires Sized() && |a| == bits && e <= Limit(bits)
      ensures |w| == bits
    {
      if e == 0 then One(bits)
      else if a == Zeros(bits) then Zeros(bits)
      else
        var sum := Fold(Pow2(bits), Log(a), e);
        if sum >= Limit(bits) then antilog[sum - Limit(bits)] else antilog[sum]
    }

    /** The table operators as a field over words of this width. */
    function AsField(): Field<Bits>
      requires Sized()
    {
      Field(
        (a: Bits) => |a| == bits,
        Zeros(bits),
        One(bits),
        (a: Bits, b: Bits) => if |a| == bits && |b| == bits then Add(a, b) else a,
        (a: Bits, b: Bits) => if |a| == bits && |b| == bits then Mul(a, b) else a,
        (a: Bits, b: Bits) => if |a| == bits && |b| == bits then Div(a, b) else a,
        (a: Bits, e: nat) => if |a| == bits && e <= Limit(bits) then Pow(a, e) else a,
        Limit(bits))
    }
  }

  lemma CompleteIsSized(t: Tables)
    requires t.Complete()
    ensures t.Sized()
    ensures forall v: Bits {:trigger t.Log(v)} :: |v| == t.bits && v != Zeros(t.bits) ==>
              Orbit(t.bits, t.generator, t.Log(v)) == v
  {
    forall i | 0 < i < |t.log| ensures t.log[i] < Limit(t.bits) {
      var v := ToBits(i, t.bits);
      ValueOfToBits(i, t.bits);
      ValueOfZeros(t.bits);
      assert Visited(t.bits, t.generator, v) && t.HasLog(v);
    }
    forall v: Bits | |v| == t.bits && v != Zeros(t.bits) ensures Orbit(t.bits, t.generator, t.Log(v)) == v {
      assert Visited(t.bits, t.generator, v) && t.HasLog(v);
    }
  }

  // After `l` rounds the k-th orbit value has a logarithm below `l` that leads back to it.
  ghost predicate LogAt(bits: nat, generator: Bits, log: seq<nat>, k: nat, l: nat)
    requires IsGenerator(bits, generator) && |log| == Pow2(bits)
  {
    var v := Orbit(bits, generator, k);
    ValueBound(v);
    log[Value(v)] < l && Orbit(bits, generator, log[Value(v)]) == v
  }

  ghost predicate LogsTo(bits: nat, generator: Bits, log: seq<nat>, l: nat)
    requires IsGenerator(bits, generator) && |log| == Pow2(bits)
  {
    forall k :: 0 <= k < l ==> LogAt(bits, generator, log, k, l)
  }

  lemma LogStep(bits: nat, generator: Bits, log: seq<nat>, l: nat)
    requires IsGenerator(bits, generator) && |log| == Pow2(bits)
    requires LogsTo(bits, generator, log, l)
    ensures Value(Orbit(bits, generator, l)) < |log|
    ensures LogsTo(bits, generator, log[Value(Orbit(bits, generator, l)) := l], l + 1)
  {
    var b := Orbit(bits, generator, l);
    ValueBound(b);
    var log', m := log[Value(b) := l], l + 1;
    forall k | 0 <= k < m ensures LogAt(bits, generator, log', k, m) {
      var v := Orbit(bits, generator, k);
      ValueBound(v);
      if Value(v) == Value(b) {
        ValueInjective(v, b);
      } else {
        assert LogAt(bits, generator, log, k, l);
      }
    }
  }

  /** Fills the tables by doubling 1 over and over. */
  class GaloisTable {
    const bits: nat
    const generator: Bits
    const log: array<nat>
    const antilog: array<Bits>

    ghost function Contents(): Tables
      reads log, antilog
    {
      Tables(bits, generator, log[..], antilog[..])
    }

    constructor (bits: nat, generator: Bits)
      requires IsGenerator(bits, generator)
      ensures this.bits == bits && this.generator == generator
      ensures Contents().Built()
      ensures fresh(log) && fresh(antilog)
    {
      this.bits := bits;
      this.generator := generator;
      this.log := new nat[Pow2(bits)](i => Limit(bits));
      this.antilog := new Bits[Pow2(bits)](i => Zeros(bits));
      new;
      FillTables(bits, generator, log, antilog);
      forall v: Bits | |v| == bits && Visited(bits, generator, v) ensures Contents().HasLog(v) {
        var l :| 0 <= l < Limit(bits) && Orbit(bits, generator, l) == v;
        assert LogAt(bits, generator, log[..], l, Limit(bits));
      }
    }
  }

  /** Double one over and over, and note both ways what comes up when. */
  method FillTables(bits: nat, generator: Bits, log: array<nat>, antilog: array<Bits>)
    requires IsGenerator(bits, generator) && log.Length == antilog.Length == Pow2(bits)
    requires log[0] == Limit(bits) && antilog[Limit(bits)] == Zeros(bits)
    modifies log, antilog
    ensures log[0] == Limit(bits) && antilog[Limit(bits)] == Zeros(bits)
    ensures Filled(antilog[..], l => Orbit(bits, generator, l), Limit(bits))
    ensures LogsTo(bits, generator, log[..], Limit(bits))
  {
    var limit := Limit(bits);
    OneIsNotZero(bits);
    var b := One(bits);
    ghost var orbit := (l: nat) => Orbit(bits, generator, l);
    for l := 0 to limit
      invariant b == Orbit(bits, generator, l)
      invariant log[0] == limit && antilog[limit] == Zeros(bits)
      invariant Filled(antilog[..], orbit, l) && LogsTo(bits, generator, log[..], l)
    {
      PutLog(bits, generator, log, l, b);
      Put(antilog, l, b, orbit);
      b := Double(bits, generator, b);
    }
  }

  method PutLog(bits: nat, generator: Bits, log: array<nat>, l: nat, b: Bits)
    requires IsGenerator(bits, generator) && log.Length == Pow2(bits) && b == Orbit(bits, generator, l)
    requires LogsTo(bits, generator, log[..], l)
    modifies log
    ensures LogsTo(bits, generator, log[..], l + 1) && log[0] == old(log[0])
  {
    ValueBound(b);
    OrbitNonZero(bits, generator, l);
    ValueOfZeros(bits);
    if Value(b) == 0 { ValueInjective(b, Zeros(bits)); }
    LogStep(bits, generator, log[..], l);
    log[Value(b)] := l;
  }
}
