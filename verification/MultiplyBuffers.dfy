/** Multiply a buffer by a factor into another one, four bytes at a time. */
module MultiplyBuffers {
  import opened Words
  import opened Fields

  /** Field addition is the exclusive-or of bytes. */
  ghost predicate AddsByXor(g: Field<u8>) {
    forall a: u8, b: u8 :: AddLaw(g, a, b)
  }

  ghost predicate AddLaw(g: Field<u8>, a: u8, b: u8) {
    g.add(a, b) == Xor(a, b)
  }

  function Byte(i: nat): u8 {
    ToBits(i, 8)
  }

  /** Where the product of two bytes is kept. */
  function Slot(ii: nat, jj: nat): nat {
    ii * 256 + jj
  }

  /** All products of two bytes, the first one selecting a stretch of 256 entries. */
  class LongMultiplyTable {
    const tables: array<u8>

    ghost predicate Holds(g: Field<u8>)
      reads tables
    {
      && tables.Length == 65536
      && forall ii, jj :: 0 <= ii < 256 && 0 <= jj < 256 ==> tables[Slot(ii, jj)] == g.mul(Byte(ii), Byte(jj))
    }

    constructor (g: Field<u8>)
      ensures Holds(g) && fresh(tables)
    {
      tables := new u8[65536](i => Zeros(8));
      new;
      for ii := 0 to 256
        invariant forall i, j :: 0 <= i < ii && 0 <= j < 256 ==> tables[Slot(i, j)] == g.mul(Byte(i), Byte(j))
      {
        for jj := 0 to 256
          invariant forall i, j :: 0 <= i < ii && 0 <= j < 256 ==> tables[Slot(i, j)] == g.mul(Byte(i), Byte(j))
          invariant forall j :: 0 <= j < jj ==> tables[Slot(ii, j)] == g.mul(Byte(ii), Byte(j))
        {
          tables[Slot(ii, jj)] := g.mul(Byte(ii), Byte(jj));
        }
      }
    }
  }

  // Words in memory, least significant byte first.

  function Extend(b: u8): u32 {
    b + Zeros(24)
  }

  function Join(b0: u8, b1: u8, b2: u8, b3: u8): u32 {
    b0 + b1 + b2 + b3
  }

  /** Byte `k` of a word. */
  function Lane(w: u32, k: nat): u8
    requires k < 4
  {
    ShiftDown(w, 8 * k)[..8]
  }

  lemma LaneOfJoin(b0: u8, b1: u8, b2: u8, b3: u8)
    ensures Lane(Join(b0, b1, b2, b3), 0) == b0 && Lane(Join(b0, b1, b2, b3), 1) == b1
    ensures Lane(Join(b0, b1, b2, b3), 2) == b2 && Lane(Join(b0, b1, b2, b3), 3) == b3
  {}

  /** Four products combined into one word, the way the loop combines them. */
  function Combine(p0: u8, p1: u8, p2: u8, p3: u8): u32 {
    Xor(Xor(Xor(Extend(p0), ShiftUp(Extend(p1), 8)), ShiftUp(Extend(p2), 16)), ShiftUp(Extend(p3), 24))
  }

  lemma CombineIsJoin(p0: u8, p1: u8, p2: u8, p3: u8)
    ensures Combine(p0, p1, p2, p3) == Join(p0, p1, p2, p3)
  {
    var w, j := Combine(p0, p1, p2, p3), Join(p0, p1, p2, p3);
    forall i | 0 <= i < 32 ensures w[i] == j[i] {
      if i < 8 {} else if i < 16 {} else if i < 24 {}
    }
  }

  lemma XorOfJoins(d0: u8, d1: u8, d2: u8, d3: u8, p0: u8, p1: u8, p2: u8, p3: u8)
    ensures Xor(Join(d0, d1, d2, d3), Join(p0, p1, p2, p3)) == Join(Xor(d0, p0), Xor(d1, p1), Xor(d2, p2), Xor(d3, p3))
  {
    var w := Xor(Join(d0, d1, d2, d3), Join(p0, p1, p2, p3));
    var j := Join(Xor(d0, p0), Xor(d1, p1), Xor(d2, p2), Xor(d3, p3));
    forall i | 0 <= i < 32 ensures w[i] == j[i] {
      if i < 8 {} else if i < 16 {} else if i < 24 {}
    }
  }

  lemma ByteIndex(b: u8)
    ensures Value(b) < 256 && Byte(Value(b)) == b
  {
    ValueBound(b);
    assert Pow2(8) == 256 by { assert Pow2(4) == 16; }
    ToBitsOfValue(b);
  }

  /** What every output byte becomes. */
  function Accumulated(g: Field<u8>, factor: u8, before: u8, input: u8): u8 {
    g.add(before, g.mul(factor, input))
  }

  /** `L` holds the products of `factor`, one word each. */
  ghost predicate ProductWords(g: Field<u8>, factor: u8, L: seq<u32>) {
    && |L| == 256
    && forall i :: 0 <= i < 256 ==> L[i] == Extend(g.mul(factor, Byte(i)))
  }

  lemma ProductAt(g: Field<u8>, factor: u8, L: seq<u32>, b: u8)
    requires ProductWords(g, factor, L)
    ensures Value(b) < 256 && L[Value(b)] == Extend(g.mul(factor, b))
  {
    ByteIndex(b);
  }

  /** The word stored for input word `s` over output word `d`. */
  function NewWord(L: seq<u32>, s: u32, d: u32): u32
    requires |L| == 256
  {
    ByteIndex(Lane(s, 0));
    ByteIndex(Lane(s, 1));
    ByteIndex(Lane(s, 2));
    ByteIndex(Lane(s, 3));
    Xor(d, Xor(Xor(Xor(L[Value(Lane(s, 0))], ShiftUp(L[Value(Lane(s, 1))], 8)), ShiftUp(L[Value(Lane(s, 2))], 16)),
               ShiftUp(L[Value(Lane(s, 3))], 24)))
  }

  /** One word step is four byte steps. */
  lemma NewWordLanes(g: Field<u8>, factor: u8, L: seq<u32>, s0: u8, s1: u8, s2: u8, s3: u8, d0: u8, d1: u8, d2: u8,
                     d3: u8)
    requires AddsByXor(g) && ProductWords(g, factor, L)
    ensures NewWord(L, Join(s0, s1, s2, s3), Join(d0, d1, d2, d3))
         == Join(Accumulated(g, factor, d0, s0), Accumulated(g, factor, d1, s1),
                 Accumulated(g, factor, d2, s2), Accumulated(g, factor, d3, s3))
  {
    LaneOfJoin(s0, s1, s2, s3);
    ProductAt(g, factor, L, s0);
    ProductAt(g, factor, L, s1);
    ProductAt(g, factor, L, s2);
    ProductAt(g, factor, L, s3);
    assert AddLaw(g, d0, g.mul(factor, s0)) && AddLaw(g, d1, g.mul(factor, s1));
    assert AddLaw(g, d2, g.mul(factor, s2)) && AddLaw(g, d3, g.mul(factor, s3));
    CombineIsJoin(g.mul(factor, s0), g.mul(factor, s1), g.mul(factor, s2), g.mul(factor, s3));
    XorOfJoins(d0, d1, d2, d3, g.mul(factor, s0), g.mul(factor, s1), g.mul(factor, s2), g.mul(factor, s3));
  }

  function Accumulator(g: Field<u8>, factor: u8): (u8, u8) -> u8 {
    (before: u8, input: u8) => Accumulated(g, factor, before, input)
  }

  /** Entries `start` to `start + done` have been combined with their input entry. */
  ghost predicate Updated<T(!new)>(acc: (T, T) -> T, before: seq<T>, after: seq<T>, input: seq<T>, start: nat,
                                   done: nat) {
    && |after| == |before| && done <= |input|
    && forall i :: 0 <= i < |after| ==>
         after[i] == if start <= i < start + done then acc(before[i], input[i - start]) else before[i]
  }

  /** Store one entry, or four neighbouring ones. */
  method Store<T(!new)>(output: array<T>, o: nat, part: seq<T>, ghost acc: (T, T) -> T, ghost before: seq<T>,
                        ghost input: seq<T>, ghost start: nat, ghost at: nat)
    requires o == start + at && o + |part| <= output.Length && at + |part| <= |input|
    requires Updated(acc, before, output[..], input, start, at)
    requires forall k :: 0 <= k < |part| ==> part[k] == acc(output[o + k], input[at + k])
    modifies output
    ensures Updated(acc, before, output[..], input, start, at + |part|)
  {
    for k := 0 to |part|
      invariant forall j :: k <= j < |part| ==> part[j] == acc(output[o + j], input[at + j])
      invariant Updated(acc, before, output[..], input, start, at + k)
    {
      output[o + k] := part[k];
    }
  }

  /** Load a word of each buffer and work out the four output bytes. */
  method ProcessWord(g: Field<u8>, factor: u8, L: seq<u32>, input: array<u8>, at: nat, output: array<u8>, o: nat)
    returns (part: seq<u8>)
    requires AddsByXor(g) && ProductWords(g, factor, L)
    requires at + 4 <= input.Length && o + 4 <= output.Length
    ensures part == [Accumulated(g, factor, output[o], input[at]), Accumulated(g, factor, output[o + 1], input[at + 1]),
                     Accumulated(g, factor, output[o + 2], input[at + 2]),
                     Accumulated(g, factor, output[o + 3], input[at + 3])]
  {
    var s0, s1, s2, s3 := input[at], input[at + 1], input[at + 2], input[at + 3];
    var d0, d1, d2, d3 := output[o], output[o + 1], output[o + 2], output[o + 3];
    var w := NewWord(L, Join(s0, s1, s2, s3), Join(d0, d1, d2, d3));
    NewWordLanes(g, factor, L, s0, s1, s2, s3, d0, d1, d2, d3);
    LaneOfJoin(Accumulated(g, factor, d0, s0), Accumulated(g, factor, d1, s1), Accumulated(g, factor, d2, s2),
               Accumulated(g, factor, d3, s3));
    part := [Lane(w, 0), Lane(w, 1), Lane(w, 2), Lane(w, 3)];
  }

  /** The row of the multiplication table for `factor`, widened to words. */
  method FactorWords(g: Field<u8>, glmt: LongMultiplyTable, factor: u8) returns (L: seq<u32>)
    requires glmt.Holds(g)
    ensures ProductWords(g, factor, L)
  {
    L := [];
    var fl := Value(factor);
    ByteIndex(factor);
    for i := 0 to 256
      invariant |L| == i && forall k :: 0 <= k < i ==> L[k] == Extend(g.mul(factor, Byte(k)))
    {
      var product := glmt.tables[Slot(fl, i)];
      assert product == g.mul(factor, Byte(i));
      L := L + [Extend(product)];
    }
  }

  /** The bytes left over after the last whole word. */
  method ProcessByte(g: Field<u8>, factor: u8, L: seq<u32>, s: u8, d: u8) returns (b: u8)
    requires AddsByXor(g) && ProductWords(g, factor, L)
    ensures b == Accumulated(g, factor, d, s)
  {
    ProductAt(g, factor, L, s);
    assert AddLaw(g, d, g.mul(factor, s));
    b := Xor(d, L[Value(s)][..8]);
  }

  /** Whole words first, then the bytes left over. */
  method InternalProcess(g: Field<u8>, glmt: LongMultiplyTable, factor: u8, size: nat, input: array<u8>,
                         output: array<u8>, start: nat)
    requires AddsByXor(g) && glmt.Holds(g) && input != output
    requires size <= input.Length && start + size <= output.Length
    modifies output
    ensures Updated(Accumulator(g, factor), old(output[..]), output[..], input[..], start, size)
  {
    var L := FactorWords(g, glmt, factor);
    ProcessWords(g, factor, L, size / 4, input, output, start);
    ProcessTail(g, factor, L, size - size % 4, size, input, output, start, old(output[..]));
  }

  method ProcessWords(g: Field<u8>, factor: u8, L: seq<u32>, words: nat, input: array<u8>, output: array<u8>,
                      start: nat)
    requires AddsByXor(g) && ProductWords(g, factor, L) && input != output
    requires 4 * words <= input.Length && start + 4 * words <= output.Length
    modifies output
    ensures Updated(Accumulator(g, factor), old(output[..]), output[..], input[..], start, 4 * words)
  {
    ghost var acc := Accumulator(g, factor);
    for k := 0 to words
      invariant Updated(acc, old(output[..]), output[..], input[..], start, 4 * k)
    {
      var part := ProcessWord(g, factor, L, input, 4 * k, output, start + 4 * k);
      Store(output, start + 4 * k, part, acc, old(output[..]), input[..], start, 4 * k);
    }
  }

  method ProcessTail(g: Field<u8>, factor: u8, L: seq<u32>, from: nat, size: nat, input: array<u8>, output: array<u8>,
                     start: nat, ghost before: seq<u8>)
    requires AddsByXor(g) && ProductWords(g, factor, L) && input != output
    requires from <= size <= input.Length && start + size <= output.Length
    requires Updated(Accumulator(g, factor), before, output[..], input[..], start, from)
    modifies output
    ensures Updated(Accumulator(g, factor), before, output[..], input[..], start, size)
  {
    ghost var acc := Accumulator(g, factor);
    for at := from to size
      invariant Updated(acc, before, output[..], input[..], start, at)
    {
      var b := ProcessByte(g, factor, L, input[at], output[start + at]);
      Store(output, start + at, [b], acc, before, input[..], start, at);
    }
  }
}
