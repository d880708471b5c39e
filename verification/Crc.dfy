/** CRC-32 as in section 8 of RFC 1952: byte by byte, over runs of zeros, and sliding along a buffer. */
module Crc {
  import opened Words
  import opened LinearSteps
  import opened CrcField
  import opened CrcSquares
  import opened Feeding

  /** A byte as the low end of a word. */
  function Embed(b: u8): u32 {
    b + Zeros(24)
  }

  function Low(w: u32): u8 {
    w[..8]
  }

  function Steps(w: u32, n: nat): u32 {
    Ring().r.Run(w, n)
  }

  /** A buffer, each byte as a word. */
  function Embeds(s: seq<u8>): (ws: seq<u32>)
    ensures |ws| == |s|
  {
    seq<u32>(|s|, i requires 0 <= i < |s| => Embed(s[i]))
  }

  /** The checksum register after some bytes, defined one bit at a time: each byte is added to the low end,
      and eight times the register is shifted and reduced. */
  function Update(crc: u32, s: seq<u8>): u32 {
    Feed(Ring().r, crc, Embeds(s))
  }

  const ONES: u32 := Not(Zeros(32))

  /** The checksum of some bytes. */
  function Checksum(s: seq<u8>): u32 {
    Xor(ONES, Update(ONES, s))
  }

  // The lookup table.

  ghost predicate IsTable(t: seq<u32>) {
    && |t| == 256
    && forall b: u8 {:trigger Embed(b)} :: Entry(t, b) == Steps(Embed(b), 8)
  }

  /** The table entry of a byte. */
  function Entry(t: seq<u32>, b: u8): u32
    requires |t| == 256
  {
    ValueBound(b);
    Bytes256();
    t[Value(b)]
  }

  lemma ByteBelow(b: u8)
    ensures Value(b) < 256
  {
    ValueBound(b);
    Bytes256();
  }

  /** While the low bits are zero, steps only shift. */
  lemma {:induction false} StepsShift(w: u32, n: nat)
    requires n <= 32 && forall i :: 0 <= i < n ==> !w[i]
    ensures Steps(w, n) == ShiftDown(w, n)
  {
    if n > 0 {
      StepsShift(w, n - 1);
      assert ShiftDown(ShiftDown(w, n - 1), 1) == ShiftDown(w, n);
    } else {
      assert ShiftDown(w, 0) == w;
    }
  }

  lemma StepsXor(a: u32, b: u32, n: nat)
    ensures Steps(Xor(a, b), n) == Xor(Steps(a, n), Steps(b, n))
  {
    ShiftingLawful(CCITT);
    RunXor(Ring().r, a, b, n);
  }

  lemma StepsAdd(a: u32, m: nat, n: nat)
    ensures Steps(Steps(a, m), n) == Steps(a, m + n)
  {
    RunAdd(Ring().r, a, m, n);
  }

  lemma NoSteps(w: u32)
    ensures Steps(w, 0) == w
  {}

  /** One lookup does the eight steps. */
  lemma TableStep(t: seq<u32>, crc: u32, b: u8)
    requires IsTable(t)
    ensures Xor(ShiftDown(crc, 8), Entry(t, Xor(Low(crc), b))) == FeedOne(Ring().r, crc, Embed(b))
  {
    var low: u8 := Xor(Low(crc), b);
    var high: u32 := Zeros(8) + crc[8..];
    assert Xor(crc, Embed(b)) == Xor(high, Embed(low));
    StepsXor(high, Embed(low), 8);
    StepsShift(high, 8);
    assert ShiftDown(high, 8) == ShiftDown(crc, 8);
  }

  /** Update the register with a buffer of bytes. */
  method CRCUpdateBlock(t: seq<u32>, crc: u32, buffer: seq<u8>) returns (r: u32)
    requires IsTable(t)
    ensures r == Update(crc, buffer)
  {
    r := crc;
    for i := 0 to |buffer|
      invariant r == Update(crc, buffer[..i])
    {
      UpdateLast(crc, buffer, i);
      TableStep(t, r, buffer[i]);
      r := Xor(ShiftDown(r, 8), Entry(t, Xor(Low(r), buffer[i])));
    }
    assert buffer[..|buffer|] == buffer;
  }

  lemma UpdateLast(crc: u32, s: seq<u8>, n: nat)
    requires n < |s|
    ensures Update(crc, s[..n + 1]) == FeedOne(Ring().r, Update(crc, s[..n]), Embed(s[n]))
  {
    assert Embeds(s[..n + 1])[..n] == Embeds(s[..n]);
  }

  function ZeroBytes(n: nat): (s: seq<u8>)
    ensures |s| == n
  {
    seq<u8>(n, i => Zeros(8))
  }

  /** Bytes that are zero leave only the steps. */
  lemma UpdateZeros(crc: u32, n: nat)
    ensures Update(crc, ZeroBytes(n)) == Steps(crc, 8 * n)
  {
    ShiftingLawful(CCITT);
    assert Embed(Zeros(8)) == Zeros(32);
    FeedZeros(Ring().r, crc, Embeds(ZeroBytes(n)));
  }

  lemma UpdateConcat(crc: u32, s: seq<u8>, t: seq<u8>)
    ensures Update(crc, s + t) == Update(Update(crc, s), t)
  {
    assert Embeds(s + t) == Embeds(s) + Embeds(t);
    FeedConcat(Ring().r, crc, Embeds(s), Embeds(t));
  }
}
