/** CRC-32 tells apart what differs in four bytes in a row, or fewer. */
module CrcDifferences {
  import opened Words
  import opened LinearSteps
  import opened CrcField
  import opened CrcSquares
  import opened CrcPeriod
  import opened Feeding
  import opened Crc

  /** Steps can be undone. */
  lemma StepsInjective(a: u32, b: u32, n: nat)
    requires Steps(a, n) == Steps(b, n)
    ensures a == b
  {
    ShiftingLawful(CCITT);
    forall x: u32 | StepX(CCITT, x) == Zeros(32) ensures x == Zeros(32) {
      if x != Zeros(32) { NothingLost(x); }
    }
    RunInjective(Ring().r, a, b, n);
  }

  lemma XorCancels(a: u32, b: u32, x: u32)
    requires Xor(a, x) == Xor(b, x) || Xor(x, a) == Xor(x, b)
    ensures a == b
  {
    forall i | 0 <= i < 32 ensures a[i] == b[i] {
      assert Xor(a, x)[i] == (a[i] != x[i]) && Xor(b, x)[i] == (b[i] != x[i]);
      assert Xor(x, a)[i] == (x[i] != a[i]) && Xor(x, b)[i] == (x[i] != b[i]);
    }
  }

  /** What was in the register is not lost when bytes are taken in. */
  lemma UpdateKeepsApart(a: u32, b: u32, s: seq<u8>)
    requires Update(a, s) == Update(b, s)
    ensures a == b
  {
    ShiftingLawful(CCITT);
    FeedSplits(Ring().r, a, Embeds(s));
    FeedSplits(Ring().r, b, Embeds(s));
    XorCancels(Steps(a, 8 * |s|), Steps(b, 8 * |s|), Update(Zeros(32), s));
    StepsInjective(a, b, 8 * |s|);
  }

  /** A byte at one of the four places of a word. */
  function Place(b: u8, k: nat): (w: u32)
    requires k < 4
    ensures forall i :: 0 <= i < 32 ==> w[i] == (8 * k <= i < 8 * k + 8 && b[i - 8 * k])
  {
    Zeros(8 * k) + b + Zeros(24 - 8 * k)
  }

  /** Up to four bytes in one word. */
  function Packed(s: seq<u8>): u32
    requires |s| <= 4
  {
    if s == [] then Zeros(32) else Xor(Packed(s[..|s| - 1]), Place(s[|s| - 1], |s| - 1))
  }

  lemma {:induction false} PackedAt(s: seq<u8>, k: nat, j: nat)
    requires |s| <= 4 && k < 4 && j < 8
    ensures Packed(s)[8 * k + j] == (k < |s| && s[k][j])
  {
    if s != [] {
      var n := |s| - 1;
      PackedAt(s[..n], k, j);
      assert Place(s[n], n)[8 * k + j] == (k == n && s[n][j]);
    }
  }

  lemma PackedInjective(s: seq<u8>, t: seq<u8>)
    requires |s| == |t| <= 4 && Packed(s) == Packed(t)
    ensures s == t
  {
    forall k | 0 <= k < |s| ensures s[k] == t[k] { SameByte(s, t, k); }
  }

  lemma SameByte(s: seq<u8>, t: seq<u8>, k: nat)
    requires |s| == |t| <= 4 && Packed(s) == Packed(t) && k < |s|
    ensures s[k] == t[k]
  {
    forall j | 0 <= j < 8 ensures s[k][j] == t[k][j] {
      PackedAt(s, k, j);
      PackedAt(t, k, j);
    }
  }

  /** Steps bring a byte down to the low end. */
  lemma PlaceSteps(b: u8, k: nat)
    requires k < 4
    ensures Steps(Place(b, k), 8 * k) == Embed(b)
  {
    StepsShift(Place(b, k), 8 * k);
    assert ShiftDown(Place(b, k), 8 * k) == Embed(b);
  }

  /** The register takes in up to four bytes as one word. */
  lemma {:induction false} UpdatePacked(crc: u32, s: seq<u8>)
    requires |s| <= 4
    ensures Update(crc, s) == Steps(Xor(crc, Packed(s)), 8 * |s|)
  {
    if s == [] {
      NoneTaken(crc);
    } else {
      var n := |s| - 1;
      UpdatePacked(crc, s[..n]);
      LastTaken(crc, s, n);
    }
  }

  lemma NoneTaken(crc: u32)
    ensures Update(crc, []) == Steps(Xor(crc, Packed([])), 0)
  {
    XorLaws(crc, crc, crc);
    assert Embeds([]) == [];
  }

  lemma LastTaken(crc: u32, s: seq<u8>, n: nat)
    requires |s| == n + 1 <= 4 && Update(crc, s[..n]) == Steps(Xor(crc, Packed(s[..n])), 8 * n)
    ensures Update(crc, s) == Steps(Xor(crc, Packed(s)), 8 * n + 8)
  {
    assert s[..n + 1] == s;
    UpdateLast(crc, s, n);
    OneMore(crc, Update(crc, s[..n]), Packed(s[..n]), s[n], n);
  }

  lemma OneMore(crc: u32, state: u32, packed: u32, b: u8, n: nat)
    requires n < 4 && state == Steps(Xor(crc, packed), 8 * n)
    ensures FeedOne(Ring().r, state, Embed(b)) == Steps(Xor(crc, Xor(packed, Place(b, n))), 8 * n + 8)
  {
    PlaceSteps(b, n);
    PackedOn(crc, packed, Place(b, n), n);
  }

  lemma PackedOn(crc: u32, packed: u32, place: u32, n: nat)
    ensures Steps(Xor(Steps(Xor(crc, packed), 8 * n), Steps(place, 8 * n)), 8)
         == Steps(Xor(crc, Xor(packed, place)), 8 * n + 8)
  {
    XorLaws(crc, packed, place);
    StepsXor(Xor(crc, packed), place, 8 * n);
    StepsAdd(Xor(Xor(crc, packed), place), 8 * n, 8);
  }

  lemma UpdateTells(crc: u32, s: seq<u8>, t: seq<u8>)
    requires |s| == |t| <= 4 && Update(crc, s) == Update(crc, t)
    ensures s == t
  {
    UpdatePacked(crc, s);
    UpdatePacked(crc, t);
    StepsInjective(Xor(crc, Packed(s)), Xor(crc, Packed(t)), 8 * |s|);
    XorCancels(Packed(s), Packed(t), crc);
    PackedInjective(s, t);
  }

  /** Buffers that differ only within four bytes in a row have different checksums. */
  lemma ChecksumTells(before: seq<u8>, s: seq<u8>, t: seq<u8>, after: seq<u8>)
    requires |s| == |t| <= 4 && Checksum(before + s + after) == Checksum(before + t + after)
    ensures s == t
  {
    var start := Update(ONES, before);
    XorCancels(Update(ONES, before + s + after), Update(ONES, before + t + after), ONES);
    UpdateConcat(ONES, before + s, after);
    UpdateConcat(ONES, before, s);
    UpdateConcat(ONES, before + t, after);
    UpdateConcat(ONES, before, t);
    UpdateKeepsApart(Update(start, s), Update(start, t), after);
    UpdateTells(start, s, t);
  }
}
