/** The arithmetic of the CRC on machine words, where constants can be computed with. */
module HexWords {
  import opened Squarings

  function StepHex(v: bv32): bv32 {
    if v & 1 != 0 then (v >> 1) ^ 0xEDB88320 else v >> 1
  }

  const HEX := Operations<bv32>.Operations(v => v >> 1, v => v & 1 != 0, v => StepHex(v), v => v ^ 0x80000000, 0)

  // The same computation without function values.

  function NextHex(s: Squaring<bv32>): Squaring<bv32> {
    var twice := StepHex(StepHex(s.done));
    Taken(s.rest & 1 != 0, twice, twice ^ 0x80000000, s.rest >> 1)
  }

  function Next4Hex(s: Squaring<bv32>): Squaring<bv32> {
    NextHex(NextHex(NextHex(NextHex(s))))
  }

  function Next16Hex(s: Squaring<bv32>): Squaring<bv32> {
    Next4Hex(Next4Hex(Next4Hex(Next4Hex(s))))
  }

  function SquareHex(v: bv32): bv32 {
    Next16Hex(Next16Hex(Squaring(0, v))).done
  }

  lemma RestSame(s: Squaring<bv32>)
    ensures HEX.Next(s).rest == NextHex(s).rest
  {}

  lemma DoneSame(s: Squaring<bv32>)
    ensures HEX.Next(s).done == NextHex(s).done
  {
    if s.rest & 1 == 0 {} else {}
  }

  lemma NextSame(s: Squaring<bv32>)
    ensures HEX.Next(s) == NextHex(s)
  {
    RestSame(s);
    DoneSame(s);
  }

  lemma Next4Same(s: Squaring<bv32>)
    ensures HEX.Next4(s) == Next4Hex(s)
  {
    NextSame(s);
    NextSame(NextHex(s));
    NextSame(NextHex(NextHex(s)));
    NextSame(NextHex(NextHex(NextHex(s))));
  }

  lemma Next16Same(s: Squaring<bv32>)
    ensures HEX.Next16(s) == Next16Hex(s)
  {
    Next4Same(s);
    Next4Same(Next4Hex(s));
    Next4Same(Next4Hex(Next4Hex(s)));
    Next4Same(Next4Hex(Next4Hex(Next4Hex(s))));
  }

  lemma SquareSame(v: bv32)
    ensures HEX.Square(v) == SquareHex(v)
  {
    Next16Same(Squaring(0, v));
    Next16Same(Next16Hex(Squaring(0, v)));
  }

  // 2^32 successive powers of the unknown, by squaring 32 times.

  lemma Squares4()
    ensures SquareHex(0x40000000) == 0x20000000
    ensures SquareHex(0x20000000) == 0x08000000
    ensures SquareHex(0x08000000) == 0x00800000
    ensures SquareHex(0x00800000) == 0x00008000
  {}

  lemma Squares8()
    ensures SquareHex(0x00008000) == 0xEDB88320
    ensures SquareHex(0xEDB88320) == 0xB1E6B092
    ensures SquareHex(0xB1E6B092) == 0xA06A2517
    ensures SquareHex(0xA06A2517) == 0xED627DAE
  {}

  lemma Squares12()
    ensures SquareHex(0xED627DAE) == 0x88D14467
    ensures SquareHex(0x88D14467) == 0xD7BBFE6A
    ensures SquareHex(0xD7BBFE6A) == 0xEC447F11
    ensures SquareHex(0xEC447F11) == 0x8E7EA170
  {}

  lemma Squares16()
    ensures SquareHex(0x8E7EA170) == 0x6427800E
    ensures SquareHex(0x6427800E) == 0x4D47BAE0
    ensures SquareHex(0x4D47BAE0) == 0x09FE548F
    ensures SquareHex(0x09FE548F) == 0x83852D0F
  {}

  lemma Squares20()
    ensures SquareHex(0x83852D0F) == 0x30362F1A
    ensures SquareHex(0x30362F1A) == 0x7B5A9CC3
    ensures SquareHex(0x7B5A9CC3) == 0x31FEC169
    ensures SquareHex(0x31FEC169) == 0x9FEC022A
  {}

  lemma Squares24()
    ensures SquareHex(0x9FEC022A) == 0x6C8DEDC4
    ensures SquareHex(0x6C8DEDC4) == 0x15D6874D
    ensures SquareHex(0x15D6874D) == 0x5FDE7A4E
    ensures SquareHex(0x5FDE7A4E) == 0xBAD90E37
  {}

  lemma Squares28()
    ensures SquareHex(0xBAD90E37) == 0x2E4E5EEF
    ensures SquareHex(0x2E4E5EEF) == 0x4EABA214
    ensures SquareHex(0x4EABA214) == 0xA8A472C0
    ensures SquareHex(0xA8A472C0) == 0x429A969E
  {}

  lemma Squares32()
    ensures SquareHex(0x429A969E) == 0x148D302A
    ensures SquareHex(0x148D302A) == 0xC40BA6D0
    ensures SquareHex(0xC40BA6D0) == 0xC4E22C3C
    ensures SquareHex(0xC4E22C3C) == 0x40000000
  {}

  // What single bits do.

  predicate On(v: bv32, mask: bv32) {
    v & mask != 0
  }

  lemma XorMask(v: bv32, w: bv32, mask: bv32)
    requires mask & (mask - 1) == 0
    ensures ((v ^ w) & mask != 0) == ((v & mask != 0) != (w & mask != 0))
  {}

  lemma XorOn(v: bv32, w: bv32, mask: bv32)
    requires mask & (mask - 1) == 0
    ensures On(v ^ w, mask) == (On(v, mask) != On(w, mask))
  {
    XorMask(v, w, mask);
  }

  lemma ShiftMask(v: bv32, mask: bv32)
    ensures ((v >> 1) & mask != 0) == (v & (mask << 1) != 0)
  {}

  lemma ShiftOn(v: bv32, mask: bv32, up: bv32)
    requires up == mask << 1
    ensures On(v >> 1, mask) == On(v, up)
  {
    ShiftMask(v, mask);
  }
}
