/** Words with a given hexadecimal value. */
module HexBits {
  import opened Words
  import opened HexWords

  predicate Octet0(v: bv32, w: u32) {
    && w[0] == On(v, 0x1) && w[1] == On(v, 0x2)
    && w[2] == On(v, 0x4) && w[3] == On(v, 0x8)
    && w[4] == On(v, 0x10) && w[5] == On(v, 0x20)
    && w[6] == On(v, 0x40) && w[7] == On(v, 0x80)
  }

  predicate Octet1(v: bv32, w: u32) {
    && w[8] == On(v, 0x100) && w[9] == On(v, 0x200)
    && w[10] == On(v, 0x400) && w[11] == On(v, 0x800)
    && w[12] == On(v, 0x1000) && w[13] == On(v, 0x2000)
    && w[14] == On(v, 0x4000) && w[15] == On(v, 0x8000)
  }

  predicate Octet2(v: bv32, w: u32) {
    && w[16] == On(v, 0x10000) && w[17] == On(v, 0x20000)
    && w[18] == On(v, 0x40000) && w[19] == On(v, 0x80000)
    && w[20] == On(v, 0x100000) && w[21] == On(v, 0x200000)
    && w[22] == On(v, 0x400000) && w[23] == On(v, 0x800000)
  }

  predicate Octet3(v: bv32, w: u32) {
    && w[24] == On(v, 0x1000000) && w[25] == On(v, 0x2000000)
    && w[26] == On(v, 0x4000000) && w[27] == On(v, 0x8000000)
    && w[28] == On(v, 0x10000000) && w[29] == On(v, 0x20000000)
    && w[30] == On(v, 0x40000000) && w[31] == On(v, 0x80000000)
  }

  /** The bits of `w` are those of the hexadecimal value `v`. */
  predicate Is(v: bv32, w: u32) {
    Octet0(v, w) && Octet1(v, w) && Octet2(v, w) && Octet3(v, w)
  }

  lemma XorTop(v: bv32, w: bv32)
    ensures On(v ^ w, 0x80000000) == (On(v, 0x80000000) != On(w, 0x80000000))
  {
    XorOn(v, w, 0x80000000);
  }

  lemma XorOctet0(v: bv32, w: bv32, x: u32, y: u32)
    requires Octet0(v, x) && Octet0(w, y)
    ensures Octet0(v ^ w, Xor(x, y))
  {
    XorOn(v, w, 0x1);
    XorOn(v, w, 0x2);
    XorOn(v, w, 0x4);
    XorOn(v, w, 0x8);
    XorOn(v, w, 0x10);
    XorOn(v, w, 0x20);
    XorOn(v, w, 0x40);
    XorOn(v, w, 0x80);
  }

  lemma XorOctet1(v: bv32, w: bv32, x: u32, y: u32)
    requires Octet1(v, x) && Octet1(w, y)
    ensures Octet1(v ^ w, Xor(x, y))
  {
    XorOn(v, w, 0x100);
    XorOn(v, w, 0x200);
    XorOn(v, w, 0x400);
    XorOn(v, w, 0x800);
    XorOn(v, w, 0x1000);
    XorOn(v, w, 0x2000);
    XorOn(v, w, 0x4000);
    XorOn(v, w, 0x8000);
  }

  lemma XorOctet2(v: bv32, w: bv32, x: u32, y: u32)
    requires Octet2(v, x) && Octet2(w, y)
    ensures Octet2(v ^ w, Xor(x, y))
  {
    XorOn(v, w, 0x10000);
    XorOn(v, w, 0x20000);
    XorOn(v, w, 0x40000);
    XorOn(v, w, 0x80000);
    XorOn(v, w, 0x100000);
    XorOn(v, w, 0x200000);
    XorOn(v, w, 0x400000);
    XorOn(v, w, 0x800000);
  }

  lemma XorOctet3(v: bv32, w: bv32, x: u32, y: u32)
    requires Octet3(v, x) && Octet3(w, y)
    ensures Octet3(v ^ w, Xor(x, y))
  {
    XorOn(v, w, 0x1000000);
    XorOn(v, w, 0x2000000);
    XorOn(v, w, 0x4000000);
    XorOn(v, w, 0x8000000);
    XorOn(v, w, 0x10000000);
    XorOn(v, w, 0x20000000);
    XorOn(v, w, 0x40000000);
    XorTop(v, w);
  }

  lemma XorIs(v: bv32, w: bv32, x: u32, y: u32)
    requires Is(v, x) && Is(w, y)
    ensures Is(v ^ w, Xor(x, y))
  {
    XorOctet0(v, w, x, y);
    XorOctet1(v, w, x, y);
    XorOctet2(v, w, x, y);
    XorOctet3(v, w, x, y);
  }

  lemma ShiftOctet0(v: bv32, x: u32)
    requires Octet0(v, x) && Octet1(v, x)
    ensures Octet0(v >> 1, ShiftDown(x, 1))
  {
    ShiftOn(v, 0x1, 0x2);
    ShiftOn(v, 0x2, 0x4);
    ShiftOn(v, 0x4, 0x8);
    ShiftOn(v, 0x8, 0x10);
    ShiftOn(v, 0x10, 0x20);
    ShiftOn(v, 0x20, 0x40);
    ShiftOn(v, 0x40, 0x80);
    ShiftOn(v, 0x80, 0x100);
  }

  lemma ShiftOctet1(v: bv32, x: u32)
    requires Octet1(v, x) && Octet2(v, x)
    ensures Octet1(v >> 1, ShiftDown(x, 1))
  {
    ShiftOn(v, 0x100, 0x200);
    ShiftOn(v, 0x200, 0x400);
    ShiftOn(v, 0x400, 0x800);
    ShiftOn(v, 0x800, 0x1000);
    ShiftOn(v, 0x1000, 0x2000);
    ShiftOn(v, 0x2000, 0x4000);
    ShiftOn(v, 0x4000, 0x8000);
    ShiftOn(v, 0x8000, 0x10000);
  }

  lemma ShiftOctet2(v: bv32, x: u32)
    requires Octet2(v, x) && Octet3(v, x)
    ensures Octet2(v >> 1, ShiftDown(x, 1))
  {
    ShiftOn(v, 0x10000, 0x20000);
    ShiftOn(v, 0x20000, 0x40000);
    ShiftOn(v, 0x40000, 0x80000);
    ShiftOn(v, 0x80000, 0x100000);
    ShiftOn(v, 0x100000, 0x200000);
    ShiftOn(v, 0x200000, 0x400000);
    ShiftOn(v, 0x400000, 0x800000);
    ShiftOn(v, 0x800000, 0x1000000);
  }

  lemma ShiftOctet3(v: bv32, x: u32)
    requires Octet3(v, x)
    ensures Octet3(v >> 1, ShiftDown(x, 1))
  {
    ShiftOn(v, 0x1000000, 0x2000000);
    ShiftOn(v, 0x2000000, 0x4000000);
    ShiftOn(v, 0x4000000, 0x8000000);
    ShiftOn(v, 0x8000000, 0x10000000);
    ShiftOn(v, 0x10000000, 0x20000000);
    ShiftOn(v, 0x20000000, 0x40000000);
    ShiftOn(v, 0x40000000, 0x80000000);
    ShiftOn(v, 0x80000000, 0x0);
  }

  lemma ShiftIs(v: bv32, x: u32)
    requires Is(v, x)
    ensures Is(v >> 1, ShiftDown(x, 1))
  {
    ShiftOctet0(v, x);
    ShiftOctet1(v, x);
    ShiftOctet2(v, x);
    ShiftOctet3(v, x);
  }

  lemma SameOctet(x: u32, y: u32, at: nat)
    requires at + 8 <= 32
    requires x[at] == y[at] && x[at + 1] == y[at + 1] && x[at + 2] == y[at + 2] && x[at + 3] == y[at + 3]
    requires x[at + 4] == y[at + 4] && x[at + 5] == y[at + 5] && x[at + 6] == y[at + 6] && x[at + 7] == y[at + 7]
    ensures forall i :: at <= i < at + 8 ==> x[i] == y[i]
  {}

  lemma SameWord(v: bv32, x: u32, y: u32)
    requires Is(v, x) && Is(v, y)
    ensures x == y
  {
    SameOctet(x, y, 0);
    SameOctet(x, y, 8);
    SameOctet(x, y, 16);
    SameOctet(x, y, 24);
  }
}
