/** The check value of CRC-32. */
module CrcCheck {
  import opened Words
  import opened HexBits
  import opened Crc
  import opened CrcCollisions

  const D1: u8 := [true, false, false, false, true, true, false, false]  // 0x31
  const D2: u8 := [false, true, false, false, true, true, false, false]  // 0x32
  const D3: u8 := [true, true, false, false, true, true, false, false]  // 0x33
  const D4: u8 := [false, false, true, false, true, true, false, false]  // 0x34
  const D5: u8 := [true, false, true, false, true, true, false, false]  // 0x35
  const D6: u8 := [false, true, true, false, true, true, false, false]  // 0x36
  const D7: u8 := [true, true, true, false, true, true, false, false]  // 0x37
  const D8: u8 := [false, false, false, true, true, true, false, false]  // 0x38
  const D9: u8 := [true, false, false, true, true, true, false, false]  // 0x39

  /** The digits one to nine as characters. */
  const DIGITS: seq<u8> := [D1, D2, D3, D4, D5, D6, D7, D8, D9]

  /** The register after the first `n` digits. */
  function Digits(n: nat): u32
    requires n <= 9
  {
    Update(ONES, DIGITS[..n])
  }

  lemma NextDigit(n: nat, v: bv32, byte: bv32, b: u8, after: bv32)
    requires n < 9 && b == DIGITS[n] && Is(v, Digits(n)) && Is(byte, Embed(b)) && Step8Hex(v ^ byte) == after
    ensures Is(after, Digits(n + 1))
  {
    UpdateLast(ONES, DIGITS, n);
    ByteFed(v, Digits(n), byte, b, after);
  }

  lemma OneTwoBytes()
    ensures Is(0x31, Embed(D1))
    ensures Is(0x32, Embed(D2))
  {}

  lemma OneTwoSteps()
    ensures Step8Hex(0xFFFFFFFF ^ 0x31) == 0x7C231048
    ensures Step8Hex(0x7C231048 ^ 0x32) == 0xB0ACBB32
  {}

  lemma ThreeFourBytes()
    ensures Is(0x33, Embed(D3))
    ensures Is(0x34, Embed(D4))
  {}

  lemma ThreeFourSteps()
    ensures Step8Hex(0xB0ACBB32 ^ 0x33) == 0x77B79C2D
    ensures Step8Hex(0x77B79C2D ^ 0x34) == 0x641C1F5C
  {}

  lemma FiveSixBytes()
    ensures Is(0x35, Embed(D5))
    ensures Is(0x36, Embed(D6))
  {}

  lemma FiveSixSteps()
    ensures Step8Hex(0x641C1F5C ^ 0x35) == 0x340AC5E3
    ensures Step8Hex(0x340AC5E3 ^ 0x36) == 0xF68D2C9E
  {}

  lemma SevenEightBytes()
    ensures Is(0x37, Embed(D7))
    ensures Is(0x38, Embed(D8))
  {}

  lemma SevenEightSteps()
    ensures Step8Hex(0xF68D2C9E ^ 0x37) == 0xAFFC9660
    ensures Step8Hex(0xAFFC9660 ^ 0x38) == 0x651F2550
  {}

  lemma NineBytes()
    ensures Is(0x39, Embed(D9))
  {}

  lemma NineSteps()
    ensures Step8Hex(0x651F2550 ^ 0x39) == 0x340BC6D9
  {}

  // `n` is zero; as a variable it keeps the sums from being unrolled.

  lemma NoDigitsYet(n: nat)
    requires n == 0
    ensures Is(0xFFFFFFFF, Digits(n)) && Is(0xFFFFFFFF, ONES)
  {
    assert DIGITS[..n] == [];
  }

  lemma ToOneTwo(n: nat)
    requires n == 0
    ensures Is(0xB0ACBB32, Digits(n + 2))
  {
    NoDigitsYet(n);
    OneTwoBytes();
    OneTwoSteps();
    NextDigit(n, 0xFFFFFFFF, 0x31, D1, 0x7C231048);
    NextDigit(n + 1, 0x7C231048, 0x32, D2, 0xB0ACBB32);
  }

  lemma ToThreeFour(n: nat)
    requires n == 0
    ensures Is(0x641C1F5C, Digits(n + 4))
  {
    ToOneTwo(n);
    ThreeFourBytes();
    ThreeFourSteps();
    NextDigit(n + 2, 0xB0ACBB32, 0x33, D3, 0x77B79C2D);
    NextDigit(n + 3, 0x77B79C2D, 0x34, D4, 0x641C1F5C);
  }

  lemma ToFiveSix(n: nat)
    requires n == 0
    ensures Is(0xF68D2C9E, Digits(n + 6))
  {
    ToThreeFour(n);
    FiveSixBytes();
    FiveSixSteps();
    NextDigit(n + 4, 0x641C1F5C, 0x35, D5, 0x340AC5E3);
    NextDigit(n + 5, 0x340AC5E3, 0x36, D6, 0xF68D2C9E);
  }

  lemma ToSevenEight(n: nat)
    requires n == 0
    ensures Is(0x651F2550, Digits(n + 8))
  {
    ToFiveSix(n);
    SevenEightBytes();
    SevenEightSteps();
    NextDigit(n + 6, 0xF68D2C9E, 0x37, D7, 0xAFFC9660);
    NextDigit(n + 7, 0xAFFC9660, 0x38, D8, 0x651F2550);
  }

  lemma ToNine(n: nat)
    requires n == 0
    ensures Is(0x340BC6D9, Digits(n + 9))
  {
    ToSevenEight(n);
    NineBytes();
    NineSteps();
    NextDigit(n + 8, 0x651F2550, 0x39, D9, 0x340BC6D9);
  }

  lemma AllDigits(n: nat)
    requires n == 0
    ensures Is(0xCBF43926, Checksum(DIGITS))
  {
    ToNine(n);
    NoDigitsYet(n);
    assert DIGITS[..n + 9] == DIGITS;
    XorIs(0xFFFFFFFF, 0x340BC6D9, ONES, Update(ONES, DIGITS));
  }

  /** The checksum of the nine digits is 0xCBF43926. */
  lemma CheckValue()
    ensures Is(0xCBF43926, Checksum(DIGITS))
  {
    AllDigits(0);
  }
}
