/** The scanner over bytes, with CRC-32 as its checksum. */
module Crc32Scanner {
  import opened Words
  import opened Crc
  import opened CrcTables
  import opened CrcWindow
  import opened FileCheckSummer

  /** The scheme of the program; the hash function is a parameter. */
  function Crc32<D>(table: seq<u32>, windowtable: seq<u32>, md5: seq<u8> -> D): Scheme<u8, u32, D>
    requires |table| == |windowtable| == 256
  {
    Scheme<u8, u32, D>.Scheme(
      (s: seq<u8>) => Checksum(s),
      (crc: u32, inch: u8, outch: u8) => CRCSlideChar(table, crc, inch, outch, windowtable),
      md5, Zeros(8), Zeros(32))
  }

  /** With the two tables of the program, sliding is recomputing, for windows of every length. */
  lemma Crc32Slides<D>(table: seq<u32>, windowtable: seq<u32>, md5: seq<u8> -> D, n: nat)
    requires IsTable(table) && IsWindowTable(windowtable, n)
    ensures Crc32(table, windowtable, md5).Slides(n)
  {
    var scheme := Crc32(table, windowtable, md5);
    forall first: u8, rest: seq<u8>, last: u8 | |rest| + 1 == n ensures scheme.SlideLaw(first, rest, last) {
      SlideIsRecompute(table, windowtable, first, rest, last);
    }
  }

  /** The checksum of a buffer, by table. */
  method CRCCompute(table: seq<u32>, bytes: seq<u8>) returns (crc: u32)
    requires IsTable(table)
    ensures crc == Checksum(bytes)
  {
    crc := CRCUpdateBlock(table, ONES, bytes);
    crc := Xor(ONES, crc);
  }

  /** Extend a checksum over a run of zeros. */
  method ExtendZeros(t: CrcTable, crc: u32, ghost bytes: seq<u8>, n: nat) returns (r: u32)
    requires IsCrc32(t) && crc == Checksum(bytes)
    ensures r == Checksum(bytes + ZeroBytes(n))
  {
    ghost var state := Update(ONES, bytes);
    Inverted(state);
    UpdateConcat(ONES, bytes, ZeroBytes(n));
    var plain := Xor(crc, ONES);
    r := CRCUpdateZeros(t, plain, n);
    r := Xor(ONES, r);
  }

  method ComputePadded(t: CrcTable, bytes: seq<u8>, n: nat) returns (crc: u32)
    requires IsCrc32(t)
    ensures crc == Checksum(bytes + ZeroBytes(n))
  {
    BuiltIsTable(t);
    crc := CRCCompute(t.table[..], bytes);
    if n > 0 {
      crc := ExtendZeros(t, crc, bytes, n);
    } else {
      assert bytes + ZeroBytes(0) == bytes;
    }
  }

  /** The checksum of the first bytes of the window, padded with zeros to a block. */
  method ShortChecksum<D>(c: FileCheckSummer<u8, u32, D>, t: CrcTable, length: nat) returns (crc: u32)
    requires IsCrc32(t) && c.Valid() && c.currentoffset < c.filesize && length <= c.BlockLength()
    ensures crc == Checksum(Stretch(c.file, c.currentoffset, length) + ZeroBytes(c.blocksize - length))
  {
    var bytes := c.FirstBytes(length);
    crc := ComputePadded(t, bytes, c.blocksize - length);
  }
}
