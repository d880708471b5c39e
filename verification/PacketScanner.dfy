/** Finding the packets of a recovery file, with a buffer that need not hold a whole packet. */
module PacketScanner {
  import opened Arithmetic
  import opened Options
  import opened DataBlocks

  const HEADER: nat := 64

  /** How packets are recognised: eight bytes of magic, a number stored in eight bytes, and a hash. */
  datatype Format<!B> = Format(magic: seq<B>, number: seq<B> -> nat, md5: seq<B> -> seq<B>)

  predicate MagicAt<B(==)>(f: Format<B>, file: seq<B>, p: nat) {
    p + HEADER <= |file| && file[p..p + 8] == f.magic
  }

  function LengthAt<B>(f: Format<B>, file: seq<B>, p: nat): nat
    requires p + HEADER <= |file|
  {
    f.number(file[p + 8..p + 16])
  }

  /** A packet is long enough for its header, a multiple of four bytes, and inside the file. */
  predicate LengthFits(length: nat, p: nat, filesize: nat) {
    HEADER <= length && length % 4 == 0 && p + length <= filesize
  }

  /** There is a whole, undamaged packet at `p`. The hash covers everything from the set id on. */
  predicate PacketAt<B(==)>(f: Format<B>, file: seq<B>, p: nat) {
    && MagicAt(f, file, p)
    && var length := LengthAt(f, file, p);
       && LengthFits(length, p, |file|)
       && f.md5(file[p + 32..p + length]) == file[p + 16..p + 32]
  }

  /** The packets found by trying every position, skipping over each packet that is found. */
  function Greedy<B(==)>(f: Format<B>, file: seq<B>, p: nat): (found: seq<nat>)
    decreases |file| - p
  {
    if p + HEADER > |file| then []
    else if PacketAt(f, file, p) then [p] + Greedy(f, file, p + LengthAt(f, file, p))
    else Greedy(f, file, p + 1)
  }

  /** `at` is the least position from `p` on with a packet. */
  ghost predicate LeastFrom<B>(f: Format<B>, file: seq<B>, p: nat, at: nat) {
    p <= at && PacketAt(f, file, at) && forall q :: p <= q < at ==> !PacketAt(f, file, q)
  }

  /** Each packet of the naive scan is the least position with a packet at or after the end of the one before,
      and there is none after the last. */
  lemma {:induction false} GreedyIsLeast<B>(f: Format<B>, file: seq<B>, p: nat)
    ensures var found := Greedy(f, file, p);
            && (found == [] ==> forall q :: p <= q ==> !PacketAt(f, file, q))
            && (found != [] ==> LeastFrom(f, file, p, found[0])
                                && found[1..] == Greedy(f, file, found[0] + LengthAt(f, file, found[0])))
    decreases |file| - p
  {
    if p + HEADER <= |file| {
      if PacketAt(f, file, p) {
        var rest := Greedy(f, file, p + LengthAt(f, file, p));
        assert Greedy(f, file, p) == [p] + rest && ([p] + rest)[1..] == rest;
      } else {
        GreedyIsLeast(f, file, p + 1);
      }
    }
  }

  /** Where there is no magic there is nothing to find. */
  lemma {:induction false} GreedySkips<B>(f: Format<B>, file: seq<B>, p: nat, to: nat)
    requires p <= to && forall q :: p <= q < to ==> !PacketAt(f, file, q)
    ensures Greedy(f, file, p) == Greedy(f, file, to)
    decreases |file| - p
  {
    if p < to && p + HEADER <= |file| {
      assert !PacketAt(f, file, p);
      GreedySkips(f, file, p + 1, to);
    }
  }

  /** Scan the part of the file in the buffer for the magic. */
  method ScanBuffer<B(==)>(f: Format<B>, buffer: array<B>, want: nat, ghost file: seq<B>, ghost offset: nat)
    returns (current: nat)
    requires HEADER <= want <= buffer.Length && offset + want <= |file| && buffer[..want] == file[offset..offset + want]
    requires |f.magic| == 8
    ensures current <= want - HEADER + 1
    ensures forall q :: offset <= q < offset + current ==> !MagicAt(f, file, q)
    ensures current <= want - HEADER ==> MagicAt(f, file, offset + current)
  {
    var limit := want - HEADER;
    current := 0;
    while current <= limit && buffer[current..current + 8] != f.magic
      invariant current <= limit + 1
      invariant forall q :: offset <= q < offset + current ==> !MagicAt(f, file, q)
    {
      BufferPart(buffer[..], want, file, offset, current);
      current := current + 1;
    }
    if current <= limit { BufferPart(buffer[..], want, file, offset, current); }
  }

  lemma BufferPart<B>(buf: seq<B>, want: nat, file: seq<B>, offset: nat, at: nat)
    requires want <= |buf| && offset + want <= |file| && buf[..want] == file[offset..offset + want] && at + 8 <= want
    ensures buf[at..at + 8] == file[offset + at..offset + at + 8]
  {
    forall i | at <= i < at + 8 ensures buf[i] == file[offset + i] {
      assert buf[i] == buf[..want][i];
    }
  }

  /** Search for the next magic, one buffer after the other. No magic is missed where two buffers meet. */
  method NextMagic<B(==)>(f: Format<B>, diskfile: DiskFile<B>, buffer: array<B>, from: nat) returns (offset: nat)
    requires |f.magic| == 8 && HEADER <= buffer.Length
    modifies buffer
    ensures from <= offset
    ensures forall q :: from <= q < offset ==> !MagicAt(f, diskfile.content, q)
    ensures offset + HEADER <= |diskfile.content| ==> MagicAt(f, diskfile.content, offset)
  {
    ghost var file := diskfile.content;
    var filesize := |diskfile.content|;
    offset := from;
    while offset + HEADER <= filesize
      invariant from <= offset
      invariant forall q :: from <= q < offset ==> !MagicAt(f, file, q)
      decreases filesize - offset
    {
      var want := Min(buffer.Length, filesize - offset);
      var ok := diskfile.Read(offset, buffer, 0, want);
      assert buffer[..want] == file[offset..offset + want];
      var current := ScanBuffer(f, buffer, want, file, offset);
      offset := offset + current;
      if current <= want - HEADER {
        return;
      }
    }
  }

  /** Feed the hash context with the packet, header first and then a buffer at a time. */
  method FeedPacket<B>(diskfile: DiskFile<B>, buffer: array<B>, offset: nat, length: nat) returns (fed: seq<B>)
    requires HEADER <= length && offset + length <= |diskfile.content| && buffer.Length > 0
    modifies buffer
    ensures fed == diskfile.content[offset + 32..offset + length]
  {
    ghost var file := diskfile.content;
    fed := diskfile.content[offset + 32..offset + HEADER];
    var current, limit := offset + HEADER, offset + length;
    while current < limit
      invariant offset + HEADER <= current <= limit
      invariant fed == file[offset + 32..current]
    {
      var want := Min(buffer.Length, limit - current);
      var ok := diskfile.Read(current, buffer, 0, want);
      assert buffer[..want] == file[current..current + want];
      fed := fed + buffer[..want];
      assert file[offset + 32..current] + file[current..current + want] == file[offset + 32..current + want];
      current := current + want;
    }
  }

  /** Look at a place where the magic is: is there a whole packet, and where to go on. */
  method CheckPacket<B(==)>(f: Format<B>, diskfile: DiskFile<B>, buffer: array<B>, offset: nat)
    returns (found: bool, next: nat)
    requires MagicAt(f, diskfile.content, offset) && buffer.Length > 0
    modifies buffer
    ensures found == PacketAt(f, diskfile.content, offset)
    ensures next == if found then offset + LengthAt(f, diskfile.content, offset) else offset + 1
    ensures var file, length := diskfile.content, f.number(diskfile.content[offset + 8..offset + 16]);
            found <==> && 64 <= length && length % 4 == 0 && offset + length <= |file|
                       && f.md5(file[offset + 32..offset + length]) == file[offset + 16..offset + 32]
    ensures found ==> next == offset + f.number(diskfile.content[offset + 8..offset + 16])
  {
    var length := f.number(diskfile.content[offset + 8..offset + 16]);
    if HEADER > length || length % 4 != 0 || |diskfile.content| < offset + length {
      return false, offset + 1;
    }
    var fed := FeedPacket(diskfile, buffer, offset, length);
    found := f.md5(fed) == diskfile.content[offset + 16..offset + 32];
    next := if found then offset + length else offset + 1;
  }

  /** One round of the scan: the packet at or after `from`, if the first magic there belongs to one,
      and where to go on. */
  method NextPacket<B(==)>(f: Format<B>, diskfile: DiskFile<B>, buffer: array<B>, from: nat)
    returns (offset: nat, found: bool, next: nat)
    requires |f.magic| == 8 && HEADER <= buffer.Length && from + HEADER <= |diskfile.content|
    modifies buffer
    ensures from <= offset && forall q :: from <= q < offset ==> !PacketAt(f, diskfile.content, q)
    ensures found == PacketAt(f, diskfile.content, offset)
    ensures if found then next == offset + LengthAt(f, diskfile.content, offset)
            else next > from && next >= offset && (next == offset + 1 || offset + HEADER > |diskfile.content|)
  {
    offset := from;
    if diskfile.content[offset..offset + 8] != f.magic {
      offset := NextMagic(f, diskfile, buffer, offset + 1);
      if offset + HEADER > |diskfile.content| {
        found, next := false, offset;
        return;
      }
    }
    found, next := CheckPacket(f, diskfile, buffer, offset);
  }

  lemma NothingHere<B>(f: Format<B>, file: seq<B>, at: nat, next: nat)
    requires !PacketAt(f, file, at) && (next == at + 1 || at + HEADER > |file|) && next >= at
    ensures Greedy(f, file, at) == Greedy(f, file, next)
  {}

  function SetId<B>(file: seq<B>, p: nat): seq<B>
    requires p + HEADER <= |file|
  {
    file[p + 32..p + 48]
  }

  ghost predicate Inside<B>(file: seq<B>, packets: seq<nat>) {
    forall i :: 0 <= i < |packets| ==> packets[i] + HEADER <= |file|
  }

  /** The set that is being loaded: the one already known, or that of the first packet found. */
  function SetOf<B>(known: Option<seq<B>>, file: seq<B>, packets: seq<nat>): Option<seq<B>>
    requires Inside(file, packets)
  {
    if known.Some? || packets == [] then known else Some(SetId(file, packets[0]))
  }

  /** The packets of one set. */
  function OfSet<B(==)>(id: Option<seq<B>>, file: seq<B>, packets: seq<nat>): (s: seq<nat>)
    requires Inside(file, packets)
  {
    if packets == [] then []
    else
      var n := |packets| - 1;
      OfSet(id, file, packets[..n]) + if id == Some(SetId(file, packets[n])) then [packets[n]] else []
  }

  /** Exactly the packets of the set, in the order in which they were found. */
  lemma {:induction false} OfSetIs<B>(id: Option<seq<B>>, file: seq<B>, packets: seq<nat>)
    requires Inside(file, packets) && forall i, j :: 0 <= i < j < |packets| ==> packets[i] < packets[j]
    ensures var s := OfSet(id, file, packets);
            && (forall p: nat :: p in s <==> p in packets && id == Some(file[p + 32..p + 48]))
            && forall i, j :: 0 <= i < j < |s| ==> s[i] < s[j]
  {
    if packets != [] {
      var n := |packets| - 1;
      var rest := packets[..n];
      OfSetIs(id, file, rest);
      assert packets == rest + [packets[n]];
      var before, last := OfSet(id, file, rest), if id == Some(SetId(file, packets[n])) then [packets[n]] else [];
      forall i | 0 <= i < |before| ensures before[i] < packets[n] { assert before[i] in rest; }
      assert OfSet(id, file, packets) == before + last;
      assert forall p: nat :: p in before + last <==> p in before || p in last;
    }
  }

  /** The packets of the naive scan ascend. */
  lemma {:induction false} GreedyAscends<B>(f: Format<B>, file: seq<B>, p: nat)
    ensures var s := Greedy(f, file, p);
            && (forall i :: 0 <= i < |s| ==> p <= s[i] && PacketAt(f, file, s[i]))
            && forall i, j :: 0 <= i < j < |s| ==> s[i] < s[j]
    decreases |file| - p
  {
    if p + HEADER <= |file| {
      var next := if PacketAt(f, file, p) then p + LengthAt(f, file, p) else p + 1;
      GreedyAscends(f, file, next);
      assert Greedy(f, file, p) == (if PacketAt(f, file, p) then [p] else []) + Greedy(f, file, next);
    }
  }

  lemma SetOfMore<B>(known: Option<seq<B>>, file: seq<B>, packets: seq<nat>, at: nat)
    requires Inside(file, packets) && at + HEADER <= |file|
    ensures var id := SetOf(known, file, packets);
            SetOf(known, file, packets + [at]) == if id == None then Some(SetId(file, at)) else id
    ensures SetOf(known, file, packets) == None ==> packets == []
  {}

  lemma OfSetMore<B>(file: seq<B>, packets: seq<nat>, at: nat, id: Option<seq<B>>, newId: Option<seq<B>>)
    requires Inside(file, packets) && at + HEADER <= |file| && (id == newId || packets == [])
    ensures OfSet(newId, file, packets + [at])
         == OfSet(id, file, packets) + if newId == Some(SetId(file, at)) then [at] else []
  {
    assert (packets + [at])[..|packets|] == packets;
  }

  /** Remember the set id of the first packet, and take the packet if it is of that set. */
  method Accept<B(==)>(file: seq<B>, ghost known: Option<seq<B>>, ghost packets: seq<nat>, at: nat, id: Option<seq<B>>,
                       loaded: seq<nat>)
    returns (newId: Option<seq<B>>, nowLoaded: seq<nat>)
    requires Inside(file, packets) && at + HEADER <= |file|
    requires id == SetOf(known, file, packets) && loaded == OfSet(id, file, packets)
    ensures newId == SetOf(known, file, packets + [at]) && nowLoaded == OfSet(newId, file, packets + [at])
  {
    SetOfMore(known, file, packets, at);
    OfSetMore(file, packets, at, id, SetOf(known, file, packets + [at]));
    newId := if id == None then Some(SetId(file, at)) else id;
    nowLoaded := if newId == Some(SetId(file, at)) then loaded + [at] else loaded;
  }

  /** One round, as it looks to the naive scan. */
  method ScanRound<B(==)>(f: Format<B>, diskfile: DiskFile<B>, buffer: array<B>, from: nat, ghost packets: seq<nat>)
    returns (at: nat, found: bool, next: nat)
    requires |f.magic| == 8 && HEADER <= buffer.Length && from + HEADER <= |diskfile.content|
    modifies buffer
    ensures next > from && (found ==> at + HEADER <= |diskfile.content|)
    ensures packets + Greedy(f, diskfile.content, from)
         == (if found then packets + [at] else packets) + Greedy(f, diskfile.content, next)
  {
    at, found, next := NextPacket(f, diskfile, buffer, from);
    GreedySkips(f, diskfile.content, from, at);
    if !found { NothingHere(f, diskfile.content, at, next); }
  }

  method ScanPackets<B(==)>(f: Format<B>, diskfile: DiskFile<B>, known: Option<seq<B>>, buffer: array<B>)
    returns (packets: seq<nat>, id: Option<seq<B>>, loaded: seq<nat>)
    requires |f.magic| == 8 && (HEADER <= |diskfile.content| ==> HEADER <= buffer.Length)
    modifies buffer
    ensures packets == Greedy(f, diskfile.content, 0) && Inside(diskfile.content, packets)
    ensures id == SetOf(known, diskfile.content, packets) && loaded == OfSet(id, diskfile.content, packets)
  {
    ghost var file := diskfile.content;
    packets, id, loaded := [], known, [];
    var offset: nat := 0;
    while offset + HEADER <= |diskfile.content|
      invariant packets + Greedy(f, file, offset) == Greedy(f, file, 0) && Inside(file, packets)
      invariant id == SetOf(known, file, packets) && loaded == OfSet(id, file, packets)
      decreases |file| - offset
    {
      var at, found, next := ScanRound(f, diskfile, buffer, offset, packets);
      if found {
        id, loaded := Accept(diskfile.content, known, packets, at, id, loaded);
        packets := packets + [at];
      }
      offset := next;
    }
  }

  /** The buffered scan finds exactly the packets of the naive one, and passes on those of one set. */
  method LoadPackets<B(==)>(f: Format<B>, diskfile: DiskFile<B>, known: Option<seq<B>>)
    returns (packets: seq<nat>, id: Option<seq<B>>, loaded: seq<nat>)
    requires |f.magic| == 8
    ensures packets == Greedy(f, diskfile.content, 0) && Inside(diskfile.content, packets)
    ensures id == SetOf(known, diskfile.content, packets) && loaded == OfSet(id, diskfile.content, packets)
    ensures id == if known != None || packets == [] then known
                  else Some(diskfile.content[packets[0] + 32..packets[0] + 48])
    ensures forall p: nat :: p in loaded <==> p in packets && id == Some(diskfile.content[p + 32..p + 48])
    ensures forall i, j :: 0 <= i < j < |loaded| ==> loaded[i] < loaded[j]
  {
    GreedyAscends(f, diskfile.content, 0);
    if |diskfile.content| == 0 {
      return [], known, [];
    }
    var first := diskfile.content[0];
    var buffer := new B[Min(1048576, |diskfile.content|)](i => first);
    packets, id, loaded := ScanPackets(f, diskfile, known, buffer);
    OfSetIs(id, diskfile.content, packets);
  }
}
