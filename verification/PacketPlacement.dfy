/** Where the packets of a recovery file go. */
module PacketPlacement {
  import opened Arithmetic
  import opened Words
  import opened Doublings

  /** A recovery packet with its exponent, a critical packet by its number, or the creator packet. */
  datatype Content = Recovery(exponent: nat) | Critical(number: nat) | Creator

  datatype Packet = Packet(content: Content, offset: nat, length: nat)

  /** How long packets are. All recovery packets have the same length. */
  datatype Lengths = Lengths(critical: seq<nat>, recovery: nat, creator: nat) {

    function Of(c: Content): nat
      requires c.Critical? ==> c.number < |critical|
    {
      match c
      case Recovery(_) => recovery
      case Critical(i) => critical[i]
      case Creator => creator
    }
  }

  /** The packets fill the file up to `size`, one right behind the other, each with the length of its content. */
  predicate Tiles(l: Lengths, packets: seq<Packet>, size: nat) {
    if packets == [] then size == 0
    else
      var last := packets[|packets| - 1];
      && (last.content.Critical? ==> last.content.number < |l.critical|)
      && last.length == l.Of(last.content) && last.offset + last.length == size
      && Tiles(l, packets[..|packets| - 1], last.offset)
  }

  predicate NoCreator(packets: seq<Packet>) {
    forall k :: 0 <= k < |packets| ==> !packets[k].content.Creator?
  }

  /** The critical packets, by number, in the order in which they lie in the file. */
  function CriticalsOf(packets: seq<Packet>): seq<nat> {
    if packets == [] then []
    else
      var rest, c := CriticalsOf(packets[..|packets| - 1]), packets[|packets| - 1].content;
      if c.Critical? then rest + [c.number] else rest
  }

  function ExponentsOf(packets: seq<Packet>): seq<nat> {
    if packets == [] then []
    else
      var rest, c := ExponentsOf(packets[..|packets| - 1]), packets[|packets| - 1].content;
      if c.Recovery? then rest + [c.exponent] else rest
  }

  /** Put a packet behind the others. */
  function Append(l: Lengths, packets: seq<Packet>, size: nat, c: Content): (more: seq<Packet>)
    requires Tiles(l, packets, size) && (c.Critical? ==> c.number < |l.critical|)
    ensures Tiles(l, more, size + l.Of(c)) && more == packets + [Packet(c, size, l.Of(c))]
    ensures CriticalsOf(more) == CriticalsOf(packets) + if c.Critical? then [c.number] else []
    ensures ExponentsOf(more) == ExponentsOf(packets) + if c.Recovery? then [c.exponent] else []
  {
    var more := packets + [Packet(c, size, l.Of(c))];
    assert more[..|packets|] == packets;
    more
  }

  predicate Covers(p: Packet, x: nat) {
    p.offset <= x < p.offset + p.length
  }

  /** Every byte of the file is in exactly one packet, and no packet reaches beyond the file. */
  lemma {:induction false} EachByteOnce(l: Lengths, packets: seq<Packet>, size: nat, x: nat)
    requires Tiles(l, packets, size)
    ensures x < size ==>
              exists i :: 0 <= i < |packets| && Covers(packets[i], x)
                          && forall j :: 0 <= j < |packets| && Covers(packets[j], x) ==> j == i
    ensures x >= size ==> forall j :: 0 <= j < |packets| ==> !Covers(packets[j], x)
  {
    if packets != [] {
      var n := |packets| - 1;
      var rest, last := packets[..n], packets[n];
      EachByteOnce(l, rest, last.offset, x);
      assert forall j :: 0 <= j < n ==> packets[j] == rest[j];
      if x < last.offset {
        var i :| 0 <= i < |rest| && Covers(rest[i], x) && forall j :: 0 <= j < |rest| && Covers(rest[j], x) ==> j == i;
        assert Covers(packets[i], x);
      } else if x < size {
        assert Covers(packets[n], x);
      }
    }
  }

  // Taking turns.

  /** The first `m` of the critical packets 0, 1, ..., n - 1, 0, 1, ... */
  function Turns(n: nat, m: nat): (s: seq<nat>)
    requires n > 0
    ensures |s| == m && forall k :: 0 <= k < m ==> s[k] == k % n
  {
    seq(m, k requires 0 <= k < m => k % n)
  }

  function Count(s: seq<nat>, v: nat): nat {
    if s == [] then 0 else Count(s[..|s| - 1], v) + if s[|s| - 1] == v then 1 else 0
  }

  /** After `q` full rounds and `r` more, those below `r` have had one turn more than the others. */
  lemma {:induction false} TurnsCount(n: nat, q: nat, r: nat, v: nat)
    requires v < n && r <= n
    ensures Count(Turns(n, q * n + r), v) == q + if v < r then 1 else 0
    decreases q, r
  {
    var m, s := q * n + r, Turns(n, q * n + r);
    if r > 0 {
      DivModUnique(m - 1, n, q, r - 1);
      assert s[..m - 1] == Turns(n, q * n + (r - 1));
      TurnsCount(n, q, r - 1, v);
    } else if q > 0 {
      assert m == (q - 1) * n + n;
      TurnsCount(n, q - 1, n, v);
    } else {
      assert s == [];
    }
  }

  /** Every packet has had the same number of turns, or one less. */
  lemma TurnsFair(n: nat, m: nat, v: nat, w: nat)
    requires v < n && w < n
    ensures Count(Turns(n, m), v) <= Count(Turns(n, m), w) + 1
  {
    DivMod(m, n);
    TurnsCount(n, m / n, m % n, v);
    TurnsCount(n, m / n, m % n, w);
  }

  // How evenly the critical packets are spread.

  /** After `k` recovery packets and `placed` critical ones, `rest` of the credit is not used up: every recovery packet
      brings `total`, every critical one costs `count`. */
  predicate Balanced(k: nat, placed: nat, total: nat, count: nat, rest: nat) {
    k * total == placed * count + rest
  }

  lemma Earn(k: nat, placed: nat, total: nat, count: nat, rest: nat)
    requires Balanced(k, placed, total, count, rest)
    ensures Balanced(k + 1, placed, total, count, rest + total)
  {
    assert (k + 1) * total == k * total + total;
  }

  lemma Spend(k: nat, placed: nat, total: nat, count: nat, rest: nat)
    requires Balanced(k, placed, total, count, rest) && rest >= count
    ensures Balanced(k, placed + 1, total, count, rest - count)
  {
    assert (placed + 1) * count == placed * count + count;
  }

  /** At the end as many have been placed as should be. */
  lemma AllSpent(placed: nat, total: nat, count: nat, rest: nat)
    requires count > 0 && Balanced(count, placed, total, count, rest) && rest < count
    ensures placed == total && rest == 0
  {
    DivModUnique(count * total, count, placed, rest);
    DivModUnique(count * total, count, total, 0);
  }

  /** After `k` recovery packets, of `count` in all, another critical packet is due in proportion. */
  predicate IsDue(k: nat, placed: nat, total: nat, count: nat) {
    (placed + 1) * count <= k * total
  }

  lemma DueOrNot(k: nat, placed: nat, total: nat, count: nat, rest: nat)
    requires Balanced(k, placed, total, count, rest)
    ensures IsDue(k, placed, total, count) <==> rest >= count
  {
    assert (placed + 1) * count == placed * count + count;
  }

  /** A critical packet lies exactly where one was due. */
  predicate Spread(packets: seq<Packet>, total: nat, count: nat) {
    packets == [] ||
      var rest := packets[..|packets| - 1];
      && Spread(rest, total, count)
      && (packets[|packets| - 1].content.Critical? <==> IsDue(|ExponentsOf(rest)|, |CriticalsOf(rest)|, total, count))
  }

  lemma SpreadMore(l: Lengths, packets: seq<Packet>, size: nat, c: Content, total: nat, count: nat)
    requires Tiles(l, packets, size) && (c.Critical? ==> c.number < |l.critical|) && Spread(packets, total, count)
    requires c.Critical? <==> IsDue(|ExponentsOf(packets)|, |CriticalsOf(packets)|, total, count)
    ensures Spread(Append(l, packets, size, c), total, count)
  {
    var more := Append(l, packets, size, c);
    assert more[..|packets|] == packets;
  }

  // Placing the packets of one file.

  /** The critical packet whose turn it is; `next` may stand behind the last one. */
  predicate AtTurn(next: nat, n: nat, placed: nat) {
    next <= n && (n > 0 ==> (if next == n then 0 else next) == placed % n)
  }

  lemma NextTurn(n: nat, placed: nat)
    requires n > 0
    ensures AtTurn(placed % n + 1, n, placed + 1)
  {
    var q, r := placed / n, placed % n;
    DivMod(placed, n);
    if r + 1 == n {
      assert placed + 1 == q * n + n;
      assert (q + 1) * n == q * n + n;
      DivModUnique(placed + 1, n, q + 1, 0);
    } else {
      DivModUnique(placed + 1, n, q, r + 1);
    }
  }

  lemma TurnsMore(n: nat, m: nat)
    requires n > 0
    ensures Turns(n, m + 1) == Turns(n, m) + [m % n]
  {}

  /** What holds between packets: how many recovery packets are in, and whose turn it is. */
  ghost predicate Placing(l: Lengths, packets: seq<Packet>, size: nat, from: nat, k: nat, next: nat, placed: nat,
                          total: nat, count: nat, packetCount: nat)
  {
    && Tiles(l, packets, size) && NoCreator(packets) && Spread(packets, total, count)
    && ExponentsOf(packets) == seq(k, i => from + i)
    && l.critical != [] && CriticalsOf(packets) == Turns(|l.critical|, placed) && AtTurn(next, |l.critical|, placed)
    && Balanced(k, placed, total, count, packetCount)
  }

  /** The next critical packet, the first one again after the last. */
  method PlaceCritical(l: Lengths, packets: seq<Packet>, size: nat, next: nat, packetCount: nat, count: nat,
                       ghost from: nat, ghost k: nat, ghost placed: nat, ghost total: nat)
    returns (more: seq<Packet>, newSize: nat, newNext: nat)
    requires Placing(l, packets, size, from, k, next, placed, total, count, packetCount) && packetCount >= count
    ensures Placing(l, more, newSize, from, k, newNext, placed + 1, total, count, packetCount - count)
  {
    var i := if next == |l.critical| then 0 else next;
    DueOrNot(k, placed, total, count, packetCount);
    SpreadMore(l, packets, size, Critical(i), total, count);
    TurnsMore(|l.critical|, placed);
    NextTurn(|l.critical|, placed);
    Spend(k, placed, total, count, packetCount);
    more := Append(l, packets, size, Critical(i));
    newSize := size + l.Of(Critical(i));
    newNext := i + 1;
  }

  /** A recovery packet, and what it earns. */
  method PlaceRecovery(l: Lengths, packets: seq<Packet>, size: nat, exponent: nat, packetCount: nat, ghost count: nat,
                       ghost from: nat, ghost next: nat, ghost placed: nat, total: nat)
    returns (more: seq<Packet>, newSize: nat)
    requires from <= exponent && packetCount < count
    requires Placing(l, packets, size, from, exponent - from, next, placed, total, count, packetCount)
    ensures Placing(l, more, newSize, from, exponent - from + 1, next, placed, total, count, packetCount + total)
  {
    ghost var k := exponent - from;
    DueOrNot(k, placed, total, count, packetCount);
    SpreadMore(l, packets, size, Recovery(exponent), total, count);
    Earn(k, placed, total, count, packetCount);
    more := Append(l, packets, size, Recovery(exponent));
    newSize := size + l.recovery;
    assert seq(k + 1, i => from + i) == seq(k, i => from + i) + [exponent];
  }

  /** How many copies of every critical packet there are. */
  function Copies(count: nat): (copies: nat)
    ensures if count == 0 then copies == 1 else copies > 0 && Pow2(copies - 1) <= count < Pow2(copies)
  {
    if count == 0 then 1 else BitLength(count)
  }

  /** How many critical packets there are in all. */
  function AllCopies(l: Lengths, count: nat): nat {
    Copies(count) * |l.critical|
  }

  /** What a file with `count` recovery packets, from exponent `from` on, looks like. */
  ghost predicate WellPlaced(l: Lengths, packets: seq<Packet>, size: nat, from: nat, count: nat) {
    && l.critical != [] && Tiles(l, packets, size) && packets != [] && packets[|packets| - 1].content == Creator
    && ExponentsOf(packets) == seq(count, i => from + i)
    && CriticalsOf(packets) == Turns(|l.critical|, AllCopies(l, count))
    && NoCreator(packets[..|packets| - 1])
    && (count > 0 ==> Spread(packets, AllCopies(l, count), count))
  }

  /** One set of critical packets, for the file without recovery packets. */
  method PlaceSet(l: Lengths) returns (packets: seq<Packet>, size: nat)
    requires l.critical != []
    ensures Tiles(l, packets, size) && NoCreator(packets) && ExponentsOf(packets) == []
    ensures CriticalsOf(packets) == Turns(|l.critical|, |l.critical|)
  {
    packets, size := [], 0;
    for i := 0 to |l.critical|
      invariant Tiles(l, packets, size) && NoCreator(packets) && ExponentsOf(packets) == []
      invariant CriticalsOf(packets) == Turns(|l.critical|, i)
    {
      TurnsMore(|l.critical|, i);
      DivModUnique(i, |l.critical|, 0, i);
      packets := Append(l, packets, size, Critical(i));
      size := size + l.critical[i];
    }
  }

  /** Place critical packets as long as the credit lasts. */
  method PlaceDue(l: Lengths, packets0: seq<Packet>, size0: nat, next0: nat, packetCount0: nat, count: nat,
                  ghost from: nat, ghost k: nat, ghost placed0: nat, ghost total: nat)
    returns (packets: seq<Packet>, size: nat, next: nat, packetCount: nat, ghost placed: nat)
    requires count > 0 && Placing(l, packets0, size0, from, k, next0, placed0, total, count, packetCount0)
    ensures packetCount < count && Placing(l, packets, size, from, k, next, placed, total, count, packetCount)
  {
    packets, size, next, packetCount, placed := packets0, size0, next0, packetCount0, placed0;
    while packetCount >= count
      invariant Placing(l, packets, size, from, k, next, placed, total, count, packetCount)
    {
      packets, size, next := PlaceCritical(l, packets, size, next, packetCount, count, from, k, placed, total);
      packetCount, placed := packetCount - count, placed + 1;
    }
  }

  /** One recovery packet and the critical packets that follow it. */
  method PlaceGroup(l: Lengths, packets0: seq<Packet>, size0: nat, next0: nat, packetCount0: nat, exponent: nat,
                    count: nat, total: nat, ghost from: nat, ghost placed0: nat)
    returns (packets: seq<Packet>, size: nat, next: nat, packetCount: nat, ghost placed: nat)
    requires from <= exponent && packetCount0 < count
    requires Placing(l, packets0, size0, from, exponent - from, next0, placed0, total, count, packetCount0)
    ensures packetCount < count
    ensures Placing(l, packets, size, from, exponent - from + 1, next, placed, total, count, packetCount)
  {
    packets, size := PlaceRecovery(l, packets0, size0, exponent, packetCount0, count, from, next0, placed0, total);
    packets, size, next, packetCount, placed :=
      PlaceDue(l, packets, size, next0, packetCount0 + total, count, from, exponent - from + 1, placed0, total);
  }

  lemma NothingPlaced(l: Lengths, from: nat, total: nat, count: nat)
    requires l.critical != []
    ensures Placing(l, [], 0, from, 0, |l.critical|, 0, total, count, 0)
  {}

  /** Recovery packets with copies of the critical packets spread among them. */
  method PlaceSpread(l: Lengths, from: nat, count: nat) returns (packets: seq<Packet>, size: nat)
    requires l.critical != [] && count > 0
    ensures Tiles(l, packets, size) && NoCreator(packets) && Spread(packets, AllCopies(l, count), count)
    ensures ExponentsOf(packets) == seq(count, i => from + i)
    ensures CriticalsOf(packets) == Turns(|l.critical|, AllCopies(l, count))
  {
    var copies := Halvings(count);
    packets, size := PlaceAll(l, from, count, copies * |l.critical|);
  }

  method PlaceAll(l: Lengths, from: nat, count: nat, total: nat) returns (packets: seq<Packet>, size: nat)
    requires l.critical != [] && count > 0
    ensures Tiles(l, packets, size) && NoCreator(packets) && Spread(packets, total, count)
    ensures ExponentsOf(packets) == seq(count, i => from + i) && CriticalsOf(packets) == Turns(|l.critical|, total)
  {
    var packetCount: nat, next: nat := 0, |l.critical|;
    ghost var placed: nat := 0;
    packets, size := [], 0;
    NothingPlaced(l, from, total, count);
    for exponent := from to from + count
      invariant packetCount < count
      invariant Placing(l, packets, size, from, exponent - from, next, placed, total, count, packetCount)
    {
      packets, size, next, packetCount, placed :=
        PlaceGroup(l, packets, size, next, packetCount, exponent, count, total, from, placed);
    }
    AllSpent(placed, total, count, packetCount);
  }

  lemma CreatorNotDue(packets: seq<Packet>, total: nat, count: nat)
    requires count > 0 && |ExponentsOf(packets)| == count && |CriticalsOf(packets)| == total
    ensures !IsDue(|ExponentsOf(packets)|, |CriticalsOf(packets)|, total, count)
  {
    assert (total + 1) * count == count * total + count;
  }

  /** Place all packets of a file; the creator packet comes last. */
  method PlacePackets(l: Lengths, from: nat, count: nat) returns (packets: seq<Packet>, size: nat)
    requires l.critical != []
    ensures WellPlaced(l, packets, size, from, count)
  {
    if count == 0 {
      packets, size := PlaceSet(l);
    } else {
      packets, size := PlaceSpread(l, from, count);
      CreatorNotDue(packets, AllCopies(l, count), count);
      SpreadMore(l, packets, size, Creator, AllCopies(l, count), count);
    }
    packets := Append(l, packets, size, Creator);
    size := size + l.creator;
  }

  // What that means.

  lemma {:induction false} PrefixCriticals(packets: seq<Packet>, j: nat)
    requires j <= |packets|
    ensures var s, t := CriticalsOf(packets), CriticalsOf(packets[..j]); |t| <= |s| && t == s[..|t|]
    decreases |packets|
  {
    if j < |packets| {
      var rest := packets[..|packets| - 1];
      assert rest[..j] == packets[..j];
      PrefixCriticals(rest, j);
    } else {
      assert packets[..j] == packets;
    }
  }

  /** Where a critical packet lies. */
  function PlacesOf(packets: seq<Packet>, v: nat): set<nat> {
    set k: nat | k < |packets| && packets[k].content == Critical(v)
  }

  lemma {:induction false} CountPlaces(packets: seq<Packet>, v: nat)
    ensures Count(CriticalsOf(packets), v) == |PlacesOf(packets, v)|
  {
    if packets != [] {
      var n := |packets| - 1;
      CountPlaces(packets[..n], v);
      assert PlacesOf(packets, v)
          == PlacesOf(packets[..n], v) + if packets[n].content == Critical(v) then {n as nat} else {};
      if packets[n].content.Critical? {
        var rest := CriticalsOf(packets[..n]);
        assert (rest + [packets[n].content.number])[..|rest|] == rest;
      }
    }
  }

  /** Every critical packet is in the file once, if there are no recovery packets, and otherwise as often as their
      number has bits. */
  lemma EachCopied(l: Lengths, packets: seq<Packet>, size: nat, from: nat, count: nat, v: nat)
    requires WellPlaced(l, packets, size, from, count) && v < |l.critical|
    ensures |PlacesOf(packets, v)| == Copies(count)
    ensures var copies := |PlacesOf(packets, v)|;
            if count == 0 then copies == 1 else copies > 0 && Pow2(copies - 1) <= count < Pow2(copies)
  {
    TurnsCount(|l.critical|, Copies(count), 0, v);
    CountPlaces(packets, v);
  }

  lemma {:induction false} ExponentAt(packets: seq<Packet>, k: nat) returns (i: nat)
    requires k < |ExponentsOf(packets)|
    ensures i < |packets| && packets[i].content == Recovery(ExponentsOf(packets)[k])
    ensures |ExponentsOf(packets[..i])| == k
  {
    var n := |packets| - 1;
    if k < |ExponentsOf(packets[..n])| {
      i := ExponentAt(packets[..n], k);
      assert packets[..n][..i] == packets[..i];
    } else {
      i := n;
    }
  }

  lemma {:induction false} ExponentIn(packets: seq<Packet>, i: nat) returns (k: nat)
    requires i < |packets| && packets[i].content.Recovery?
    ensures k == |ExponentsOf(packets[..i])| < |ExponentsOf(packets)|
    ensures ExponentsOf(packets)[k] == packets[i].content.exponent
  {
    var n := |packets| - 1;
    if i < n {
      k := ExponentIn(packets[..n], i);
      assert packets[..n][..i] == packets[..i];
    } else {
      k := |ExponentsOf(packets[..n])|;
    }
  }

  /** The recovery packets of a file are those of its exponents, in order, and no others. */
  lemma RecoveryInOrder(l: Lengths, packets: seq<Packet>, size: nat, from: nat, count: nat, i: nat)
    requires WellPlaced(l, packets, size, from, count) && i < |packets| && packets[i].content.Recovery?
    ensures packets[i].content.exponent == from + |ExponentsOf(packets[..i])| < from + count
  {
    var k := ExponentIn(packets, i);
  }

  lemma EachRecoveryPlaced(l: Lengths, packets: seq<Packet>, size: nat, from: nat, count: nat, e: nat)
    requires WellPlaced(l, packets, size, from, count) && from <= e < from + count
    ensures exists i :: 0 <= i < |packets| && packets[i].content == Recovery(e)
                        && forall j :: 0 <= j < |packets| && packets[j].content == Recovery(e) ==> j == i
  {
    var i := ExponentAt(packets, e - from);
    forall j | 0 <= j < |packets| && packets[j].content == Recovery(e) ensures j == i {
      var k := ExponentIn(packets, j);
      if j < i { ExponentsGrow(packets, j, i); }
      if i < j { ExponentsGrow(packets, i, j); }
    }
  }

  /** A recovery packet counts for everything behind it. */
  lemma {:induction false} ExponentsGrow(packets: seq<Packet>, i: nat, j: nat)
    requires i < j <= |packets| && packets[i].content.Recovery?
    ensures |ExponentsOf(packets[..i])| < |ExponentsOf(packets[..j])|
  {
    assert packets[..j][..j - 1] == packets[..j - 1];
    if i < j - 1 { ExponentsGrow(packets, i, j - 1); }
  }

  /** Whenever a recovery packet follows, or the creator packet, as many critical packets have been placed as are due in
      proportion: of `AllCopies` in all, the share of the recovery packets so far, rounded down. */
  lemma ProportionalShare(l: Lengths, packets: seq<Packet>, size: nat, from: nat, count: nat, j: nat)
    requires WellPlaced(l, packets, size, from, count) && count > 0
    requires j < |packets| && !packets[j].content.Critical?
    ensures var k, placed := |ExponentsOf(packets[..j])|, |CriticalsOf(packets[..j])|;
            placed == k * (Copies(count) * |l.critical|) / count
  {
    var total := AllCopies(l, count);
    var k, placed := |ExponentsOf(packets[..j])|, |CriticalsOf(packets[..j])|;
    SpreadAt(packets, total, count, j);
    PlacedIsDue(packets, total, count, j);
    assert (placed + 1) * count == placed * count + count;
    DivModUnique(k * total, count, placed, k * total - placed * count);
  }

  /** At every place a critical packet lies exactly where one was due. */
  lemma {:induction false} SpreadAt(packets: seq<Packet>, total: nat, count: nat, j: nat)
    requires Spread(packets, total, count) && j < |packets|
    ensures packets[j].content.Critical? <==>
            IsDue(|ExponentsOf(packets[..j])|, |CriticalsOf(packets[..j])|, total, count)
  {
    var n := |packets| - 1;
    if j < n {
      SpreadAt(packets[..n], total, count, j);
      assert packets[..n][..j] == packets[..j];
    }
  }

  /** No more have been placed than were due. */
  lemma {:induction false} PlacedIsDue(packets: seq<Packet>, total: nat, count: nat, j: nat)
    requires Spread(packets, total, count) && j <= |packets|
    ensures |CriticalsOf(packets[..j])| * count <= |ExponentsOf(packets[..j])| * total
  {
    if j > 0 {
      var before := packets[..j - 1];
      PlacedIsDue(packets, total, count, j - 1);
      SpreadAt(packets, total, count, j - 1);
      assert packets[..j][..j - 1] == before;
      MulMono(|ExponentsOf(before)|, |ExponentsOf(packets[..j])|, total);
    }
  }

  /** Wherever the file is cut, any two of them have been placed equally often, or one of them once more. */
  lemma FairAtEveryPrefix(l: Lengths, packets: seq<Packet>, size: nat, from: nat, count: nat, j: nat, v: nat, w: nat)
    requires WellPlaced(l, packets, size, from, count) && v < |l.critical| && w < |l.critical| && j <= |packets|
    ensures Count(CriticalsOf(packets[..j]), v) <= Count(CriticalsOf(packets[..j]), w) + 1
  {
    PrefixCriticals(packets, j);
    var m := |CriticalsOf(packets[..j])|;
    assert CriticalsOf(packets[..j]) == Turns(|l.critical|, m);
    TurnsFair(|l.critical|, m, v, w);
  }
}
