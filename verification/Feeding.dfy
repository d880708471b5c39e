/** A register that takes in words: each is added, then eight steps follow. */
module Feeding {
  import opened LinearSteps

  function FeedOne<W(!new)>(r: Register<W>, state: W, w: W): W {
    r.Run(r.xor(state, w), 8)
  }

  function Feed<W(!new)>(r: Register<W>, state: W, ws: seq<W>): W {
    if ws == [] then state else FeedOne(r, Feed(r, state, ws[..|ws| - 1]), ws[|ws| - 1])
  }

  ghost predicate Members<W(!new)>(r: Register<W>, ws: seq<W>) {
    forall i :: 0 <= i < |ws| ==> r.member(ws[i])
  }

  lemma FeedOneMember<W(!new)>(r: Register<W>, state: W, w: W)
    requires r.Lawful() && r.member(state) && r.member(w)
    ensures r.member(FeedOne(r, state, w))
  {
    assert r.Law(state, w, w);
    RunMember(r, r.xor(state, w), 8);
  }

  lemma {:induction false} FeedMember<W(!new)>(r: Register<W>, state: W, ws: seq<W>)
    requires r.Lawful() && r.member(state) && Members(r, ws)
    ensures r.member(Feed(r, state, ws))
  {
    if ws != [] {
      FeedMember(r, state, ws[..|ws| - 1]);
      FeedOneMember(r, Feed(r, state, ws[..|ws| - 1]), ws[|ws| - 1]);
    }
  }

  lemma FeedOneSplits<W(!new)>(r: Register<W>, x: W, y: W, w: W)
    requires r.Lawful() && r.member(x) && r.member(y) && r.member(w)
    ensures FeedOne(r, r.xor(x, y), w) == r.xor(r.Run(x, 8), FeedOne(r, y, w))
  {
    assert r.Law(x, y, w);
    assert r.Law(y, w, w);
    RunXor(r, x, r.xor(y, w), 8);
  }

  /** What the register started with and what it took in do not mix. */
  lemma {:induction false} FeedSplits<W(!new)>(r: Register<W>, state: W, ws: seq<W>)
    requires r.Lawful() && r.member(state) && Members(r, ws)
    ensures Feed(r, state, ws) == r.xor(r.Run(state, 8 * |ws|), Feed(r, r.zero, ws))
  {
    if ws == [] {
      assert r.Law(state, state, state);
    } else {
      var n := |ws| - 1;
      FeedSplits(r, state, ws[..n]);
      RunMember(r, state, 8 * n);
      FeedMember(r, r.zero, ws[..n]);
      FeedOneSplits(r, r.Run(state, 8 * n), Feed(r, r.zero, ws[..n]), ws[n]);
      RunAdd(r, state, 8 * n, 8);
    }
  }

  lemma {:induction false} FeedConcat<W(!new)>(r: Register<W>, state: W, s: seq<W>, t: seq<W>)
    ensures Feed(r, state, s + t) == Feed(r, Feed(r, state, s), t)
  {
    if t == [] {
      assert s + t == s;
    } else {
      var n := |t| - 1;
      assert (s + t)[..|s + t| - 1] == s + t[..n];
      FeedConcat(r, state, s, t[..n]);
    }
  }

  /** Taking in nothing leaves only the steps. */
  lemma {:induction false} FeedZeros<W(!new)>(r: Register<W>, state: W, ws: seq<W>)
    requires r.Lawful() && r.member(state) && forall i :: 0 <= i < |ws| ==> ws[i] == r.zero
    ensures Feed(r, state, ws) == r.Run(state, 8 * |ws|)
  {
    if ws != [] {
      var n := |ws| - 1;
      FeedZeros(r, state, ws[..n]);
      RunMember(r, state, 8 * n);
      assert r.Law(r.Run(state, 8 * n), r.zero, r.zero);
      RunAdd(r, state, 8 * n, 8);
    }
  }

  /** The first word is still there, moved on by the steps that followed. */
  lemma FeedFirst<W(!new)>(r: Register<W>, state: W, w: W, ws: seq<W>)
    requires r.Lawful() && r.member(state) && r.member(w) && Members(r, ws)
    ensures var n := 8 * |ws|;
            Feed(r, state, [w] + ws) == r.xor(r.xor(r.Run(state, n + 8), r.Run(w, n + 8)), Feed(r, r.zero, ws))
  {
    var n := 8 * |ws|;
    FeedConcat(r, state, [w], ws);
    assert [w][..0] == [];
    assert Feed(r, state, [w]) == FeedOne(r, state, w);
    FeedOneMember(r, state, w);
    FeedSplits(r, FeedOne(r, state, w), ws);
    RunXor(r, state, w, 8);
    RunMember(r, state, 8);
    RunMember(r, w, 8);
    RunXor(r, r.Run(state, 8), r.Run(w, 8), n);
    RunAdd(r, state, 8, n);
    RunAdd(r, w, 8, n);
  }

  /** Six traces: those of the start value and of the first word cancel. */
  lemma Shuffle<W(!new)>(r: Register<W>, a: W, o: W, u: W, c: W, e: W, n: W)
    requires r.Lawful() && r.member(a) && r.member(o) && r.member(u) && r.member(c) && r.member(e) && r.member(n)
    ensures r.xor(r.xor(r.xor(r.xor(a, o), u), c), r.xor(o, r.xor(n, r.xor(e, a)))) == r.xor(n, r.xor(r.xor(e, u), c))
  {
    var p, q, ne := r.xor(a, o), r.xor(u, c), r.xor(n, e);
    assert r.Law(a, o, a);
    assert r.Law(u, c, u);
    assert r.Law(n, e, a);
    assert r.Law(p, u, c);
    assert r.Law(ne, a, o);
    assert r.Law(o, r.xor(ne, a), o);
    assert r.Law(ne, p, p);
    Interchange(r, p, q, p, ne);
    assert r.Law(p, p, p);
    assert r.Law(q, ne, q);
    assert r.Law(r.xor(q, ne), r.zero, q);
    assert r.Law(r.zero, r.xor(q, ne), q);
    assert r.Law(n, e, q);
    assert r.Law(e, u, c);
  }

  /** The register eight steps on, with the trace of the first word apart. */
  lemma FirstOn<W(!new)>(r: Register<W>, start: W, first: W, ws: seq<W>, n: nat)
    requires r.Lawful() && r.member(start) && r.member(first) && Members(r, ws) && n == 8 * |ws| + 8
    ensures r.Run(Feed(r, start, [first] + ws), 8)
         == r.xor(r.xor(r.Run(start, n + 8), r.Run(first, n + 8)), r.Run(Feed(r, r.zero, ws), 8))
  {
    var x, y, u := r.Run(start, n), r.Run(first, n), Feed(r, r.zero, ws);
    FeedMember(r, r.zero, ws);
    RunMember(r, start, n);
    RunMember(r, first, n);
    assert r.Law(x, y, u);
    FeedFirst(r, start, first, ws);
    RunXor(r, r.xor(x, y), u, 8);
    RunXor(r, x, y, 8);
    RunAdd(r, start, n, 8);
    RunAdd(r, first, n, 8);
  }

  lemma LastOn<W(!new)>(r: Register<W>, start: W, ws: seq<W>, last: W, n: nat)
    requires r.Lawful() && r.member(start) && r.member(last) && Members(r, ws) && n == 8 * |ws| + 8
    ensures Feed(r, start, ws + [last]) == r.xor(r.xor(r.Run(start, n), r.Run(Feed(r, r.zero, ws), 8)), r.Run(last, 8))
  {
    var x, u := r.Run(start, n - 8), Feed(r, r.zero, ws);
    FeedMember(r, r.zero, ws);
    FeedMember(r, start, ws);
    RunMember(r, start, n - 8);
    FeedSplits(r, start, ws);
    assert (ws + [last])[..|ws|] == ws;
    RunXor(r, Feed(r, start, ws), last, 8);
    RunXor(r, x, u, 8);
    RunAdd(r, start, n - 8, 8);
  }

  /** From one window to the next: with the traces of the first word and of the start value taken away,
      the register is the one that started a word later. */
  lemma SlideFed<W(!new)>(r: Register<W>, start: W, first: W, ws: seq<W>, last: W, n: nat)
    requires r.Lawful() && r.member(start) && r.member(first) && r.member(last) && Members(r, ws) && n == 8 * |ws| + 8
    ensures r.xor(r.xor(r.Run(Feed(r, start, [first] + ws), 8), r.Run(last, 8)),
                  r.xor(r.Run(first, n + 8), r.xor(start, r.xor(r.Run(start, n), r.Run(start, n + 8)))))
            == r.xor(start, Feed(r, start, ws + [last]))
  {
    var u := Feed(r, r.zero, ws);
    FirstOn(r, start, first, ws, n);
    LastOn(r, start, ws, last, n);
    FeedMember(r, r.zero, ws);
    RunMember(r, u, 8);
    RunMember(r, start, n);
    RunMember(r, start, n + 8);
    RunMember(r, first, n + 8);
    RunMember(r, last, 8);
    Shuffle(r, r.Run(start, n + 8), r.Run(first, n + 8), r.Run(u, 8), r.Run(last, 8), r.Run(start, n), start);
  }
}
