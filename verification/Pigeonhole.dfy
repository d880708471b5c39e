/** Counting: a list as long as a range is free of repeats exactly when it covers the range. */
module Pigeonhole {

  ghost predicate Distinct(s: seq<nat>) {
    forall i, j :: 0 <= i < j < |s| ==> s[i] != s[j]
  }

  ghost predicate Within(s: seq<nat>, n: nat) {
    forall i :: 0 <= i < |s| ==> 1 <= s[i] <= n
  }

  ghost predicate Covers(s: seq<nat>, n: nat) {
    forall v: nat :: 1 <= v <= n ==> v in s
  }

  function Range(n: nat): (r: set<nat>)
    ensures |r| == n && forall v: nat :: v in r <==> 1 <= v <= n
  {
    if n == 0 then {} else Range(n - 1) + {n}
  }

  ghost function Elements(s: seq<nat>): (r: set<nat>)
    ensures forall v: nat :: v in r <==> v in s
  {
    if s == [] then {}
    else
      assert s == [s[0]] + s[1..];
      Elements(s[1..]) + {s[0]}
  }

  lemma {:induction false} ElementCount(s: seq<nat>)
    ensures |Elements(s)| <= |s|
    ensures |Elements(s)| == |s| <==> Distinct(s)
  {
    if s != [] {
      var rest := s[1..];
      ElementCount(rest);
      DistinctFirst(s);
      if s[0] in rest { assert Elements(s) == Elements(rest); }
    }
  }

  lemma DistinctFirst(s: seq<nat>)
    requires s != []
    ensures Distinct(s) <==> s[0] !in s[1..] && Distinct(s[1..])
  {
    assert forall i :: 0 <= i < |s| - 1 ==> s[1..][i] == s[i + 1];
  }

  lemma SubsetSize(a: set<nat>, b: set<nat>)
    requires a <= b
    ensures |a| <= |b| && (|a| == |b| ==> a == b)
  {
    assert b == a + (b - a);
    if |b - a| == 0 { assert b - a == {}; }
  }

  lemma DistinctIffCovers(s: seq<nat>)
    requires Within(s, |s|)
    ensures Distinct(s) <==> Covers(s, |s|)
  {
    var e := Elements(s);
    ElementCount(s);
    SubsetSize(e, Range(|s|));
    if Covers(s, |s|) { assert e == Range(|s|); }
  }
}
