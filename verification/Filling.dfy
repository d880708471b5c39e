/** Arrays that are filled from the start, one element after the other. */
module Filling {

  /** The first `n` entries are the values of `f`. */
  ghost predicate Filled<T>(s: seq<T>, f: nat -> T, n: nat) {
    n <= |s| && forall k :: 0 <= k < n ==> s[k] == f(k)
  }

  method Put<T>(a: array<T>, i: nat, v: T, ghost f: nat -> T)
    requires Filled(a[..], f, i) && i < a.Length && v == f(i)
    modifies a
    ensures Filled(a[..], f, i + 1)
    ensures forall k :: 0 <= k < a.Length && k != i ==> a[k] == old(a[k])
  {
    a[i] := v;
  }
}
