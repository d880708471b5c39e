/** Powers of two and how often a number can be halved. */
module Doublings {
  import opened Words

  lemma {:induction false} Pow2Mono(m: nat, n: nat)
    requires m <= n
    ensures Pow2(m) <= Pow2(n)
    decreases n
  {
    if m < n { Pow2Mono(m, n - 1); }
  }

  /** How often a number is halved until it is zero. */
  function BitLength(n: nat): (b: nat)
    ensures n < Pow2(b) && (n > 0 ==> b > 0 && Pow2(b - 1) <= n)
  {
    if n == 0 then 0 else 1 + BitLength(n / 2)
  }

  lemma {:induction false} BitLengthBelow(n: nat)
    ensures BitLength(n) <= n
  {
    if n > 0 { BitLengthBelow(n / 2); }
  }

  method Halvings(n: nat) returns (count: nat)
    ensures count == BitLength(n)
  {
    count := 0;
    var t := n;
    while t > 0
      invariant count + BitLength(t) == BitLength(n)
    {
      count := count + 1;
      t := t / 2;
    }
  }
}
