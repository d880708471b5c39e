/** Finite fields of characteristic two, as the value of a template parameter. */
module Fields {

  /** `pow` is promised for exponents up to `limit` only. */
  datatype Field<!T(!new)> = Field(
    member: T -> bool, zero: T, one: T,
    add: (T, T) -> T, mul: (T, T) -> T, div: (T, T) -> T,
    pow: (T, nat) -> T, limit: nat)
  {

    // The laws at three elements. A proof instantiates them by asserting `Law` where it needs them.
    ghost predicate Law(a: T, b: T, c: T) {
      member(a) && member(b) && member(c) ==>
        && member(add(a, b)) && member(mul(a, b)) && member(div(a, b))
        && add(a, b) == add(b, a)
        && add(add(a, b), c) == add(a, add(b, c))
        && add(a, zero) == a
        && add(a, a) == zero
        && mul(a, b) == mul(b, a)
        && mul(mul(a, b), c) == mul(a, mul(b, c))
        && mul(a, one) == a
        && mul(a, zero) == zero
        && mul(add(a, b), c) == add(mul(a, c), mul(b, c))
        && (b != zero ==> mul(div(a, b), b) == a)
    }

    ghost predicate PowLaw(a: T, e: nat) {
      member(a) && e <= limit ==> pow(a, e) == Power(a, e)
    }

    ghost predicate RingLaws() {
      && member(zero) && member(one) && zero != one
      && forall a: T, b: T, c: T :: Law(a, b, c)
    }

    ghost predicate Lawful() {
      RingLaws() && forall a: T, e: nat :: PowLaw(a, e)
    }

    /** The product of `e` copies of `a`. */
    function Power(a: T, e: nat): T {
      if e == 0 then one else mul(Power(a, e - 1), a)
    }
  }
}
