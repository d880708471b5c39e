/** Squaring a polynomial given bit by bit. */
module Squarings {

  datatype Operations<!V(!new)> = Operations(half: V -> V, odd: V -> bool, step: V -> V, flip: V -> V, zero: V) {

    function Next(s: Squaring<V>): Squaring<V> {
      var twice := step(step(s.done));
      Taken(odd(s.rest), twice, flip(twice), half(s.rest))
    }

    function Next4(s: Squaring<V>): Squaring<V> {
      Next(Next(Next(Next(s))))
    }

    function Next16(s: Squaring<V>): Squaring<V> {
      Next4(Next4(Next4(Next4(s))))
    }

    function Square(v: V): V {
      Next16(Next16(Squaring(zero, v))).done
    }
  }

  /** Squaring by Horner's rule: what is done so far, and the coefficients still to come, the next one lowest. */
  datatype Squaring<!V(!new)> = Squaring(done: V, rest: V)

  function Taken<V(!new)>(odd: bool, twice: V, flipped: V, rest: V): Squaring<V> {
    Squaring(if odd then flipped else twice, rest)
  }
}
