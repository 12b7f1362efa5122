/** Conversions and magnitudes of numbers, shared by the models. */
module Numbers {

  /** `int(x)`, towards zero. */
  function Trunc(x: real): int { if x < 0.0 then -((-x).Floor) else x.Floor }

  /** `abs(m)`. */
  function Magnitude(m: int): nat { if m < 0 then -m else m }

  lemma TruncWhole(m: nat, x: real)
    requires x == m as real
    ensures Trunc(x) == m
  {
  }
}
