/**
 * Randomness enters the model as a parameter: a roll in [0, 1), as the
 * standard generator's `random()` returns, and the index a roll selects
 * among n alternatives, which stands for `randint(0, n - 1)`.
 */
module Chance {
  predicate IsRoll(roll: real)
  {
    0.0 <= roll < 1.0
  }

  /** The index among `n` alternatives that `roll` selects. */
  function Pick(n: nat, roll: real): (k: nat)
    requires n > 0 && IsRoll(roll)
    ensures k < n
  {
    var x := roll * n as real;
    assert x < n as real by { LessThanOne(roll, n as real); }
    x.Floor
  }

  lemma LessThanOne(roll: real, y: real)
    requires 0.0 <= roll < 1.0 && y > 0.0
    ensures 0.0 <= roll * y < y
  {
  }

  /** Every one of the `n` alternatives is selected by some roll. */
  lemma PickCovers(n: nat, k: nat)
    requires k < n
    ensures IsRoll(k as real / n as real)
    ensures Pick(n, k as real / n as real) == k
  {
    var roll := k as real / n as real;
    assert roll * n as real == k as real;
  }
}
