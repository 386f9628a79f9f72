/** The divisor search of `get_chunkshape`: the nested helper `revise`, which
    walks a guessed chunk extent down to the nearest divisor of the axis length,
    and the specification of what it finds. */
module Divisors {
  import opened Numeric

  /** `k` is a positive integer that divides `d` exactly (Python `d % k == 0`). */
  predicate Divides(k: int, d: int)
  {
    0 < k && d % k == 0
  }

  /** `r` is the largest divisor of `d` that does not exceed `g`. */
  ghost predicate IsLargestDivisorAtMost(d: int, g: int, r: int)
  {
    && 1 <= r <= g
    && Divides(r, d)
    && forall k :: r < k <= g ==> !Divides(k, d)
  }

  /** A divisor of a positive number is no larger than it. */
  lemma DivisorBound(k: int, d: int)
    requires 1 <= d && Divides(k, d)
    ensures k <= d
  {
  }

  /** The largest divisor of the axis length `d` that is at most the guess `g`
      (there is always one, since 1 divides everything). */
  function LargestDivisorAtMost(d: int, g: int): (r: int)
    requires 1 <= d && 1 <= g
    ensures IsLargestDivisorAtMost(d, g, r)
    ensures r <= d
    decreases g
  {
    if d % g == 0 then
      DivisorBound(g, d);
      g
    else
      LargestDivisorAtMost(d, g - 1)
  }

  /** The predicate pins the result down: the function's value is the only one
      satisfying it. */
  lemma LargestDivisorAtMostUnique(d: int, g: int, r: int)
    requires 1 <= d && 1 <= g
    ensures IsLargestDivisorAtMost(d, g, r) <==> r == LargestDivisorAtMost(d, g)
  {
  }

  /** A guess that already divides the axis is kept; a guess at or above the
      axis length yields the axis length itself. */
  lemma LargestDivisorAtMostKeeps(d: int, g: int)
    requires 1 <= d && 1 <= g
    ensures Divides(g, d) <==> LargestDivisorAtMost(d, g) == g
    ensures d <= g ==> LargestDivisorAtMost(d, g) == d
  {
    var r := LargestDivisorAtMost(d, g);
    if d <= g {
      assert Divides(d, d);
      assert !(r < d);
    }
  }

  /** A larger guess never finds a smaller divisor. */
  lemma {:induction false} LargestDivisorAtMostMonotone(d: int, g: int, h: int)
    requires 1 <= d && 1 <= g <= h
    ensures LargestDivisorAtMost(d, g) <= LargestDivisorAtMost(d, h)
    decreases h - g
  {
    if g < h {
      LargestDivisorAtMostMonotone(d, g, h - 1);
      if d % h != 0 {
        assert LargestDivisorAtMost(d, h) == LargestDivisorAtMost(d, h - 1);
      }
    }
  }

  ghost predicate IsPrime(p: int)
  {
    2 <= p && forall k :: 1 < k < p ==> !Divides(k, p)
  }

  /** A prime axis whose guess is below its length collapses to an extent of 1. */
  lemma PrimeAxisCollapses(p: int, g: int)
    requires IsPrime(p) && 1 <= g < p
    ensures LargestDivisorAtMost(p, g) == 1
  {
  }

  /** `revise(dimension, guess)`: decrement the guess until it divides the
      dimension; return the ratio of the original guess to the divisor found,
      and the divisor. */
  method Revise(dimension: int, guess: int) returns (scaleFactor: real, next: int)
    requires 1 <= dimension && 1 <= guess
    ensures next == LargestDivisorAtMost(dimension, guess)
    ensures scaleFactor == guess as real / next as real
    ensures 1.0 <= scaleFactor
    ensures scaleFactor == 1.0 <==> Divides(guess, dimension)
  {
    var oldGuess := guess;
    next := guess;
    while dimension % next != 0
      invariant 1 <= next <= oldGuess
      invariant LargestDivisorAtMost(dimension, next) == LargestDivisorAtMost(dimension, oldGuess)
      decreases next
    {
      next := next - 1;
    }
    scaleFactor := oldGuess as real / next as real;
    LargestDivisorAtMostKeeps(dimension, oldGuess);
    RatioAtLeastOne(oldGuess as real, next as real);
  }
}
