/** Steps 2 and 3 of `get_chunkshape`: resolve the axes left to right, replacing
    each guess that does not divide its axis by the largest divisor below it,
    and push the resulting shortfall onto the weights of the later axes. */
module Resolution {
  import opened Numeric
  import opened Divisors

  /** What the resolution loop has built after some axes: the chosen extents
      (`results`) and the current `weights_scaling` array. */
  datatype Pass = Pass(results: seq<int>, weights: seq<real>)

  /** The inputs the loop works on: positive axis lengths, positive target
      extents (one per axis), and a `**` with the properties of `PowOracle`. */
  ghost predicate Inputs(shape: seq<int>, initialRoot: seq<real>, pow: (real, real) -> real)
  {
    && |shape| == |initialRoot|
    && (forall i :: 0 <= i < |shape| ==> 1 <= shape[i])
    && AllPositive(initialRoot)
    && PowOracle(pow)
  }

  ghost predicate AtLeastOne(weights: seq<real>)
  {
    forall j :: 0 <= j < |weights| ==> 1.0 <= weights[j]
  }

  /** The guess for an axis, `math.ceil(initial_root[i]*weights_scaling[i])`:
      at least 1, and at least the ceiling of the unweighted target. */
  function Guess(target: real, weight: real): (g: int)
    requires 0.0 < target && 1.0 <= weight
    ensures Ceil(target) <= g
    ensures 1 <= g
  {
    assert target <= target * weight;
    CeilMonotone(target, target * weight);
    Ceil(target * weight)
  }

  /** `np.full(count, value)`. */
  function Full(count: nat, value: real): (s: seq<real>)
    ensures |s| == count && forall j :: 0 <= j < count ==> s[j] == value
  {
    seq(count, _ => value)
  }

  /** The weights after resolving axis `i` with guess `guess` to extent `next`:
      unchanged if the guess was kept or `i` is the last axis; otherwise every
      later weight becomes `(guess / next) ** (1/(N-i-1))`. */
  function Reweight(weights: seq<real>, i: nat, guess: int, next: int, pow: (real, real) -> real): (w: seq<real>)
    requires i < |weights| && 1 <= next <= guess && AtLeastOne(weights) && PowOracle(pow)
    ensures |w| == |weights| && AtLeastOne(w)
  {
    var remaining := i + 1;
    if next == guess || remaining == |weights| then weights
    else
      QuotientFacts(guess as real, next as real);
      var scaleFactor := pow(guess as real / next as real, 1.0 / (|weights| - remaining) as real);
      weights[..remaining] + Full(|weights| - remaining, scaleFactor)
  }

  /** One iteration of the resolution loop, on axis `i = |p.results|`: the
      extent is the largest divisor of the axis length not above the guess. */
  function Step(shape: seq<int>, initialRoot: seq<real>, pow: (real, real) -> real, p: Pass): (q: Pass)
    requires Inputs(shape, initialRoot, pow)
    requires |p.results| < |shape| == |p.weights| && AtLeastOne(p.weights)
    ensures |q.results| == |p.results| + 1 && q.results[..|p.results|] == p.results
    ensures |q.weights| == |shape| && AtLeastOne(q.weights)
  {
    var i := |p.results|;
    var guess := Guess(initialRoot[i], p.weights[i]);
    var next := LargestDivisorAtMost(shape[i], guess);
    Pass(p.results + [next], Reweight(p.weights, i, guess, next, pow))
  }

  /** The loop state after the first `n` axes, starting from `np.ones`. */
  function Run(shape: seq<int>, initialRoot: seq<real>, pow: (real, real) -> real, n: nat): (p: Pass)
    requires Inputs(shape, initialRoot, pow) && n <= |shape|
    ensures |p.results| == n && |p.weights| == |shape|
    ensures AtLeastOne(p.weights)
  {
    if n == 0 then Pass([], Full(|shape|, 1.0))
    else Step(shape, initialRoot, pow, Run(shape, initialRoot, pow, n - 1))
  }

  /** The weight in effect when axis `k` is resolved. */
  ghost function WeightAt(shape: seq<int>, initialRoot: seq<real>, pow: (real, real) -> real, k: nat): real
    requires Inputs(shape, initialRoot, pow) && k < |shape|
  {
    Run(shape, initialRoot, pow, k).weights[k]
  }

  /** The guess for axis `k`: `math.ceil(initial_root[k]*weights_scaling[k])`. */
  ghost function GuessAt(shape: seq<int>, initialRoot: seq<real>, pow: (real, real) -> real, k: nat): int
    requires Inputs(shape, initialRoot, pow) && k < |shape|
  {
    Guess(initialRoot[k], WeightAt(shape, initialRoot, pow, k))
  }

  /** Later iterations never revisit an extent already chosen. */
  lemma {:induction false} RunPrefix(shape: seq<int>, initialRoot: seq<real>, pow: (real, real) -> real, m: nat, n: nat)
    requires Inputs(shape, initialRoot, pow) && m <= n <= |shape|
    ensures Run(shape, initialRoot, pow, n).results[..m] == Run(shape, initialRoot, pow, m).results
    decreases n
  {
    var r := Run(shape, initialRoot, pow, n).results;
    if m == n {
      assert r[..m] == r;
    } else {
      RunPrefix(shape, initialRoot, pow, m, n - 1);
      StepAt(shape, initialRoot, pow, n - 1);
      var r' := Run(shape, initialRoot, pow, n - 1).results;
      assert r[..n - 1] == r';
      assert r[..m] == r'[..m];
    }
  }

  /** The extent of axis `k` is the largest divisor of its length not above its guess. */
  lemma ExtentAt(shape: seq<int>, initialRoot: seq<real>, pow: (real, real) -> real, n: nat, k: nat)
    requires Inputs(shape, initialRoot, pow) && k < n <= |shape|
    ensures 1 <= GuessAt(shape, initialRoot, pow, k)
    ensures Run(shape, initialRoot, pow, n).results[k]
         == LargestDivisorAtMost(shape[k], GuessAt(shape, initialRoot, pow, k))
  {
    RunPrefix(shape, initialRoot, pow, k + 1, n);
    assert Run(shape, initialRoot, pow, n).results[k] == Run(shape, initialRoot, pow, k + 1).results[k];
  }

  /** What every resolved extent satisfies: it divides its axis, lies between 1
      and both the axis length and the guess, the guess is never below the
      unweighted target's ceiling, a dividing guess is kept, and a guess at or
      above the axis length gives the whole axis. */
  lemma ResolvedExtents(shape: seq<int>, initialRoot: seq<real>, pow: (real, real) -> real, k: nat)
    requires Inputs(shape, initialRoot, pow) && k < |shape|
    ensures var r := Run(shape, initialRoot, pow, |shape|).results[k];
            var g := GuessAt(shape, initialRoot, pow, k);
            && Divides(r, shape[k])
            && 1 <= r <= shape[k]
            && r <= g
            && Ceil(initialRoot[k]) <= g
            && (Divides(g, shape[k]) <==> r == g)
            && (shape[k] <= g ==> r == shape[k])
  {
    ExtentAt(shape, initialRoot, pow, |shape|, k);
    LargestDivisorAtMostKeeps(shape[k], GuessAt(shape, initialRoot, pow, k));
  }

  /** How one iteration changes the weights. Weights at or before axis `k` never
      change. If the guess divided the axis, or `k` is the last axis, nothing
      changes. Otherwise every later weight is overwritten (not multiplied) by
      `(guess / extent) ** (1/(N-k-1))`, which is at least 1. */
  lemma WeightUpdate(shape: seq<int>, initialRoot: seq<real>, pow: (real, real) -> real, k: nat)
    requires Inputs(shape, initialRoot, pow) && k < |shape|
    ensures var before := Run(shape, initialRoot, pow, k).weights;
            var after := Run(shape, initialRoot, pow, k + 1).weights;
            var g := GuessAt(shape, initialRoot, pow, k);
            var r := Run(shape, initialRoot, pow, k + 1).results[k];
            && after[..k + 1] == before[..k + 1]
            && (Divides(g, shape[k]) || k == |shape| - 1 ==> after == before)
            && (!Divides(g, shape[k]) && k < |shape| - 1 ==>
                  1 <= r < g &&
                  forall j :: k < j < |shape| ==> after[j] == Compensation(shape, initialRoot, pow, k))
  {
    var p := Run(shape, initialRoot, pow, k);
    var g := GuessAt(shape, initialRoot, pow, k);
    var r := LargestDivisorAtMost(shape[k], g);
    StepAt(shape, initialRoot, pow, k);
    LargestDivisorAtMostKeeps(shape[k], g);
    ReweightEffect(p.weights, k, g, r, pow);
  }

  /** Proof helper: unfolds `Run` once at axis `k`. */
  lemma StepAt(shape: seq<int>, initialRoot: seq<real>, pow: (real, real) -> real, k: nat)
    requires Inputs(shape, initialRoot, pow) && k < |shape|
    ensures var p := Run(shape, initialRoot, pow, k);
            var g := GuessAt(shape, initialRoot, pow, k);
            var r := LargestDivisorAtMost(shape[k], g);
            && Run(shape, initialRoot, pow, k + 1).results == p.results + [r]
            && Run(shape, initialRoot, pow, k + 1).results[k] == r
            && Run(shape, initialRoot, pow, k + 1).weights == Reweight(p.weights, k, g, r, pow)
  {
  }

  /** Proof helper: `Reweight` spelled out with `Full`. */
  lemma ReweightEffect(weights: seq<real>, i: nat, guess: int, next: int, pow: (real, real) -> real)
    requires i < |weights| && 1 <= next <= guess && AtLeastOne(weights) && PowOracle(pow)
    ensures var w := Reweight(weights, i, guess, next, pow);
            && w[..i + 1] == weights[..i + 1]
            && (next == guess || i == |weights| - 1 ==> w == weights)
            && (next != guess && i < |weights| - 1 ==>
                  w == weights[..i + 1] + Full(|weights| - i - 1, pow(guess as real / next as real, 1.0 / (|weights| - i - 1) as real)))
  {
  }

  /** The weight pushed onto the later axes after correcting axis `k`:
      `(guess / extent) ** (1/(N-k-1))`. */
  ghost function Compensation(shape: seq<int>, initialRoot: seq<real>, pow: (real, real) -> real, k: nat): real
    requires Inputs(shape, initialRoot, pow) && k < |shape| - 1
  {
    var g := GuessAt(shape, initialRoot, pow, k);
    var r := Run(shape, initialRoot, pow, k + 1).results[k];
    pow(g as real / r as real, 1.0 / (|shape| - k - 1) as real)
  }

  /** Whether the guess of axis `k` had to be corrected. */
  ghost predicate Corrected(shape: seq<int>, initialRoot: seq<real>, pow: (real, real) -> real, k: nat)
    requires Inputs(shape, initialRoot, pow) && k < |shape|
  {
    !Divides(GuessAt(shape, initialRoot, pow, k), shape[k])
  }

  /** The last corrected axis before axis `n`, or -1 if there is none. */
  ghost function LastCorrection(shape: seq<int>, initialRoot: seq<real>, pow: (real, real) -> real, n: nat): (m: int)
    requires Inputs(shape, initialRoot, pow) && n <= |shape|
    ensures -1 <= m < n
    ensures 0 <= m ==> Corrected(shape, initialRoot, pow, m)
    ensures forall k :: m < k < n ==> !Corrected(shape, initialRoot, pow, k)
  {
    if n == 0 then -1
    else if Corrected(shape, initialRoot, pow, n - 1) then n - 1
    else LastCorrection(shape, initialRoot, pow, n - 1)
  }

  /** Because the update overwrites, the weight of a not yet resolved axis
      depends on the most recent correction only: it is 1 if no axis before it
      was corrected, and otherwise the compensation computed at the last
      corrected axis, whatever earlier corrections asked for. */
  lemma {:induction false} WeightsBeforeAxis(shape: seq<int>, initialRoot: seq<real>, pow: (real, real) -> real, n: nat, j: nat)
    requires Inputs(shape, initialRoot, pow) && n <= j < |shape|
    ensures var m := LastCorrection(shape, initialRoot, pow, n);
            Run(shape, initialRoot, pow, n).weights[j] ==
              if m < 0 then 1.0 else Compensation(shape, initialRoot, pow, m)
  {
    if n > 0 {
      WeightsBeforeAxis(shape, initialRoot, pow, n - 1, j);
      WeightUpdate(shape, initialRoot, pow, n - 1);
      if Corrected(shape, initialRoot, pow, n - 1) {
        assert LastCorrection(shape, initialRoot, pow, n) == n - 1;
      } else {
        assert LastCorrection(shape, initialRoot, pow, n) == LastCorrection(shape, initialRoot, pow, n - 1);
        assert Run(shape, initialRoot, pow, n).weights == Run(shape, initialRoot, pow, n - 1).weights;
      }
    }
  }

  /** Lines 45-61 of `get_chunkshape`: the resolution loop, with the
      `weights_scaling` array updated in place and `results` appended to. */
  method ResolveAxes(shape: seq<int>, initialRoot: seq<real>, pow: (real, real) -> real)
    returns (results: seq<int>)
    requires Inputs(shape, initialRoot, pow)
    ensures results == Run(shape, initialRoot, pow, |shape|).results
    ensures |results| == |shape|
    ensures forall k :: 0 <= k < |shape| ==> Divides(results[k], shape[k]) && 1 <= results[k] <= shape[k]
  {
    var n := |shape|;
    var weights := new real[n](_ => 1.0);
    results := [];
    var remaining := 1;
    assert weights[..] == Run(shape, initialRoot, pow, 0).weights;
    for i := 0 to n
      invariant remaining == i + 1
      invariant Run(shape, initialRoot, pow, i) == Pass(results, weights[..])
    {
      results := ResolveAxis(shape, initialRoot, pow, weights, results, remaining);
      remaining := remaining + 1;
    }
    ResolvedExtentsAll(shape, initialRoot, pow);
  }

  /** One iteration of the resolution loop (lines 51-60), on axis
      `i = |results|` with `remaining == i + 1`: the loop state moves one
      `Step` forward. */
  method ResolveAxis(shape: seq<int>, initialRoot: seq<real>, pow: (real, real) -> real,
                     weights: array<real>, results: seq<int>, remaining: nat)
    returns (extended: seq<int>)
    requires Inputs(shape, initialRoot, pow)
    requires |results| < |shape| == weights.Length && AtLeastOne(weights[..])
    requires remaining == |results| + 1
    modifies weights
    ensures Pass(extended, weights[..]) == Step(shape, initialRoot, pow, Pass(results, old(weights[..])))
  {
    var n := |shape|;
    var i := |results|;
    var d := shape[i];
    var initialGuess := Guess(initialRoot[i], weights[i]);
    ghost var before := weights[..];
    ghost var next := LargestDivisorAtMost(d, initialGuess);
    ghost var after := Reweight(before, i, initialGuess, next, pow);
    assert next == initialGuess <==> d % initialGuess == 0 by {
      LargestDivisorAtMostKeeps(d, initialGuess);
    }
    if d % initialGuess == 0 {
      extended := results + [initialGuess];
      ReweightEffect(before, i, initialGuess, next, pow);
    } else {
      var scaleFactor, nextGuess := Revise(d, initialGuess);
      extended := results + [nextGuess];
      if remaining < n {
        scaleFactor := pow(scaleFactor, 1.0 / (n - remaining) as real);
        assert after == before[..remaining] + Full(n - remaining, scaleFactor) by {
          ReweightEffect(before, i, initialGuess, next, pow);
        }
        PushDeficit(weights, remaining, scaleFactor);
      } else {
        ReweightEffect(before, i, initialGuess, next, pow);
      }
    }
  }

  /** Line 60 of `get_chunkshape`: overwrite every weight from index
      `remaining` on with `value`. */
  method PushDeficit(weights: array<real>, remaining: nat, value: real)
    requires remaining <= weights.Length
    modifies weights
    ensures weights[..] == old(weights[..remaining]) + Full(weights.Length - remaining, value)
  {
    forall j | remaining <= j < weights.Length {
      weights[j] := value;
    }
  }

  lemma ResolvedExtentsAll(shape: seq<int>, initialRoot: seq<real>, pow: (real, real) -> real)
    requires Inputs(shape, initialRoot, pow)
    ensures var results := Run(shape, initialRoot, pow, |shape|).results;
            forall k :: 0 <= k < |shape| ==> Divides(results[k], shape[k]) && 1 <= results[k] <= shape[k]
  {
    forall k | 0 <= k < |shape|
      ensures var results := Run(shape, initialRoot, pow, |shape|).results;
              Divides(results[k], shape[k]) && 1 <= results[k] <= shape[k]
    {
      ResolvedExtents(shape, initialRoot, pow, k);
    }
  }
}
