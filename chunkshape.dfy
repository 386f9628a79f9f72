/** `get_chunkshape(shape, volume, word_size)`: a chunk shape for a dense
    N-dimensional array, one extent per axis, each dividing its axis length,
    aiming at `volume` bytes per chunk for elements of `word_size` bytes. */
module Chunkshape {
  import opened Numeric
  import opened Divisors
  import opened Distribution
  import opened Resolution

  /** The calls the function supports: at least two axes, every axis length
      positive, and a positive byte budget and word size. */
  ghost predicate Supported(shape: seq<int>, volume: real, wordSize: int)
  {
    && 2 <= |shape|
    && (forall i :: 0 <= i < |shape| ==> 1 <= shape[i])
    && 0.0 < volume
    && 1 <= wordSize
  }

  /** `v = volume/word_size`, the target number of elements per chunk. */
  function Elements(volume: real, wordSize: int): (e: real)
    requires 1 <= wordSize
    ensures e * wordSize as real == volume
    ensures 0.0 < volume ==> 0.0 < e
  {
    volume / wordSize as real
  }

  /** `root = v**(1/N)`, the extent of an isotropic chunk. */
  function Root(shape: seq<int>, volume: real, wordSize: int, pow: (real, real) -> real): (r: real)
    requires 1 <= wordSize && 0 < |shape|
    ensures PowOracle(pow) && 0.0 < volume ==> 0.0 < r
    ensures PowOracle(pow) && wordSize as real <= volume ==> 1.0 <= r
  {
    pow(Elements(volume, wordSize), 1.0 / |shape| as real)
  }

  /** `initial_root` after lines 33-43: the per-axis targets. */
  function Targets(shape: seq<int>, volume: real, wordSize: int, pow: (real, real) -> real): (targets: seq<real>)
    requires Supported(shape, volume, wordSize) && PowOracle(pow)
    ensures |targets| == |shape| && AllPositive(targets)
  {
    var ratios := Ratios(shape);
    RatiosOfShape(shape);
    FactorsPositive(ratios, pow);
    var root := Root(shape, volume, wordSize, pow);
    assert 0.0 < Elements(volume, wordSize);
    DistributedPositive(root, ratios, Factors(ratios, pow));
    Distributed(root, ratios, Factors(ratios, pow))
  }

  /** The chunk shape `get_chunkshape` returns. */
  function ChunkShape(shape: seq<int>, volume: real, wordSize: int, pow: (real, real) -> real): (chunk: seq<int>)
    requires Supported(shape, volume, wordSize) && PowOracle(pow)
    ensures |chunk| == |shape|
  {
    Run(shape, Targets(shape, volume, wordSize, pow), pow, |shape|).results
  }

  /** Lines 25-67 of `get_chunkshape` (the diagnostic print of lines 63-66 and
      the unused `size`, `n_chunks` and `dlen` are not modelled). */
  method GetChunkshape(shape: seq<int>, volume: real, wordSize: int, pow: (real, real) -> real)
    returns (results: seq<int>)
    requires Supported(shape, volume, wordSize) && PowOracle(pow)
    ensures results == ChunkShape(shape, volume, wordSize, pow)
    ensures |results| == |shape|
    ensures forall i :: 0 <= i < |shape| ==> Divides(results[i], shape[i]) && 1 <= results[i] <= shape[i]
  {
    var v := volume / wordSize as real;
    var root := pow(v, 1.0 / |shape| as real);
    var ratios := Ratios(shape);
    RatiosOfShape(shape);
    var initialRoot := InitialRoots(root, ratios, pow);
    assert initialRoot == Targets(shape, volume, wordSize, pow);
    results := ResolveAxes(shape, initialRoot, pow);
  }

  /** Every extent of the chunk shape divides its axis and lies between 1 and
      the axis length; it is the largest such divisor not above the axis's
      guess, and the guess is at least the ceiling of the axis's target. */
  lemma {:induction false} ChunksDivideAxes(shape: seq<int>, volume: real, wordSize: int, pow: (real, real) -> real, k: nat)
    requires Supported(shape, volume, wordSize) && PowOracle(pow) && k < |shape|
    ensures var chunk := ChunkShape(shape, volume, wordSize, pow);
            var targets := Targets(shape, volume, wordSize, pow);
            var g := GuessAt(shape, targets, pow, k);
            && Divides(chunk[k], shape[k])
            && 1 <= chunk[k] <= shape[k]
            && chunk[k] == LargestDivisorAtMost(shape[k], g)
            && Ceil(targets[k]) <= g
  {
    var targets := Targets(shape, volume, wordSize, pow);
    ResolvedExtents(shape, targets, pow, k);
    ExtentAt(shape, targets, pow, |shape|, k);
  }

  /** With an exact `**` (the root really is an N-th root of `v`, and every
      factor an (N-1)-th root of its ratio), the per-axis targets multiply to
      the requested element count `v`. */
  lemma {:induction false} TargetsPreserveVolume(shape: seq<int>, volume: real, wordSize: int, pow: (real, real) -> real)
    requires Supported(shape, volume, wordSize) && PowOracle(pow)
    requires Power(Root(shape, volume, wordSize, pow), |shape|) == Elements(volume, wordSize)
    requires var ratios := Ratios(shape);
             var factors := Factors(ratios, pow);
             forall k :: 0 <= k < |shape| ==> Power(factors[k], |shape| - 1) == ratios[k]
    ensures Product(Targets(shape, volume, wordSize, pow)) == Elements(volume, wordSize)
  {
    var ratios := Ratios(shape);
    RatiosOfShape(shape);
    FactorsPositive(ratios, pow);
    var root, factors := Root(shape, volume, wordSize, pow), Factors(ratios, pow);
    DistributedPreservesVolume(root, ratios, factors);
    assert Targets(shape, volume, wordSize, pow) == Distributed(root, ratios, factors);
  }

  /** `test_n1280`: for the N1280 grid shapes used by the source's tests, with
      either axis-0 length, every chunk extent divides its axis, whatever the
      volume and the floating-point results. */
  lemma N1280ChunksFit(volume: real, pow: (real, real) -> real, first: int)
    requires 0.0 < volume && PowOracle(pow) && (first == 719 || first == 720)
    ensures var shape := [first, 1920, 2560];
            var chunk := ChunkShape(shape, volume, 4, pow);
            forall k :: 0 <= k < 3 ==> Divides(chunk[k], shape[k])
  {
    var shape := [first, 1920, 2560];
    forall k | 0 <= k < 3
      ensures Divides(ChunkShape(shape, volume, 4, pow)[k], shape[k])
    {
      ChunksDivideAxes(shape, volume, 4, pow, k);
    }
  }

  /** The chunk need not grow to the whole array when the budget allows it.
      For a 10 x 1000 array of 4-byte words and a 40000-byte budget, the whole
      array fits exactly in one chunk, yet (with `**` exact on the values
      involved) the anisotropy step turns the isotropic extent 100 into the
      targets 1 and 10000, and the resulting chunk is 1 x 1000: a tenth of the
      budget. */
  lemma {:induction false} ExampleTargets(pow: (real, real) -> real)
    requires PowOracle(pow)
    requires pow(10000.0, 1.0 / 2.0) == 100.0
    requires pow(1.0, 1.0) == 1.0 && pow(100.0, 1.0) == 100.0
    ensures Targets([10, 1000], 40000.0, 4, pow) == [1.0, 10000.0]
  {
    var shape := [10, 1000];
    assert Min(shape[1..]) == 1000;
    assert Min(shape) == 10;
    var ratios := Ratios(shape);
    assert ratios == [1.0, 100.0];
    var factors := Factors(ratios, pow);
    assert factors == [1.0, 100.0];
    assert factors[..1] == [1.0] && factors[..1][..0] == [];
    assert ProductExcept([], 0) == 1.0 && ProductExcept([], 1) == 1.0;
    assert ProductExcept([1.0], 0) == 1.0 && ProductExcept([1.0], 1) == 1.0;
    assert ProductExcept(factors, 0) == 100.0;
    assert ProductExcept(factors, 1) == 1.0;
    assert Elements(40000.0, 4) == 10000.0;
    var root := Root(shape, 40000.0, 4, pow);
    assert root == 100.0;
    assert Targets(shape, 40000.0, 4, pow) == [1.0, 10000.0];
  }

  lemma {:induction false} WholeArrayNotReached(pow: (real, real) -> real)
    requires PowOracle(pow)
    requires pow(10000.0, 1.0 / 2.0) == 100.0
    requires pow(1.0, 1.0) == 1.0 && pow(100.0, 1.0) == 100.0
    ensures var shape := [10, 1000];
            && 10 * 1000 == Elements(40000.0, 4) as int
            && ChunkShape(shape, 40000.0, 4, pow) == [1, 1000]
  {
    var shape := [10, 1000];
    var targets := Targets(shape, 40000.0, 4, pow);
    ExampleTargets(pow);
    assert Elements(40000.0, 4) == 10000.0;
    var r0 := Run(shape, targets, pow, 0);
    assert r0 == Pass([], [1.0, 1.0]);
    assert Guess(1.0, 1.0) == 1 by { assert Ceil(1.0) == 1; }
    LargestDivisorAtMostKeeps(10, 1);
    var r1 := Run(shape, targets, pow, 1);
    assert r1 == Step(shape, targets, pow, r0);
    assert r1 == Pass([1], [1.0, 1.0]);
    assert Guess(10000.0, 1.0) == 10000 by { assert Ceil(10000.0) == 10000; }
    LargestDivisorAtMostKeeps(1000, 10000);
    assert Run(shape, targets, pow, 2) == Step(shape, targets, pow, r1);
    assert Run(shape, targets, pow, 2).results == [1, 1000];
  }
}
