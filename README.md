# Chunk shape for an N-dimensional array

A Dafny model of `get_chunkshape(shape, volume, word_size)` from pp2nice.
The function picks a chunk shape for a dense N-dimensional array. It gives
one extent per axis, and every extent divides the length of its axis. It
aims at about `volume` bytes per chunk, for elements of `word_size` bytes.
The model follows the three stages of the code:

1. **Isotropic start** (`Chunkshape`). Compute `v = volume / word_size` and
   `root = v ** (1/N)`.
2. **Anisotropy distribution** (`Distribution`). Each axis gets a ratio
   `shape[i] / min(shape)`. Then, for each axis in turn, the loop multiplies
   that axis's entry of `initial_root` by its ratio. It divides every other
   entry by `ratio ** (1/(N-1))`. The model keeps the in-place array loop. It
   proves the loop equal to a closed form (`Distributed`). It also proves that
   the closed form keeps the volume (`root ** N`) when `**` is exact.
3. **Resolution** (`Resolution`, `Divisors`). The axes are resolved left to
   right. The guess for axis `i` is `ceil(initial_root[i] * weights_scaling[i])`.
   A guess that divides the axis is kept. Otherwise the nested helper `revise`
   walks it down to the largest divisor of the axis below it. It also returns
   the ratio guess/divisor. That ratio, raised to `1/(N-i-1)`, overwrites the
   weights of all later axes. The model keeps the loop, with the weights in an
   `array`, and proves it equal to a recursive specification (`Run`).

Python's floating-point `**` is a parameter `pow` of the model. The model
assumes only two facts about it (`Numeric.PowOracle`): a positive base gives
a positive result, and a base of at least 1 raised to a non-negative
exponent stays at least 1. Every other value is an exact Dafny `real`, and
`math.ceil` is `Numeric.Ceil`.

The model requires at least two axes, positive axis lengths, a positive
volume and a positive word size (`Chunkshape.Supported`). The code itself
checks none of these, and it has no error path of its own. Outside them:

- `N < 2` or `word_size == 0` raises a division by zero (lines 25, 29 and 35).
- A zero-length axis makes a ratio NaN, and `math.ceil` then raises.
- A negative volume gives a complex `root`.
- `volume == 0` gives guesses of 0, and numpy's `%` by zero only warns.

### Behaviour worth knowing

- There is no final adjustment after the loop: the function returns at
  line 67 once every axis has been resolved.
- A correction does not accumulate. Line 60 overwrites the weights of the
  later axes with `scale_factor ** (1/(N - i - 1))`, where `remaining == i + 1`.
  `Resolution.WeightsBeforeAxis` states the consequence: only the most recent
  correction counts.
- A budget that covers the whole array does not make the whole array the
  chunk. `Chunkshape.WholeArrayNotReached` gives an exact-arithmetic case: a
  10 x 1000 array whose whole volume is the budget gets the chunk 1 x 1000.
- Nothing in the code makes the chunk volume grow with `volume`, and the
  model does not claim it.

## Model

| member | source | states |
|---|---|---|
| Numeric.Ceil | get_chunkshape.py:52 | `math.ceil`: the least integer not below `x`, so `x <= r < x + 1`; it is at least 1 for a positive argument |
| Numeric.CeilMonotone | get_chunkshape.py:52 | a larger argument never gives a smaller ceiling |
| Divisors.LargestDivisorAtMost | get_chunkshape.py:11-23 | the specification of `revise`: the result is between 1 and the guess, divides the dimension, and no larger number up to the guess divides it; it never exceeds the dimension |
| Divisors.LargestDivisorAtMostUnique | get_chunkshape.py:11-23 | a number has the largest-divisor property if and only if it equals `LargestDivisorAtMost`, so the specification fixes the result |
| Divisors.LargestDivisorAtMostKeeps | get_chunkshape.py:20-21 | the search keeps the guess exactly when the guess divides the dimension; a guess at or above the dimension gives the dimension itself |
| Divisors.LargestDivisorAtMostMonotone | get_chunkshape.py:20-21 | a larger guess never gives a smaller divisor |
| Divisors.PrimeAxisCollapses | get_chunkshape.py:20-21 | a prime dimension with a guess below it collapses to 1 (the first test axis, 719, is prime) |
| Divisors.Revise | get_chunkshape.py:11-23 | the loop returns the largest divisor of the dimension not above the guess, and the scale factor guess/divisor; the factor is at least 1, and it is 1 exactly when the guess divides the dimension |
| Distribution.Min | get_chunkshape.py:34 | `min(shape)` is an element of the shape and no larger than any element |
| Distribution.Ratios | get_chunkshape.py:34 | one ratio per axis; their values are stated by `RatiosOfShape` |
| Distribution.RatiosOfShape | get_chunkshape.py:34 | every ratio `x/min(shape)` is at least 1, and the shortest axis has ratio exactly 1 |
| Distribution.Factors | get_chunkshape.py:35-38 | one factor `ratio ** (1/(N-1))` per axis, and a ratio of at least 1 gives a factor of at least 1; `FactorsPositive` adds that positive ratios give positive factors |
| Distribution.FactorsPositive | get_chunkshape.py:35-38 | every factor `ratio ** (1/(N-1))` is positive |
| Distribution.DistributedPositive | get_chunkshape.py:33-43 | a positive `root` gives a positive extent on every axis |
| Distribution.DistributedPreservesVolume | get_chunkshape.py:33-43 | when every factor is an exact (N-1)-th root of its ratio, the adjusted extents multiply to `root ** N`, the volume of the isotropic cube |
| Distribution.InitialRoots | get_chunkshape.py:33-43 | the nested in-place loop leaves each axis at `root * ratio[k]` divided by the factors of all other axes (`Distributed`) |
| Resolution.Guess | get_chunkshape.py:52 | a guess is at least 1, and never below the ceiling of the unweighted target, since every weight is at least 1 |
| Resolution.Full | get_chunkshape.py:60 | `np.full(count, value)`: `count` entries, every one equal to `value` |
| Resolution.Reweight | get_chunkshape.py:58-60 | the weights keep their length and stay at least 1 after a correction |
| Resolution.Step | get_chunkshape.py:49-61 | one iteration appends exactly one extent, leaves the earlier extents alone, and keeps every weight at least 1 |
| Resolution.Run | get_chunkshape.py:45-61 | after `n` axes there are `n` extents, and there are N weights, all at least 1 |
| Resolution.RunPrefix | get_chunkshape.py:47-61 | later iterations never change an extent already chosen |
| Resolution.ExtentAt | get_chunkshape.py:52-57 | the extent of axis `k` is the largest divisor of `shape[k]` not above the guess for axis `k` |
| Resolution.ResolvedExtents | get_chunkshape.py:52-57 | every extent divides its axis and lies between 1 and both the axis length and the guess; a dividing guess is kept; a guess at or above the axis length gives the whole axis |
| Resolution.WeightUpdate | get_chunkshape.py:58-60 | resolving axis `k` never changes the weights up to `k`; a kept guess or the last axis changes nothing; otherwise the extent is below the guess and every later weight becomes `(guess/extent) ** (1/(N-k-1))` |
| Resolution.WeightsBeforeAxis | get_chunkshape.py:58-60 | an unresolved axis's weight is 1 if no earlier axis was corrected, and otherwise the compensation from the most recent correction, since the update overwrites |
| Resolution.ResolveAxes | get_chunkshape.py:45-61 | the loop over the `weights_scaling` array returns exactly the specified extents, and each divides its axis and lies between 1 and the axis length |
| Resolution.ResolveAxis | get_chunkshape.py:51-61 | one iteration on the array moves the loop state one `Step` forward |
| Resolution.PushDeficit | get_chunkshape.py:60 | `weights_scaling[remaining:] = np.full(...)`: the prefix is unchanged and every later weight is the new value |
| Chunkshape.Targets | get_chunkshape.py:25-43 | the per-axis targets, one per axis, all positive |
| Chunkshape.Elements | get_chunkshape.py:25 | `v = volume/word_size` is the element count whose `word_size`-byte elements fill `volume` bytes (`v * word_size == volume`), and it is positive for a positive volume |
| Chunkshape.Root | get_chunkshape.py:29 | `root = v ** (1/N)` is positive for a positive volume, and at least 1 once the budget holds one element |
| Chunkshape.GetChunkshape | get_chunkshape.py:4-67 | the function returns one extent per axis, equal to `ChunkShape`, and each extent divides its axis and lies between 1 and the axis length |
| Chunkshape.ChunksDivideAxes | get_chunkshape.py:47-61 | each returned extent divides its axis, is the largest such divisor not above its guess, and that guess is at least the ceiling of the axis's target |
| Chunkshape.TargetsPreserveVolume | get_chunkshape.py:25-43 | with an exact `**`, the targets multiply to `v = volume/word_size` |
| Chunkshape.N1280ChunksFit | get_chunkshape.py:69-76 | for the N1280 grid shapes [719, 1920, 2560] and [720, 1920, 2560] (719 at `get_chunkshape.py:70`; `tests/test_chunkshape.py` tests both, 720 at line 5 and 719 at line 15) and 4-byte words, every extent divides its axis, for any volume |
| Chunkshape.ExampleTargets | get_chunkshape.py:25-43 | for a 10 x 1000 array and v = 10000, with exact `**`, the targets are 1 and 10000 |
| Chunkshape.WholeArrayNotReached | get_chunkshape.py:47-61 | for a 10 x 1000 array whose 40000 bytes equal the budget, the chunk is 1 x 1000, not the whole array |

## Left out

- Floating point: every value is an exact real, and `**` is the parameter `pow` with only the properties in `PowOracle`. Rounding is not modelled, including any effect it has on `math.ceil`.
- Chunkshape.TargetsPreserveVolume and Distribution.DistributedPreservesVolume: these hold only when `pow` computes exact roots, and that is a precondition. Python's float `**` is not exact.
- Chunkshape.N1280ChunksFit: the tests pass `volume` values such as `1e6`. The lemma holds for any positive volume and any `pow` with the oracle's properties, so it does not compute the tests' concrete chunk shapes.
- The `logging` branch (lines 63-66) prints a diagnostic, so I/O is left out. So are `size`, `n_chunks` and `dlen` (lines 26, 28 and 30), which only that branch uses.
- Calls outside the supported domain (fewer than two axes, a zero axis, a non-positive volume or word size) are excluded by a precondition. The code does not handle them either; the section above lists what Python does with them.
- `shape` is a numpy array of integers, modelled as `seq<int>`. Integer widths are not modelled, and the code's values stay far below 64 bits.
- The `__main__` block (lines 80-83) only runs the test, so it is left out.
- The other files of the repository (conversion, upload, storage navigation) are not part of this model.
