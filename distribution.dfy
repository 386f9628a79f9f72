/** Step 1 of `get_chunkshape`: spread the isotropic extent `root` over the axes
    according to how much longer each axis is than the shortest one. */
module Distribution {
  import opened Numeric

  /** Python's `min(shape)`. */
  function Min(shape: seq<int>): (m: int)
    requires |shape| > 0
    ensures m in shape
    ensures forall i :: 0 <= i < |shape| ==> m <= shape[i]
  {
    if |shape| == 1 then shape[0]
    else
      var rest := Min(shape[1..]);
      if shape[0] <= rest then shape[0] else rest
  }

  /** `ratios = [x/min(shape) for x in shape]`: each axis's elongation relative
      to the shortest axis. */
  function Ratios(shape: seq<int>): (ratios: seq<real>)
    requires |shape| > 0 && 0 < Min(shape)
    ensures |ratios| == |shape|
  {
    var m := Min(shape) as real;
    seq(|shape|, i requires 0 <= i < |shape| => shape[i] as real / m)
  }

  /** Every ratio is at least 1, and the shortest axis has ratio exactly 1. */
  lemma RatiosOfShape(shape: seq<int>)
    requires |shape| > 0 && 0 < Min(shape)
    ensures forall i :: 0 <= i < |shape| ==> 1.0 <= Ratios(shape)[i]
    ensures exists i :: 0 <= i < |shape| && Ratios(shape)[i] == 1.0
  {
    var m := Min(shape) as real;
    var ratios := Ratios(shape);
    forall i | 0 <= i < |shape|
      ensures 1.0 <= ratios[i]
    {
      QuotientFacts(shape[i] as real, m);
    }
    var k :| 0 <= k < |shape| && shape[k] == Min(shape);
    QuotientFacts(m, m);
    assert ratios[k] == 1.0;
  }

  /** `ratios[i]**other_root` for every axis, with `other_root = 1/(N-1)`. */
  function Factors(ratios: seq<real>, pow: (real, real) -> real): (factors: seq<real>)
    requires 2 <= |ratios|
    ensures |factors| == |ratios|
    ensures PowOracle(pow) ==>
              forall i :: 0 <= i < |ratios| && 1.0 <= ratios[i] ==> 1.0 <= factors[i]
  {
    var otherRoot := 1.0 / (|ratios| - 1) as real;
    seq(|ratios|, i requires 0 <= i < |ratios| => pow(ratios[i], otherRoot))
  }

  lemma FactorsPositive(ratios: seq<real>, pow: (real, real) -> real)
    requires 2 <= |ratios| && AllPositive(ratios) && PowOracle(pow)
    ensures AllPositive(Factors(ratios, pow))
  {
  }

  /** The anisotropy-adjusted extents in closed form: axis `k` is multiplied by
      its own ratio and divided by the factor of every other axis. */
  function Distributed(root: real, ratios: seq<real>, factors: seq<real>): (initialRoot: seq<real>)
    requires |ratios| == |factors| && AllPositive(factors)
    ensures |initialRoot| == |ratios|
  {
    seq(|ratios|, k requires 0 <= k < |ratios| =>
      ProductExceptPositive(factors, k);
      Extent(root, ratios[k], ProductExcept(factors, k)))
  }

  /** One axis of `Distributed`: `root` times the axis's ratio, divided by the
      product `others` of every other axis's factor. */
  function Extent(root: real, ratio: real, others: real): (e: real)
    requires 0.0 < others
  {
    root * ratio / others
  }

  /** Positive inputs give positive extents. */
  lemma DistributedPositive(root: real, ratios: seq<real>, factors: seq<real>)
    requires |ratios| == |factors| && AllPositive(factors)
    requires 0.0 < root && AllPositive(ratios)
    ensures AllPositive(Distributed(root, ratios, factors))
  {
    var d := Distributed(root, ratios, factors);
    forall k | 0 <= k < |d|
      ensures 0.0 < d[k]
    {
      ProductExceptPositive(factors, k);
      assert 0.0 < root * ratios[k];
    }
  }

  /** When every factor is an exact `(N-1)`-th root of its ratio, the
      redistribution keeps the chunk volume: the product of the adjusted extents
      is `root**N`, as for the isotropic cube. */
  lemma {:induction false} DistributedPreservesVolume(root: real, ratios: seq<real>, factors: seq<real>)
    requires 2 <= |ratios| == |factors| && AllPositive(factors)
    requires forall k :: 0 <= k < |factors| ==> Power(factors[k], |factors| - 1) == ratios[k]
    ensures Product(Distributed(root, ratios, factors)) == Power(root, |ratios|)
  {
    var n := |ratios|;
    var d := Distributed(root, ratios, factors);
    var p := Product(factors);
    ProductPositive(factors);
    var c := root / p;
    var rf := seq(n, k requires 0 <= k < n => ratios[k] * factors[k]);
    forall k | 0 <= k < n
      ensures d[k] == c * rf[k]
    {
      DistributedRegrouped(root, ratios, factors, k);
    }
    ProductScaled(rf, c, d);
    ProductPointwise(ratios, factors, rf);
    ProductOfPowers(factors, n - 1, ratios);
    CancelPower(root, p, n);
    VolumeChain(Product(d), Power(c, n), Product(rf), Product(ratios), p, Power(p, n - 1), Power(root, n));
  }

  /** The chain of equalities closing `DistributedPreservesVolume`, on plain numbers. */
  lemma VolumeChain(pd: real, cn: real, prf: real, pr: real, p: real, pn1: real, rootN: real)
    requires pd == cn * prf && prf == pr * p && pr == pn1 && cn * (pn1 * p) == rootN
    ensures pd == rootN
  {
  }

  /** Axis `k`'s extent is `root / prod(factors)` times its ratio and its own factor. */
  lemma DistributedRegrouped(root: real, ratios: seq<real>, factors: seq<real>, k: nat)
    requires |ratios| == |factors| && AllPositive(factors) && k < |ratios|
    ensures 0.0 < Product(factors)
    ensures Distributed(root, ratios, factors)[k] == (root / Product(factors)) * (ratios[k] * factors[k])
  {
    ProductPositive(factors);
    ProductExceptPositive(factors, k);
    ProductExceptTimesElement(factors, k);
    ExtentRegrouped(root, ratios[k], ProductExcept(factors, k), factors[k], Product(factors));
  }

  /** `x * r / q == (x / p) * (r * f)` when `q * f == p`. */
  lemma ExtentRegrouped(root: real, ratio: real, others: real, own: real, all: real)
    requires 0.0 < others && 0.0 < own && others * own == all
    ensures 0.0 < all
    ensures Extent(root, ratio, others) == (root / all) * (ratio * own)
  {
    Regroup(root, ratio, others, own, all);
  }

  /** `(root / p)**n * (p**(n-1) * p) == root**n` for positive `p`. */
  lemma CancelPower(root: real, p: real, n: nat)
    requires 0.0 < p && 1 <= n
    ensures Power(root / p, n) * (Power(p, n - 1) * p) == Power(root, n)
  {
    var c := root / p;
    QuotientFacts(root, p);
    assert c * p == root;
    assert Power(p, n) == Power(p, n - 1) * p;
    PowerOfProduct(c, p, n);
  }

  /** The extents after the outer loop has handled axes `0..i-1`. */
  ghost function Partial(root: real, ratios: seq<real>, factors: seq<real>, i: nat, k: nat): real
    requires i <= |factors| == |ratios| && AllPositive(factors) && k < |ratios|
  {
    ProductExceptPositive(factors[..i], k);
    root * (if k < i then ratios[k] else 1.0) / ProductExcept(factors[..i], k)
  }

  /** Lines 33-43 of `get_chunkshape`: start every axis at `root`, then for each
      axis `i` multiply its own entry by its ratio and divide every other entry
      by `ratios[i]**(1/(N-1))`, in place. */
  method InitialRoots(root: real, ratios: seq<real>, pow: (real, real) -> real)
    returns (initialRoot: seq<real>)
    requires 2 <= |ratios| && AllPositive(ratios) && PowOracle(pow)
    ensures AllPositive(Factors(ratios, pow))
    ensures initialRoot == Distributed(root, ratios, Factors(ratios, pow))
  {
    var n := |ratios|;
    ghost var factors := Factors(ratios, pow);
    FactorsPositive(ratios, pow);
    var a := new real[n](_ => root);
    var otherRoot := 1.0 / (n - 1) as real;
    for i := 0 to n
      invariant forall k :: 0 <= k < n ==> a[k] == Partial(root, ratios, factors, i, k)
    {
      var factor := pow(ratios[i], otherRoot);
      assert factor == factors[i];
      PartialStep(root, ratios, factors, i, i);
      a[i] := a[i] * ratios[i];
      for j := 0 to n
        invariant a[i] == Partial(root, ratios, factors, i + 1, i)
        invariant forall k :: 0 <= k < j && k != i ==> a[k] == Partial(root, ratios, factors, i + 1, k)
        invariant forall k :: j <= k < n && k != i ==> a[k] == Partial(root, ratios, factors, i, k)
      {
        if j == i {
          continue;
        }
        PartialStep(root, ratios, factors, i, j);
        a[j] := a[j] / factor;
      }
    }
    initialRoot := a[..];
    ghost var d := Distributed(root, ratios, factors);
    forall k | 0 <= k < n
      ensures initialRoot[k] == d[k]
    {
      PartialComplete(root, ratios, factors, k);
    }
  }

  /** Once every axis has been handled, the staged extents are the closed form. */
  lemma PartialComplete(root: real, ratios: seq<real>, factors: seq<real>, k: nat)
    requires |factors| == |ratios| && AllPositive(factors) && k < |ratios|
    ensures Partial(root, ratios, factors, |factors|, k) == Distributed(root, ratios, factors)[k]
  {
    var n := |factors|;
    assert factors[..n] == factors;
    ProductExceptPositive(factors, k);
    var q := ProductExcept(factors, k);
    assert ProductExcept(factors[..n], k) == q;
    assert Partial(root, ratios, factors, n, k) == root * ratios[k] / q;
  }

  /** One division by `factors[i]` moves an entry from stage `i` to stage `i+1`;
      the entry of axis `i` itself is multiplied by its ratio instead. */
  lemma PartialStep(root: real, ratios: seq<real>, factors: seq<real>, i: nat, k: nat)
    requires i < |factors| == |ratios| && AllPositive(factors) && k < |ratios|
    ensures k != i ==> Partial(root, ratios, factors, i + 1, k) == Partial(root, ratios, factors, i, k) / factors[i]
    ensures Partial(root, ratios, factors, i + 1, i) == Partial(root, ratios, factors, i, i) * ratios[i]
  {
    assert factors[..i + 1][..i] == factors[..i];
    ProductExceptPositive(factors[..i], k);
    ProductExceptPositive(factors[..i], i);
  }
}
