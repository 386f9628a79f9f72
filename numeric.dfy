/** Real-number helpers for the chunk-shape solver: Python's `math.ceil`,
    finite products, natural powers, and the abstract floating-point `**`. */
module Numeric {

  /** `math.ceil` of a real value: the least integer not below `x`. */
  function Ceil(x: real): (r: int)
    ensures x <= r as real < x + 1.0
    ensures 0.0 < x ==> 1 <= r
  {
    -((-x).Floor)
  }

  /** Ceil is monotone: a larger argument never gives a smaller ceiling. */
  lemma CeilMonotone(x: real, y: real)
    requires x <= y
    ensures Ceil(x) <= Ceil(y)
  {
    assert Ceil(x) as real < x + 1.0 <= Ceil(y) as real + 1.0;
  }

  /** `x` raised to a natural power, `x * x * ... * x` (`k` factors). */
  function Power(x: real, k: nat): (p: real)
  {
    if k == 0 then 1.0 else Power(x, k - 1) * x
  }

  /** The product of all elements (numpy's `prod`). */
  function Product(s: seq<real>): (p: real)
  {
    if |s| == 0 then 1.0 else Product(s[..|s| - 1]) * s[|s| - 1]
  }

  /** The product of all elements except the one at index `k`. */
  function ProductExcept(s: seq<real>, k: int): (p: real)
  {
    if |s| == 0 then 1.0
    else ProductExcept(s[..|s| - 1], k) * (if k == |s| - 1 then 1.0 else s[|s| - 1])
  }

  ghost predicate AllPositive(s: seq<real>)
  {
    forall i :: 0 <= i < |s| ==> 0.0 < s[i]
  }

  /** What the model relies on of Python's floating-point `**`: a positive base
      gives a positive result, and a base of at least 1 raised to a
      non-negative exponent stays at least 1. */
  ghost predicate PowOracle(pow: (real, real) -> real)
  {
    && (forall x, e :: 0.0 < x ==> 0.0 < pow(x, e))
    && (forall x, e :: 1.0 <= x && 0.0 <= e ==> 1.0 <= pow(x, e))
  }

  lemma {:induction false} ProductPositive(s: seq<real>)
    requires AllPositive(s)
    ensures 0.0 < Product(s)
  {
    if |s| > 0 {
      ProductPositive(s[..|s| - 1]);
    }
  }

  lemma {:induction false} ProductExceptPositive(s: seq<real>, k: int)
    requires AllPositive(s)
    ensures 0.0 < ProductExcept(s, k)
  {
    if |s| > 0 {
      ProductExceptPositive(s[..|s| - 1], k);
    }
  }

  /** Leaving out element `k` and multiplying it back in gives the whole product. */
  lemma {:induction false} ProductExceptTimesElement(s: seq<real>, k: int)
    requires 0 <= k < |s|
    ensures ProductExcept(s, k) * s[k] == Product(s)
  {
    var n := |s| - 1;
    if k < n {
      ProductExceptTimesElement(s[..n], k);
      assert s[..n][k] == s[k];
      calc {
        ProductExcept(s, k) * s[k];
        (ProductExcept(s[..n], k) * s[n]) * s[k];
        (ProductExcept(s[..n], k) * s[k]) * s[n];
        Product(s);
      }
    } else {
      ProductExceptAbsent(s[..n], k);
    }
  }

  /** An index outside the sequence excludes nothing. */
  lemma {:induction false} ProductExceptAbsent(s: seq<real>, k: int)
    requires k < 0 || |s| <= k
    ensures ProductExcept(s, k) == Product(s)
  {
    if |s| > 0 {
      ProductExceptAbsent(s[..|s| - 1], k);
    }
  }

  /** The product of element-wise products is the product of the products. */
  lemma {:induction false} ProductPointwise(a: seq<real>, b: seq<real>, c: seq<real>)
    requires |a| == |b| == |c|
    requires forall i :: 0 <= i < |c| ==> c[i] == a[i] * b[i]
    ensures Product(c) == Product(a) * Product(b)
  {
    var n := |c|;
    if n > 0 {
      ProductPointwise(a[..n - 1], b[..n - 1], c[..n - 1]);
      PairedStep(Product(a[..n - 1]), Product(b[..n - 1]), a[n - 1], b[n - 1], Product(c[..n - 1]), c[n - 1]);
    }
  }

  /** Extending both products by one factor each extends their product by both. */
  lemma PairedStep(pa: real, pb: real, x: real, y: real, pc: real, z: real)
    requires pc == pa * pb && z == x * y
    ensures pc * z == (pa * x) * (pb * y)
  {
    Rearrange(pa, pb, x, y);
  }

  /** Multiplying every element by `c` multiplies the product by `c` to the length. */
  lemma {:induction false} ProductScaled(s: seq<real>, c: real, t: seq<real>)
    requires |s| == |t|
    requires forall i :: 0 <= i < |t| ==> t[i] == c * s[i]
    ensures Product(t) == Power(c, |s|) * Product(s)
  {
    var n := |s|;
    if n > 0 {
      ProductScaled(s[..n - 1], c, t[..n - 1]);
      var a, b, y := Power(c, n - 1), Product(s[..n - 1]), s[n - 1];
      assert Product(t) == (a * b) * (c * y);
      assert Power(c, n) == a * c;
      assert Product(s) == b * y;
      Rearrange(a, b, c, y);
    }
  }

  /** The product of `k`-th powers is the `k`-th power of the product. */
  lemma {:induction false} ProductOfPowers(s: seq<real>, k: nat, t: seq<real>)
    requires |s| == |t|
    requires forall i :: 0 <= i < |t| ==> t[i] == Power(s[i], k)
    ensures Product(t) == Power(Product(s), k)
  {
    var n := |s|;
    if n == 0 {
      PowerOfOne(k);
    } else {
      ProductOfPowers(s[..n - 1], k, t[..n - 1]);
      var p, y := Product(s[..n - 1]), s[n - 1];
      PowerOfProduct(p, y, k);
      calc {
        Product(t);
        Product(t[..n - 1]) * t[n - 1];
        Power(p, k) * Power(y, k);
        Power(p * y, k);
        { assert Product(s) == p * y; }
        Power(Product(s), k);
      }
    }
  }

  lemma {:induction false} PowerOfProduct(x: real, y: real, k: nat)
    ensures Power(x * y, k) == Power(x, k) * Power(y, k)
  {
    if k > 0 {
      PowerOfProduct(x, y, k - 1);
      var a, b := Power(x, k - 1), Power(y, k - 1);
      assert Power(x * y, k) == (a * b) * (x * y);
      assert Power(x, k) == a * x && Power(y, k) == b * y;
      Rearrange(a, b, x, y);
    }
  }

  /** `(a * b) * (c * d) == (a * c) * (b * d)`. */
  lemma Rearrange(a: real, b: real, c: real, d: real)
    ensures (a * b) * (c * d) == (a * c) * (b * d)
  {
  }

  lemma {:induction false} PowerOfOne(k: nat)
    ensures Power(1.0, k) == 1.0
  {
    if k > 0 {
      PowerOfOne(k - 1);
    }
  }

  /** Dividing by a positive number and multiplying back is the identity; a
      quotient of a larger by a smaller positive number is at least 1. */
  lemma QuotientFacts(x: real, m: real)
    requires 0.0 < m
    ensures (x / m) * m == x
    ensures m <= x ==> 1.0 <= x / m
    ensures m / m == 1.0
  {
  }

  /** The ratio of a number to a positive number not above it is at least 1,
      and exactly 1 when the two are equal. */
  lemma RatioAtLeastOne(g: real, n: real)
    requires 0.0 < n <= g
    ensures 1.0 <= g / n
    ensures g / n == 1.0 <==> g == n
  {
  }

  /** Regrouping `x * r / q` when `q * f == p`: `x * r / q == (x / p) * (r * f)`. */
  lemma Regroup(x: real, r: real, q: real, f: real, p: real)
    requires 0.0 < q && 0.0 < f && q * f == p
    ensures x * r / q == (x / p) * (r * f)
  {
  }
}
