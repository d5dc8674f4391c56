/** Small facts about multiplication, division and remainder used by the layout proofs. */
module Arith {

  lemma MulLe(a: nat, c: nat, k: nat)
    requires a <= c
    ensures a * k <= c * k
  {
    assert c * k == a * k + (c - a) * k;
  }

  lemma MulLt(a: nat, c: nat, k: nat)
    requires a < c
    ensures a * k + k <= c * k
  {
    MulLe(a + 1, c, k);
    assert (a + 1) * k == a * k + k;
  }

  /** Division by `k` recovers the quotient and remainder of `i*k + b`. */
  lemma DivModOf(j: nat, k: nat, i: nat, b: nat)
    requires k > 0 && b < k && j == i * k + b
    ensures j / k == i && j % k == b
  {
    var q, r := j / k, j % k;
    assert j == q * k + r;
    if i < q {
      MulLt(i, q, k);
      assert false;
    } else if q < i {
      MulLt(q, i, k);
      assert false;
    }
  }

  /** Position `i*k + b` with `i < n` and `b < k` lies inside a block of `k*n` bytes. */
  lemma PairIndexBound(i: nat, b: nat, k: nat, n: nat)
    requires i < n && b < k
    ensures i * k + b < k * n
  {
    MulLt(i, n, k);
  }

  lemma ColumnIndexBound(j: nat, k: nat, n: nat)
    requires k > 0 && j < k * n
    ensures j / k < n && j % k < k && (j % k) * n + j / k < k * n
    ensures j == (j / k) * k + j % k
  {
    var q, r := j / k, j % k;
    assert j == q * k + r;
    if n <= q {
      MulLe(n, q, k);
      assert false;
    }
    PairIndexBound(r, q, n, k);
  }
  /** The whole `k`-byte elements of an `n`-byte buffer take `k*(n/k)` bytes, less than one element short of `n`. */
  lemma WholeElems(k: nat, n: nat)
    requires k > 0
    ensures k * (n / k) <= n < k * (n / k) + k
  {
    assert n == (n / k) * k + n % k;
  }

  /** A whole number of elements that fits in `n` bytes fits in the whole elements of `n`. */
  lemma WholeMultiple(k: nat, a: nat, n: nat)
    requires k > 0 && k * a <= n
    ensures a <= n / k && k * a <= k * (n / k)
  {
    WholeElems(k, n);
    if a > n / k {
      MulLt(n / k, a, k);
      assert false;
    }
    MulLe(a, n / k, k);
  }
}
