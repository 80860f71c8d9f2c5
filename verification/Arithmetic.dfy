/** Products and quotients of natural numbers. */
module Arithmetic {
  lemma MulMonotone(a: nat, b: nat, k: nat)
    requires a <= b
    ensures a * k <= b * k
  {
  }

  lemma MulStrict(a: nat, b: nat, k: nat)
    requires a < b
    ensures a * k + k <= b * k
  {
    assert (a + 1) * k == a * k + k;
    MulMonotone(a + 1, b, k);
  }

  lemma CancelFactor(a: nat, b: nat, k: nat)
    requires k > 0 && a * k == b * k
    ensures a == b
  {
    if a < b {
      MulStrict(a, b, k);
    } else if b < a {
      MulStrict(b, a, k);
    }
  }

  /** n / d is the largest number of times that d fits into n. */
  lemma FitsInto(n: nat, d: nat)
    requires d > 0
    ensures n / d * d <= n < (n / d + 1) * d
  {
    assert n == n / d * d + n % d;
    assert (n / d + 1) * d == n / d * d + d;
  }
}
