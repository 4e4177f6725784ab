/** Multiplication and division facts the other modules share. */
module Arithmetic {

  lemma {:induction false} MulStep(k: nat, a: int, b: int)
    requires a < b
    ensures k * a + k <= k * b
    decreases b - a
  {
    assert k * (b - 1) + k == k * b;
    if a + 1 < b {
      MulStep(k, a, b - 1);
    }
  }

  lemma MulMonotone(k: nat, a: int, b: int)
    requires a <= b
    ensures k * a <= k * b
  {
  }

  lemma DivFacts(x: int, k: nat)
    requires 0 < k
    ensures x == k * (x / k) + x % k && 0 <= x % k < k
  {
  }

  /** n whole pieces of size k fit into x exactly when n is at most x / k. */
  lemma DivAtLeast(x: int, k: nat, n: int)
    requires 0 < k
    ensures n * k <= x <==> n <= x / k
  {
    DivFacts(x, k);
    if n <= x / k {
      MulMonotone(k, n, x / k);
    } else {
      MulStep(k, x / k, n);
    }
  }

  /** Quotient and remainder are determined by the division identity. */
  lemma ModUnique(x: int, k: nat, q: int, r: int)
    requires 0 < k && 0 <= r < k && x == k * q + r
    ensures x % k == r && x / k == q
  {
    DivFacts(x, k);
    if q < x / k {
      MulStep(k, q, x / k);
    }
    if x / k < q {
      MulStep(k, x / k, q);
    }
  }
}
