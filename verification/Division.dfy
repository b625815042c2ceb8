/** Facts about floor division by a positive number. */
module Division {

  lemma SmallMultiple(k: int, x: int)
    requires 0 < k && -k < k * x < k
    ensures x == 0
  {
  }

  /** Quotient and remainder are determined by their defining equation. */
  lemma DivUnique(a: int, k: int, q: int, r: int)
    requires 0 < k && a == k * q + r && 0 <= r < k
    ensures a / k == q && a % k == r
  {
    assert k * (q - a / k) == a % k - r;
    SmallMultiple(k, q - a / k);
  }

  /** The quotient goes up exactly when a multiple is reached. */
  lemma QuotientStep(a: int, k: int)
    requires 1 < k
    ensures (a + 1) / k == a / k + (if (a + 1) % k == 0 then 1 else 0)
  {
    if a % k + 1 < k {
      DivUnique(a + 1, k, a / k, a % k + 1);
    } else {
      assert k * (a / k + 1) == k * (a / k) + k;
      DivUnique(a + 1, k, a / k + 1, 0);
    }
  }
}
