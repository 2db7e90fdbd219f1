/** Facts about division and finite sets that the solver does not find unaided. */
module Numbers {

  lemma Times(a: int, b: int, m: nat)
    requires a <= b
    ensures a * m <= b * m
  {
  }

  lemma SmallMultiple(d: int, m: nat)
    requires 0 - m < d * m < m
    ensures d == 0
  {
    if d >= 1 {
      Times(1, d, m);
    } else if d <= -1 {
      Times(d, -1, m);
    }
  }

  /** Quotient and remainder are unique. */
  lemma DivMod(x: int, m: nat, q: int, r: nat)
    requires x == q * m + r && r < m
    ensures x / m == q && x % m == r
  {
    var d := q - x / m;
    assert d * m == x % m - r by { assert d * m == q * m - x / m * m; }
    SmallMultiple(d, m);
  }

  lemma AddMultiple(x: int, k: int, m: nat)
    requires m > 0
    ensures (x + k * m) % m == x % m
    ensures (x + k * m) / m == x / m + k
  {
    var q := x / m;
    assert (q + k) * m == q * m + k * m;
    DivMod(x + k * m, m, q + k, x % m);
  }

  lemma SubsetSize<T>(a: set<T>, b: set<T>)
    requires a <= b
    ensures |a| <= |b|
  {
    assert b == a + (b - a);
  }
}
