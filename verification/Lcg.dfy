/** `krand`: the 32-bit linear congruential generator behind the lottery, and its full period. */
module Lcg {
  import opened Numbers
  import opened Params

  const MULTIPLIER: nat := 1664525
  const INCREMENT: nat := 1013904223

  /** The state after one call, with `unsigned long` 32 bits wide. */
  function Step(seed: nat): nat {
    (seed * MULTIPLIER + INCREMENT) % WORD
  }

  /** The state after `k` calls. */
  function Draw(seed: nat, k: nat): nat {
    if k == 0 then seed else Step(Draw(seed, k - 1))
  }

  class Generator {
    var seed: nat

    constructor ()
      ensures seed == 1
    {
      seed := 1;
    }

    method Krand() returns (r: nat)
      modifies this
      ensures r == seed == Step(old(seed))
      ensures r == (old(seed) * 1664525 + 1013904223) % 0x1_0000_0000
      ensures forall origin: nat, k: nat :: old(seed) == Draw(origin, k) ==> r == Draw(origin, k + 1)
    {
      seed := (seed * MULTIPLIER + INCREMENT) % WORD;
      r := seed;
    }
  }

  /** 1 + a + ... + a^(n-1) for the multiplier a. */
  ghost function Geometric(n: nat): nat {
    if n == 0 then 0 else MULTIPLIER * Geometric(n - 1) + 1
  }

  ghost function Pow2(k: nat): nat
    ensures Pow2(k) > 0
  {
    if k == 0 then 1 else 2 * Pow2(k - 1)
  }

  /** The amount one call adds to the seed, before reduction. It is odd for every seed. */
  ghost function Stride(seed: nat): nat {
    (MULTIPLIER - 1) * seed + INCREMENT
  }

  lemma ModStep(x: nat, y: nat, m: nat, a: nat, c: nat)
    requires m > 0
    requires x % m == y % m
    ensures (x * a + c) % m == (y * a + c) % m
  {
    var p, q := x / m, y / m;
    assert x == p * m + x % m && y == q * m + x % m;
    assert x * a + c == (x % m * a + c) + p * a * m;
    assert y * a + c == (x % m * a + c) + q * a * m;
    AddMultiple(x % m * a + c, p * a, m);
    AddMultiple(x % m * a + c, q * a, m);
  }

  lemma StepMod(x: nat)
    ensures Step(x) % WORD == (x * MULTIPLIER + INCREMENT) % WORD
  {
    DivMod(Step(x), WORD, 0, Step(x));
  }

  /** Closed form of the k-th state. */
  lemma {:induction false} DrawClosedForm(seed: nat, k: nat)
    ensures Draw(seed, k) % WORD == (seed + Geometric(k) * Stride(seed)) % WORD
  {
    if k > 0 {
      DrawClosedForm(seed, k - 1);
      var d := Stride(seed);
      var g := Geometric(k - 1);
      ModStep(Draw(seed, k - 1), seed + g * d, WORD, MULTIPLIER, INCREMENT);
      ClosedFormStep(seed, g, d, MULTIPLIER, INCREMENT);
      StepMod(Draw(seed, k - 1));
      assert Geometric(k) == MULTIPLIER * g + 1;
    }
  }

  lemma ClosedFormStep(seed: nat, g: nat, d: nat, a: nat, c: nat)
    requires d == a * seed - seed + c
    ensures (seed + g * d) * a + c == seed + (a * g + 1) * d
  {
    var gd := g * d;
    assert (seed + gd) * a == seed * a + gd * a;
    assert (a * g + 1) * d == a * g * d + d;
    assert a * g * d == gd * a;
  }

  lemma SumStep(a: nat, gm: nat, gn: nat, w: int)
    requires a > 0 && w == 1 + (a - 1) * gm
    ensures a * (gm + w * gn) + 1 == gm + w * (a * gn + 1)
  {
    var wg := w * gn;
    assert a * (gm + wg) == a * gm + a * wg;
    assert w * (a * gn + 1) == a * wg + w;
    assert (a - 1) * gm == a * gm - gm;
  }

  lemma {:induction false} GeometricSum(m: nat, n: nat)
    ensures Geometric(m + n) == Geometric(m) + (1 + (MULTIPLIER - 1) * Geometric(m)) * Geometric(n)
    decreases n
  {
    if n > 0 {
      GeometricSum(m, n - 1);
      assert m + n - 1 == m + (n - 1);
      SumStep(MULTIPLIER, Geometric(m), Geometric(n - 1), 1 + (MULTIPLIER - 1) * Geometric(m));
    }
  }

  lemma SameParity(g: nat, n: nat)
    requires g % 2 == n % 2
    ensures (g + 1) % 2 == (n + 1) % 2
  {
  }

  lemma {:induction false} GeometricParity(n: nat)
    ensures Geometric(n) % 2 == n % 2
  {
    if n > 0 {
      GeometricParity(n - 1);
      var g := Geometric(n - 1);
      var k := 832262 * g;
      assert Geometric(n) == (g + 1) + k * 2;
      AddMultiple(g + 1, k, 2);
      SameParity(g, n - 1);
    }
  }

  lemma OddProduct(a: nat, odd: nat)
    requires odd % 2 == 1
    ensures (a * odd) % 2 == a % 2
  {
    var h := odd / 2;
    assert a * odd == a + 2 * (a * h) by {
      assert odd == 2 * h + 1;
    }
  }

  lemma HalveMod(a: nat, m: nat)
    requires m > 0
    ensures (2 * a) % (2 * m) == 2 * (a % m)
  {
    var q := a / m;
    assert a == q * m + a % m;
    assert 2 * a == q * (2 * m) + 2 * (a % m) by { assert q * (2 * m) == 2 * (q * m); }
    DivMod(2 * a, 2 * m, q, 2 * (a % m));
  }

  /** An odd factor can be cancelled from a multiple of a power of two. */
  lemma {:induction false} CancelOdd(a: nat, odd: nat, k: nat)
    requires odd % 2 == 1
    ensures (a * odd) % Pow2(k) == 0 <==> a % Pow2(k) == 0
    decreases k
  {
    if k > 0 {
      OddProduct(a, odd);
      var m := Pow2(k - 1);
      if a % 2 == 0 {
        var h := a / 2;
        CancelOdd(h, odd, k - 1);
        assert a * odd == 2 * (h * odd) by { assert a == 2 * h; }
        HalveMod(h * odd, m);
        HalveMod(h, m);
      } else {
        OddNotMultiple(a, m);
        OddNotMultiple(a * odd, m);
      }
    }
  }

  lemma OddNotMultiple(a: nat, m: nat)
    requires m > 0 && a % 2 == 1
    ensures a % (2 * m) != 0
  {
    var q := a / (2 * m);
    assert a == q * (2 * m) + a % (2 * m);
    assert q * (2 * m) == 2 * (q * m);
  }

  lemma DoubleSum(a: nat, b: nat, g: nat)
    requires a == 4 * b + 1
    ensures g + (1 + (a - 1) * g) * g == 2 * (g * (1 + 2 * (b * g)))
  {
    var bg := b * g;
    var bgg := bg * g;
    assert (a - 1) * g == 4 * bg;
    assert (1 + 4 * bg) * g == g + 4 * bgg;
    assert g * (1 + 2 * bg) == g + 2 * bgg;
  }

  /** Doubling the length doubles the sum, up to an odd factor: the multiplier is 1 modulo 4. */
  lemma GeometricDouble(h: nat) returns (cofactor: nat)
    ensures cofactor % 2 == 1
    ensures Geometric(2 * h) == 2 * (Geometric(h) * cofactor)
  {
    var g := Geometric(h);
    GeometricSum(h, h);
    assert h + h == 2 * h;
    DoubleSum(MULTIPLIER, 416131, g);
    var bg := 416131 * g;
    cofactor := 1 + 2 * bg;
  }

  /** A power of two divides 1 + a + ... + a^(n-1) exactly when it divides n. */
  lemma {:induction false} GeometricDivides(n: nat, k: nat)
    ensures Geometric(n) % Pow2(k) == 0 <==> n % Pow2(k) == 0
    decreases k
  {
    if k > 0 {
      GeometricParity(n);
      var m := Pow2(k - 1);
      if n % 2 == 0 {
        var h := n / 2;
        GeometricDivides(h, k - 1);
        var cofactor := GeometricDouble(h);
        CancelOdd(Geometric(h), cofactor, k - 1);
        HalveMod(Geometric(h) * cofactor, m);
        HalveMod(h, m);
      } else {
        OddNotMultiple(n, m);
        OddNotMultiple(Geometric(n), m);
      }
    }
  }

  lemma ModulusIsPow2()
    ensures WORD == Pow2(32)
  {
    assert Pow2(8) == 256;
    assert Pow2(16) == 65536;
    assert Pow2(24) == 16777216;
  }

  lemma AddedMultiple(seed: nat, x: nat, m: nat)
    requires seed < m
    ensures (seed + x) % m == seed <==> x % m == 0
  {
    var q, r := x / m, x % m;
    assert seed + x == (seed + r) + q * m;
    AddMultiple(seed + r, q, m);
    if seed + r < m {
      DivMod(seed + r, m, 0, seed + r);
    } else {
      DivMod(seed + r, m, 1, seed + r - m);
    }
  }

  lemma StrideIsOdd(seed: nat)
    ensures Stride(seed) % 2 == 1
  {
    var half := 832262 * seed + 506952111;
    assert Stride(seed) == half * 2 + 1;
    DivMod(Stride(seed), 2, half, 1);
  }

  lemma ReturnsWhenDivides(seed: nat, k: nat)
    requires seed < WORD
    ensures Draw(seed, k) == seed <==> (Geometric(k) * Stride(seed)) % WORD == 0
  {
    DrawClosedForm(seed, k);
    DrawBound(seed, k);
    DivMod(Draw(seed, k), WORD, 0, Draw(seed, k));
    AddedMultiple(seed, Geometric(k) * Stride(seed), WORD);
  }

  /** From any seed below 2^32, the state comes back exactly after the multiples of 2^32 calls. */
  lemma FullPeriod(seed: nat, k: nat)
    requires seed < WORD
    ensures Draw(seed, k) == seed <==> k % WORD == 0
  {
    ReturnsWhenDivides(seed, k);
    StrideIsOdd(seed);
    CancelOdd(Geometric(k), Stride(seed), 32);
    GeometricDivides(k, 32);
    ModulusIsPow2();
  }

  lemma {:induction false} DrawBound(seed: nat, k: nat)
    requires seed < WORD
    ensures Draw(seed, k) < WORD
  {
    if k > 0 {
      DrawBound(seed, k - 1);
    }
  }

  lemma {:induction false} DrawCompose(seed: nat, i: nat, j: nat)
    ensures Draw(seed, i + j) == Draw(Draw(seed, i), j)
    decreases j
  {
    if j > 0 {
      DrawCompose(seed, i, j - 1);
      assert i + j - 1 == i + (j - 1);
    }
  }

  /** Any 2^32 consecutive draws are pairwise distinct. */
  lemma DistinctDraws(seed: nat, i: nat, j: nat)
    requires seed < WORD
    requires i < j < i + WORD
    ensures Draw(seed, i) != Draw(seed, j)
  {
    DrawCompose(seed, i, j - i);
    DrawBound(seed, i);
    DivMod(j - i, WORD, 0, j - i);
    FullPeriod(Draw(seed, i), j - i);
  }
}
