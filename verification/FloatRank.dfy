/** The nearest rank as binary64 computes it, against the exact one. */
module FloatRank {
  import opened NearestRank

  function Abs(x: real): real {
    if x < 0.0 then -x else x
  }

  function GridPoint(k: int, step: real): real {
    k as real * step
  }

  /** `r` is at least as close to `x` as every multiple of `step`, which rounding to nearest
      guarantees wherever these multiples are representable. */
  ghost predicate RoundedTo(x: real, r: real, step: real) {
    forall k :: Abs(r - x) <= Abs(GridPoint(k, step) - x)
  }

  const STEP := 1.0 / 128.0
  const ULP := 1.0 / 9007199254740992.0  // 2^-53
  const MAX_SAMPLES := 0x800_0000_0000  // 2^43

  function Product(q: real, n: nat): real {
    q * n as real
  }

  lemma CeilIs(x: real, m: int)
    requires (m - 1) as real < x <= m as real
    ensures Ceil(x) == m
  {
  }

  lemma CloseToGrid(x: real, r: real)
    requires RoundedTo(x, r, STEP)
    ensures Abs(r - x) <= STEP
  {
    var k := (x * 128.0).Floor;
    assert Abs(r - x) <= Abs(GridPoint(k, STEP) - x);
  }

  lemma ProductError(n: nat, pct: nat, q: real)
    requires n <= MAX_SAMPLES && Abs(q - pct as real / 100.0) <= ULP
    ensures Abs(Product(q, n) - (pct * n) as real / 100.0) <= 0.001
  {
    CastProduct(pct, n);
    RealProductError(q, pct as real, n as real);
  }

  lemma RealProductError(q: real, pct: real, count: real)
    requires 0.0 <= count <= MAX_SAMPLES as real && Abs(q - pct / 100.0) <= ULP
    ensures Abs(q * count - pct * count / 100.0) <= 0.001
  {
    var d := q - pct / 100.0;
    Distributes(q, pct, count, d);
    Scaled(d, count, ULP, 0.001);
  }

  lemma {:induction false} CastProduct(a: nat, b: nat)
    ensures (a * b) as real == a as real * b as real
  {
    if a > 0 {
      CastProduct(a - 1, b);
      assert a * b == (a - 1) * b + b;
      assert a as real == (a - 1) as real + 1.0;
      assert a as real * b as real == (a - 1) as real * b as real + b as real;
    }
  }

  lemma Distributes(q: real, pct: real, count: real, d: real)
    requires d == q - pct / 100.0
    ensures q * count - pct * count / 100.0 == d * count
  {
    assert pct * count / 100.0 == pct / 100.0 * count;
  }

  lemma Scaled(d: real, count: real, unit: real, bound: real)
    requires -unit <= d <= unit && 0.0 <= count && unit * count <= bound
    ensures -bound <= d * count <= bound
  {
    Monotone(d, unit, count);
    Monotone(-unit, d, count);
  }

  lemma Monotone(x: real, y: real, count: real)
    requires x <= y && 0.0 <= count
    ensures x * count <= y * count
  {
  }

  /** With `q` the rounded `pct / 100` and `r` the rounded `q * n`, for up to 2^43 samples: the ceiling
      of `r` is the exact rank if and only if the exact product is not a whole number, or the
      rounding did not pass it. */
  lemma FloatRankExactIff(n: nat, pct: nat, q: real, r: real)
    requires 0 < n <= MAX_SAMPLES && 1 <= pct <= 100
    requires Abs(q - pct as real / 100.0) <= ULP && RoundedTo(Product(q, n), r, STEP)
    ensures Ceil(r) == Rank(n, pct) <==> pct * n % 100 != 0 || r <= (pct * n / 100) as real
  {
    var x, m := Product(q, n), Rank(n, pct);
    ProductError(n, pct, q);
    CloseToGrid(x, r);
    RankIsExact(n, pct);
    hide Rank, Ceil, RoundedTo;
    RankDecides(pct * n, m, x, r);
  }

  lemma RankDecides(hundredfold: nat, m: int, x: real, r: real)
    requires 100 * (m - 1) < hundredfold <= 100 * m
    requires Abs(x - hundredfold as real / 100.0) <= 0.001 && Abs(r - x) <= STEP
    ensures Ceil(r) == m <==> hundredfold % 100 != 0 || r <= (hundredfold / 100) as real
  {
    hide Ceil;
    if r <= m as real {
      if (m - 1) as real < r {
        CeilIs(r, m);
      }
    } else {
      CeilIs(r, m + 1);
    }
  }

  /** `50 / 100` and `95 / 100` in binary64. */
  const Q50 := 0.5
  const Q95 := 8556839292003942.0 / 9007199254740992.0

  lemma Q95IsNearest()
    ensures RoundedTo(95.0 / 100.0, Q95, ULP)
  {
    forall k
      ensures Abs(Q95 - 0.95) <= Abs(GridPoint(k, ULP) - 0.95)
    {
      assert k <= 8556839292003942 || k >= 8556839292003943;
    }
  }

  lemma NotPassed(x: real, r: real, hundredfold: nat)
    requires RoundedTo(x, r, STEP) && x <= hundredfold as real / 100.0
    ensures hundredfold % 100 == 0 ==> r <= (hundredfold / 100) as real
  {
    if hundredfold % 100 == 0 {
      var m := hundredfold / 100;
      assert GridPoint(128 * m, STEP) == m as real;
      assert Abs(r - x) <= Abs(GridPoint(128 * m, STEP) - x);
    }
  }

  /** A percentage that is represented exactly or rounded down always gives the exact rank. */
  lemma RoundedDownIsExact(n: nat, pct: nat, q: real, r: real)
    requires 0 < n <= MAX_SAMPLES && 1 <= pct <= 100
    requires pct as real / 100.0 - ULP <= q <= pct as real / 100.0 && RoundedTo(Product(q, n), r, STEP)
    ensures Ceil(r) == Rank(n, pct)
  {
    FloatRankExactIff(n, pct, q, r);
    hide Rank, Ceil, RoundedTo;
    BelowExact(n, pct, q);
    NotPassed(Product(q, n), r, pct * n);
  }

  lemma BelowExact(n: nat, pct: nat, q: real)
    requires q <= pct as real / 100.0
    ensures q * n as real <= (pct * n) as real / 100.0
  {
    var count := n as real;
    CastProduct(pct, n);
    var d := q - pct as real / 100.0;
    Distributes(q, pct as real, count, d);
    Monotone(d, 0.0, count);
  }

  /** For the two percentages in use the computed rank is the exact one: 50 percent is represented
      exactly and 95 percent is rounded down. */
  lemma ReportedRanksAreExact(n: nat, r50: real, r95: real)
    requires 0 < n <= MAX_SAMPLES
    requires RoundedTo(Product(Q50, n), r50, STEP) && RoundedTo(Product(Q95, n), r95, STEP)
    ensures Ceil(r50) == Rank(n, 50) && Ceil(r95) == Rank(n, 95)
  {
    hide Rank, Ceil, RoundedTo, Product;
    RoundedDownIsExact(n, 50, Q50, r50);
    RoundedDownIsExact(n, 95, Q95, r95);
  }

  const FINE := 1.0 / 72057594037927936.0  // 2^-56, the spacing of binary64 at 7 / 100
  const COARSE := 1.0 / 1125899906842624.0  // 2^-50, the spacing at 7
  const Q07 := 5044031582654956.0 * FINE

  /** Other percentages are not as lucky: of 100 samples the 7th percentile is taken at rank 8, because
      `7 / 100` and then the product are rounded up. */
  lemma SevenPercentIsOffByOne()
    ensures RoundedTo(7.0 / 100.0, Q07, FINE) && RoundedTo(Q07 * 100.0, 7.0 + COARSE, COARSE)
    ensures Ceil(7.0 + COARSE) == 8 && Rank(100, 7) == 7
  {
    forall k
      ensures Abs(Q07 - 7.0 / 100.0) <= Abs(GridPoint(k, FINE) - 7.0 / 100.0)
    {
      assert k <= 5044031582654955 || k >= 5044031582654956;
    }
    forall k
      ensures Abs(7.0 + COARSE - Q07 * 100.0) <= Abs(GridPoint(k, COARSE) - Q07 * 100.0)
    {
      assert k <= 7881299347898368 || k >= 7881299347898369;
    }
    CeilIs(7.0 + COARSE, 8);
    RankIsExact(100, 7);
  }
}
