/** How far the bisection's totals are from 1, and what that costs in divergence. */
module KlPrecision {
  import opened ExpLn
  import opened KlOptimality
  import opened KlProjection
  import opened RealFacts

  const TOTAL_TOL := 2e-9

  /** What an inexact total can cost: (1 + 50) per unit. */
  const EXCESS := 51.0 * TOTAL_TOL

  lemma {:induction false} HalvedShrinks(w: real, n: nat)
    requires w >= 0.0
    ensures Halved(w, n) * PowerOfTwo(n + 1) == w && Halved(w, n) >= 0.0
    decreases n
  {
    if n != 0 {
      HalvedShrinks(w * 0.5, n - 1);
      assert Halved(w, n) * (2.0 * PowerOfTwo(n)) == 2.0 * (Halved(w, n) * PowerOfTwo(n));
    }
  }

  lemma {:induction false} PowerAtLeastOne(n: nat)
    ensures PowerOfTwo(n) >= 1.0
  {
    if n != 0 {
      PowerAtLeastOne(n - 1);
    }
  }

  /** Half a final interval of the bisection is 100 / 2^65 wide, at most 1e-14. */
  lemma HalfWidthIsTiny()
    ensures 0.0 <= HALF_WIDTH <= 1e-14 && HALF_WIDTH * PowerOfTwo(65) == 100.0
  {
    HalvedShrinks(2.0 * LOG_BRACKET, STEPS);
    PowerFifty();
    PowerSum(50, 15);
    assert PowerOfTwo(15) == 32768.0;
    var k := PowerOfTwo(65);
    assert k >= 10000000000000000.0;
    SmallQuotient(HALF_WIDTH, k);
  }

  lemma SmallQuotient(w: real, k: real)
    requires w >= 0.0 && w * k == 100.0 && k >= 10000000000000000.0
    ensures w <= 1e-14
  {
    if w > 1e-14 {
      ProductPositive(w - 1e-14, k, (w - 1e-14) * k);
    }
  }

  /** The factor the last interval leaves open. */
  lemma FactorOfHalfWidth(e: Functions)
    requires Lawful(e)
    ensures 1.0 <= e.exp(HALF_WIDTH) <= 1.0 + 2e-14
  {
    hide Lawful;
    HalfWidthIsTiny();
    ExpAtLeast(e, HALF_WIDTH);
    ExpAtMost(e, HALF_WIDTH);
    FactorNearOne(HALF_WIDTH, e.exp(HALF_WIDTH));
  }

  /** The totals of returned projections lie within 2e-9 of 1. */
  lemma TotalNearOne(e: Functions, t: real)
    requires Lawful(e) && NearOne(t, e.exp(HALF_WIDTH))
    ensures 1.0 - TOTAL_TOL <= t <= 1.0 + TOTAL_TOL
  {
    hide Lawful;
    FactorOfHalfWidth(e);
    NearOneBounds(t, e.exp(HALF_WIDTH));
  }

  lemma FactorNearOne(w: real, s: real)
    requires 0.0 <= w <= 1e-14 && 1.0 + w <= s && s * (1.0 - w) <= 1.0
    ensures 1.0 <= s <= 1.0 + 2e-14
  {
    ProductNonNegative(s, 1e-14 - w, s * (1e-14 - w));
  }

  lemma NearOneBounds(t: real, s: real)
    requires 1.0 <= s <= 1.0 + 2e-14 && NearOne(t, s)
    ensures 1.0 - TOTAL_TOL <= t <= 1.0 + TOTAL_TOL
  {
    if t < 1.0 - TOTAL_TOL {
      if t < 0.0 {
        ProductNonNegative(s, -t, s * (-t));
      } else {
        ProductNonNegative(1.0 + 2e-14 - s, t, (1.0 + 2e-14 - s) * t);
      }
    }
  }

  /** A price of at most 51 in absolute value on a total within 2e-9 of 1. */
  lemma PriceIsSmall(logC: real, total: real, price: real)
    requires -LOG_BRACKET <= logC <= LOG_BRACKET && 1.0 - TOTAL_TOL <= total <= 1.0 + TOTAL_TOL
    requires price == (1.0 - logC) * (1.0 - total)
    ensures -EXCESS <= price <= EXCESS
  {
    var m, d := 1.0 - logC, 1.0 - total;
    ProductNonNegative(51.0 - m, TOTAL_TOL + d, (51.0 - m) * (TOTAL_TOL + d));
    ProductNonNegative(51.0 + m, TOTAL_TOL - d, (51.0 + m) * (TOTAL_TOL - d));
    ProductNonNegative(51.0 - m, TOTAL_TOL - d, (51.0 - m) * (TOTAL_TOL - d));
    ProductNonNegative(51.0 + m, TOTAL_TOL + d, (51.0 + m) * (TOTAL_TOL + d));
  }

  /** The price per unit of total at which a returned projection is optimal. */
  ghost function UnitPrice(e: Functions, r: Vector, lo: Vector, hi: Vector): real
    requires IsInput(e, r, lo, hi)
  {
    1.0 - FinalLogC(e, r, lo, hi)
  }

  /** A returned projection is optimal at its price against every vector within the bounds, whatever the
      total. */
  lemma ProjectionPrice(e: Functions, r: Vector, lo: Vector, hi: Vector, q': Vector) returns (price: real)
    requires IsInput(e, r, lo, hi) && IsPositive(r) && InBox(q', lo, hi) && Projection(e, r, lo, hi).Some?
    ensures var q := Projection(e, r, lo, hi).value;
      && price == UnitPrice(e, r, lo, hi) * (Total(q') - Total(q))
      && Divergence(e, q, r) + price <= Divergence(e, q', r)
      && (Total(q') == 1.0 ==> -EXCESS <= price <= EXCESS)
  {
    hide Projection, Divergence, Total, Clipped, Lawful, FinalLogC, NearOne;
    var c := ProjectionIsNearFeasible(e, r, lo, hi);
    var q := Projection(e, r, lo, hi).value;
    LnExp(e, FinalLogC(e, r, lo, hi));
    price := ClippedPrice(e, r, c, lo, hi, q');
    TotalNearOne(e, Total(q));
    if Total(q') == 1.0 {
      PriceIsSmall(FinalLogC(e, r, lo, hi), Total(q), price);
    }
  }

  /** MAIN RESULT. Over the exact polytope, within the bounds and summing to exactly 1, a returned
      projection has the least divergence up to 51 * 2e-9. */
  lemma ProjectionNearOptimal(e: Functions, r: Vector, lo: Vector, hi: Vector, q': Vector)
    requires IsInput(e, r, lo, hi) && IsPositive(r) && InBox(q', lo, hi) && Total(q') == 1.0
    ensures var q := Projection(e, r, lo, hi);
      q.Some? ==> Divergence(e, q.value, r) <= Divergence(e, q', r) + EXCESS
  {
    hide Projection, Divergence, Total, Lawful;
    if Projection(e, r, lo, hi).Some? {
      var price := ProjectionPrice(e, r, lo, hi, q');
    }
  }
}
