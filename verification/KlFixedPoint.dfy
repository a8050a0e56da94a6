/** An admissible vector is a fixed point of the projection, up to the precision of the totals and the floor
    of the references. */
module KlFixedPoint {
  import opened ExpLn
  import opened KlOptimality
  import opened KlPrecision
  import opened KlProjection
  import opened RealFacts
  import opened Wrappers

  /** The precision of the bisected total on its own, without the slack of the guards. */
  const FINE_TOL := 1e-13

  /** p lies within the bounds and sums to 1. */
  ghost predicate IsAdmissible(p: Vector, lo: Vector, hi: Vector) {
    InBox(p, lo, hi) && Total(p) == 1.0
  }

  /** r is p with every entry raised to at least t. */
  ghost predicate IsFloored(p: Vector, r: Vector, t: real) {
    |p| == |r| && forall i :: 0 <= i < |r| ==> r[i] == if p[i] < t then t else p[i]
  }

  /** An entry within its bounds, raised to at least t and divided by c, is clipped to one side: not below
      the entry for c <= 1, not above the raised entry for c >= 1. */
  lemma ClipKeepsSide(p: real, r: real, c: real, lo: real, hi: real)
    requires 0.0 <= lo <= p <= hi && p <= r && r > 0.0 && c > 0.0
    ensures c <= 1.0 ==> p <= Clip(r / c, lo, hi)
    ensures c >= 1.0 ==> Clip(r / c, lo, hi) <= r
  {
    var y := r / c;
    assert y * c == r;
    if c <= 1.0 && y < r {
      ProductPositive(r - y, c, (r - y) * c);
      ProductNonNegative(r, 1.0 - c, r * (1.0 - c));
    }
    if c >= 1.0 && y > r {
      ProductPositive(y - r, c, (y - r) * c);
      ProductNonNegative(r, c - 1.0, r * (c - 1.0));
    }
  }

  lemma ClippedSide(p: Vector, r: Vector, t: real, c: real, lo: Vector, hi: Vector)
    requires IsBox(lo, hi) && InBox(p, lo, hi) && IsFloored(p, r, t) && t > 0.0 && c > 0.0
    ensures var q := Clipped(r, c, lo, hi);
      && (c <= 1.0 ==> forall i :: 0 <= i < |q| ==> p[i] <= q[i])
      && (c >= 1.0 ==> forall i :: 0 <= i < |q| ==> q[i] <= r[i])
  {
    hide Clip;
    forall i | 0 <= i < |p|
      ensures c <= 1.0 ==> p[i] <= Clipped(r, c, lo, hi)[i]
      ensures c >= 1.0 ==> Clipped(r, c, lo, hi)[i] <= r[i]
    {
      ClipKeepsSide(p[i], r[i], c, lo[i], hi[i]);
    }
  }

  /** Of two vectors in order, no entry's gap exceeds the gap of the totals. */
  lemma {:induction false} GapBelowTotal(u: Vector, v: Vector, n: nat, i: nat)
    requires i < n <= |u| == |v| && forall k :: 0 <= k < |u| ==> u[k] <= v[k]
    ensures v[i] - u[i] <= SumUpTo(v, n) - SumUpTo(u, n)
  {
    if i == n - 1 {
      SumOrdered(u, v, n - 1);
    } else {
      GapBelowTotal(u, v, n - 1, i);
    }
  }

  lemma {:induction false} SumOrdered(u: Vector, v: Vector, n: nat)
    requires n <= |u| == |v| && forall k :: 0 <= k < |u| ==> u[k] <= v[k]
    ensures SumUpTo(u, n) <= SumUpTo(v, n)
  {
    if n != 0 {
      SumOrdered(u, v, n - 1);
    }
  }

  lemma {:induction false} FlooredSum(p: Vector, r: Vector, t: real, n: nat)
    requires IsFloored(p, r, t) && t > 0.0 && n <= |p| && forall k :: 0 <= k < |p| ==> p[k] >= 0.0
    ensures SumUpTo(r, n) <= SumUpTo(p, n) + n as real * t
  {
    if n != 0 {
      FlooredSum(p, r, t, n - 1);
      assert n as real * t == (n - 1) as real * t + t;
    }
  }

  /** At the two ends of the bracket an admissible vector has a total of at least 1 and, but for the raised
      entries, at most 1. */
  lemma AdmissibleEnds(e: Functions, p: Vector, r: Vector, lo: Vector, hi: Vector, t: real)
    requires IsInput(e, r, lo, hi) && IsAdmissible(p, lo, hi) && IsFloored(p, r, t) && t > 0.0
    ensures Total(lo) <= 1.0 <= Total(hi)
    ensures TotalAt(e, r, lo, hi, -LOG_BRACKET) >= 1.0
    ensures TotalAt(e, r, lo, hi, LOG_BRACKET) <= 1.0 + |p| as real * t
  {
    hide Lawful, SumUpTo, Clip;
    ExpFifty(e);
    var below, above := e.exp(-LOG_BRACKET), e.exp(LOG_BRACKET);
    BelowOne(below, above);
    ClippedSide(p, r, t, below, lo, hi);
    ClippedSide(p, r, t, above, lo, hi);
    SumOrdered(lo, p, |p|);
    SumOrdered(p, hi, |p|);
    SumOrdered(p, Clipped(r, below, lo, hi), |p|);
    SumOrdered(Clipped(r, above, lo, hi), r, |p|);
    FlooredSum(p, r, t, |p|);
  }

  /** The guards of the bisection hold, so the projection of an admissible vector exists. */
  lemma AdmissibleIsProjected(e: Functions, p: Vector, r: Vector, lo: Vector, hi: Vector, t: real)
    requires IsInput(e, r, lo, hi) && IsAdmissible(p, lo, hi) && IsFloored(p, r, t)
    requires t > 0.0 && |p| as real * t <= 1e-9
    ensures Projection(e, r, lo, hi).Some?
  {
    hide Lawful, TotalAt, Total, IsAdmissible, IsFloored;
    AdmissibleEnds(e, p, r, lo, hi, t);
  }

  /** The answer's total is much closer to 1 than the guards demand. */
  lemma AdmissibleTotal(e: Functions, p: Vector, r: Vector, lo: Vector, hi: Vector, t: real, shares: real, q: Vector)
    requires IsInput(e, r, lo, hi) && IsAdmissible(p, lo, hi) && IsFloored(p, r, t) && t > 0.0
    requires shares == |p| as real * t && Projection(e, r, lo, hi) == Some(q)
    ensures 1.0 - FINE_TOL - shares <= Total(q) <= 1.0 + FINE_TOL + 2.0 * shares
  {
    hide Lawful, TotalAt, Total, IsAdmissible, IsFloored, BisectEnds, Near;
    AdmissibleEnds(e, p, r, lo, hi, t);
    ProductNonNegative(|p| as real, t, shares);
    BisectStaysClose(e, r, lo, hi, shares, -LOG_BRACKET, LOG_BRACKET, STEPS);
    var c := ProjectionIsNearFeasible(e, r, lo, hi);
    FactorOfHalfWidth(e);
    TotalIs(e, r, lo, hi, q);
    FineTotal(Total(q), e.exp(HALF_WIDTH), shares);
  }

  lemma TotalIs(e: Functions, r: Vector, lo: Vector, hi: Vector, q: Vector)
    requires IsInput(e, r, lo, hi) && Projection(e, r, lo, hi) == Some(q)
    ensures Total(q) == TotalAt(e, r, lo, hi, FinalLogC(e, r, lo, hi))
  {
    hide Lawful, Total, Clipped, FinalLogC;
  }

  lemma FineTotal(total: real, s: real, shares: real)
    requires 1.0 <= s <= 1.0 + 2e-14 && shares >= 0.0 && Near(total, s, shares)
    ensures 1.0 - FINE_TOL - shares <= total <= 1.0 + FINE_TOL + 2.0 * shares
  {
    ProductNonNegative(1.0 + 2e-14 - s, 1.0 + shares, (1.0 + 2e-14 - s) * (1.0 + shares));
    if total < 1.0 - FINE_TOL - shares {
      if total < 0.0 {
        ProductNonNegative(s, -total, s * (-total));
      }
      ProductNonNegative(s - 1.0, 1.0 - total, (s - 1.0) * (1.0 - total));
    }
  }

  lemma BelowOne(a: real, b: real)
    requires a > 0.0 && b >= 1.0 && a * b == 1.0
    ensures a <= 1.0
  {
    if a > 1.0 {
      ProductPositive(a - 1.0, b, (a - 1.0) * b);
    }
  }

  lemma FlooredEntry(p: Vector, r: Vector, t: real, i: nat, shares: real)
    requires IsFloored(p, r, t) && i < |p| && t > 0.0 && p[i] >= 0.0 && shares == |p| as real * t
    ensures p[i] <= r[i] <= p[i] + t <= p[i] + shares
  {
    var others := (|p| - 1) as real * t;
    ProductNonNegative((|p| - 1) as real, t, others);
    assert shares == others + t;
  }

  /** Vectors ordered one way or the other, with totals near 1, are close entry by entry. */
  lemma EntriesClose(p: Vector, q: Vector, r: Vector, t: real, shares: real, c: real)
    requires IsFloored(p, r, t) && t > 0.0 && shares == |p| as real * t && |q| == |p|
    requires (forall k :: 0 <= k < |p| ==> p[k] >= 0.0) && Total(p) == 1.0
    requires 1.0 - FINE_TOL - shares <= Total(q) <= 1.0 + FINE_TOL + 2.0 * shares
    requires c <= 1.0 ==> forall k :: 0 <= k < |q| ==> p[k] <= q[k]
    requires c >= 1.0 ==> forall k :: 0 <= k < |q| ==> q[k] <= r[k]
    ensures forall i :: 0 <= i < |p| ==> -(FINE_TOL + 2.0 * shares) <= q[i] - p[i] <= FINE_TOL + 2.0 * shares
  {
    hide SumUpTo;
    FlooredSum(p, r, t, |p|);
    hide IsFloored;
    forall i | 0 <= i < |p| ensures -(FINE_TOL + 2.0 * shares) <= q[i] - p[i] <= FINE_TOL + 2.0 * shares {
      FlooredEntry(p, r, t, i, shares);
      if c <= 1.0 {
        GapBelowTotal(p, q, |p|, i);
      } else {
        GapBelowTotal(q, r, |p|, i);
      }
    }
  }

  /** MAIN RESULT. The projection of an admissible vector with entries raised to at least t returns each
      entry up to 1e-13 + 2 |p| t. */
  lemma ProjectionKeepsAdmissible(e: Functions, p: Vector, r: Vector, lo: Vector, hi: Vector, t: real, q: Vector)
    requires IsInput(e, r, lo, hi) && IsAdmissible(p, lo, hi) && IsFloored(p, r, t) && t > 0.0
    requires Projection(e, r, lo, hi) == Some(q)
    ensures |q| == |p|
    ensures var tol := FINE_TOL + 2.0 * (|p| as real * t);
      forall i :: 0 <= i < |p| ==> -tol <= q[i] - p[i] <= tol
  {
    hide Lawful, Projection, NearOne, SumUpTo, FinalLogC, Clipped, IsFloored;
    var shares := |p| as real * t;
    var c := ProjectionIsNearFeasible(e, r, lo, hi);
    AdmissibleTotal(e, p, r, lo, hi, t, shares, q);
    ClippedSide(p, r, t, c, lo, hi);
    EntriesClose(p, q, r, t, shares, c);
  }
}
