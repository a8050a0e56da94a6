/** The ascent is documented to minimise KL(q || p) over the constraint polytope. Its step is
    1 / max |a|, which overshoots for large coefficients: the first iterate that satisfies the
    constraints can be far inside them. Two equally likely arms under 100 q_0 <= 40 show it. */
module DualOvershoot {
  import opened DualAscent
  import opened DualOptimality
  import opened ExpLn
  import opened KlOptimality
  import opened KlPrecision
  import opened KlProjection
  import LA = LinearAlgebra
  import opened RealFacts
  import opened Wrappers

  function Capped(e: Functions): Problem {
    Problem(e, [0.5, 0.5], [0.0, 0.0], [1.0, 1.0], [[100.0, 0.0]], [40.0])
  }

  // ----------------------------------------------------- the two iterations

  lemma TwoArmBox()
    ensures !PolytopeIsEmpty([0.0, 0.0], [1.0, 1.0]) && IsBox([0.0, 0.0], [1.0, 1.0])
  {
    TotalOfTwo([0.5, 0.5]);
    assert InBox([0.5, 0.5], [0.0, 0.0], [1.0, 1.0]);
  }

  /** A projection of two references (r_0, 1/2) with 0 < r_0 <= 1/2 exists, has a total near 1, and its
      entries keep the ratio of the references unless the second is cut off at 1. */
  lemma TwoArmProjection(e: Functions, r: Vector) returns (q: Vector, c: real)
    requires Lawful(e) && |r| == 2 && 0.0 < r[0] <= 0.5 && r[1] == 0.5
    ensures Projection(e, r, [0.0, 0.0], [1.0, 1.0]) == Some(q)
    ensures c > 0.0 && q == Clipped(r, c, [0.0, 0.0], [1.0, 1.0]) && |q| == 2
    ensures 0.999 <= Total(q) <= 1.001 && Total(q) == q[0] + q[1]
  {
    hide Lawful;
    var lo, hi := [0.0, 0.0], [1.0, 1.0];
    TwoArmBox();
    TotalOfTwo(r);
    LowerEndOfTwo(e, r);
    AnswerExactlyWhen(e, r, lo, hi);
    c := ProjectionIsNearFeasible(e, r, lo, hi);
    q := Projection(e, r, lo, hi).value;
    TotalNearOne(e, Total(q));
    TotalOfTwo(q);
  }

  lemma LowerEndOfTwo(e: Functions, r: Vector)
    requires Lawful(e) && |r| == 2 && 0.0 < r[0] <= 0.5 && r[1] == 0.5 && IsBox([0.0, 0.0], [1.0, 1.0])
    ensures TotalAt(e, r, [0.0, 0.0], [1.0, 1.0], -LOG_BRACKET) >= 1.0
  {
    ExpFifty(e);
    var c, k := e.exp(-LOG_BRACKET), e.exp(LOG_BRACKET);
    var q := Clipped(r, c, [0.0, 0.0], [1.0, 1.0]);
    if c > 0.5 {
      ProductNonNegative(c - 0.5, k, (c - 0.5) * k);
    }
    EntryReaches(r[1], c, 0.0, 1.0);
    TotalOfTwo(q);
  }

  lemma RowProduct(q: Vector)
    requires |q| == 2
    ensures LA.Dot([100.0, 0.0], q) == 100.0 * q[0]
  {
    assert LA.DotUpTo([100.0, 0.0], q, 1) == 100.0 * q[0];
  }

  lemma CappedViolation(e: Functions, q: Vector)
    requires Lawful(e) && |q| == 2
    ensures IsProblem(Capped(e)) && MaxViolation(Capped(e), q) == 100.0 * q[0] - 40.0
  {
    RowProduct(q);
    assert Violation(Capped(e), q, 0) == 100.0 * q[0] - 40.0;
  }

  lemma CappedStep(e: Functions)
    requires Lawful(e)
    ensures BaseStep(Capped(e)) == 0.01
  {
    var row := [100.0, 0.0];
    assert MaxCoefficientOf(row, 1, 1.0) == 100.0;
    assert MaxCoefficientOf(row, 2, 1.0) == 100.0;
    assert MaxCoefficient([row], 0) == 1.0;
    assert MaxCoefficient([row], 1) == 100.0;
  }

  /** Iteration 0 splits the traffic evenly and violates the cap by about 10. */
  lemma FirstIteration(e: Functions) returns (q: Vector)
    requires Lawful(e)
    ensures var P := Capped(e);
      IsProblem(P) && IterateAt(P, 0) == Some(q) && |q| == 2 && 0.499 <= q[0] <= 0.501
      && !QuickPath(P) && Violates(P, 0, TOL)
  {
    var P := Capped(e);
    CappedViolation(e, [0.5, 0.5]);
    FirstIterateIsQuick(P);
    var c;
    q, c := TwoArmProjection(e, [0.5, 0.5]);
    CappedViolation(e, q);
  }

  /** The step overshoots: the multiplier becomes about 0.1, and the exponent about 10. */
  lemma SecondMultiplier(e: Functions) returns (duals: Vector)
    requires Lawful(e)
    ensures IsProblem(Capped(e)) && duals == LambdaAt(Capped(e), 1) && |duals| == 1
    ensures 0.09 <= duals[0] <= 0.11
  {
    hide Lawful, Projection, Tilted, MaxViolation, BaseStep;
    var P := Capped(e);
    var q := FirstIteration(e);
    duals := LambdaAt(P, 1);
    CappedStep(e);
    RowProduct(q);
    assert duals == DualStep(P, LambdaAt(P, 0), q);
    assert LambdaAt(P, 0) == LA.Zeros(1);
    assert duals[0] == Ascended(P, LA.Zeros(1), q, 0);
  }

  lemma TiltedReference(e: Functions, duals: Vector) returns (r: Vector)
    requires Lawful(e) && IsProblem(Capped(e)) && |duals| == 1 && 0.09 <= duals[0] <= 0.11
    ensures r == Tilted(Capped(e), duals) && |r| == 2
    ensures 0.0 < r[0] <= 0.0625 && r[1] == 0.5
  {
    hide Lawful;
    var P := Capped(e);
    r := Tilted(P, duals);
    assert Exponent(P, duals, 0, 0) == 0.0 && Exponent(P, duals, 1, 0) == 0.0;
    var x := Exponent(P, duals, 0, 1);
    assert x == duals[0] * 100.0;
    assert Exponent(P, duals, 1, 1) == 0.0;
    ExpZero(e);
    ExpNegated(e, x);
    ExpAtLeast(e, x);
    SmallFactor(e.exp(-x), e.exp(x));
  }

  lemma SmallFactor(u: real, v: real)
    requires u * v == 1.0 && v >= 8.0
    ensures u <= 0.125
  {
    if u > 0.125 {
      ProductPositive(u - 0.125, v, (u - 0.125) * v);
    }
  }

  lemma SecondIteration(e: Functions) returns (q: Vector)
    requires Lawful(e)
    ensures IsProblem(Capped(e)) && IterateAt(Capped(e), 1) == Some(q) && |q| == 2
    ensures 0.0 <= q[0] <= 0.2 && 0.999 <= q[0] + q[1] <= 1.001 && Total(q) == q[0] + q[1]
    ensures InBox(q, [0.0, 0.0], [1.0, 1.0])
  {
    hide Lawful, Projection, Tilted, LambdaAt, Clipped, Total;
    var duals := SecondMultiplier(e);
    var r := TiltedReference(e, duals);
    var c;
    q, c := TwoArmProjection(e, r);
    FirstEntry(r, c, q);
  }

  lemma FirstEntry(r: Vector, c: real, q: Vector)
    requires |r| == |q| == 2 && 0.0 < r[0] <= 0.0625 && r[1] == 0.5 && c > 0.0
    requires q == Clipped(r, c, [0.0, 0.0], [1.0, 1.0]) && q[0] + q[1] <= 1.001
    ensures 0.0 <= q[0] <= 0.2
  {
    var x, y := r[0] / c, r[1] / c;
    assert x * c == r[0] && y * c == 0.5;
    SmallShare(x, y, c, r[0]);
  }

  lemma SmallShare(x: real, y: real, c: real, r: real)
    requires c > 0.0 && x * c == r && y * c == 0.5 && 0.0 < r <= 0.0625
    ensures 0.0 < x <= 0.125 * y
  {
    if x <= 0.0 {
      ProductNonNegative(-x, c, (-x) * c);
    }
    if x > 0.125 * y {
      ProductPositive(x - 0.125 * y, c, (x - 0.125 * y) * c);
    }
  }

  // ------------------------------------------------------ a better admissible point

  /** Moving towards an even split lowers the divergence from the even reference. */
  lemma CloserIsBetter(e: Functions, q: Vector, q': Vector)
    requires Lawful(e) && |q| == |q'| == 2 && q[0] + q[1] == q'[0] + q'[1]
    requires 0.0 <= q[0] < q'[0] <= q'[1] && q[1] >= 0.0
    ensures Divergence(e, q', [0.5, 0.5]) < Divergence(e, q, [0.5, 0.5])
  {
    var p := [0.5, 0.5];
    var l0, l1 := e.ln(q'[0]) - e.ln(0.5), e.ln(q'[1]) - e.ln(0.5);
    TermAboveTangent(e, q[0], q'[0], 0.5, l0);
    TermAboveTangent(e, q[1], q'[1], 0.5, l1);
    LnMonotone(e, q'[0], q'[1]);
    var d := q'[0] - q[0];
    ProductNonNegative(l1 - l0, d, (l1 - l0) * d);
    assert (l0 + 1.0) * (q[0] - q'[0]) + (l1 + 1.0) * (q[1] - q'[1]) == (l1 - l0) * d;
    DivergenceOfTwo(e, q, p);
    DivergenceOfTwo(e, q', p);
  }

  lemma DivergenceOfTwo(e: Functions, q: Vector, p: Vector)
    requires |q| == |p| == 2 && p[0] > 0.0 && p[1] > 0.0
    ensures Divergence(e, q, p) == Term(e, q[0], p[0]) + Term(e, q[1], p[1])
  {
    hide Term;
    assert DivergenceUpTo(e, q, p, 1) == Term(e, q[0], p[0]);
  }

  lemma AnswerIsSecondIterate(e: Functions, result: Option<Vector>) returns (q: Vector)
    requires Lawful(e) && IsProblem(Capped(e)) && IsOutcome(Capped(e), result)
    ensures result == Some(q) && |q| == 2
    ensures 0.0 <= q[0] <= 0.2 && 0.999 <= q[0] + q[1] <= 1.001 && Total(q) == q[0] + q[1]
    ensures InBox(q, [0.0, 0.0], [1.0, 1.0])
  {
    hide Lawful, Projection, Tilted, LambdaAt, Total, MaxViolation, IterateAt;
    var P := Capped(e);
    var q0 := FirstIteration(e);
    q := SecondIteration(e);
    CappedViolation(e, q);
    assert !Violates(P, 1, TOL);
    var n :| StopsAt(P, n) && IsAscentResult(P, n, result);
    assert n == 1;
  }

  /** MAIN RESULT. The documented optimality is false: on this input every run answers, and an
      admissible vector with the same total has a strictly smaller divergence from p. */
  lemma AnswerNeedNotBeOptimal(e: Functions, result: Option<Vector>) returns (q': Vector)
    requires Lawful(e) && IsProblem(Capped(e)) && IsOutcome(Capped(e), result)
    ensures result.Some? && IsCompetitor(Capped(e), q', Total(result.value))
    ensures Divergence(e, q', [0.5, 0.5]) < Divergence(e, result.value, [0.5, 0.5])
  {
    hide Lawful, IsOutcome, Total, Divergence;
    var q := AnswerIsSecondIterate(e, result);
    q' := [0.3, q[0] + q[1] - 0.3];
    TotalOfTwo(q');
    RowProduct(q');
    CloserIsBetter(e, q, q');
  }

  /** The same by the exact condition, with m = 100: iterate 0 is rejected by far more than the totals
      differ, and the answer leaves the constraint slack. */
  lemma CappedIsNotOptimal(e: Functions, q: Vector)
    requires Lawful(e) && IsProblem(Capped(e)) && IsOutcome(Capped(e), Some(q)) && |q| == 2
    ensures !StartAccepted(Capped(e)) && StartDecides(Capped(e), 100.0) && Violation(Capped(e), q, 0) < 0.0
    ensures !IsOptimal(Capped(e), q)
  {
    hide Lawful, IsOutcome, Total, Divergence;
    var P := Capped(e);
    var start := FirstIteration(e);
    CappedViolation(e, start);
    var answer := AnswerIsSecondIterate(e, Some(q));
    CappedViolation(e, q);
    OptimalExactlyWhenStartAccepted(P, q, 100.0);
  }
}
