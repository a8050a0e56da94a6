/** Where the constraint layer falls short of its documentation, and exactly when it does not. */
module ConstraintLimits {
  import opened Constraints
  import opened DualOptimality
  import opened DualOvershoot
  import opened ExpLn
  import opened KlFixedPoint
  import opened KlOptimality
  import opened KlPrecision
  import opened KlProjection
  import LA = LinearAlgebra
  import opened RealFacts
  import opened RealMaps
  import opened Wrappers

  lemma {:induction false} ScaledSum(v: Vector, w: Vector, k: real, t: real, n: nat)
    requires n <= |v| == |w| && forall i :: 0 <= i < n ==> w[i] <= k * v[i] + t
    ensures SumUpTo(w, n) <= k * SumUpTo(v, n) + n as real * t
  {
    if n != 0 {
      ScaledSum(v, w, k, t, n - 1);
      Distribute(k, SumUpTo(v, n - 1), v[n - 1]);
      OneMore((n - 1) as real, n as real, t);
    }
  }

  lemma OneMore(m: real, n: real, t: real)
    requires n == m + 1.0
    ensures n * t == m * t + t
  {
  }

  lemma FloorAdds(x: real, s: real, k: real, t: real)
    requires s > 0.0 && 0.0 <= x && k * s == 1.0 && t > 0.0
    ensures AtLeast(x / s, t) <= k * x + t
  {
    assert x / s * s == x;
    assert k * x * s == k * s * x;
    SameQuotient(k * x, x / s, s);
    assert x / s >= 0.0;
  }

  /** The normalised reference of at most 1 / floor arms has a total of at most 2. */
  lemma ReferenceIsNormalised(c: Constraints, raw: Probabilities)
    requires Total(c.ClampedRaw(raw)) > 0.0 && c.floor > 0.0 && |c.armIds| as real * c.floor <= 1.0
    ensures IsNormalised(c.Reference(raw))
  {
    hide SumUpTo, AtLeast, Truncated, Constraints.ClampedRaw, Constraints.Reference;
    var v, w := c.ClampedRaw(raw), c.Reference(raw);
    var s := Total(v);
    var k := 1.0 / s;
    assert k * s == 1.0;
    forall i | 0 <= i < |v| ensures w[i] <= k * v[i] + c.floor {
      FloorAdds(v[i], s, k, c.floor);
    }
    ScaledSum(v, w, k, c.floor, |v|);
    hide *;
    AtMostTwo(Total(w), k, s, |v| as real * c.floor);
  }

  lemma AtMostTwo(t: real, k: real, s: real, floors: real)
    requires k * s == 1.0 && t <= k * s + floors && floors <= 1.0
    ensures t <= 2.0
  {
  }

  /** MAIN RESULT. With per-arm bounds only and a non-empty polytope, the solver answers exactly when
      the scaled references can fill it: sum of clip(p_i e^50, lo_i, hi_i) >= 1 - 1e-9. */
  lemma AnswersExactlyWhen(e: Functions, c: Constraints, raw: Probabilities, q: Option<Vector>)
    requires c.Valid() && Lawful(e) && c.armIds != [] && c.linear == [] && Total(c.ClampedRaw(raw)) > 0.0
    requires |c.armIds| as real * c.floor <= 1.0
    requires c.IsAnswer(e, raw, q) && !PolytopeIsEmpty(c.Lo(), c.Hi())
    ensures IsInput(e, c.Reference(raw), c.Lo(), c.Hi())
    ensures q.Some? <==> TotalAt(e, c.Reference(raw), c.Lo(), c.Hi(), -50.0) >= 1.0 - 1e-9
  {
    hide TotalAt, Total, Lawful, Projection, PolytopeIsEmpty, IsNormalised, Constraints.ClampedRaw;
    c.BoundsFormBox();
    ReferenceIsNormalised(c, raw);
    AnswerExactlyWhen(e, c.Reference(raw), c.Lo(), c.Hi());
  }

  function CappedPair(floor: real): Constraints {
    Constraints(["a", "b"], map["b" := Bound(0.0, 0.5)], [], floor)
  }

  /** MAIN RESULT. The documentation promises an infeasible result only for an empty polytope or a failed
      ascent. Probabilities (0, 1) with the second arm capped at 1/2 have the admissible point
      (1/2, 1/2) and no linear constraint, yet the solver answers nothing. */
  lemma ZeroArmUnderCap(e: Functions, floor: real, q: Option<Vector>)
    requires Lawful(e) && IsFloor(floor)
    ensures var c, raw := CappedPair(floor), map["a" := 0.0, "b" := 1.0];
      && c.Valid() && !PolytopeIsEmpty(c.Lo(), c.Hi())
      && (c.IsAnswer(e, raw, q) ==> q.None?)
  {
    hide PolytopeIsEmpty, Projection, Lawful, PowerOfTwo;
    var c, raw := CappedPair(floor), map["a" := 0.0, "b" := 1.0];
    NoneOnNonEmptyPolytope(e, floor);
    assert floor <= 1.0 by { FloorBelowOne(floor); }
    assert c.Lo() == [0.0, 0.0] && c.Hi() == [1.0, 0.5];
    assert c.ClampedRaw(raw) == [0.0, 1.0];
    TotalOfTwo([0.0, 1.0]);
    assert c.Reference(raw) == [floor, 1.0];
  }

  lemma FloorBelowOne(floor: real)
    requires IsFloor(floor)
    ensures floor <= 1.0
  {
    PowerAtLeastOne(100);
    ProductNonNegative(floor, PowerOfTwo(100) - 1.0, floor * (PowerOfTwo(100) - 1.0));
  }

  function CappedFirst(floor: real): Constraints {
    Constraints(["a", "b"], map[], [LinearConstraint("cap", map["a" := 1.0], 0.1)], floor)
  }

  /** MAIN RESULT. The guard of the linear guarantee is needed: with an all-zero clamped sum the fallback
      ignores the linear constraints, and here breaks the only one by more than 0.3. */
  lemma FallbackIgnoresLinear(e: Functions, floor: real, q: Option<Vector>)
    requires Lawful(e) && IsFloor(floor)
    ensures var c, raw := CappedFirst(floor), map[];
      c.Valid() && (c.IsAnswer(e, raw, q) ==>
        && q.Some? && |q.value| == 2
        && c.HasAllArms(c.Collected(q.value, 2))
        && !c.MeetsLinear(c.Collected(q.value, 2), 0.3))
  {
    hide Projection, Lawful, Total, Constraints.Lo, Constraints.Hi, Constraints.ClampedRaw, Constraints.Uniform;
    hide Constraints.Collected, Constraints.MeetsLinear;
    CappedFirstInputs(floor);
    var half := EvenSplit(e);
    EvenSplitUsage(floor, half);
  }

  /** MAIN RESULT. What the fallback does instead: with an all-zero clamped sum the answer is the
      projection of the uniform vector whatever the raw probabilities, and over distinct arms it meets the
      linear constraints exactly when that projection does. */
  lemma FallbackExactlyWhen(e: Functions, c: Constraints, raw: Probabilities, q: Vector, tol: real)
    requires c.Valid() && Lawful(e) && c.armIds != [] && Distinct(c.armIds) && Total(c.ClampedRaw(raw)) <= 0.0
    requires IsInput(e, c.Uniform(), c.Lo(), c.Hi()) && c.IsAnswer(e, raw, Some(q))
    ensures Projection(e, c.Uniform(), c.Lo(), c.Hi()) == Some(q) && |q| == |c.armIds|
    ensures c.HasAllArms(c.Collected(q, |c.armIds|))
    ensures c.MeetsLinear(c.Collected(q, |c.armIds|), tol)
      <==> forall j :: 0 <= j < |c.linear| ==> LA.Dot(c.Row(c.linear[j]), q) - c.linear[j].rhs <= tol
  {
    hide Projection, Lawful, Total, Constraints.ClampedRaw, Constraints.UsageUpTo, Constraints.Collected;
    var adjusted := c.Collected(q, |c.armIds|);
    c.CollectedEntries(q, |c.armIds|);
    assert c.armIds[..|c.armIds|] == c.armIds;
    forall j | 0 <= j < |c.linear|
      ensures c.UsageUpTo(c.linear[j], adjusted, |c.armIds|) == LA.Dot(c.Row(c.linear[j]), q)
    {
      c.UsageIsProduct(c.linear[j], q, adjusted, |c.armIds|);
    }
  }

  lemma {:induction false} UniformUsage(a: Vector, u: Vector, x: real, n: nat)
    requires n <= |a| == |u| && forall i :: 0 <= i < |u| ==> u[i] == x
    ensures SumUpTo(u, n) == n as real * x && LA.DotUpTo(a, u, n) == SumUpTo(a, n) * x
  {
    if n != 0 {
      UniformUsage(a, u, x, n - 1);
      OneMore((n - 1) as real, n as real, x);
    }
  }

  /** The even split is within every bound. */
  ghost predicate EvenSplitAllowed(c: Constraints)
    requires c.armIds != []
  {
    forall i :: 0 <= i < |c.armIds| ==> c.Lo()[i] <= c.Uniform()[i] <= c.Hi()[i]
  }

  /** The mean coefficient: what a row uses at the even split. */
  function MeanCoefficient(c: Constraints, row: LinearConstraint): real
    requires c.armIds != []
  {
    Total(c.Row(row)) * (1.0 / |c.armIds| as real)
  }

  lemma FallbackUsage(e: Functions, c: Constraints, q: Vector, row: LinearConstraint, m: real)
    requires c.Valid() && Lawful(e) && c.armIds != [] && IsInput(e, c.Uniform(), c.Lo(), c.Hi()) && EvenSplitAllowed(c)
    requires Projection(e, c.Uniform(), c.Lo(), c.Hi()) == Some(q) && RowWithin(c.Row(row), m) && m >= 0.0
    ensures |q| == |c.armIds|
    ensures -(m * TOTAL_TOL) <= LA.Dot(c.Row(row), q) - MeanCoefficient(c, row) <= m * TOTAL_TOL
  {
    hide Lawful, Projection, SumUpTo, LA.DotUpTo, NearOne, FinalLogC, Clip, RowWithin;
    hide Constraints.Lo, Constraints.Hi, Constraints.Row, Constraints.Uniform, Constraints.Valid;
    var u, a, x := c.Uniform(), c.Row(row), 1.0 / |c.armIds| as real;
    var k := ProjectionIsNearFeasible(e, u, c.Lo(), c.Hi());
    TotalNearOne(e, Total(q));
    assert x > 0.0 && |c.armIds| as real * x == 1.0;
    UniformUsage(a, u, x, |u|);
    forall i | 0 <= i < |u| ensures (k <= 1.0 ==> u[i] <= q[i]) && (k >= 1.0 ==> q[i] <= u[i]) {
      ClipKeepsSide(u[i], u[i], k, c.Lo()[i], c.Hi()[i]);
    }
    if k <= 1.0 {
      var most := OrderedUsage(a, u, q, m, |u|);
      PriceBelow(m, Total(q) - 1.0, most);
    } else {
      var most := OrderedUsage(a, q, u, m, |u|);
      PriceBelow(m, 1.0 - Total(q), most);
    }
  }

  lemma PriceBelow(m: real, d: real, most: real)
    requires m >= 0.0 && d <= TOTAL_TOL && most == m * d
    ensures most <= m * TOTAL_TOL
  {
    ProductNonNegative(m, TOTAL_TOL - d, m * (TOTAL_TOL - d));
  }

  /** MAIN RESULT. Read off the input: when the even split is within every bound, the fallback meets a
      linear constraint with coefficients in [-m, m], up to 2e-9 m, if its mean coefficient is at most the
      right-hand side, and only if it is up to 4e-9 m. */
  lemma FallbackMeetsMeanRows(e: Functions, c: Constraints, raw: Probabilities, q: Vector, j: nat, m: real)
    requires c.Valid() && Lawful(e) && c.armIds != [] && Distinct(c.armIds) && Total(c.ClampedRaw(raw)) <= 0.0
    requires IsInput(e, c.Uniform(), c.Lo(), c.Hi()) && c.IsAnswer(e, raw, Some(q)) && EvenSplitAllowed(c)
    requires j < |c.linear| && m >= 0.0 && RowWithin(c.Row(c.linear[j]), m)
    ensures |q| == |c.armIds| && c.HasAllArms(c.Collected(q, |c.armIds|))
    ensures var excess := c.UsageUpTo(c.linear[j], c.Collected(q, |c.armIds|), |c.armIds|) - c.linear[j].rhs;
      var mean := MeanCoefficient(c, c.linear[j]);
      && (mean <= c.linear[j].rhs ==> excess <= m * TOTAL_TOL)
      && (excess <= m * TOTAL_TOL ==> mean <= c.linear[j].rhs + 2.0 * (m * TOTAL_TOL))
  {
    FallbackExactlyWhen(e, c, raw, q, 0.0);
    hide *;
    var adjusted := c.Collected(q, |c.armIds|);
    CollectedUsage(c, q, c.linear[j]);
    FallbackUsage(e, c, q, c.linear[j], m);
  }

  lemma CollectedUsage(c: Constraints, q: Vector, row: LinearConstraint)
    requires |q| == |c.armIds| && Distinct(c.armIds) && c.HasAllArms(c.Collected(q, |c.armIds|))
    ensures c.UsageUpTo(row, c.Collected(q, |c.armIds|), |c.armIds|) == LA.Dot(c.Row(row), q)
  {
    hide Constraints.UsageUpTo, Constraints.Collected, LA.DotUpTo, Distinct;
    c.CollectedEntries(q, |c.armIds|);
    c.UsageIsProduct(row, q, c.Collected(q, |c.armIds|), |c.armIds|);
  }

  lemma CappedFirstInputs(floor: real)
    ensures var c := CappedFirst(floor);
      && c.Lo() == [0.0, 0.0] && c.Hi() == [1.0, 1.0] && c.Uniform() == [0.5, 0.5]
      && Total(c.ClampedRaw(map[])) == 0.0
  {
    var c := CappedFirst(floor);
    assert c.ClampedRaw(map[]) == [0.0, 0.0];
    TotalOfTwo([0.0, 0.0]);
  }

  lemma EvenSplit(e: Functions) returns (half: Vector)
    requires Lawful(e)
    ensures Projection(e, [0.5, 0.5], [0.0, 0.0], [1.0, 1.0]) == Some(half)
    ensures |half| == 2 && half[0] >= 0.499
  {
    hide Lawful, Projection;
    var c;
    half, c := TwoArmProjection(e, [0.5, 0.5]);
    assert half[0] == half[1];
  }

  lemma EvenSplitUsage(floor: real, half: Vector)
    requires |half| == 2 && half[0] >= 0.499
    ensures var c := CappedFirst(floor);
      c.HasAllArms(c.Collected(half, 2)) && !c.MeetsLinear(c.Collected(half, 2), 0.3)
  {
    var c := CappedFirst(floor);
    var adjusted := c.Collected(half, 2);
    assert c.armIds[..2] == c.armIds;
    c.CollectedEntries(half, 2);
    assert Distinct(c.armIds);
    assert adjusted[c.armIds[0]] == half[0];
    assert c.UsageUpTo(c.linear[0], adjusted, 1) == half[0];
    assert c.UsageUpTo(c.linear[0], adjusted, 2) == half[0];
  }
}
