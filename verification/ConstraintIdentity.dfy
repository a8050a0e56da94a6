/** Probabilities that satisfy the linear constraints as well are left unchanged too: the ascent's quick path
    finds them. */
module ConstraintIdentity {
  import opened Constraints
  import opened DualAscent
  import opened ExpLn
  import opened KlFixedPoint
  import opened KlProjection
  import LA = LinearAlgebra
  import opened RealFacts
  import opened Wrappers

  /** What the raw probabilities of the first n arms use of a constraint. */
  ghost function RawUsage(c: Constraints, row: LinearConstraint, raw: Probabilities, n: nat): real
    requires n <= |c.armIds|
  {
    if n == 0 then 0.0
    else
      var id := c.armIds[n - 1];
      RawUsage(c, row, raw, n - 1) + if id in row.coefficients && id in raw then row.coefficients[id] * raw[id] else 0.0
  }

  /** The raw probabilities meet every linear constraint, whose coefficients lie in [-m, m]. */
  ghost predicate MeetsRows(c: Constraints, raw: Probabilities, m: real) {
    forall j :: 0 <= j < |c.linear| ==>
      && RawUsage(c, c.linear[j], raw, |c.armIds|) <= c.linear[j].rhs
      && forall id :: id in c.linear[j].coefficients ==> -m <= c.linear[j].coefficients[id] <= m
  }

  /** Each arm's imprecision, times m, does not add up to more than 1e-9. */
  ghost predicate FineEnough(c: Constraints, m: real) {
    m >= 1.0 && |c.armIds| as real * (m * c.Tolerance()) <= 1e-9
  }

  lemma {:induction false} RawUsageIsProduct(c: Constraints, row: LinearConstraint, raw: Probabilities, p: Vector,
      n: nat)
    requires n <= |c.armIds| == |p|
    requires forall i :: 0 <= i < |p| ==> p[i] == if c.armIds[i] in raw then raw[c.armIds[i]] else 0.0
    ensures LA.DotUpTo(c.Row(row), p, n) == RawUsage(c, row, raw, n)
  {
    if n != 0 {
      RawUsageIsProduct(c, row, raw, p, n - 1);
      ProductIs(c.Row(row)[n - 1], p[n - 1]);
    }
  }

  lemma ProductIs(a: real, x: real)
    ensures a == 0.0 || x == 0.0 ==> a * x == 0.0
  {
  }

  lemma TermClose(a: real, x: real, y: real, m: real, tol: real)
    requires -m <= a <= m && -tol <= x - y <= tol
    ensures a * x <= a * y + m * tol
  {
    var d := x - y;
    assert a * x == a * y + a * d;
    if a >= 0.0 {
      ProductNonNegative(a, tol - d, a * (tol - d));
      ProductNonNegative(m - a, tol, (m - a) * tol);
    } else {
      ProductNonNegative(-a, tol + d, (-a) * (tol + d));
      ProductNonNegative(m + a, tol, (m + a) * tol);
    }
  }

  lemma {:induction false} DotClose(a: Vector, x: Vector, y: Vector, m: real, tol: real, n: nat)
    requires n <= |a| == |x| == |y|
    requires forall i :: 0 <= i < |a| ==> -m <= a[i] <= m && -tol <= x[i] - y[i] <= tol
    ensures LA.DotUpTo(a, x, n) <= LA.DotUpTo(a, y, n) + n as real * (m * tol)
  {
    if n != 0 {
      DotClose(a, x, y, m, tol, n - 1);
      TermClose(a[n - 1], x[n - 1], y[n - 1], m, tol);
      assert n as real * (m * tol) == (n - 1) as real * (m * tol) + m * tol;
    }
  }

  /** A vector close to the raw probabilities violates no constraint by more than 1e-9. */
  lemma CloseMeetsRows(e: Functions, c: Constraints, raw: Probabilities, m: real, x: Vector)
    requires c.Valid() && Lawful(e) && c.linear != [] && c.AlreadyAllowed(raw) && Total(c.ClampedRaw(raw)) > 0.0
    requires MeetsRows(c, raw, m) && FineEnough(c, m) && |x| == |c.armIds|
    requires forall i :: 0 <= i < |x| ==> -c.Tolerance() <= x[i] - c.ClampedRaw(raw)[i] <= c.Tolerance()
    ensures IsProblem(c.ProblemOf(e, raw)) && |x| == |c.ProblemOf(e, raw).p|
    ensures MaxViolation(c.ProblemOf(e, raw), x) <= 1e-9
  {
    hide Lawful, LA.DotUpTo, RawUsage, Constraints.ClampedRaw, Constraints.Reference, Constraints.Tolerance;
    hide Constraints.AlreadyAllowed, Constraints.Lo, Constraints.Hi, Total, IsProblem, IsAdmissible, IsFloored;
    c.ProblemIsWellFormed(e, raw);
    c.AllowedIsAdmissible(raw);
    var P, p := c.ProblemOf(e, raw), c.ClampedRaw(raw);
    forall j | 0 <= j < |P.a| ensures Violation(P, x, j) <= 1e-9 {
      RawUsageIsProduct(c, c.linear[j], raw, p, |p|);
      DotClose(c.Row(c.linear[j]), x, p, m, c.Tolerance(), |p|);
    }
  }

  /** Raising an entry to the floor moves it by less than the tolerance. */
  lemma ReferenceIsClose(c: Constraints, raw: Probabilities)
    requires c.Valid() && c.AlreadyAllowed(raw) && Total(c.ClampedRaw(raw)) > 0.0
    ensures forall i :: 0 <= i < |c.armIds| ==>
      -c.Tolerance() <= c.Reference(raw)[i] - c.ClampedRaw(raw)[i] <= c.Tolerance()
  {
    hide Constraints.AlreadyAllowed, Constraints.Lo, Constraints.Hi, Constraints.ClampedRaw, Constraints.Reference;
    hide Total, IsAdmissible, Truncated;
    c.AllowedIsAdmissible(raw);
    assert c.floor > 0.0;
    hide IsFloor;
    forall i | 0 <= i < |c.armIds|
      ensures -c.Tolerance() <= c.Reference(raw)[i] - c.ClampedRaw(raw)[i] <= c.Tolerance()
    {
      FlooredEntry(c.ClampedRaw(raw), c.Reference(raw), c.floor, i, |c.armIds| as real * c.floor);
    }
  }

  /** The reference and its projection are both close enough for the quick path. */
  lemma QuickPathApplies(e: Functions, c: Constraints, raw: Probabilities, m: real)
    requires c.Valid() && Lawful(e) && c.linear != [] && IsBox(c.Lo(), c.Hi()) && Total(c.ClampedRaw(raw)) > 0.0
    requires c.AlreadyAllowed(raw) && MeetsRows(c, raw, m) && FineEnough(c, m) && |c.armIds| as real * c.floor <= 1e-9
    ensures IsProblem(c.ProblemOf(e, raw)) && QuickPath(c.ProblemOf(e, raw))
  {
    hide Lawful, Projection, MaxViolation, Constraints.ClampedRaw, Constraints.Reference, Constraints.Tolerance, Total;
    hide Constraints.AlreadyAllowed, Constraints.Lo, Constraints.Hi, MeetsRows, FineEnough, IsProblem, QuickPath;
    c.ProblemIsWellFormed(e, raw);
    var q := Projection(e, c.Reference(raw), c.Lo(), c.Hi());
    ReferenceIsClose(c, raw);
    CloseMeetsRows(e, c, raw, m, c.Reference(raw));
    c.AllowedEntries(e, raw, q);
    CloseMeetsRows(e, c, raw, m, q.value);
    CloseIsQuick(e, c, raw, q.value);
  }

  lemma CloseIsQuick(e: Functions, c: Constraints, raw: Probabilities, q: Vector)
    requires c.Valid() && Lawful(e) && Total(c.ClampedRaw(raw)) > 0.0 && IsProblem(c.ProblemOf(e, raw))
    requires IsBox(c.Lo(), c.Hi()) && Projection(e, c.Reference(raw), c.Lo(), c.Hi()) == Some(q) && |q| == |c.armIds|
    requires MaxViolation(c.ProblemOf(e, raw), c.Reference(raw)) <= 1e-9
    requires MaxViolation(c.ProblemOf(e, raw), q) <= 1e-9
    ensures QuickPath(c.ProblemOf(e, raw))
  {
    hide Lawful, Projection, MaxViolation, IsProblem, Total, Constraints.ClampedRaw, Constraints.Reference;
    hide Constraints.Lo, Constraints.Hi;
  }

  /** On the quick path the answer is the projection of the reference. */
  lemma QuickAnswer(e: Functions, c: Constraints, raw: Probabilities, q: Option<Vector>)
    requires c.Valid() && Lawful(e) && c.armIds != [] && c.linear != [] && c.IsAnswer(e, raw, q)
    requires IsBox(c.Lo(), c.Hi()) && Total(c.ClampedRaw(raw)) > 0.0
    requires IsProblem(c.ProblemOf(e, raw)) && QuickPath(c.ProblemOf(e, raw))
    ensures q == Projection(e, c.Reference(raw), c.Lo(), c.Hi())
  {
    hide Lawful, Projection, MaxViolation, IsProblem, Total, Constraints.ClampedRaw, Constraints.Reference;
    hide Constraints.Lo, Constraints.Hi, QuickPath;
  }

  /** MAIN RESULT. Raw probabilities within the bounds that sum to 1 and meet every linear constraint are
      answered, each unchanged up to 1e-13 and twice the floor of each arm. */
  lemma FeasibleStaysUnchanged(e: Functions, c: Constraints, raw: Probabilities, m: real, q: Option<Vector>)
    requires c.Valid() && Lawful(e) && c.armIds != [] && c.IsAnswer(e, raw, q) && c.AlreadyAllowed(raw)
    requires c.linear != [] ==> MeetsRows(c, raw, m) && FineEnough(c, m)
    requires |c.armIds| as real * c.floor <= 1e-9
    ensures q.Some? && |q.value| == |c.armIds|
    ensures c.Unchanged(raw, c.Collected(q.value, |c.armIds|), c.Tolerance())
  {
    hide *;
    if c.linear == [] {
      c.AllowedStaysUnchanged(e, raw, q);
    } else {
      c.BoundsFormBox();
      c.AllowedIsAdmissible(raw);
      QuickPathApplies(e, c, raw, m);
      QuickAnswer(e, c, raw, q);
      c.ProjectedStaysUnchanged(e, raw, q);
    }
  }
}
