/** Exactly when an answer of the ascent minimises KL(q || p) over the admissible vectors. */
module DualOptimality {
  import opened DualAscent
  import opened ExpLn
  import opened KlOptimality
  import opened KlPrecision
  import opened KlProjection
  import LA = LinearAlgebra
  import opened RealFacts
  import opened Wrappers

  /** No admissible vector of the same total has a smaller divergence. */
  ghost predicate IsOptimal(P: Problem, q: Vector)
    requires IsProblem(P) && |q| == |P.p|
  {
    forall q' :: IsCompetitor(P, q', Total(q)) ==> Divergence(P.e, q, P.p) <= Divergence(P.e, q', P.p)
  }

  /** q' is within the bounds, has q's total, and meets the constraints that q leaves without slack. */
  ghost predicate IsTightCompetitor(P: Problem, q: Vector, q': Vector)
    requires IsProblem(P) && |q| == |P.p|
  {
    && InBox(q', P.lo, P.hi) && Total(q') == Total(q)
    && forall j :: 0 <= j < |P.a| && Violation(P, q, j) >= 0.0 ==> Violation(P, q', j) <= 0.0
  }

  ghost predicate IsTightOptimal(P: Problem, q: Vector)
    requires IsProblem(P) && |q| == |P.p|
  {
    forall q' :: IsTightCompetitor(P, q, q') ==> Divergence(P.e, q, P.p) <= Divergence(P.e, q', P.p)
  }

  // ---------------------------------------------------------------- blending

  /** The blend x + t (y - x) of two entries. */
  lemma BlendBetween(x: real, y: real, t: real, m: real, lo: real, hi: real)
    requires 0.0 <= t <= 1.0 && m == x + t * (y - x) && lo <= x <= hi && lo <= y <= hi
    ensures lo <= m <= hi
  {
    ProductNonNegative(t, y - lo, t * (y - lo));
    ProductNonNegative(1.0 - t, x - lo, (1.0 - t) * (x - lo));
    ProductNonNegative(t, hi - y, t * (hi - y));
    ProductNonNegative(1.0 - t, hi - x, (1.0 - t) * (hi - x));
    assert m - lo == t * (y - lo) + (1.0 - t) * (x - lo);
    assert hi - m == t * (hi - y) + (1.0 - t) * (hi - x);
  }

  /** Two lower bounds by one tangent, averaged: the slope drops out. */
  lemma AverageOfTangents(x: real, y: real, t: real, m: real, fx: real, fy: real, fm: real, k: real)
    requires 0.0 <= t <= 1.0 && m == x + t * (y - x)
    requires fx >= fm + k * (x - m) && fy >= fm + k * (y - m)
    ensures fm <= fx + t * (fy - fx)
  {
    var u, v := fx - fm - k * (x - m), fy - fm - k * (y - m);
    ProductNonNegative(1.0 - t, u, (1.0 - t) * u);
    ProductNonNegative(t, v, t * v);
    assert (1.0 - t) * (x - m) + t * (y - m) == 0.0;
    assert (1.0 - t) * (k * (x - m)) + t * (k * (y - m)) == k * ((1.0 - t) * (x - m) + t * (y - m));
    assert (1.0 - t) * u + t * v
        == (1.0 - t) * fx + t * fy - fm - ((1.0 - t) * (k * (x - m)) + t * (k * (y - m)));
  }

  /** Each term is convex along a blend. */
  lemma TermConvex(e: Functions, x: real, y: real, t: real, m: real, r: real)
    requires Lawful(e) && r > 0.0 && x >= 0.0 && y >= 0.0 && 0.0 < t <= 1.0 && m == x + t * (y - x)
    ensures Term(e, m, r) <= Term(e, x, r) + t * (Term(e, y, r) - Term(e, x, r))
  {
    ProductNonNegative(t, y, t * y);
    ProductNonNegative(1.0 - t, x, (1.0 - t) * x);
    assert m == t * y + (1.0 - t) * x;
    if t == 1.0 {
      assert m == y;
    } else if m > 0.0 {
      hide Lawful, Term;
      var l := e.ln(m) - e.ln(r);
      TermAboveTangent(e, x, m, r, l);
      TermAboveTangent(e, y, m, r, l);
      AverageOfTangents(x, y, t, m, Term(e, x, r), Term(e, y, r), Term(e, m, r), l + 1.0);
    } else {
      ZeroBlend(x, y, t);
    }
  }

  lemma ZeroBlend(x: real, y: real, t: real)
    requires 0.0 < t < 1.0 && x >= 0.0 && y >= 0.0 && t * y + (1.0 - t) * x <= 0.0
    ensures x == 0.0 && y == 0.0
  {
    if x > 0.0 {
      ProductPositive(1.0 - t, x, (1.0 - t) * x);
    }
    if y > 0.0 {
      ProductPositive(t, y, t * y);
    }
    ProductNonNegative(t, y, t * y);
    ProductNonNegative(1.0 - t, x, (1.0 - t) * x);
  }

  lemma {:induction false} DivergenceConvex(e: Functions, x: Vector, y: Vector, t: real, z: Vector, r: Vector, n: nat)
    requires Lawful(e) && n <= |x| == |y| == |z| == |r| && IsPositive(r) && 0.0 < t <= 1.0
    requires forall i :: 0 <= i < |x| ==> x[i] >= 0.0 && y[i] >= 0.0 && z[i] == x[i] + t * (y[i] - x[i])
    ensures DivergenceUpTo(e, z, r, n)
         <= DivergenceUpTo(e, x, r, n) + t * (DivergenceUpTo(e, y, r, n) - DivergenceUpTo(e, x, r, n))
  {
    hide Lawful, Term;
    if n != 0 {
      DivergenceConvex(e, x, y, t, z, r, n - 1);
      TermConvex(e, x[n - 1], y[n - 1], t, z[n - 1], r[n - 1]);
      Distribute(t, DivergenceUpTo(e, y, r, n - 1) - DivergenceUpTo(e, x, r, n - 1),
                 Term(e, y[n - 1], r[n - 1]) - Term(e, x[n - 1], r[n - 1]));
    }
  }

  /** Violations are affine along a blend. */
  lemma ViolationOfBlend(P: Problem, q: Vector, q': Vector, t: real, z: Vector, j: nat)
    requires IsProblem(P) && |q| == |q'| == |P.p| && z == Blend(q, q', t) && j < |P.a|
    ensures Violation(P, z, j) == Violation(P, q, j) + t * (Violation(P, q', j) - Violation(P, q, j))
  {
    hide LA.DotUpTo, Lawful;
    var step := LA.Sub(q', q);
    LA.DotSub(P.a[j], q', q);
    LA.DotLinear(P.a[j], q, step, t, z);
  }

  /** A step keeps a constraint with violation v when the full step to v' does, or when it is small. */
  lemma StepKeeps(v: real, v': real, t: real, s: real)
    requires v <= 0.0 && 0.0 <= s <= t && v + t * (v' - v) <= 0.0
    ensures v + s * (v' - v) <= 0.0
  {
    var d := v' - v;
    if d <= 0.0 {
      ProductNonNegative(s, -d, s * (-d));
    } else {
      ProductNonNegative(t - s, d, (t - s) * d);
    }
  }

  lemma StepWithinSlack(v: real, v': real) returns (t: real)
    requires v < 0.0
    ensures 0.0 < t <= 1.0 && v + t * (v' - v) <= 0.0
  {
    if v' <= 0.0 {
      t := 1.0;
    } else {
      t := -v / (v' - v);
      assert t * (v' - v) == -v;
      QuotientAtMostOne(-v, v' - v, t);
    }
  }

  /** A common step that keeps the first n constraints. */
  lemma {:induction false} SmallStep(P: Problem, q: Vector, q': Vector, n: nat) returns (t: real)
    requires IsProblem(P) && |q| == |q'| == |P.p| && n <= |P.a| && SatisfiesAll(P, q)
    requires forall j :: 0 <= j < |P.a| && Violation(P, q, j) >= 0.0 ==> Violation(P, q', j) <= 0.0
    ensures 0.0 < t <= 1.0
    ensures forall j :: 0 <= j < n ==> Violation(P, q, j) + t * (Violation(P, q', j) - Violation(P, q, j)) <= 0.0
  {
    hide Violation, Lawful;
    if n == 0 {
      t := 1.0;
    } else {
      var before := SmallStep(P, q, q', n - 1);
      var v, v' := Violation(P, q, n - 1), Violation(P, q', n - 1);
      var own := 1.0;
      if v < 0.0 {
        own := StepWithinSlack(v, v');
      }
      t := if before < own then before else own;
      StepKeeps(v, v', own, t);
      forall j | 0 <= j < n - 1 ensures Violation(P, q, j) + t * (Violation(P, q', j) - Violation(P, q, j)) <= 0.0 {
        StepKeeps(Violation(P, q, j), Violation(P, q', j), before, t);
      }
    }
  }

  lemma BlendOfSameTotal(P: Problem, q: Vector, q': Vector, t: real, z: Vector)
    requires IsProblem(P) && InBox(q, P.lo, P.hi) && InBox(q', P.lo, P.hi) && Total(q) == Total(q')
    requires 0.0 < t <= 1.0 && z == Blend(q, q', t)
    ensures InBox(z, P.lo, P.hi) && Total(z) == Total(q)
    ensures Divergence(P.e, z, P.p)
         <= Divergence(P.e, q, P.p) + t * (Divergence(P.e, q', P.p) - Divergence(P.e, q, P.p))
  {
    hide Lawful, DivergenceUpTo, SumUpTo;
    forall i | 0 <= i < |z| ensures P.lo[i] <= z[i] <= P.hi[i] {
      BlendBetween(q[i], q'[i], t, z[i], P.lo[i], P.hi[i]);
    }
    BlendOfTotals(q, q', t, 0.0);
    DivergenceConvex(P.e, q, q', t, z, P.p, |q|);
  }

  /** From an admissible vector a small step towards a better tight competitor is admissible and better. */
  lemma BetterBlend(P: Problem, q: Vector, q': Vector) returns (z: Vector)
    requires IsProblem(P) && InBox(q, P.lo, P.hi) && SatisfiesAll(P, q) && IsTightCompetitor(P, q, q')
    requires Divergence(P.e, q', P.p) < Divergence(P.e, q, P.p)
    ensures IsCompetitor(P, z, Total(q)) && Divergence(P.e, z, P.p) < Divergence(P.e, q, P.p)
  {
    hide Violation, Lawful, Divergence, Total, Blend;
    var t := SmallStep(P, q, q', |P.a|);
    z := Blend(q, q', t);
    BlendOfSameTotal(P, q, q', t, z);
    forall j | 0 <= j < |P.a| ensures Violation(P, z, j) <= 0.0 {
      ViolationOfBlend(P, q, q', t, z, j);
    }
    var d := Divergence(P.e, q, P.p) - Divergence(P.e, q', P.p);
    ProductPositive(t, d, t * d);
  }

  // ------------------------------------------------------- when it is optimal

  /** MAIN RESULT. An admissible vector is optimal exactly when it is against the constraints it leaves
      without slack alone. With slack everywhere no linear constraint matters. */
  lemma OnlyTightConstraintsMatter(P: Problem, q: Vector)
    requires IsProblem(P) && InBox(q, P.lo, P.hi) && SatisfiesAll(P, q)
    ensures IsOptimal(P, q) <==> IsTightOptimal(P, q)
  {
    hide Violation, Lawful, Divergence, Total;
    if !IsTightOptimal(P, q) {
      var q' :| IsTightCompetitor(P, q, q') && Divergence(P.e, q', P.p) < Divergence(P.e, q, P.p);
      var z := BetterBlend(P, q, q');
    }
    forall q' | IsCompetitor(P, q', Total(q)) ensures IsTightCompetitor(P, q, q') {}
  }

  /** MAIN RESULT. The run's own certificate: a non-negative penalty at the answer's iteration makes the
      answer optimal. */
  lemma PenaltyMakesOptimal(P: Problem, n: nat)
    requires IsProblem(P) && IterateAt(P, n).Some?
    requires Penalty(P, LambdaAt(P, n), IterateAt(P, n).value) >= 0.0
    ensures IsOptimal(P, IterateAt(P, n).value)
  {
    hide Projection, LambdaAt, Tilted, Lawful, Total, Penalty, Divergence, IterateAt;
    var q := IterateAt(P, n).value;
    forall q' | IsCompetitor(P, q', Total(q)) ensures Divergence(P.e, q, P.p) <= Divergence(P.e, q', P.p) {
      TotalOfCompetitor(P, q', Total(q));
      IterateCertifiesBound(P, n, q');
    }
  }

  /** The test a caller can make beforehand: the projection of p itself exists and meets the constraints,
      within 1e-6 on the quick path and within 1e-7 otherwise. */
  ghost predicate StartAccepted(P: Problem)
    requires IsProblem(P)
  {
    QuickPath(P) || (IterateAt(P, 0).Some? && !Violates(P, 0, TOL))
  }

  /** Every answer has a first iterate; it is the answer when it is accepted, and violates otherwise. */
  lemma StartOfAnswer(P: Problem, q: Vector)
    requires IsProblem(P) && IsOutcome(P, Some(q))
    ensures IterateAt(P, 0).Some? && |q| == |P.p|
    ensures StartAccepted(P) ==> IterateAt(P, 0) == Some(q)
    ensures !StartAccepted(P) ==> Violates(P, 0, TOL)
  {
    hide Projection, Lawful, LambdaAt, Tilted, MaxViolation;
    var n := AnswerIsIterate(P, Some(q));
    if QuickPath(P) {
      FirstIterateIsQuick(P);
    } else if n > 0 {
      assert Violates(P, 0, TOL);
    }
  }

  /** Iterate 0 is the projection of p: the unique minimiser over the box at its total. */
  lemma StartIsBoxOptimal(P: Problem, q': Vector)
    requires IsProblem(P) && IterateAt(P, 0).Some? && InBox(q', P.lo, P.hi) && Total(q') == Total(IterateAt(P, 0).value)
    ensures var q := IterateAt(P, 0).value;
      && Divergence(P.e, q, P.p) <= Divergence(P.e, q', P.p)
      && (q' != q ==> Divergence(P.e, q, P.p) < Divergence(P.e, q', P.p))
  {
    hide Projection, Lawful, Divergence, Total, LambdaAt, Tilted;
    FirstIterateIsQuick(P);
    ProjectionIsOptimal(P.e, P.p, P.lo, P.hi, q');
  }

  // ------------------------------------------------- what box-optimality means

  /** Moving an entry towards clip(r / c, lo, hi) gains more than 1 - ln c per unit moved. */
  lemma TowardsClip(e: Functions, r: real, c: real, m: real, lo: real, hi: real, y: real, x: real)
    requires Lawful(e) && r > 0.0 && c > 0.0 && 0.0 <= lo <= y <= hi && m == 1.0 - e.ln(c)
    requires y < x <= Clip(r / c, lo, hi) || Clip(r / c, lo, hi) <= x < y
    ensures Gap(e, y, x, r, m) > 0.0
  {
    hide Lawful, Term;
    var u, l := r / c, e.ln(x) - e.ln(r);
    LnQuotient(e, r, c);
    assert u > 0.0;
    if y < x {
      LnMonotone(e, x, u);
    } else {
      LnMonotone(e, u, x);
    }
    TermAboveTangent(e, y, x, r, l);
    SlopeAgainstPrice(l, m, y - x, Term(e, y, r) - Term(e, x, r));
  }

  lemma SlopeAgainstPrice(l: real, m: real, d: real, gain: real)
    requires gain > (l + 1.0) * d && (d < 0.0 ==> l + 1.0 <= m) && (d > 0.0 ==> l + 1.0 >= m)
    ensures gain - m * d > 0.0
  {
    ProductSign(l + 1.0 - m, d);
    assert (l + 1.0) * d - m * d == (l + 1.0 - m) * d;
  }

  lemma ProductSign(a: real, d: real)
    requires (d < 0.0 ==> a <= 0.0) && (d > 0.0 ==> a >= 0.0)
    ensures a * d >= 0.0
  {
    if d < 0.0 {
      ProductNonNegative(-a, -d, (-a) * (-d));
    } else if d > 0.0 {
      ProductNonNegative(a, d, a * d);
    }
  }

  lemma {:induction false} DivergenceOfChange(e: Functions, q: Vector, i: nat, x: real, r: Vector, n: nat)
    requires n <= |q| == |r| && IsPositive(r) && i < |q|
    ensures DivergenceUpTo(e, q[i := x], r, n)
         == DivergenceUpTo(e, q, r, n) + if i < n then Term(e, x, r[i]) - Term(e, q[i], r[i]) else 0.0
  {
    hide Term;
    if n != 0 {
      DivergenceOfChange(e, q, i, x, r, n - 1);
    }
  }

  lemma {:induction false} SumOfChange(q: Vector, i: nat, x: real, n: nat)
    requires n <= |q| && i < |q|
    ensures SumUpTo(q[i := x], n) == SumUpTo(q, n) + if i < n then x - q[i] else 0.0
  {
    if n != 0 {
      SumOfChange(q, i, x, n - 1);
    }
  }

  lemma ExchangeEffect(e: Functions, q: Vector, i: nat, x: real, k: nat, y: real, r: Vector, q': Vector)
    requires |q| == |r| && IsPositive(r) && i < |q| && k < |q| && i != k && q' == q[i := x][k := y]
    ensures Total(q') == Total(q) + (x - q[i]) + (y - q[k])
    ensures Divergence(e, q', r)
         == Divergence(e, q, r) + (Term(e, x, r[i]) - Term(e, q[i], r[i])) + (Term(e, y, r[k]) - Term(e, q[k], r[k]))
  {
    hide Term, SumUpTo, DivergenceUpTo;
    var p := q[i := x];
    SumOfChange(q, i, x, |q|);
    SumOfChange(p, k, y, |q|);
    DivergenceOfChange(e, q, i, x, r, |q|);
    DivergenceOfChange(e, p, k, y, r, |q|);
  }

  lemma GapsAddUp(e: Functions, a: real, x: real, r: real, b: real, y: real, s: real, m: real, d: real)
    requires r > 0.0 && s > 0.0 && x == a + d && y == b - d
    requires Gap(e, a, x, r, m) > 0.0 && Gap(e, b, y, s, m) > 0.0
    ensures Term(e, x, r) - Term(e, a, r) + (Term(e, y, s) - Term(e, b, s)) < 0.0
  {
    hide Term, Gap;
    var up := GapParts(e, a, x, r, m);
    var down := GapParts(e, b, y, s, m);
    SumOfPrices(m, a - x, b - y, 0.0, up, down);
  }

  /** An exchange of mass between an entry below the clipped vector and one above it improves. */
  lemma ExchangeImproves(e: Functions, r: Vector, c: real, lo: Vector, hi: Vector, q: Vector, i: nat, k: nat)
      returns (q': Vector)
    requires IsInput(e, r, lo, hi) && IsPositive(r) && c > 0.0 && InBox(q, lo, hi) && i < |q| && k < |q|
    requires q[i] < Clipped(r, c, lo, hi)[i] && Clipped(r, c, lo, hi)[k] < q[k]
    ensures InBox(q', lo, hi) && Total(q') == Total(q) && Divergence(e, q', r) < Divergence(e, q, r)
  {
    hide Lawful, Term, Clip, Gap, Total, Divergence, Clipped;
    var s := Clipped(r, c, lo, hi);
    var m := 1.0 - e.ln(c);
    var up, down := s[i] - q[i], q[k] - s[k];
    var d := if up < down then up else down;
    var x, y := q[i] + d, q[k] - d;
    TowardsClip(e, r[i], c, m, lo[i], hi[i], q[i], x);
    TowardsClip(e, r[k], c, m, lo[k], hi[k], q[k], y);
    q' := q[i := x][k := y];
    ExchangeEffect(e, q, i, x, k, y, r, q');
    GapsAddUp(e, q[i], x, r[i], q[k], y, r[k], m, d);
  }

  // ----------------------------------------------------------- overshooting

  function Distance(x: real, y: real): (d: real)
    ensures d >= 0.0
  {
    if x < y then y - x else x - y
  }

  ghost predicate RowWithin(a: Vector, m: real) {
    forall i :: 0 <= i < |a| ==> -m <= a[i] <= m
  }

  /** Between two ordered vectors a row with coefficients in [-m, m] moves at most m per unit of total. */
  lemma {:induction false} OrderedUsage(a: Vector, s: Vector, q: Vector, m: real, n: nat) returns (most: real)
    requires n <= |a| == |s| == |q| && RowWithin(a, m) && forall i :: 0 <= i < n ==> s[i] <= q[i]
    ensures SumUpTo(s, n) <= SumUpTo(q, n) && most == m * (SumUpTo(q, n) - SumUpTo(s, n))
    ensures -most <= LA.DotUpTo(a, q, n) - LA.DotUpTo(a, s, n) <= most
  {
    hide LA.DotUpTo, SumUpTo;
    UsageStep(a, s, n);
    UsageStep(a, q, n);
    if n == 0 {
      most := 0.0;
    } else {
      var before := OrderedUsage(a, s, q, m, n - 1);
      var last := EntryUsage(a[n - 1], s[n - 1], q[n - 1], m);
      var grown, d := SumUpTo(q, n - 1) - SumUpTo(s, n - 1), q[n - 1] - s[n - 1];
      most := before + last;
      SumOfPrices(m, grown, d, SumUpTo(q, n) - SumUpTo(s, n), before, last);
    }
  }

  lemma UsageStep(a: Vector, v: Vector, n: nat)
    requires n <= |a| == |v|
    ensures n == 0 ==> SumUpTo(v, n) == 0.0 && LA.DotUpTo(a, v, n) == 0.0
    ensures n > 0 ==>
      && SumUpTo(v, n) == SumUpTo(v, n - 1) + v[n - 1]
      && LA.DotUpTo(a, v, n) == LA.DotUpTo(a, v, n - 1) + a[n - 1] * v[n - 1]
  {
  }

  lemma EntryUsage(a: real, s: real, q: real, m: real) returns (most: real)
    requires -m <= a <= m && s <= q
    ensures most == m * (q - s) && -most <= a * q - a * s <= most
  {
    var d := q - s;
    most := m * d;
    ProductNonNegative(m - a, d, (m - a) * d);
    ProductNonNegative(m + a, d, (m + a) * d);
    assert a * q - a * s == a * d;
  }

  /** Ordered either way, the violations differ by at most m per unit of total. */
  lemma OrderedViolation(P: Problem, s: Vector, q: Vector, j: nat, m: real)
    requires IsProblem(P) && |s| == |q| == |P.p| && j < |P.a| && RowWithin(P.a[j], m)
    requires (forall i :: 0 <= i < |q| ==> s[i] <= q[i]) || (forall i :: 0 <= i < |q| ==> q[i] <= s[i])
    ensures Violation(P, s, j) - Violation(P, q, j) <= m * Distance(Total(s), Total(q))
  {
    hide LA.DotUpTo, SumUpTo, Lawful;
    if forall i :: 0 <= i < |q| ==> s[i] <= q[i] {
      var most := OrderedUsage(P.a[j], s, q, m, |q|);
    } else {
      var most := OrderedUsage(P.a[j], q, s, m, |q|);
    }
  }

  /** Iterate 0 is clip(p / C, lo, hi) for some C. */
  lemma StartIsClipped(P: Problem) returns (c: real)
    requires IsProblem(P) && IterateAt(P, 0).Some?
    ensures c > 0.0 && IterateAt(P, 0).value == Clipped(P.p, c, P.lo, P.hi)
  {
    hide Projection, Lawful, LambdaAt, Tilted, Clipped, NearOne;
    FirstIterateIsQuick(P);
    c := ProjectionIsNearFeasible(P.e, P.p, P.lo, P.hi);
  }

  /** MAIN RESULT. Overshooting costs: a vector that leaves every constraint slack is beaten by an
      admissible one as soon as iterate 0 violates some constraint, with coefficients in [-m, m], by more
      than m times the difference of the two totals. */
  lemma SlackAnswerIsBeaten(P: Problem, q: Vector, j: nat, m: real) returns (z: Vector)
    requires IsProblem(P) && IterateAt(P, 0).Some? && InBox(q, P.lo, P.hi) && |q| == |P.p|
    requires forall k :: 0 <= k < |P.a| ==> Violation(P, q, k) < 0.0
    requires j < |P.a| && RowWithin(P.a[j], m)
    requires Violation(P, IterateAt(P, 0).value, j) > m * Distance(Total(IterateAt(P, 0).value), Total(q))
    ensures IsCompetitor(P, z, Total(q)) && Divergence(P.e, z, P.p) < Divergence(P.e, q, P.p)
  {
    hide Lawful, Divergence, Total, IterateAt, Violation, Clipped, Distance, RowWithin;
    var start := IterateAt(P, 0).value;
    var c := StartIsClipped(P);
    if (forall i :: 0 <= i < |q| ==> start[i] <= q[i]) || (forall i :: 0 <= i < |q| ==> q[i] <= start[i]) {
      OrderedViolation(P, start, q, j, m);
      assert false;
    } else {
      var i :| 0 <= i < |q| && q[i] < start[i];
      var k :| 0 <= k < |q| && start[k] < q[k];
      var better := ExchangeImproves(P.e, P.p, c, P.lo, P.hi, q, i, k);
      z := BetterBlend(P, q, better);
    }
  }

  /** The two totals of a run differ by at most 4e-9. */
  lemma TotalsAreClose(P: Problem, q: Vector)
    requires IsProblem(P) && IsOutcome(P, Some(q))
    ensures IterateAt(P, 0).Some? && Distance(Total(IterateAt(P, 0).value), Total(q)) <= 2.0 * TOTAL_TOL
  {
    hide Projection, Lawful, Total, LambdaAt, Tilted, IsOutcome, NearOne, Violation;
    StartOfAnswer(P, q);
    AnswerIsNearFeasible(P, Some(q));
    TotalNearOne(P.e, Total(q));
    FirstIterateIsQuick(P);
    var c := ProjectionIsNearFeasible(P.e, P.p, P.lo, P.hi);
    TotalNearOne(P.e, Total(IterateAt(P, 0).value));
  }

  lemma StartInBox(P: Problem)
    requires IsProblem(P) && IterateAt(P, 0).Some?
    ensures InBox(IterateAt(P, 0).value, P.lo, P.hi)
  {
    hide Lawful, LambdaAt, Tilted;
  }

  /** MAIN RESULT. For one linear constraint: an answer is optimal exactly when it leaves the constraint
      without slack or is optimal over the box alone. */
  lemma OneConstraintExactlyWhen(P: Problem, q: Vector)
    requires IsProblem(P) && IsOutcome(P, Some(q)) && |P.a| == 1 && |q| == |P.p|
    ensures IsOptimal(P, q) <==> Violation(P, q, 0) >= 0.0 || IsTightOptimal(P, q)
  {
    hide Projection, Lawful, Divergence, Total, LambdaAt, Tilted, IsOutcome, IterateAt, Violation, NearOne;
    hide IsOptimal, IsTightOptimal;
    AnswerIsNearFeasible(P, Some(q));
    if Violation(P, q, 0) >= 0.0 {
      var n := AnswerGap(P, Some(q));
      OnePenalty(P, LambdaAt(P, n), q);
      PenaltyMakesOptimal(P, n);
    } else {
      OnlyTightConstraintsMatter(P, q);
    }
  }

  lemma OnePenalty(P: Problem, duals: Vector, q: Vector)
    requires IsProblem(P) && |P.a| == 1 && IsMultiplier(P, duals) && |q| == |P.p| && Violation(P, q, 0) >= 0.0
    ensures Penalty(P, duals, q) >= 0.0
  {
    hide Violation, Lawful;
    assert PenaltyUpTo(P, duals, q, 1) == PenaltyUpTo(P, duals, q, 0) + duals[0] * Violation(P, q, 0);
    ProductNonNegative(duals[0], Violation(P, q, 0), duals[0] * Violation(P, q, 0));
  }

  /** Iterate 0 is accepted, or rejected beyond the imprecision of totals: its violation exceeds 4e-9 m,
      which every rejection does for m <= 25. */
  ghost predicate StartDecides(P: Problem, m: real)
    requires IsProblem(P)
  {
    StartAccepted(P) || m <= 25.0
    || (IterateAt(P, 0).Some? && MaxViolation(P, IterateAt(P, 0).value) > m * (2.0 * TOTAL_TOL))
  }

  lemma RejectedBeyondTotals(P: Problem, q: Vector, m: real)
    requires IsProblem(P) && IsOutcome(P, Some(q)) && !StartAccepted(P) && StartDecides(P, m) && m >= 0.0
    ensures IterateAt(P, 0).Some?
    ensures MaxViolation(P, IterateAt(P, 0).value) > m * Distance(Total(IterateAt(P, 0).value), Total(q))
  {
    hide Projection, Lawful, Total, LambdaAt, Tilted, IsOutcome, NearOne, Violation, MaxViolation, Distance, QuickPath;
    StartOfAnswer(P, q);
    TotalsAreClose(P, q);
    var d := Distance(Total(IterateAt(P, 0).value), Total(q));
    ProductNonNegative(m, 2.0 * TOTAL_TOL - d, m * (2.0 * TOTAL_TOL - d));
  }

  /** MAIN RESULT. For one linear constraint with coefficients in [-m, m]: an answer is optimal exactly when
      iterate 0 was accepted or the constraint is left without slack. */
  lemma OptimalExactlyWhenStartAccepted(P: Problem, q: Vector, m: real)
    requires IsProblem(P) && IsOutcome(P, Some(q)) && |P.a| == 1 && |q| == |P.p|
    requires m >= 0.0 && RowWithin(P.a[0], m) && StartDecides(P, m)
    ensures IsOptimal(P, q) <==> StartAccepted(P) || Violation(P, q, 0) >= 0.0
  {
    hide Projection, Lawful, Divergence, Total, LambdaAt, Tilted, IsOutcome, IterateAt, Violation, NearOne;
    hide IsTightOptimal, StartAccepted, StartDecides, Distance, RowWithin;
    StartOfAnswer(P, q);
    OneConstraintExactlyWhen(P, q);
    if StartAccepted(P) {
      forall q' | IsCompetitor(P, q', Total(q)) ensures Divergence(P.e, q, P.p) <= Divergence(P.e, q', P.p) {
        StartIsBoxOptimal(P, q');
      }
    } else if Violation(P, q, 0) < 0.0 {
      RejectedBeyondTotals(P, q, m);
      AnswerIsNearFeasible(P, Some(q));
      var z := SlackAnswerIsBeaten(P, q, 0, m);
    }
  }
}
