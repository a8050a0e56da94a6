/** KL minimisation under linear constraints by projected dual gradient ascent. */
module DualAscent {
  import opened ExpLn
  import opened KlOptimality
  import opened KlPrecision
  import opened KlProjection
  import LA = LinearAlgebra
  import opened RealFacts
  import opened Wrappers

  const MAX_ITER: nat := 250
  const TOL := 1e-7
  const QUICK_REFERENCE_TOL := 1e-9
  const QUICK_RESULT_TOL := 1e-6
  const RELAXED_TOL := 1e-5

  /** Minimise KL(q || p) within the bounds subject to a[j] . q <= b[j]. */
  datatype Problem = Problem(e: Functions, p: Vector, lo: Vector, hi: Vector, a: seq<Vector>, b: Vector)

  ghost predicate IsProblem(P: Problem) {
    && IsInput(P.e, P.p, P.lo, P.hi) && IsPositive(P.p)
    && |P.a| == |P.b| > 0
    && forall j :: 0 <= j < |P.a| ==> |P.a[j]| == |P.p|
  }

  // ---------------------------------------------------------------- violations

  function Violation(P: Problem, q: Vector, j: nat): real
    requires IsProblem(P) && |q| == |P.p| && j < |P.a|
  {
    LA.Dot(P.a[j], q) - P.b[j]
  }

  function MaxViolationUpTo(P: Problem, q: Vector, n: nat): (v: real)
    requires IsProblem(P) && |q| == |P.p| && 0 < n <= |P.a|
    ensures forall j :: 0 <= j < n ==> Violation(P, q, j) <= v
    ensures exists j :: 0 <= j < n && Violation(P, q, j) == v
  {
    var last := Violation(P, q, n - 1);
    if n == 1 then last
    else
      var before := MaxViolationUpTo(P, q, n - 1);
      if last > before then last else before
  }

  function MaxViolation(P: Problem, q: Vector): (v: real)
    requires IsProblem(P) && |q| == |P.p|
    ensures forall j :: 0 <= j < |P.a| ==> Violation(P, q, j) <= v
    ensures exists j :: 0 <= j < |P.a| && Violation(P, q, j) == v
  {
    MaxViolationUpTo(P, q, |P.a|)
  }

  ghost predicate SatisfiesAll(P: Problem, q: Vector)
    requires IsProblem(P) && |q| == |P.p|
  {
    forall j :: 0 <= j < |P.a| ==> Violation(P, q, j) <= 0.0
  }

  // ----------------------------------------------------- multipliers and tilting

  ghost predicate IsMultiplier(P: Problem, duals: Vector) {
    |duals| == |P.a| && forall j :: 0 <= j < |duals| ==> duals[j] >= 0.0
  }

  /** The sum of duals_j a[j][i] over the first n constraints. */
  function Exponent(P: Problem, duals: Vector, i: nat, n: nat): real
    requires IsProblem(P) && |duals| == |P.a| && i < |P.p| && n <= |P.a|
  {
    if n == 0 then 0.0 else Exponent(P, duals, i, n - 1) + duals[n - 1] * P.a[n - 1][i]
  }

  function TiltedEntry(P: Problem, duals: Vector, i: nat): (r: real)
    requires IsProblem(P) && |duals| == |P.a| && i < |P.p|
    ensures r > 0.0
  {
    var x := P.e.exp(-Exponent(P, duals, i, |P.a|));
    ExpPositive(P.e, -Exponent(P, duals, i, |P.a|));
    ProductPositive(P.p[i], x, P.p[i] * x);
    P.p[i] * x
  }

  /** The reference of the inner problem, r_i = p_i exp(-duals . a_i). */
  function Tilted(P: Problem, duals: Vector): (r: Vector)
    requires IsProblem(P) && |duals| == |P.a|
    ensures |r| == |P.p| && IsPositive(r) && forall i :: 0 <= i < |r| ==> r[i] == TiltedEntry(P, duals, i)
  {
    seq(|P.p|, i requires 0 <= i < |P.p| => TiltedEntry(P, duals, i))
  }

  function MaxCoefficientOf(row: Vector, n: nat, floor: real): (m: real)
    requires n <= |row|
    ensures m >= floor
  {
    if n == 0 then floor
    else
      var before := MaxCoefficientOf(row, n - 1, floor);
      var x := if row[n - 1] < 0.0 then -row[n - 1] else row[n - 1];
      if x > before then x else before
  }

  /** The largest absolute coefficient, at least 1. */
  function MaxCoefficient(a: seq<Vector>, n: nat): (m: real)
    requires n <= |a|
    ensures m >= 1.0
  {
    if n == 0 then 1.0
    else MaxCoefficientOf(a[n - 1], |a[n - 1]|, MaxCoefficient(a, n - 1))
  }

  function BaseStep(P: Problem): (step: real)
    ensures step > 0.0
  {
    1.0 / MaxCoefficient(P.a, |P.a|)
  }

  function Ascended(P: Problem, duals: Vector, q: Vector, j: nat): (l: real)
    requires IsProblem(P) && |duals| == |P.a| && |q| == |P.p| && j < |P.a|
    ensures l >= 0.0
  {
    var l := duals[j] + BaseStep(P) * Violation(P, q, j);
    if l > 0.0 then l else 0.0
  }

  /** One projected ascent step of all multipliers. */
  function DualStep(P: Problem, duals: Vector, q: Vector): (l: Vector)
    requires IsProblem(P) && |duals| == |P.a| && |q| == |P.p|
    ensures IsMultiplier(P, l) && forall j :: 0 <= j < |P.a| ==> l[j] == Ascended(P, duals, q, j)
  {
    seq(|P.a|, j requires 0 <= j < |P.a| => Ascended(P, duals, q, j))
  }

  // ------------------------------------------------------------------ the run

  ghost function Project(P: Problem, r: Vector): (q: Option<Vector>)
    requires IsProblem(P) && |r| == |P.p|
    ensures q.Some? ==> |q.value| == |P.p|
  {
    Projection(P.e, r, P.lo, P.hi)
  }

  /** The multipliers at the start of iteration n; they stop changing if a projection fails. */
  ghost function LambdaAt(P: Problem, n: nat): (duals: Vector)
    requires IsProblem(P)
    ensures IsMultiplier(P, duals)
  {
    if n == 0 then LA.Zeros(|P.a|)
    else
      var before := LambdaAt(P, n - 1);
      match Project(P, Tilted(P, before))
      case None => before
      case Some(q) => DualStep(P, before, q)
  }

  /** The primal iterate of iteration n. */
  ghost function IterateAt(P: Problem, n: nat): (q: Option<Vector>)
    requires IsProblem(P)
    ensures q.Some? ==> |q.value| == |P.p|
  {
    Project(P, Tilted(P, LambdaAt(P, n)))
  }

  /** The iterate of iteration m exists and violates some constraint by more than tol. */
  ghost predicate Violates(P: Problem, m: nat, tol: real)
    requires IsProblem(P)
  {
    IterateAt(P, m).Some? && MaxViolation(P, IterateAt(P, m).value) > tol
  }

  ghost predicate Searching(P: Problem, n: nat)
    requires IsProblem(P)
  {
    forall m :: 0 <= m < n ==> Violates(P, m, TOL)
  }

  /** best is the first least-violating iterate among the first n. */
  ghost predicate IsBest(P: Problem, best: nat, n: nat)
    requires IsProblem(P) && Searching(P, n)
  {
    && best < n && Violates(P, best, TOL)
    && var v := MaxViolation(P, IterateAt(P, best).value);
    && (forall m :: 0 <= m < n ==> Violates(P, m, TOL) && v <= MaxViolation(P, IterateAt(P, m).value))
    && (forall m :: 0 <= m < best ==> Violates(P, m, TOL) && v < MaxViolation(P, IterateAt(P, m).value))
  }

  /** The quick path applies: the reference and its projection both meet the constraints closely. */
  ghost predicate QuickPath(P: Problem)
    requires IsProblem(P)
  {
    && MaxViolation(P, P.p) <= QUICK_REFERENCE_TOL
    && Project(P, P.p).Some?
    && MaxViolation(P, Project(P, P.p).value) <= QUICK_RESULT_TOL
  }

  /** The ascent stops at iteration n: the budget is used up, the projection fails, or the iterate
      meets every constraint within TOL. */
  ghost predicate StopsAt(P: Problem, n: nat)
    requires IsProblem(P)
  {
    n <= MAX_ITER && Searching(P, n) && (n == MAX_ITER || !Violates(P, n, TOL))
  }

  /** Everything the solver may answer, case by case. */
  ghost predicate IsOutcome(P: Problem, result: Option<Vector>)
    requires IsProblem(P)
  {
    if QuickPath(P) then result == Project(P, P.p)
    else exists n :: StopsAt(P, n) && IsAscentResult(P, n, result)
  }

  ghost predicate IsAscentResult(P: Problem, n: nat, result: Option<Vector>)
    requires IsProblem(P) && StopsAt(P, n)
  {
    if n < MAX_ITER then result == IterateAt(P, n)
    else
      exists best ::
        IsBest(P, best, MAX_ITER)
        && result == if MaxViolation(P, IterateAt(P, best).value) <= RELAXED_TOL then IterateAt(P, best) else None
  }

  method SolveKlGeneral(P: Problem) returns (result: Option<Vector>)
    requires IsProblem(P)
    ensures IsOutcome(P, result)
  {
    hide Violation, MaxViolation, Exponent, TiltedEntry, Tilted, Projection, Ascended, DualStep, Lawful;
    if MaxViolation(P, P.p) <= QUICK_REFERENCE_TOL {
      var quick := BisectKlProjection(P.e, P.p, P.lo, P.hi);
      if quick.Some? {
        if MaxViolation(P, quick.value) <= QUICK_RESULT_TOL {
          return quick;
        }
      }
    }
    assert !QuickPath(P);
    var duals := LA.Zeros(|P.a|);
    var bestQ: Option<Vector> := None;
    var bestViolation := 0.0;
    ghost var best := 0;
    for iter := 0 to MAX_ITER
      invariant duals == LambdaAt(P, iter) && Searching(P, iter)
      invariant bestQ.None? <==> iter == 0
      invariant bestQ.Some? ==> IsBest(P, best, iter) && bestQ == IterateAt(P, best)
      invariant bestQ.Some? ==> bestViolation == MaxViolation(P, bestQ.value)
    {
      var r := Tilted(P, duals);
      var q := BisectKlProjection(P.e, r, P.lo, P.hi);
      assert q == IterateAt(P, iter);
      if q.None? {
        assert StopsAt(P, iter);
        return None;
      }
      var maxViolation := MaxViolation(P, q.value);
      if bestQ.None? || maxViolation < bestViolation {
        bestViolation := maxViolation;
        bestQ := q;
        best := iter;
      }
      if maxViolation <= TOL {
        assert StopsAt(P, iter);
        return q;
      }
      assert Violates(P, iter, TOL);
      var next := duals;
      for j := 0 to |P.a|
        invariant |next| == |duals|
        invariant forall k :: 0 <= k < j ==> next[k] == Ascended(P, duals, q.value, k)
        invariant forall k :: j <= k < |duals| ==> next[k] == duals[k]
      {
        next := next[j := Ascended(P, duals, q.value, j)];
      }
      assert next == DualStep(P, duals, q.value);
      duals := next;
    }
    assert StopsAt(P, MAX_ITER);
    result := if MaxViolation(P, bestQ.value) <= RELAXED_TOL then bestQ else None;
    assert IsAscentResult(P, MAX_ITER, result);
  }

  // ------------------------------------------------------------- weak duality

  /** sum of duals_j (a[j] . q - b[j]) over the first n constraints. */
  ghost function PenaltyUpTo(P: Problem, duals: Vector, q: Vector, n: nat): real
    requires IsProblem(P) && |duals| == |P.a| && |q| == |P.p| && n <= |P.a|
  {
    if n == 0 then 0.0 else PenaltyUpTo(P, duals, q, n - 1) + duals[n - 1] * Violation(P, q, n - 1)
  }

  ghost function Penalty(P: Problem, duals: Vector, q: Vector): real
    requires IsProblem(P) && |duals| == |P.a| && |q| == |P.p|
  {
    PenaltyUpTo(P, duals, q, |P.a|)
  }

  /** sum of q_i (sum of duals_j a[j][i], j < n) over the first k arms. */
  ghost function TiltUpTo(P: Problem, duals: Vector, q: Vector, n: nat, k: nat): real
    requires IsProblem(P) && |duals| == |P.a| && |q| == |P.p| && n <= |P.a| && k <= |q|
  {
    if k == 0 then 0.0 else TiltUpTo(P, duals, q, n, k - 1) + q[k - 1] * Exponent(P, duals, k - 1, n)
  }

  lemma {:induction false} TiltStep(P: Problem, duals: Vector, q: Vector, n: nat, k: nat)
    requires IsProblem(P) && |duals| == |P.a| && |q| == |P.p| && 0 < n <= |P.a| && k <= |q|
    ensures TiltUpTo(P, duals, q, n, k)
            == TiltUpTo(P, duals, q, n - 1, k) + duals[n - 1] * LA.DotUpTo(P.a[n - 1], q, k)
  {
    if k != 0 {
      TiltStep(P, duals, q, n, k - 1);
      TiltStepEntry(duals[n - 1], q[k - 1], P.a[n - 1][k - 1], Exponent(P, duals, k - 1, n - 1),
                    LA.DotUpTo(P.a[n - 1], q, k - 1));
    }
  }

  lemma TiltStepEntry(l: real, q: real, a: real, x: real, d: real)
    ensures q * (x + l * a) == q * x + l * (a * q)
    ensures l * (d + a * q) == l * d + l * (a * q)
  {
  }

  lemma PenaltyStep(P: Problem, duals: Vector, q: Vector, n: nat)
    requires IsProblem(P) && |duals| == |P.a| && |q| == |P.p| && 0 < n <= |P.a|
    ensures PenaltyUpTo(P, duals, q, n)
            == PenaltyUpTo(P, duals, q, n - 1)
             + duals[n - 1] * LA.DotUpTo(P.a[n - 1], q, |q|) - duals[n - 1] * P.b[n - 1]
  {
    hide LA.DotUpTo, Lawful, IsBox, IsPositive;
    Distribute(duals[n - 1], LA.Dot(P.a[n - 1], q), -P.b[n - 1]);
  }

  /** Exchanging the order of summation: the tilt differs from the penalty by a constant in q. */
  lemma {:induction false} TiltIsPenalty(P: Problem, duals: Vector, q: Vector, q': Vector, n: nat)
    requires IsProblem(P) && |duals| == |P.a| && |q| == |q'| == |P.p| && n <= |P.a|
    ensures TiltUpTo(P, duals, q', n, |q|) - TiltUpTo(P, duals, q, n, |q|)
            == PenaltyUpTo(P, duals, q', n) - PenaltyUpTo(P, duals, q, n)
  {
    hide Exponent, LA.DotUpTo, Lawful, IsBox, IsPositive, Violation;
    if n == 0 {
      NoTilt(P, duals, q, |q|);
      NoTilt(P, duals, q', |q|);
    } else {
      TiltIsPenalty(P, duals, q, q', n - 1);
      TiltStep(P, duals, q, n, |q|);
      TiltStep(P, duals, q', n, |q|);
      PenaltyStep(P, duals, q, n);
      PenaltyStep(P, duals, q', n);
    }
  }

  lemma {:induction false} NoTilt(P: Problem, duals: Vector, q: Vector, k: nat)
    requires IsProblem(P) && |duals| == |P.a| && |q| == |P.p| && k <= |q|
    ensures TiltUpTo(P, duals, q, 0, k) == 0.0
  {
    if k != 0 {
      NoTilt(P, duals, q, k - 1);
    }
  }

  /** Tilting the reference adds a linear term to the divergence. */
  lemma TermTilted(P: Problem, duals: Vector, q: real, i: nat)
    requires IsProblem(P) && |duals| == |P.a| && i < |P.p| && q >= 0.0
    ensures Term(P.e, q, TiltedEntry(P, duals, i))
            == Term(P.e, q, P.p[i]) + q * Exponent(P, duals, i, |P.a|)
  {
    var d := Exponent(P, duals, i, |P.a|);
    var x, r := P.e.exp(-d), TiltedEntry(P, duals, i);
    assert r == P.p[i] * x;
    hide Exponent, TiltedEntry;
    if q > 0.0 {
      ExpPositive(P.e, -d);
      LnExp(P.e, -d);
      LnProduct(P.e, P.p[i], x, r);
      LnQuotient(P.e, q, r);
      LnQuotient(P.e, q, P.p[i]);
      assert P.e.ln(q / r) == P.e.ln(q / P.p[i]) + d;
      Distribute(q, P.e.ln(q / P.p[i]), d);
    }
  }

  lemma {:induction false} DivergenceTilted(P: Problem, duals: Vector, q: Vector, k: nat)
    requires IsProblem(P) && |duals| == |P.a| && |q| == |P.p| && k <= |q|
    requires forall i :: 0 <= i < |q| ==> q[i] >= 0.0
    ensures DivergenceUpTo(P.e, q, Tilted(P, duals), k)
            == DivergenceUpTo(P.e, q, P.p, k) + TiltUpTo(P, duals, q, |P.a|, k)
  {
    hide Term, TiltedEntry, Exponent, Lawful;
    if k != 0 {
      DivergenceTilted(P, duals, q, k - 1);
      TermTilted(P, duals, q[k - 1], k - 1);
    }
  }

  lemma {:induction false} PenaltyNonPositive(P: Problem, duals: Vector, q: Vector, n: nat)
    requires IsProblem(P) && IsMultiplier(P, duals) && |q| == |P.p| && n <= |P.a| && SatisfiesAll(P, q)
    ensures PenaltyUpTo(P, duals, q, n) <= 0.0
  {
    hide Violation;
    if n != 0 {
      PenaltyNonPositive(P, duals, q, n - 1);
      var v := -Violation(P, q, n - 1);
      ProductNonNegative(duals[n - 1], v, duals[n - 1] * v);
    }
  }

  /** q' is admissible: within the bounds, with total t, and meeting every linear constraint. */
  ghost predicate IsCompetitor(P: Problem, q': Vector, t: real)
    requires IsProblem(P)
  {
    InBox(q', P.lo, P.hi) && Total(q') == t && SatisfiesAll(P, q')
  }

  /** Weak duality at any total: an iterate is optimal at its own price against every vector within the
      bounds that meets the constraints. */
  lemma IteratePrice(P: Problem, n: nat, q': Vector) returns (price: real)
    requires IsProblem(P) && IterateAt(P, n).Some? && InBox(q', P.lo, P.hi) && SatisfiesAll(P, q')
    ensures var q := IterateAt(P, n).value;
      && price == UnitPrice(P.e, Tilted(P, LambdaAt(P, n)), P.lo, P.hi) * (Total(q') - Total(q))
      && Divergence(P.e, q, P.p) + Penalty(P, LambdaAt(P, n), q) + price <= Divergence(P.e, q', P.p)
      && (Total(q') == 1.0 ==> -EXCESS <= price <= EXCESS)
  {
    hide Projection, LambdaAt, Tilted, Lawful, Violation, UnitPrice, Total, DivergenceUpTo, PenaltyUpTo, TiltUpTo;
    var duals, q := LambdaAt(P, n), IterateAt(P, n).value;
    price := ProjectionPrice(P.e, Tilted(P, duals), P.lo, P.hi, q');
    DivergenceTilted(P, duals, q, |q|);
    DivergenceTilted(P, duals, q', |q|);
    TiltIsPenalty(P, duals, q, q', |P.a|);
    PenaltyNonPositive(P, duals, q', |P.a|);
  }

  /** MAIN RESULT. Weak duality, at every iteration of the ascent: the multipliers are non-negative and
      KL(q || p) + duals . (a q - b) is a lower bound on KL(q' || p) for every admissible q' of the
      iterate's total, and up to 51 * 2e-9 for every admissible q' of total exactly 1. */
  lemma IterateCertifiesBound(P: Problem, n: nat, q': Vector)
    requires IsProblem(P) && IterateAt(P, n).Some?
    requires IsCompetitor(P, q', Total(IterateAt(P, n).value)) || IsCompetitor(P, q', 1.0)
    ensures IsMultiplier(P, LambdaAt(P, n))
    ensures var q := IterateAt(P, n).value;
      Divergence(P.e, q, P.p) + Penalty(P, LambdaAt(P, n), q)
      <= Divergence(P.e, q', P.p) + if Total(q') == Total(q) then 0.0 else EXCESS
  {
    hide Projection, LambdaAt, Tilted, Lawful, Violation, Total, UnitPrice, Penalty, Divergence, IterateAt;
    var price := IteratePrice(P, n, q');
  }

  // -------------------------------------------------------------- the answer

  lemma {:induction false} ZeroExponent(P: Problem, i: nat, n: nat)
    requires IsProblem(P) && i < |P.p| && n <= |P.a|
    ensures Exponent(P, LA.Zeros(|P.a|), i, n) == 0.0
  {
    if n != 0 {
      ZeroExponent(P, i, n - 1);
    }
  }

  /** With zero multipliers the reference is p itself: the quick path returns iterate 0. */
  lemma FirstIterateIsQuick(P: Problem)
    requires IsProblem(P)
    ensures LambdaAt(P, 0) == LA.Zeros(|P.a|)
    ensures Tilted(P, LambdaAt(P, 0)) == P.p
    ensures IterateAt(P, 0) == Project(P, P.p)
  {
    hide Projection, Lawful;
    var duals := LA.Zeros(|P.a|);
    forall i | 0 <= i < |P.p| ensures Tilted(P, duals)[i] == P.p[i] {
      ZeroExponent(P, i, |P.a|);
      ExpZero(P.e);
    }
    assert Tilted(P, duals) == P.p;
  }

  /** Every answer is an iterate of the ascent that the run reached, close to feasible. */
  lemma AnswerIsIterate(P: Problem, result: Option<Vector>) returns (n: nat)
    requires IsProblem(P) && IsOutcome(P, result) && result.Some?
    ensures n < MAX_ITER && Searching(P, n) && (QuickPath(P) ==> n == 0)
    ensures IterateAt(P, n) == result && MaxViolation(P, result.value) <= RELAXED_TOL
  {
    hide Projection, Lawful, LambdaAt, MaxViolation, Tilted;
    if QuickPath(P) {
      FirstIterateIsQuick(P);
      n := 0;
    } else {
      n :| StopsAt(P, n) && IsAscentResult(P, n, result);
      if n == MAX_ITER {
        var best :| IsBest(P, best, MAX_ITER)
          && result == if MaxViolation(P, IterateAt(P, best).value) <= RELAXED_TOL then IterateAt(P, best) else None;
        n := best;
      }
    }
  }

  /** MAIN RESULT. Every answer, by whichever path, respects all bounds, has a total within the
      bisection's precision of 1, and exceeds no linear constraint by more than 1e-5. */
  lemma AnswerIsNearFeasible(P: Problem, result: Option<Vector>)
    requires IsProblem(P) && IsOutcome(P, result) && result.Some?
    ensures InBox(result.value, P.lo, P.hi) && NearOne(Total(result.value), P.e.exp(HALF_WIDTH))
    ensures forall j :: 0 <= j < |P.a| ==> Violation(P, result.value, j) <= RELAXED_TOL
  {
    hide Projection, Lawful, LambdaAt, Tilted, NearOne, Violation;
    var n := AnswerIsIterate(P, result);
    var c := ProjectionIsNearFeasible(P.e, Tilted(P, LambdaAt(P, n)), P.lo, P.hi);
  }

  /** MAIN RESULT. How far an answer can be from optimal: with n the iteration that produced it, its
      excess divergence over every admissible vector of the same total is at most duals . (b - a q), the
      duals being the run's own at iteration n; over those of total exactly 1, at most 51 * 2e-9 more. */
  lemma AnswerGap(P: Problem, result: Option<Vector>) returns (n: nat)
    requires IsProblem(P) && IsOutcome(P, result) && result.Some?
    ensures n < MAX_ITER && Searching(P, n) && IterateAt(P, n) == result && IsMultiplier(P, LambdaAt(P, n))
    ensures forall q' :: IsCompetitor(P, q', Total(result.value)) ==>
      Divergence(P.e, result.value, P.p) + Penalty(P, LambdaAt(P, n), result.value) <= Divergence(P.e, q', P.p)
    ensures forall q' :: IsCompetitor(P, q', 1.0) ==>
      Divergence(P.e, result.value, P.p) + Penalty(P, LambdaAt(P, n), result.value) <= Divergence(P.e, q', P.p) + EXCESS
  {
    n := AnswerIsIterate(P, result);
    hide *;
    forall q' | IsCompetitor(P, q', Total(result.value)) || IsCompetitor(P, q', 1.0)
      ensures Divergence(P.e, result.value, P.p) + Penalty(P, LambdaAt(P, n), result.value)
           <= Divergence(P.e, q', P.p) + if Total(q') == Total(result.value) then 0.0 else EXCESS
    {
      IterateCertifiesBound(P, n, q');
    }
    forall q' | IsCompetitor(P, q', Total(result.value)) ensures Total(q') == Total(result.value) {
      TotalOfCompetitor(P, q', Total(result.value));
    }
  }

  lemma TotalOfCompetitor(P: Problem, q': Vector, t: real)
    requires IsProblem(P) && IsCompetitor(P, q', t)
    ensures Total(q') == t
  {}

  /** The quick path answers the projection of p itself: up to the precision of the totals it is optimal
      within the bounds, even against vectors that break the constraints. */
  lemma QuickAnswerIsOptimal(P: Problem, q': Vector)
    requires IsProblem(P) && QuickPath(P) && InBox(q', P.lo, P.hi)
    ensures var q := Project(P, P.p).value;
      && (Total(q') == Total(q) ==> Divergence(P.e, q, P.p) <= Divergence(P.e, q', P.p))
      && (Total(q') == 1.0 ==> Divergence(P.e, q, P.p) <= Divergence(P.e, q', P.p) + EXCESS)
  {
    hide Projection, Lawful, Divergence, Total;
    ProjectionIsOptimal(P.e, P.p, P.lo, P.hi, q');
    if Total(q') == 1.0 {
      ProjectionNearOptimal(P.e, P.p, P.lo, P.hi, q');
    }
  }
}
