/** Which of its iterates the ascent answers, and how large its steps are. */
module DualOutcome {
  import opened DualAscent
  import opened KlProjection
  import LA = LinearAlgebra
  import opened RealFacts
  import opened Wrappers

  // ------------------------------------------------------------------- the step

  /** m bounds every coefficient in absolute value, and is one of these values or 1. */
  ghost predicate IsLargestCoefficient(a: seq<Vector>, m: real) {
    && m >= 1.0
    && (forall j, i :: 0 <= j < |a| && 0 <= i < |a[j]| ==> -m <= a[j][i] <= m)
    && (m == 1.0 || exists j, i :: 0 <= j < |a| && 0 <= i < |a[j]| && (a[j][i] == m || a[j][i] == -m))
  }

  lemma {:induction false} RowMaximum(row: Vector, n: nat, floor: real)
    requires n <= |row| && floor > 0.0
    ensures var m := MaxCoefficientOf(row, n, floor);
      && (forall i :: 0 <= i < n ==> -m <= row[i] <= m)
      && (m == floor || exists i :: 0 <= i < n && (row[i] == m || row[i] == -m))
  {
    if n != 0 {
      RowMaximum(row, n - 1, floor);
    }
  }

  lemma {:induction false} LargestCoefficient(a: seq<Vector>, n: nat)
    requires n <= |a|
    ensures IsLargestCoefficient(a[..n], MaxCoefficient(a, n))
  {
    if n != 0 {
      var before, m := MaxCoefficient(a, n - 1), MaxCoefficient(a, n);
      LargestCoefficient(a, n - 1);
      RowMaximum(a[n - 1], |a[n - 1]|, before);
      assert a[..n][n - 1] == a[n - 1] && a[..n][..n - 1] == a[..n - 1];
      forall j, i | 0 <= j < n && 0 <= i < |a[..n][j]| ensures -m <= a[..n][j][i] <= m {
        if j < n - 1 {
          assert a[..n - 1][j] == a[..n][j];
        }
      }
      if m != 1.0 && m == before {
        var j, i :| 0 <= j < n - 1 && 0 <= i < |a[..n - 1][j]| && (a[..n - 1][j][i] == m || a[..n - 1][j][i] == -m);
        assert a[..n][j][i] == m || a[..n][j][i] == -m;
      }
    }
  }

  /** One ascent step moves a multiplier by its violation over the largest coefficient, or stops at 0. */
  lemma StepByLargestCoefficient(P: Problem, duals: Vector, q: Vector, j: nat, m: real)
    requires IsProblem(P) && |duals| == |P.a| && |q| == |P.p| && j < |P.a| && IsLargestCoefficient(P.a, m)
    ensures var l := DualStep(P, duals, q)[j];
      && l >= 0.0 && m * (l - duals[j]) >= Violation(P, q, j)
      && (l > 0.0 ==> m * (l - duals[j]) == Violation(P, q, j))
  {
    hide *;
    LargestIs(P.a, m);
    var move, step, l := AscendedBy(P, duals, q, j, m);
    ScaledStep(m, step, duals[j], Violation(P, q, j), move, l);
  }

  lemma AscendedBy(P: Problem, duals: Vector, q: Vector, j: nat, m: real) returns (move: real, step: real, l: real)
    requires IsProblem(P) && |duals| == |P.a| && |q| == |P.p| && j < |P.a| && m == MaxCoefficient(P.a, |P.a|)
    ensures m * step == 1.0 && move == step * Violation(P, q, j)
    ensures |DualStep(P, duals, q)| == |P.a| && DualStep(P, duals, q)[j] == l >= 0.0
    ensures l == if duals[j] + move > 0.0 then duals[j] + move else 0.0
  {
    hide MaxCoefficient, Violation, IsProblem;
    step := BaseStep(P);
    move := step * Violation(P, q, j);
    l := DualStep(P, duals, q)[j];
  }

  lemma LargestIs(a: seq<Vector>, m: real)
    requires IsLargestCoefficient(a, m)
    ensures m == MaxCoefficient(a, |a|) && m >= 1.0
  {
    LargestCoefficient(a, |a|);
    assert a[..|a|] == a;
    hide MaxCoefficient;
  }

  lemma ScaledStep(m: real, step: real, d: real, v: real, move: real, l: real)
    requires m >= 1.0 && m * step == 1.0 && move == step * v && l == if d + move > 0.0 then d + move else 0.0
    ensures m * (l - d) >= v && (l > 0.0 ==> m * (l - d) == v)
  {
    assert m * move == (m * step) * v;
    ProductNonNegative(m, l - d - move, m * (l - d - move));
    assert m * (l - d - move) == m * (l - d) - m * move;
  }

  // ----------------------------------------------------------------- the answer

  /** The reference meets every constraint up to 1e-9, and its projection up to 1e-6. */
  ghost predicate NeedsNoAscent(P: Problem)
    requires IsProblem(P)
  {
    && MaxViolation(P, P.p) <= 1e-9
    && Project(P, P.p).Some? && MaxViolation(P, Project(P, P.p).value) <= 1e-6
  }

  /** Iterate n is the first that does not exist or meets every constraint up to 1e-7. */
  ghost predicate EndsAt(P: Problem, n: nat)
    requires IsProblem(P)
  {
    (forall m: nat :: m < n ==> Violates(P, m, 1e-7)) && !Violates(P, n, 1e-7)
  }

  /** Iterate n exists and violates least among the first 250, and less than the earlier ones. */
  ghost predicate ViolatesLeast(P: Problem, n: nat)
    requires IsProblem(P)
  {
    && n < 250 && IterateAt(P, n).Some?
    && (forall m: nat :: m < 250 && IterateAt(P, m).Some? ==>
          var v, v' := MaxViolation(P, IterateAt(P, n).value), MaxViolation(P, IterateAt(P, m).value);
          v <= v' && (m < n ==> v < v'))
  }

  /** MAIN RESULT. The answer, case by case: the projection of the reference if no ascent is needed; else
      the first of 250 iterates that ends the search; and if none does, the first least-violating one if
      that is within 1e-5, so nothing exactly when all 250 violate by more. */
  lemma AnswerByCase(P: Problem, result: Option<Vector>)
    requires IsProblem(P) && IsOutcome(P, result)
    ensures NeedsNoAscent(P) ==> result == Project(P, P.p)
    ensures !NeedsNoAscent(P) ==> forall n: nat :: n < 250 && EndsAt(P, n) ==> result == IterateAt(P, n)
    ensures !NeedsNoAscent(P) && (forall m: nat :: m < 250 ==> Violates(P, m, 1e-7)) ==>
      && (result.None? <==> forall m: nat :: m < 250 ==> Violates(P, m, 1e-5))
      && (result.Some? ==> exists n :: ViolatesLeast(P, n) && result == IterateAt(P, n))
  {
    hide MaxViolation, IterateAt, Project;
    assert NeedsNoAscent(P) <==> QuickPath(P);
    if !QuickPath(P) {
      var n: nat :| StopsAt(P, n) && IsAscentResult(P, n, result);
      assert n == MAX_ITER || !Violates(P, n, 1e-7);
      forall n': nat | n' < 250 && EndsAt(P, n') ensures result == IterateAt(P, n') {
      }
      if forall m: nat :: m < 250 ==> Violates(P, m, 1e-7) {
        var best: nat :| IsBest(P, best, MAX_ITER)
          && result == if MaxViolation(P, IterateAt(P, best).value) <= RELAXED_TOL then IterateAt(P, best) else None;
        assert ViolatesLeast(P, best);
        assert Violates(P, best, 1e-5) <==> result.None?;
        forall m: nat | m < 250 && Violates(P, best, 1e-5) ensures Violates(P, m, 1e-5) {
          assert Violates(P, m, TOL);
        }
      }
    }
  }

  /** The cases leave one answer. */
  lemma AnswerIsUnique(P: Problem, r1: Option<Vector>, r2: Option<Vector>)
    requires IsProblem(P) && IsOutcome(P, r1) && IsOutcome(P, r2)
    ensures r1 == r2
  {
    AnswerByCase(P, r1);
    AnswerByCase(P, r2);
    if !NeedsNoAscent(P) {
      hide *;
      if n: nat :| n < 250 && EndsAt(P, n) {
        assert r1 == r2 == IterateAt(P, n);
      } else {
        forall m: nat | m < 250 ensures Violates(P, m, 1e-7) {
          SearchGoesOn(P, m);
        }
        if r1.Some? {
          var n1 :| ViolatesLeast(P, n1) && r1 == IterateAt(P, n1);
          var n2 :| ViolatesLeast(P, n2) && r2 == IterateAt(P, n2);
          OneLeast(P, n1, n2);
        }
      }
    }
  }

  lemma OneLeast(P: Problem, n: nat, m: nat)
    requires IsProblem(P) && ViolatesLeast(P, n) && ViolatesLeast(P, m)
    ensures n == m
  {
    hide MaxViolation, IterateAt;
  }

  lemma {:induction false} SearchGoesOn(P: Problem, m: nat)
    requires IsProblem(P) && m < 250 && forall n: nat :: n < 250 ==> !EndsAt(P, n)
    ensures Violates(P, m, 1e-7)
    decreases m
  {
    forall k: nat | k < m ensures Violates(P, k, 1e-7) {
      SearchGoesOn(P, k);
    }
    assert !EndsAt(P, m);
  }
}
