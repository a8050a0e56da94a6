/** The constraint layer between raw bandit probabilities and the logged assignment probabilities. */
module Constraints {
  import opened DualAscent
  import opened ExpLn
  import opened Impressions
  import opened KlFixedPoint
  import opened KlOptimality
  import opened KlPrecision
  import opened KlProjection
  import LA = LinearAlgebra
  import opened RealFacts
  import opened RealMaps
  import opened Wrappers

  type Probabilities = map<string, real>

  datatype Bound = Bound(minFraction: real, maxFraction: real)

  datatype LinearConstraint = LinearConstraint(name: string, coefficients: map<string, real>, rhs: real)

  datatype ConstraintResult = Feasible(adjusted: Probabilities) | Infeasible(raw: Probabilities)

  /** The floor the program gives every normalised reference. It reaches the proofs only as a number
      that is positive and small. */
  const REFERENCE_FLOOR := 1e-300

  ghost predicate IsFloor(floor: real) {
    0.0 < floor && floor * PowerOfTwo(100) <= 0.25
  }

  lemma ProgramFloor()
    ensures IsFloor(REFERENCE_FLOOR)
  {
    PowerSum(10, 10);
    PowerSum(20, 20);
    PowerSum(40, 40);
    PowerSum(80, 20);
    assert PowerOfTwo(10) == 1024.0;
  }

  /** The constraints in force, as a value, and the floor of the references. */
  datatype Constraints = Constraints(
    armIds: seq<string>, perArm: map<string, Bound>, linear: seq<LinearConstraint>, floor: real)
  {
    ghost predicate Valid() {
      && IsFloor(floor)
      && forall id :: id in perArm ==> 0.0 <= perArm[id].minFraction <= perArm[id].maxFraction <= 1.0
    }

    function BoundOf(id: string): Bound {
      if id in perArm then perArm[id] else Bound(0.0, 1.0)
    }

    function Lo(): (lo: Vector)
      ensures |lo| == |armIds| && forall i :: 0 <= i < |lo| ==> lo[i] == BoundOf(armIds[i]).minFraction
    {
      seq(|armIds|, i requires 0 <= i < |armIds| => BoundOf(armIds[i]).minFraction)
    }

    function Hi(): (hi: Vector)
      ensures |hi| == |armIds| && forall i :: 0 <= i < |hi| ==> hi[i] == BoundOf(armIds[i]).maxFraction
    {
      seq(|armIds|, i requires 0 <= i < |armIds| => BoundOf(armIds[i]).maxFraction)
    }

    /** Raw probabilities in arm order, missing ones 0, each clamped to [0, 1]. */
    function ClampedRaw(raw: Probabilities): (p: Vector)
      ensures |p| == |armIds| && forall i :: 0 <= i < |p| ==>
        0.0 <= p[i] <= 1.0 && p[i] == Truncated(if armIds[i] in raw then raw[armIds[i]] else 0.0)
    {
      seq(|armIds|, i requires 0 <= i < |armIds| =>
        Clip(if armIds[i] in raw then raw[armIds[i]] else 0.0, 0.0, 1.0))
    }

    /** The sum of the raw probabilities of the first n arms, each cut to [0, 1]. */
    ghost function TruncatedSum(raw: Probabilities, n: nat): real
      requires n <= |armIds|
    {
      if n == 0 then 0.0
      else TruncatedSum(raw, n - 1) + if armIds[n - 1] in raw then Truncated(raw[armIds[n - 1]]) else 0.0
    }

    /** r holds each arm's raw probability, cut to [0, 1], over the sum of these, or the floor if that is
        more. */
    ghost predicate IsShares(raw: Probabilities, r: Vector) {
      && |r| == |armIds|
      && forall i :: 0 <= i < |r| ==>
        IsShare(if armIds[i] in raw then Truncated(raw[armIds[i]]) else 0.0, TruncatedSum(raw, |armIds|), floor, r[i])
    }

    lemma {:induction false} ClampedSum(raw: Probabilities, n: nat)
      requires n <= |armIds|
      ensures SumUpTo(ClampedRaw(raw), n) == TruncatedSum(raw, n)
    {
      if n != 0 {
        ClampedSum(raw, n - 1);
      }
    }

    lemma SharesAreReference(raw: Probabilities, r: Vector)
      requires Valid() && IsShares(raw, r) && TruncatedSum(raw, |armIds|) > 0.0
      ensures Total(ClampedRaw(raw)) > 0.0 && r == Reference(raw)
    {
      assert floor > 0.0;
      hide TruncatedSum, IsShare, AtLeast, IsFloor;
      ClampedSum(raw, |armIds|);
      var sum := TruncatedSum(raw, |armIds|);
      forall i | 0 <= i < |r| ensures r[i] == Reference(raw)[i] {
        ShareEntry(ClampedRaw(raw)[i], sum, floor, r[i]);
      }
    }

    lemma ReferenceIsShares(raw: Probabilities)
      requires Valid() && Total(ClampedRaw(raw)) > 0.0
      ensures TruncatedSum(raw, |armIds|) > 0.0 && IsShares(raw, Reference(raw))
    {
      assert floor > 0.0;
      hide TruncatedSum, IsShare, AtLeast, IsFloor;
      ClampedSum(raw, |armIds|);
      var sum := TruncatedSum(raw, |armIds|);
      forall i | 0 <= i < |armIds| ensures IsShare(ClampedRaw(raw)[i], sum, floor, Reference(raw)[i]) {
        ShareEntry(ClampedRaw(raw)[i], sum, floor, Reference(raw)[i]);
      }
    }

    /** The normalised reference, floored away from 0. */
    function Reference(raw: Probabilities): (p: Vector)
      requires Total(ClampedRaw(raw)) > 0.0 && floor > 0.0
      ensures |p| == |armIds| && IsPositive(p)
      ensures forall i :: 0 <= i < |p| ==> p[i] == AtLeast(ClampedRaw(raw)[i] / Total(ClampedRaw(raw)), floor)
    {
      var clamped := ClampedRaw(raw);
      seq(|armIds|, i requires 0 <= i < |armIds| => AtLeast(clamped[i] / Total(clamped), floor))
    }

    function Uniform(): (p: Vector)
      requires armIds != []
      ensures |p| == |armIds| && IsPositive(p) && forall i :: 0 <= i < |p| ==> p[i] == 1.0 / |armIds| as real
    {
      seq(|armIds|, _ => 1.0 / |armIds| as real)
    }

    function Coefficient(c: LinearConstraint, id: string): real {
      if id in c.coefficients then c.coefficients[id] else 0.0
    }

    function Row(c: LinearConstraint): (row: Vector)
      ensures |row| == |armIds| && forall i :: 0 <= i < |row| ==> row[i] == Coefficient(c, armIds[i])
    {
      seq(|armIds|, i requires 0 <= i < |armIds| => Coefficient(c, armIds[i]))
    }

    /** The general problem handed to the dual ascent. */
    function ProblemOf(e: Functions, raw: Probabilities): (P: Problem)
      requires Total(ClampedRaw(raw)) > 0.0 && floor > 0.0
    {
      Problem(e, Reference(raw), Lo(), Hi(),
              seq(|linear|, j requires 0 <= j < |linear| => Row(linear[j])),
              seq(|linear|, j requires 0 <= j < |linear| => linear[j].rhs))
    }

    lemma BoundsFormBox()
      requires Valid()
      ensures IsBox(Lo(), Hi())
    {
    }

    lemma ProblemIsWellFormed(e: Functions, raw: Probabilities)
      requires Valid() && Lawful(e) && Total(ClampedRaw(raw)) > 0.0 && linear != []
      ensures IsProblem(ProblemOf(e, raw))
    {
      BoundsFormBox();
    }

    /** What the solve returns, path by path, before it is packaged by arm id. */
    ghost predicate IsAnswer(e: Functions, raw: Probabilities, q: Option<Vector>)
      requires Valid() && Lawful(e) && armIds != []
    {
      BoundsFormBox();
      if Total(ClampedRaw(raw)) <= 0.0 then q == Projection(e, Uniform(), Lo(), Hi())
      else if linear == [] then q == Projection(e, Reference(raw), Lo(), Hi())
      else
        ProblemIsWellFormed(e, raw);
        IsOutcome(ProblemOf(e, raw), q)
    }

    /** The definition of an answer, as the method establishes it. */
    lemma AnswerByPath(e: Functions, raw: Probabilities, q: Option<Vector>)
      requires Valid() && Lawful(e) && armIds != [] && IsBox(Lo(), Hi())
      requires Total(ClampedRaw(raw)) <= 0.0 ==> q == Projection(e, Uniform(), Lo(), Hi())
      requires Total(ClampedRaw(raw)) > 0.0 && linear == [] ==> q == Projection(e, Reference(raw), Lo(), Hi())
      requires Total(ClampedRaw(raw)) > 0.0 && linear != [] ==>
        IsProblem(ProblemOf(e, raw)) && IsOutcome(ProblemOf(e, raw), q)
      ensures IsAnswer(e, raw, q)
    {
      hide Lawful, Projection, IsOutcome, ClampedRaw;
    }

    /** The answer keyed by arm id; a repeated id keeps its last entry. */
    function Collected(q: Vector, n: nat): (adjusted: Probabilities)
      requires n <= |q| == |armIds|
      ensures forall id :: id in adjusted <==> id in armIds[..n]
    {
      if n == 0 then map[]
      else
        assert armIds[..n] == armIds[..n - 1] + [armIds[n - 1]];
        Collected(q, n - 1)[armIds[n - 1] := q[n - 1]]
    }

    /** Every entry comes from some position with its id; over distinct arms, from the only one. */
    lemma {:induction false} CollectedEntries(q: Vector, n: nat)
      requires n <= |q| == |armIds|
      ensures forall id :: id in Collected(q, n) ==>
        exists i :: 0 <= i < n && armIds[i] == id && Collected(q, n)[id] == q[i]
      ensures Distinct(armIds) ==> forall i :: 0 <= i < n ==>
        armIds[i] in Collected(q, n) && Collected(q, n)[armIds[i]] == q[i]
    {
      if n != 0 {
        CollectedEntries(q, n - 1);
        forall id | id in Collected(q, n)
          ensures exists i :: 0 <= i < n && armIds[i] == id && Collected(q, n)[id] == q[i]
        {
          if id == armIds[n - 1] {
            assert Collected(q, n)[id] == q[n - 1];
          } else {
            assert id in Collected(q, n - 1);
          }
        }
      }
    }

    /** The last position with an id decides its entry. */
    lemma {:induction false} LastEntry(q: Vector, n: nat, i: nat)
      requires i < n <= |q| == |armIds| && forall k :: i < k < n ==> armIds[k] != armIds[i]
      ensures armIds[i] in Collected(q, n) && Collected(q, n)[armIds[i]] == q[i]
    {
      if i < n - 1 {
        LastEntry(q, n - 1, i);
      }
    }

    function Packaged(raw: Probabilities, q: Option<Vector>): ConstraintResult
      requires q.Some? ==> |q.value| == |armIds|
    {
      match q
      case Some(v) => Feasible(Collected(v, |armIds|))
      case None => Infeasible(raw)
    }

    ghost predicate HasAllArms(adjusted: Probabilities) {
      forall id :: id in adjusted <==> id in armIds
    }

    /** sum of coefficient * adjusted over those of the first n arms that have a coefficient. */
    ghost function UsageUpTo(c: LinearConstraint, adjusted: Probabilities, n: nat): real
      requires n <= |armIds| && HasAllArms(adjusted)
    {
      if n == 0 then 0.0
      else
        var id := armIds[n - 1];
        UsageUpTo(c, adjusted, n - 1) + if id in c.coefficients then c.coefficients[id] * adjusted[id] else 0.0
    }

    ghost predicate MeetsLinear(adjusted: Probabilities, tol: real)
      requires HasAllArms(adjusted)
    {
      forall j :: 0 <= j < |linear| ==> UsageUpTo(linear[j], adjusted, |armIds|) - linear[j].rhs <= tol
    }

    ghost predicate MeetsBounds(adjusted: Probabilities) {
      forall id :: id in adjusted ==>
        && 0.0 <= adjusted[id] <= 1.0
        && (id in perArm ==> perArm[id].minFraction <= adjusted[id] <= perArm[id].maxFraction)
    }

    lemma {:induction false} UsageIsProduct(c: LinearConstraint, q: Vector, adjusted: Probabilities, n: nat)
      requires n <= |armIds| == |q| && HasAllArms(adjusted)
      requires forall i :: 0 <= i < |armIds| ==> adjusted[armIds[i]] == q[i]
      ensures UsageUpTo(c, adjusted, n) == LA.DotUpTo(Row(c), q, n)
    {
      hide Coefficient;
      if n != 0 {
        UsageIsProduct(c, q, adjusted, n - 1);
        UsageTerm(c, armIds[n - 1], q[n - 1]);
      }
    }

    lemma UsageTerm(c: LinearConstraint, id: string, x: real)
      ensures Coefficient(c, id) * x == if id in c.coefficients then c.coefficients[id] * x else 0.0
    {
    }

    lemma IdIsFresh(n: nat)
      requires n < |armIds| && Distinct(armIds)
      ensures armIds[n] !in armIds[..n]
    {
    }

    lemma {:induction false} CollectedTotal(q: Vector, n: nat)
      requires n <= |q| == |armIds| && Distinct(armIds)
      ensures SumValues(Collected(q, n)) == SumUpTo(q, n)
    {
      hide SumValues;
      if n == 0 {
        SumValuesEmpty<string>();
      } else {
        CollectedTotal(q, n - 1);
        IdIsFresh(n - 1);
        var before := Collected(q, n - 1);
        assert armIds[n - 1] !in before;
        assert Collected(q, n) == before[armIds[n - 1] := q[n - 1]];
        hide Collected, Distinct;
        SumValuesInsert(before, armIds[n - 1], q[n - 1]);
      }
    }

    /** MAIN RESULT. A Feasible answer respects every per-arm bound; over distinct arms its total is
        within the bisection's precision of 1; and when the raw probabilities have a positive clamped
        sum it exceeds no linear constraint by more than 1e-5, whichever path produced it. */
    lemma FeasibleMeetsConstraints(e: Functions, raw: Probabilities, q: Vector, adjusted: Probabilities)
      requires Valid() && Lawful(e) && armIds != [] && IsAnswer(e, raw, Some(q))
      requires |q| == |armIds| && adjusted == Collected(q, |armIds|)
      ensures HasAllArms(adjusted) && MeetsBounds(adjusted)
      ensures Distinct(armIds) ==> NearOne(SumValues(adjusted), e.exp(HALF_WIDTH))
      ensures Distinct(armIds) && Total(ClampedRaw(raw)) > 0.0 ==> MeetsLinear(adjusted, RELAXED_TOL)
    {
      hide IsAnswer, Lawful, MeetsLinear, NearOne, SumValues, Collected, ClampedRaw;
      AnswerWithinBounds(e, raw, q);
      CollectedEntries(q, |armIds|);
      assert armIds[..|armIds|] == armIds;
      if Distinct(armIds) {
        CollectedTotal(q, |armIds|);
        if Total(ClampedRaw(raw)) > 0.0 {
          AnswerMeetsLinear(e, raw, q, adjusted);
        }
      }
    }

    lemma AnswerMeetsLinear(e: Functions, raw: Probabilities, q: Vector, adjusted: Probabilities)
      requires Valid() && Lawful(e) && armIds != [] && IsAnswer(e, raw, Some(q))
      requires Total(ClampedRaw(raw)) > 0.0 && |q| == |armIds| && HasAllArms(adjusted)
      requires forall i :: 0 <= i < |armIds| ==> adjusted[armIds[i]] == q[i]
      ensures MeetsLinear(adjusted, RELAXED_TOL)
    {
      hide Lawful, Projection, IsOutcome, ClampedRaw, UsageUpTo, IsProblem, Reference, Lo, Hi;
      if linear != [] {
        ProblemIsWellFormed(e, raw);
        var P := ProblemOf(e, raw);
        AnswerIsNearFeasible(P, Some(q));
        forall j | 0 <= j < |linear|
          ensures UsageUpTo(linear[j], adjusted, |armIds|) - linear[j].rhs <= RELAXED_TOL
        {
          UsageIsProduct(linear[j], q, adjusted, |armIds|);
          assert Violation(P, q, j) <= RELAXED_TOL;
        }
      }
    }

    lemma AnswerWithinBounds(e: Functions, raw: Probabilities, q: Vector)
      requires Valid() && Lawful(e) && armIds != [] && IsAnswer(e, raw, Some(q))
      ensures InBox(q, Lo(), Hi()) && NearOne(Total(q), e.exp(HALF_WIDTH))
    {
      hide Lawful, Projection, IsOutcome, ClampedRaw, NearOne;
      BoundsFormBox();
      if Total(ClampedRaw(raw)) <= 0.0 {
        var c := ProjectionIsNearFeasible(e, Uniform(), Lo(), Hi());
      } else if linear == [] {
        var c := ProjectionIsNearFeasible(e, Reference(raw), Lo(), Hi());
      } else {
        ProblemIsWellFormed(e, raw);
        AnswerIsNearFeasible(ProblemOf(e, raw), Some(q));
      }
    }

    /** MAIN RESULT. With per-arm bounds only, a feasible answer has the least divergence from the shares of
        the raw probabilities, up to 51 * 2e-9, over the whole documented polytope: within the bounds,
        summing to 1. */
    lemma BoundedAnswerNearOptimal(e: Functions, raw: Probabilities, q: Vector, r: Vector, q': Vector)
      requires Valid() && Lawful(e) && armIds != [] && IsAnswer(e, raw, Some(q)) && linear == []
      requires TruncatedSum(raw, |armIds|) > 0.0 && IsShares(raw, r)
      requires InBox(q', Lo(), Hi()) && Total(q') == 1.0
      ensures |q| == |r| == |armIds| && IsPositive(r)
      ensures Divergence(e, q, r) <= Divergence(e, q', r) + EXCESS
    {
      hide Lawful, Projection, ClampedRaw, Total, Divergence, Reference, Lo, Hi, IsShares, TruncatedSum;
      BoundsFormBox();
      SharesAreReference(raw, r);
      ProjectionNearOptimal(e, r, Lo(), Hi(), q');
    }

    /** P states the constraints over the shares of the raw probabilities. */
    ghost predicate StatedBy(raw: Probabilities, P: Problem) {
      && IsShares(raw, P.p) && |P.lo| == |P.hi| == |armIds| && |P.a| == |P.b| == |linear|
      && (forall i :: 0 <= i < |armIds| ==>
            Bound(P.lo[i], P.hi[i]) == if armIds[i] in perArm then perArm[armIds[i]] else Bound(0.0, 1.0))
      && (forall j :: 0 <= j < |linear| ==> P.b[j] == linear[j].rhs && |P.a[j]| == |armIds|)
      && (forall j, i :: 0 <= j < |linear| && 0 <= i < |armIds| ==>
            P.a[j][i] == if armIds[i] in linear[j].coefficients then linear[j].coefficients[armIds[i]] else 0.0)
    }

    lemma ProblemStates(e: Functions, raw: Probabilities)
      requires Valid() && Total(ClampedRaw(raw)) > 0.0
      ensures StatedBy(raw, ProblemOf(e, raw))
    {
      ReferenceIsShares(raw);
      hide IsShares, ClampedRaw, Reference;
    }

    /** MAIN RESULT. With linear constraints too, the run's own multipliers bound how far a feasible answer
        is from the least divergence over the documented polytope. */
    lemma LinearAnswerGap(e: Functions, raw: Probabilities, q: Vector) returns (P: Problem, n: nat)
      requires Valid() && Lawful(e) && armIds != [] && IsAnswer(e, raw, Some(q)) && linear != []
      requires TruncatedSum(raw, |armIds|) > 0.0
      ensures IsProblem(P) && StatedBy(raw, P) && P.e == e
      ensures IterateAt(P, n) == Some(q) && IsMultiplier(P, LambdaAt(P, n))
      ensures forall q' :: IsCompetitor(P, q', 1.0) ==>
        Divergence(e, q, P.p) + Penalty(P, LambdaAt(P, n), q) <= Divergence(e, q', P.p) + EXCESS
    {
      hide Lawful, Projection, IsOutcome, ClampedRaw, Reference, Lo, Hi, TruncatedSum, StatedBy;
      hide Divergence, Penalty, IterateAt, LambdaAt, IsCompetitor;
      ClampedSum(raw, |armIds|);
      ProblemIsWellFormed(e, raw);
      ProblemStates(e, raw);
      P := ProblemOf(e, raw);
      n := AnswerGap(P, Some(q));
    }

    // --------------------------------------- probabilities that already satisfy the bounds

    /** The sum of the raw probabilities of the first n arms. */
    ghost function RawSum(raw: Probabilities, n: nat): real
      requires n <= |armIds|
    {
      if n == 0 then 0.0 else RawSum(raw, n - 1) + if armIds[n - 1] in raw then raw[armIds[n - 1]] else 0.0
    }

    /** The raw probabilities, 0 for a missing arm, lie within the bounds and sum to 1. */
    ghost predicate AlreadyAllowed(raw: Probabilities) {
      && RawSum(raw, |armIds|) == 1.0
      && forall id :: id in armIds ==>
        var x := if id in raw then raw[id] else 0.0;
        0.0 <= x <= 1.0 && (id in perArm ==> perArm[id].minFraction <= x <= perArm[id].maxFraction)
    }

    /** Every adjusted probability is the raw one, 0 for a missing arm, up to tol. */
    ghost predicate Unchanged(raw: Probabilities, adjusted: Probabilities, tol: real) {
      forall id :: id in adjusted ==> -tol <= adjusted[id] - (if id in raw then raw[id] else 0.0) <= tol
    }

    lemma {:induction false} AllowedSum(raw: Probabilities, n: nat)
      requires AlreadyAllowed(raw) && n <= |armIds|
      ensures SumUpTo(ClampedRaw(raw), n) == RawSum(raw, n)
    {
      if n != 0 {
        AllowedSum(raw, n - 1);
        assert armIds[n - 1] in armIds;
      }
    }

    lemma AllowedEntry(raw: Probabilities, i: nat)
      requires Valid() && AlreadyAllowed(raw) && i < |armIds|
      ensures ClampedRaw(raw)[i] == if armIds[i] in raw then raw[armIds[i]] else 0.0
      ensures Lo()[i] <= ClampedRaw(raw)[i] <= Hi()[i]
    {
      hide RawSum, IsFloor;
      assert armIds[i] in armIds;
    }

    lemma FlooredReference(raw: Probabilities)
      requires floor > 0.0 && Total(ClampedRaw(raw)) == 1.0
      ensures IsFloored(ClampedRaw(raw), Reference(raw), floor)
    {
      hide SumUpTo, ClampedRaw, Reference;
    }

    lemma AllowedIsAdmissible(raw: Probabilities)
      requires Valid() && AlreadyAllowed(raw)
      ensures Total(ClampedRaw(raw)) == 1.0 && IsAdmissible(ClampedRaw(raw), Lo(), Hi())
      ensures IsFloored(ClampedRaw(raw), Reference(raw), floor)
      ensures forall i :: 0 <= i < |armIds| ==>
        ClampedRaw(raw)[i] == if armIds[i] in raw then raw[armIds[i]] else 0.0
    {
      AllowedSum(raw, |armIds|);
      assert floor > 0.0;
      hide RawSum, SumUpTo, ClampedRaw, Reference, Lo, Hi, IsFloored, IsFloor, Truncated;
      FlooredReference(raw);
      forall i | 0 <= i < |armIds|
        ensures ClampedRaw(raw)[i] == (if armIds[i] in raw then raw[armIds[i]] else 0.0)
        ensures Lo()[i] <= ClampedRaw(raw)[i] <= Hi()[i]
      {
        AllowedEntry(raw, i);
      }
    }

    lemma AllowedEntries(e: Functions, raw: Probabilities, q: Option<Vector>)
      requires Valid() && Lawful(e) && AlreadyAllowed(raw) && IsBox(Lo(), Hi()) && Total(ClampedRaw(raw)) > 0.0
      requires q == Projection(e, Reference(raw), Lo(), Hi())
      ensures |armIds| as real * floor <= 1e-9 ==> q.Some?
      ensures q.Some? ==> |q.value| == |armIds| && forall i :: 0 <= i < |armIds| ==>
        -Tolerance() <= q.value[i] - ClampedRaw(raw)[i] <= Tolerance()
    {
      hide *;
      AllowedIsAdmissible(raw);
      ToleranceIs();
      InputOf(e, raw);
      FixedPoint(e, ClampedRaw(raw), Reference(raw), Lo(), Hi(), floor, Tolerance(), q);
    }

    lemma InputOf(e: Functions, raw: Probabilities)
      requires Valid() && Lawful(e) && IsBox(Lo(), Hi()) && Total(ClampedRaw(raw)) > 0.0
      ensures floor > 0.0 && IsInput(e, Reference(raw), Lo(), Hi()) && |ClampedRaw(raw)| == |armIds|
    {
      hide Lawful, IsBox, ClampedRaw, Reference, Lo, Hi, Total;
    }

    lemma FixedPoint(e: Functions, p: Vector, r: Vector, lo: Vector, hi: Vector, t: real, tol: real, q: Option<Vector>)
      requires IsInput(e, r, lo, hi) && IsAdmissible(p, lo, hi) && IsFloored(p, r, t) && t > 0.0
      requires q == Projection(e, r, lo, hi) && tol == FINE_TOL + 2.0 * (|p| as real * t)
      ensures |p| as real * t <= 1e-9 ==> q.Some?
      ensures q.Some? ==> |q.value| == |p| && forall i :: 0 <= i < |p| ==> -tol <= q.value[i] - p[i] <= tol
    {
      hide *;
      if |p| as real * t <= 1e-9 {
        AdmissibleIsProjected(e, p, r, lo, hi, t);
      }
      if q.Some? {
        ProjectionKeepsAdmissible(e, p, r, lo, hi, t, q.value);
      }
    }

    /** The projection of probabilities that already satisfy the bounds. */
    lemma ProjectedStaysUnchanged(e: Functions, raw: Probabilities, q: Option<Vector>)
      requires Valid() && Lawful(e) && AlreadyAllowed(raw) && IsBox(Lo(), Hi()) && Total(ClampedRaw(raw)) > 0.0
      requires q == Projection(e, Reference(raw), Lo(), Hi())
      ensures |armIds| as real * floor <= 1e-9 ==> q.Some?
      ensures q.Some? ==> |q.value| == |armIds| && Unchanged(raw, Collected(q.value, |armIds|), Tolerance())
    {
      hide *;
      AllowedEntries(e, raw, q);
      AllowedIsAdmissible(raw);
      if q.Some? {
        CollectedEntries(q.value, |armIds|);
        assert armIds[..|armIds|] == armIds;
        UnchangedIfClose(raw, q.value, Collected(q.value, |armIds|), Tolerance());
      }
    }

    /** MAIN RESULT. Probabilities that already satisfy the bounds come back unchanged, up to 1e-13 and twice
        the floor of each arm; with at most 1e-9 / floor arms there always is an answer. */
    lemma AllowedStaysUnchanged(e: Functions, raw: Probabilities, q: Option<Vector>)
      requires Valid() && Lawful(e) && armIds != [] && IsAnswer(e, raw, q) && linear == [] && AlreadyAllowed(raw)
      ensures |armIds| as real * floor <= 1e-9 ==> q.Some?
      ensures q.Some? ==> |q.value| == |armIds| && Unchanged(raw, Collected(q.value, |armIds|), Tolerance())
    {
      BoundsFormBox();
      AllowedIsAdmissible(raw);
      hide Lawful, Projection, ClampedRaw, Reference, Lo, Hi, AlreadyAllowed, Total, IsFloored, IsAdmissible, Unchanged;
      ProjectedStaysUnchanged(e, raw, q);
    }

    lemma UnchangedIfClose(raw: Probabilities, q: Vector, adjusted: Probabilities, tol: real)
      requires |q| == |armIds| && forall i :: 0 <= i < |armIds| ==>
        -tol <= q[i] - (if armIds[i] in raw then raw[armIds[i]] else 0.0) <= tol
      requires forall id :: id in adjusted ==> exists i :: 0 <= i < |armIds| && armIds[i] == id && adjusted[id] == q[i]
      ensures Unchanged(raw, adjusted, tol)
    {
    }

    ghost function Tolerance(): real {
      FINE_TOL + 2.0 * (|armIds| as real * floor)
    }

    lemma ToleranceIs()
      ensures Tolerance() == FINE_TOL + 2.0 * (|armIds| as real * floor)
    {
    }
  }

  /** x cut to the interval [0, 1]. */
  function Truncated(x: real): (y: real)
    ensures 0.0 <= y <= 1.0 && (0.0 <= x <= 1.0 ==> y == x)
  {
    if x < 0.0 then 0.0 else if x > 1.0 then 1.0 else x
  }

  /** r is x over the sum, or the floor if that is more. */
  ghost predicate IsShare(x: real, sum: real, floor: real, r: real) {
    if x < floor * sum then r == floor else r * sum == x
  }

  lemma ShareEntry(x: real, sum: real, floor: real, r: real)
    requires sum > 0.0
    ensures r == AtLeast(x / sum, floor) <==> IsShare(x, sum, floor, r)
  {
    var y := x / sum;
    assert y * sum == x;
    ScaledOrder(y, floor, sum);
    ScaledOrder(r, y, sum);
  }

  lemma ScaledOrder(a: real, b: real, k: real)
    requires k > 0.0
    ensures a * k < b * k <==> a < b
    ensures a * k == b * k <==> a == b
  {
    ProductOf(a - b, k);
    assert (a - b) * k == a * k - b * k;
  }

  lemma ProductOf(a: real, k: real)
    requires k > 0.0
    ensures a * k > 0.0 <==> a > 0.0
    ensures a * k == 0.0 <==> a == 0.0
  {
    if a > 0.0 {
      ProductPositive(a, k, a * k);
    } else if a < 0.0 {
      ProductPositive(-a, k, (-a) * k);
      assert (-a) * k == -(a * k);
    }
  }

  function AtLeast(x: real, floor: real): (y: real)
    ensures y >= floor && y >= x
  {
    if x < floor then floor else x
  }

  class ConstraintSolver {
    const armIds: seq<string>
    const floor: real
    var perArm: map<string, Bound>
    var linear: seq<LinearConstraint>
    const impressions: ImpressionTracker

    function Current(): Constraints
      reads this
    {
      Constraints(armIds, perArm, linear, floor)
    }

    ghost predicate Valid()
      reads this, impressions
    {
      Current().Valid() && impressions.Valid()
    }

    constructor (armIds: seq<string>, alpha: real)
      requires 0.0 < alpha <= 1.0
      ensures Valid() && fresh(impressions)
      ensures Current() == Constraints(armIds, map[], [], 1e-300) && impressions.ema == Initial(armIds)
    {
      ProgramFloor();
      this.armIds := armIds;
      floor := REFERENCE_FLOOR;
      perArm, linear := map[], [];
      impressions := new ImpressionTracker(armIds, alpha);
    }

    /** The asserted ranges are the caller's obligation. The arm is tracked even if unknown. */
    method AddPerArmBound(armId: string, minFraction: real, maxFraction: real)
      requires Valid() && 0.0 <= minFraction <= maxFraction <= 1.0
      modifies this, impressions
      ensures Valid() && linear == old(linear)
      ensures perArm == old(perArm)[armId := Bound(minFraction, maxFraction)]
      ensures impressions.ema == WithArm(old(impressions.ema), armId)
    {
      perArm := perArm[armId := Bound(minFraction, maxFraction)];
      impressions.AddArm(armId);
    }

    method AddLinearConstraint(name: string, coefficients: map<string, real>, rhs: real)
      requires Valid()
      modifies this
      ensures Valid() && perArm == old(perArm)
      ensures linear == old(linear) + [LinearConstraint(name, coefficients, rhs)]
    {
      linear := linear + [LinearConstraint(name, coefficients, rhs)];
    }

    method RecordImpression(selectedArm: string)
      requires Valid()
      modifies impressions
      ensures Valid() && impressions.ema == Recorded(old(impressions.ema), impressions.alpha, selectedArm)
    {
      impressions.Record(selectedArm);
    }

    method Apply(e: Functions, raw: Probabilities) returns (result: ConstraintResult)
      requires Valid() && Lawful(e)
      ensures armIds == [] ==> result == Feasible(map[])
      ensures armIds != [] ==> exists q: Option<Vector> ::
        Current().IsAnswer(e, raw, q) && (q.Some? ==> |q.value| == |armIds|) && result == Current().Packaged(raw, q)
      ensures armIds != [] && result.Feasible? ==>
        Current().HasAllArms(result.adjusted) && Current().MeetsBounds(result.adjusted)
      ensures armIds != [] && result.Feasible? && Distinct(armIds) && Total(Current().ClampedRaw(raw)) > 0.0 ==>
        Current().MeetsLinear(result.adjusted, RELAXED_TOL)
      ensures armIds != [] && result.Feasible? && Distinct(armIds) ==>
        NearOne(SumValues(result.adjusted), e.exp(HALF_WIDTH))
      ensures result.Infeasible? ==> result.raw == raw
      ensures armIds != [] && linear == [] && Current().AlreadyAllowed(raw) ==>
        && (|armIds| as real * floor <= 1e-9 ==> result.Feasible?)
        && (result.Feasible? ==> Current().Unchanged(raw, result.adjusted, Current().Tolerance()))
    {
      hide Constraints.AlreadyAllowed, Constraints.Unchanged, Constraints.Tolerance;
      hide Lawful, Projection, IsOutcome, IsProblem, Total, IsBox, NearOne, SumValues;
      hide Constraints.IsAnswer, Constraints.MeetsLinear, Constraints.MeetsBounds, Constraints.HasAllArms;
      hide Constraints.Collected, Constraints.ClampedRaw, Constraints.Reference, Constraints.Lo, Constraints.Hi;
      if |armIds| == 0 {
        return Feasible(map[]);
      }
      var current := Current();
      current.BoundsFormBox();
      var q;
      if Total(current.ClampedRaw(raw)) <= 0.0 {
        q := SolveUniform(e, current);
      } else if |linear| == 0 {
        q := BisectKlProjection(e, current.Reference(raw), current.Lo(), current.Hi());
      } else {
        current.ProblemIsWellFormed(e, raw);
        q := SolveKlGeneral(current.ProblemOf(e, raw));
        if q.Some? {
          AnswerIsNearFeasible(current.ProblemOf(e, raw), q);
        }
      }
      current.AnswerByPath(e, raw, q);
      result := current.Packaged(raw, q);
      if q.Some? {
        current.FeasibleMeetsConstraints(e, raw, q.value, result.adjusted);
      }
      if |linear| == 0 && current.AlreadyAllowed(raw) {
        current.AllowedStaysUnchanged(e, raw, q);
      }
    }

    /** The fallback for all-zero probabilities tests the sums of the bounds before projecting. */
    static method SolveUniform(e: Functions, current: Constraints) returns (q: Option<Vector>)
      requires current.Valid() && Lawful(e) && current.armIds != [] && IsBox(current.Lo(), current.Hi())
      ensures q == Projection(e, current.Uniform(), current.Lo(), current.Hi())
    {
      if Total(current.Lo()) > 1.0 + SLACK || Total(current.Hi()) < 1.0 - SLACK {
        return None;
      }
      q := BisectKlProjection(e, current.Uniform(), current.Lo(), current.Hi());
    }
  }
}
