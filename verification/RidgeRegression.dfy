/** What a LinUCB arm stands for: the ridge regression of its observations.
    `Inverse` folds the Sherman-Morrison step over a history; the lemmas relate that fast form to
    the design matrix I + sum x x^T, to the ridge loss and to the confidence ellipsoid. */
module RidgeRegression {
  import opened LinearAlgebra
  import opened RealFacts

  datatype Observation = Observation(x: Vector, reward: real)

  type History = seq<Observation>

  ghost predicate OfDimension(h: History, d: nat) {
    forall t :: 0 <= t < |h| ==> |h[t].x| == d
  }

  /** The design matrix A = I + sum of x x^T. */
  ghost function Design(h: History, d: nat): (a: Matrix)
    requires OfDimension(h, d)
    ensures IsSquare(a, d)
  {
    if h == [] then Identity(d)
    else
      var x := h[|h| - 1].x;
      MatrixAdd(Design(h[..|h| - 1], d), Outer(x, x), d)
  }

  /** The vector b = sum of reward * x. */
  ghost function RewardSum(h: History, d: nat): (b: Vector)
    requires OfDimension(h, d)
    ensures |b| == d
  {
    if h == [] then Zeros(d)
    else
      var o := h[|h| - 1];
      Add(RewardSum(h[..|h| - 1], d), Scale(o.reward, o.x))
  }

  const DENOMINATOR_FLOOR := 1e-10

  function Denominator(aInv: Matrix, x: Vector): real
    requires IsSquare(aInv, |x|)
  {
    1.0 + Dot(x, Apply(aInv, x))
  }

  /** One Sherman-Morrison step, with the guard that skips a near-zero denominator. */
  function ShermanMorrison(aInv: Matrix, x: Vector): (m: Matrix)
    requires IsSquare(aInv, |x|)
    ensures IsSquare(m, |x|)
  {
    var aInvX := Apply(aInv, x);
    var denominator := Denominator(aInv, x);
    if -DENOMINATOR_FLOOR < denominator < DENOMINATOR_FLOOR then aInv
    else MatrixAdd(aInv, MatrixScale(-1.0 / denominator, Outer(aInvX, aInvX), |x|), |x|)
  }

  ghost function Inverse(h: History, d: nat): (m: Matrix)
    requires OfDimension(h, d)
    ensures IsSquare(m, d)
  {
    if h == [] then Identity(d)
    else ShermanMorrison(Inverse(h[..|h| - 1], d), h[|h| - 1].x)
  }

  // ------------------------------------------------------- the design matrix

  lemma ScaleByOne(m: Matrix, d: nat)
    requires IsSquare(m, d)
    ensures MatrixScale(1.0, m, d) == m
  {
    forall i | 0 <= i < d ensures MatrixScale(1.0, m, d)[i] == m[i] {
    }
  }

  lemma ApplyGrownDesign(a: Matrix, a': Matrix, x: Vector, v: Vector)
    requires |x| == |v| && IsSquare(a, |x|) && IsSquare(a', |x|)
    requires a' == MatrixAdd(a, Outer(x, x), |x|)
    ensures IsShift(Apply(a, v), Dot(x, v), x, Apply(a', v))
  {
    ScaleByOne(Outer(x, x), |x|);
    ApplyRankOne(a, 1.0, x, v, Dot(x, v));
  }

  lemma DotApplyDesign(h: History, d: nat, u: Vector, v: Vector)
    requires OfDimension(h, d) && |u| == |v| == d && h != []
    ensures var x := h[|h| - 1].x;
      Dot(u, Apply(Design(h, d), v)) == Dot(u, Apply(Design(h[..|h| - 1], d), v)) + Dot(x, u) * Dot(x, v)
  {
    hide DotUpTo;
    var x := h[|h| - 1].x;
    ApplyGrownDesign(Design(h[..|h| - 1], d), Design(h, d), x, v);
    DotLinear(u, Apply(Design(h[..|h| - 1], d), v), x, Dot(x, v), Apply(Design(h, d), v));
    DotCommutes(u, x);
  }

  lemma {:induction false} DesignSelfAdjoint(h: History, d: nat, u: Vector, v: Vector)
    requires OfDimension(h, d) && |u| == |v| == d
    ensures Dot(u, Apply(Design(h, d), v)) == Dot(v, Apply(Design(h, d), u))
  {
    if h == [] {
      ApplyIdentity(u);
      ApplyIdentity(v);
      DotCommutes(u, v);
    } else {
      DesignSelfAdjoint(h[..|h| - 1], d, u, v);
      DotApplyDesign(h, d, u, v);
      DotApplyDesign(h, d, v, u);
    }
  }

  /** A dominates the identity, so it is positive definite. */
  lemma {:induction false} DesignDominatesIdentity(h: History, d: nat, v: Vector)
    requires OfDimension(h, d) && |v| == d
    ensures Dot(v, Apply(Design(h, d), v)) >= Dot(v, v)
  {
    if h == [] {
      ApplyIdentity(v);
    } else {
      DesignDominatesIdentity(h[..|h| - 1], d, v);
      DotApplyDesign(h, d, v, v);
      var k := Dot(h[|h| - 1].x, v);
      Square(k, k * k);
    }
  }

  // ------------------------------------- Sherman-Morrison computes the inverse

  /** m' is m with the rank-one correction that has factor c = -1 / denominator. */
  ghost predicate IsStep(m: Matrix, m': Matrix, x: Vector, c: real)
    requires IsSquare(m, |x|)
  {
    && c * Denominator(m, x) == -1.0
    && m' == MatrixAdd(m, MatrixScale(c, Outer(Apply(m, x), Apply(m, x)), |x|), |x|)
  }

  lemma StepTaken(m: Matrix, x: Vector) returns (c: real)
    requires IsSquare(m, |x|) && Denominator(m, x) >= 1.0
    ensures IsStep(m, ShermanMorrison(m, x), x, c)
  {
    c := -1.0 / Denominator(m, x);
  }

  lemma ApplyStep(m: Matrix, m': Matrix, x: Vector, c: real, v: Vector) returns (t: real)
    requires |x| == |v| && IsSquare(m, |x|) && IsStep(m, m', x, c)
    ensures t == c * Dot(Apply(m, x), v)
    ensures IsShift(Apply(m, v), t, Apply(m, x), Apply(m', v))
  {
    t := c * Dot(Apply(m, x), v);
    ApplyRankOne(m, c, Apply(m, x), v, t);
  }

  /** The scalar cancellation behind the update: with c s = -1 and t = c k,
      the coefficients t and k + t (s - 1) are opposite, and c (k s) = -k. */
  lemma Cancel(k: real, s: real, c: real, t: real)
    requires c * s == -1.0 && t == c * k
    ensures k + t * (s - 1.0) == -t
    ensures c * (k * s) == -k
  {
    assert t * s == c * s * k;
    assert c * (k * s) == c * s * k;
  }

  /** If m inverts a at v and at x, the updated pair is inverse at v. */
  lemma RightInverseStep(a: Matrix, a': Matrix, m: Matrix, m': Matrix, x: Vector, c: real, v: Vector)
    requires |x| == |v| && IsSquare(a, |x|) && IsSquare(a', |x|) && IsSquare(m, |x|)
    requires IsStep(m, m', x, c) && a' == MatrixAdd(a, Outer(x, x), |x|)
    requires Apply(a, Apply(m, v)) == v && Apply(a, Apply(m, x)) == x
    requires Dot(x, Apply(m, v)) == Dot(Apply(m, x), v)
    ensures Apply(a', Apply(m', v)) == v
  {
    hide DotUpTo;
    var u, w := Apply(m, x), Apply(m', v);
    var t := ApplyStep(m, m', x, c, v);
    DotLinear(x, Apply(m, v), u, t, w);
    Cancel(Dot(u, v), Denominator(m, x), c, t);
    assert Dot(x, w) == -t;
    ApplyLinear(a, Apply(m, v), u, t, w);
    ApplyGrownDesign(a, a', x, w);
    BackAndForth(v, Apply(a, w), x, t, Apply(a', w));
  }

  /** The mirror image: the updated inverse also undoes the updated design matrix. */
  lemma LeftInverseStep(a: Matrix, a': Matrix, m: Matrix, m': Matrix, x: Vector, c: real, v: Vector)
    requires |x| == |v| && IsSquare(a, |x|) && IsSquare(a', |x|) && IsSquare(m, |x|)
    requires IsStep(m, m', x, c) && a' == MatrixAdd(a, Outer(x, x), |x|)
    requires Apply(m, Apply(a, v)) == v
    requires Dot(Apply(m, x), Apply(a, v)) == Dot(x, v)
    ensures Apply(m', Apply(a', v)) == v
  {
    hide DotUpTo;
    var u, k, w := Apply(m, x), Dot(x, v), Apply(a', v);
    ApplyGrownDesign(a, a', x, v);
    ApplyLinear(m, Apply(a, v), x, k, w);
    DotLinear(u, Apply(a, v), x, k, w);
    DotCommutes(u, x);
    assert Dot(u, w) == k * Denominator(m, x);
    Cancel(k, Denominator(m, x), c, c * k);
    var t := ApplyStep(m, m', x, c, w);
    assert t == -k;
    BackAndForth(v, Apply(m, w), u, k, Apply(m', w));
  }

  lemma BackAndForth(v: Vector, p: Vector, x: Vector, t: real, z: Vector)
    requires |v| == |p| == |x| == |z|
    requires IsShift(v, t, x, p) && IsShift(p, -t, x, z)
    ensures z == v
  {
  }

  lemma DotStep(m: Matrix, m': Matrix, x: Vector, c: real, u: Vector, v: Vector)
    requires |x| == |u| == |v| && IsSquare(m, |x|) && IsStep(m, m', x, c)
    ensures var y := Apply(m, x);
      Dot(u, Apply(m', v)) == Dot(u, Apply(m, v)) + c * (Dot(y, u) * Dot(y, v))
  {
    hide DotUpTo;
    var y := Apply(m, x);
    var t := ApplyStep(m, m', x, c, v);
    DotLinear(u, Apply(m, v), y, t, Apply(m', v));
    DotCommutes(u, y);
    assert t * Dot(y, u) == c * (Dot(y, u) * Dot(y, v));
  }

  /** After any history the denominator of the next step is at least 1: the skip branch is dead. */
  lemma DenominatorAtLeastOne(h: History, d: nat, x: Vector)
    requires OfDimension(h, d) && |x| == d
    ensures Denominator(Inverse(h, d), x) >= 1.0
    decreases |h|, 1
  {
    var u := Apply(Inverse(h, d), x);
    InverseUndoesDesign(h, d, x);
    DesignDominatesIdentity(h, d, u);
    DotSelf(u);
    DotCommutes(x, u);
  }

  lemma {:induction false} InverseSelfAdjoint(h: History, d: nat, u: Vector, v: Vector)
    requires OfDimension(h, d) && |u| == |v| == d
    ensures Dot(u, Apply(Inverse(h, d), v)) == Dot(Apply(Inverse(h, d), u), v)
    decreases |h|, 0
  {
    if h == [] {
      ApplyIdentity(u);
      ApplyIdentity(v);
    } else {
      var p, x := h[..|h| - 1], h[|h| - 1].x;
      var m := Inverse(p, d);
      DenominatorAtLeastOne(p, d, x);
      InverseSelfAdjoint(p, d, u, v);
      var c := StepTaken(m, x);
      DotStep(m, Inverse(h, d), x, c, u, v);
      DotStep(m, Inverse(h, d), x, c, v, u);
      DotCommutes(Apply(m, u), v);
      DotCommutes(Apply(Inverse(h, d), u), v);
    }
  }

  /** The maintained matrix and the design matrix undo each other, in both orders. */
  lemma {:induction false} InverseUndoesDesign(h: History, d: nat, v: Vector)
    requires OfDimension(h, d) && |v| == d
    ensures Apply(Design(h, d), Apply(Inverse(h, d), v)) == v
    ensures Apply(Inverse(h, d), Apply(Design(h, d), v)) == v
    decreases |h|, 0
  {
    if h == [] {
      ApplyIdentity(v);
    } else {
      var p, x := h[..|h| - 1], h[|h| - 1].x;
      var a, m := Design(p, d), Inverse(p, d);
      DenominatorAtLeastOne(p, d, x);
      InverseUndoesDesign(p, d, v);
      InverseUndoesDesign(p, d, x);
      InverseSelfAdjoint(p, d, x, v);
      InverseSelfAdjoint(p, d, x, Apply(a, v));
      var c := StepTaken(m, x);
      RightInverseStep(a, Design(h, d), m, Inverse(h, d), x, c, v);
      LeftInverseStep(a, Design(h, d), m, Inverse(h, d), x, c, v);
    }
  }

  /** MAIN RESULT. After any updates in any dimension the maintained matrix is symmetric and is
      exactly the inverse of I + sum x x^T, as matrices and on both sides. */
  lemma InverseIsExact(h: History, d: nat)
    requires OfDimension(h, d)
    ensures Multiply(Design(h, d), Inverse(h, d), d) == Identity(d)
    ensures Multiply(Inverse(h, d), Design(h, d), d) == Identity(d)
    ensures IsSymmetric(Inverse(h, d), d)
  {
    forall v: Vector | |v| == d
      ensures Apply(Design(h, d), Apply(Inverse(h, d), v)) == v
      ensures Apply(Inverse(h, d), Apply(Design(h, d), v)) == v
    {
      InverseUndoesDesign(h, d, v);
    }
    OperatorInverseIsMatrixInverse(Design(h, d), Inverse(h, d), d);
    OperatorInverseIsMatrixInverse(Inverse(h, d), Design(h, d), d);
    forall u: Vector, v: Vector | |u| == d && |v| == d
      ensures Dot(u, Apply(Inverse(h, d), v)) == Dot(Apply(Inverse(h, d), u), v)
    {
      InverseSelfAdjoint(h, d, u, v);
    }
    SelfAdjointIsSymmetric(Inverse(h, d), d);
  }

  // --------------------------------------------------- exploration variance

  /** The exploration variance x^T a_inv x of a context. */
  ghost function Variance(h: History, d: nat, x: Vector): real
    requires OfDimension(h, d) && |x| == d
  {
    Dot(x, Apply(Inverse(h, d), x))
  }

  /** With w = a_inv x the variance is the design energy of w, hence at least w.w. */
  lemma VarianceIsEnergy(h: History, d: nat, x: Vector) returns (w: Vector)
    requires OfDimension(h, d) && |x| == d
    ensures w == Apply(Inverse(h, d), x) && |w| == d && Apply(Design(h, d), w) == x
    ensures Variance(h, d, x) == Dot(w, Apply(Design(h, d), w)) >= Dot(w, w)
  {
    w := Apply(Inverse(h, d), x);
    InverseUndoesDesign(h, d, x);
    DesignDominatesIdentity(h, d, w);
    DotCommutes(x, w);
  }

  lemma ApplyZeros(m: Matrix, d: nat)
    requires IsSquare(m, d)
    ensures Apply(m, Zeros(d)) == Zeros(d)
  {
    forall i | 0 <= i < d ensures Apply(m, Zeros(d))[i] == 0.0 {
      DotZeros(m[i]);
    }
  }

  lemma VarianceSign(h: History, d: nat, x: Vector)
    requires OfDimension(h, d) && |x| == d
    ensures Variance(h, d, x) >= 0.0
    ensures Variance(h, d, x) == 0.0 <==> x == Zeros(d)
  {
    var w := VarianceIsEnergy(h, d, x);
    DotSelf(w);
    ApplyZeros(Design(h, d), d);
    DotZeros(Apply(Inverse(h, d), x));
    DotCommutes(x, w);
  }

  /** A step can only lower the quadratic form of the matrix. */
  lemma StepLowersForm(m: Matrix, m': Matrix, z: Vector, c: real, x: Vector)
    requires |x| == |z| && IsSquare(m, |z|) && IsStep(m, m', z, c) && Denominator(m, z) >= 1.0
    ensures Dot(x, Apply(m', x)) <= Dot(x, Apply(m, x))
  {
    hide DotUpTo;
    DotStep(m, m', z, c, x, x);
    var k := Dot(Apply(m, z), x);
    Square(k, k * k);
    NegativeProduct(c, Denominator(m, z), k * k);
  }

  lemma VarianceShrinksOnce(h: History, g: History, d: nat, x: Vector)
    requires OfDimension(g, d) && |x| == d && g != [] && h == g[..|g| - 1]
    ensures Variance(g, d, x) <= Variance(h, d, x)
  {
    var z := g[|g| - 1].x;
    DenominatorAtLeastOne(h, d, z);
    var c := StepTaken(Inverse(h, d), z);
    StepLowersForm(Inverse(h, d), Inverse(g, d), z, c, x);
  }

  lemma {:induction false} VarianceShrinks(h: History, later: History, d: nat, x: Vector)
    requires OfDimension(h, d) && OfDimension(later, d) && |x| == d
    ensures OfDimension(h + later, d)
    ensures Variance(h + later, d, x) <= Variance(h, d, x)
  {
    if later == [] {
      assert h + later == h;
    } else {
      var n := |later| - 1;
      VarianceShrinks(h, later[..n], d, x);
      assert (h + later)[..|h| + n] == h + later[..n];
      VarianceShrinksOnce(h + later[..n], h + later, d, x);
    }
  }

  lemma NegativeProduct(c: real, s: real, p: real)
    requires c * s == -1.0 && s >= 1.0 && p >= 0.0
    ensures c * p <= 0.0
  {
    NegativeFactor(c, s);
    assert (-c) * p >= 0.0;
  }

  lemma NegativeFactor(c: real, s: real)
    requires c * s == -1.0 && s >= 1.0
    ensures c < 0.0
  {
  }

  /** MAIN RESULT. The exploration variance is non-negative, zero only for the zero context, at most
      x.x, and no later update of the arm can increase it. */
  lemma VarianceBounds(h: History, later: History, d: nat, x: Vector)
    requires OfDimension(h, d) && OfDimension(later, d) && |x| == d
    ensures OfDimension(h + later, d)
    ensures 0.0 <= Variance(h + later, d, x) <= Variance(h, d, x) <= Dot(x, x)
    ensures Variance(h, d, x) == 0.0 <==> x == Zeros(d)
  {
    VarianceSign(h, d, x);
    VarianceShrinks(h, later, d, x);
    VarianceSign(h + later, d, x);
    VarianceShrinks([], h, d, x);
    assert [] + h == h;
    ApplyIdentity(x);
  }

  // ------------------------------------------------------------- ridge loss

  /** The coefficients the arm predicts with: theta = a_inv b. */
  ghost function Theta(h: History, d: nat): (theta: Vector)
    requires OfDimension(h, d)
    ensures |theta| == d
  {
    Apply(Inverse(h, d), RewardSum(h, d))
  }

  lemma OneObservationDesign(x: Vector, r: real)
    ensures OfDimension([Observation(x, r)], |x|)
    ensures Design([Observation(x, r)], |x|) == MatrixAdd(Identity(|x|), Outer(x, x), |x|)
    ensures RewardSum([Observation(x, r)], |x|) == Scale(r, x)
  {
    hide DotUpTo, Outer, MatrixAdd, Identity;
    assert [Observation(x, r)][..0] == [];
  }

  lemma GrownIdentity(x: Vector)
    ensures Apply(MatrixAdd(Identity(|x|), Outer(x, x), |x|), x) == Scale(1.0 + Dot(x, x), x)
  {
    hide DotUpTo, Outer, MatrixAdd, Identity, Apply;
    ApplyIdentity(x);
    ApplyGrownDesign(Identity(|x|), MatrixAdd(Identity(|x|), Outer(x, x), |x|), x, x);
  }

  /** After a single observation (x, r) the prediction at y is r (x.y) / (1 + x.x). */
  lemma OneObservationPrediction(x: Vector, r: real, y: Vector)
    requires |x| == |y|
    ensures OfDimension([Observation(x, r)], |x|)
    ensures Dot(Theta([Observation(x, r)], |x|), y) * (1.0 + Dot(x, x)) == r * Dot(x, y)
  {
    hide DotUpTo, Design, Inverse, RewardSum;
    var h, d, k := [Observation(x, r)], |x|, 1.0 + Dot(x, x);
    OneObservationDesign(x, r);
    GrownIdentity(x);
    InverseUndoesDesign(h, d, x);
    var u := Apply(Inverse(h, d), x);
    ApplyScale(Inverse(h, d), k, x);
    ApplyScale(Inverse(h, d), r, x);
    assert Scale(k, u) == x && Theta(h, d) == Scale(r, u);
    DotCommutes(Scale(r, u), y);
    DotScale(y, r, u);
    DotCommutes(x, y);
    DotScale(y, k, u);
    MovedFactor(r, k, Dot(y, u));
  }

  lemma MovedFactor(r: real, k: real, p: real)
    ensures r * p * k == r * (k * p)
  {
  }

  /** The ridge loss |theta|^2 + sum (reward - theta.x)^2. */
  ghost function Loss(h: History, theta: Vector): real
    requires OfDimension(h, |theta|)
  {
    if h == [] then Dot(theta, theta)
    else
      var e := h[|h| - 1].reward - Dot(theta, h[|h| - 1].x);
      Loss(h[..|h| - 1], theta) + e * e
  }

  ghost function SquaredRewards(h: History): real {
    if h == [] then 0.0
    else SquaredRewards(h[..|h| - 1]) + h[|h| - 1].reward * h[|h| - 1].reward
  }

  /** theta^T A theta, the curvature of the loss. */
  ghost function Energy(h: History, theta: Vector): real
    requires OfDimension(h, |theta|)
  {
    Dot(theta, Apply(Design(h, |theta|), theta))
  }

  lemma ExpandSquare(r: real, t: real, e: real)
    requires e == r - t
    ensures e * e == r * r - 2.0 * (r * t) + t * t
  {
  }

  lemma {:induction false} LossIsQuadratic(h: History, theta: Vector)
    requires OfDimension(h, |theta|)
    ensures Loss(h, theta) == Energy(h, theta) - 2.0 * Dot(RewardSum(h, |theta|), theta) + SquaredRewards(h)
  {
    hide DotUpTo, Apply;
    var d := |theta|;
    if h == [] {
      ApplyIdentity(theta);
      DotCommutes(Zeros(d), theta);
      DotZeros(theta);
    } else {
      var p, o := h[..|h| - 1], h[|h| - 1];
      LossIsQuadratic(p, theta);
      DotApplyDesign(h, d, theta, theta);
      var t := Dot(theta, o.x);
      DotCommutes(theta, o.x);
      DotCommutes(RewardSum(h, d), theta);
      DotCommutes(RewardSum(p, d), theta);
      DotAdd(theta, RewardSum(p, d), Scale(o.reward, o.x));
      DotScale(theta, o.reward, o.x);
      ExpandSquare(o.reward, t, o.reward - t);
    }
  }

  /** The energy of theta in terms of its distance delta from a solution s of A s = b. */
  lemma EnergyAround(h: History, s: Vector, theta: Vector, delta: Vector)
    requires |s| == |theta| == |delta| && OfDimension(h, |s|)
    requires IsShift(theta, -1.0, s, delta)
    requires Apply(Design(h, |s|), s) == RewardSum(h, |s|)
    ensures var b := RewardSum(h, |s|);
      Energy(h, theta) - 2.0 * Dot(b, theta) == Energy(h, delta) - Dot(b, s)
  {
    hide DotUpTo, Design, RewardSum, Dot, Apply;
    var d := |s|;
    var a, b := Design(h, d), RewardSum(h, d);
    ApplyLinear(a, theta, s, -1.0, delta);
    DotLinear(delta, Apply(a, theta), b, -1.0, Apply(a, delta));
    DotCommutes(delta, Apply(a, theta));
    DotLinear(Apply(a, theta), theta, s, -1.0, delta);
    DotCommutes(Apply(a, theta), theta);
    DotCommutes(Apply(a, theta), s);
    DesignSelfAdjoint(h, d, s, theta);
    DotCommutes(theta, b);
    DotCommutes(delta, b);
    DotLinear(b, theta, s, -1.0, delta);
  }

  /** MAIN RESULT. theta = a_inv b is the unique minimiser of the ridge loss; the excess loss of any
      other theta is exactly the energy of the difference. */
  lemma ThetaMinimisesLoss(h: History, d: nat, theta: Vector)
    requires OfDimension(h, d) && |theta| == d
    ensures Loss(h, theta) == Loss(h, Theta(h, d)) + Energy(h, Sub(theta, Theta(h, d)))
    ensures theta != Theta(h, d) ==> Loss(h, theta) > Loss(h, Theta(h, d))
  {
    var s := Theta(h, d);
    var delta := Sub(theta, s);
    InverseUndoesDesign(h, d, RewardSum(h, d));
    LossIsQuadratic(h, theta);
    LossIsQuadratic(h, s);
    EnergyAround(h, s, theta, delta);
    DotCommutes(s, RewardSum(h, d));
    DesignDominatesIdentity(h, d, delta);
    DotSelf(delta);
    if theta != s {
      assert exists i :: 0 <= i < d && theta[i] != s[i];
    }
  }

  // ------------------------------------------------------ order independence

  /** The history with its k-th observation moved to the end. */
  ghost function MovedToEnd(h: History, k: nat): (g: History)
    requires k < |h|
    ensures multiset(g) == multiset(h) && |g| == |h|
  {
    assert h == h[..k] + [h[k]] + h[k + 1..];
    h[..k] + h[k + 1..] + [h[k]]
  }

  lemma MovedToEndParts(h: History, k: nat) returns (p: History, q: History)
    requires k < |h| - 1
    ensures h == p + [h[|h| - 1]] && |p| == |h| - 1 && p[k] == h[k]
    ensures MovedToEnd(p, k) == q + [h[k]]
    ensures MovedToEnd(h, k) == q + [h[|h| - 1]] + [h[k]]
    ensures forall t :: 0 <= t < |q| ==> q[t] in h
  {
    var n := |h| - 1;
    p, q := h[..n], h[..k] + h[k + 1..n];
    assert MovedToEnd(p, k) == q + [h[k]];
    assert MovedToEnd(h, k) == q + [h[n]] + [h[k]];
  }

  lemma {:induction false} MoveToEnd(h: History, k: nat, d: nat)
    requires OfDimension(h, d) && k < |h|
    ensures OfDimension(MovedToEnd(h, k), d)
    ensures Design(MovedToEnd(h, k), d) == Design(h, d)
    ensures RewardSum(MovedToEnd(h, k), d) == RewardSum(h, d)
    decreases |h|
  {
    hide MovedToEnd, Design, RewardSum;
    var n := |h| - 1;
    if k == n {
      LastMovedToEnd(h);
    } else {
      var p, q := MovedToEndParts(h, k);
      assert OfDimension(p, d) by {
        assert forall t :: 0 <= t < n ==> p[t] == h[t];
      }
      MoveToEnd(p, k, d);
      FoldLast(p, h[n], d);
      SwapLastTwo(q, h[k], h[n], d);
    }
  }

  lemma LastMovedToEnd(h: History)
    requires h != []
    ensures MovedToEnd(h, |h| - 1) == h
  {
  }

  lemma SwapLastTwo(q: History, a: Observation, b: Observation, d: nat)
    requires OfDimension(q, d) && |a.x| == |b.x| == d
    ensures OfDimension(q + [a], d) && OfDimension(q + [b] + [a], d)
    ensures Design(q + [b] + [a], d) == MatrixAdd(Design(q + [a], d), Outer(b.x, b.x), d)
    ensures RewardSum(q + [b] + [a], d) == Add(RewardSum(q + [a], d), Scale(b.reward, b.x))
  {
    FoldLast(q, a, d);
    FoldLast(q, b, d);
    FoldLast(q + [b], a, d);
    SwapLast(Design(q, d), Outer(a.x, a.x), Outer(b.x, b.x), d);
    SwapLastVector(RewardSum(q, d), Scale(a.reward, a.x), Scale(b.reward, b.x));
  }

  /** How the two folds grow, read off a history with its last observation named. */
  lemma FoldLast(q: History, o: Observation, d: nat)
    requires OfDimension(q, d) && |o.x| == d
    ensures OfDimension(q + [o], d)
    ensures Design(q + [o], d) == MatrixAdd(Design(q, d), Outer(o.x, o.x), d)
    ensures RewardSum(q + [o], d) == Add(RewardSum(q, d), Scale(o.reward, o.x))
  {
    assert (q + [o])[..|q|] == q;
  }

  lemma SwapLast(a: Matrix, b: Matrix, c: Matrix, d: nat)
    requires IsSquare(a, d) && IsSquare(b, d) && IsSquare(c, d)
    ensures MatrixAdd(MatrixAdd(a, b, d), c, d) == MatrixAdd(MatrixAdd(a, c, d), b, d)
  {
    RowsEqual(MatrixAdd(MatrixAdd(a, b, d), c, d), MatrixAdd(MatrixAdd(a, c, d), b, d), d);
  }

  lemma SwapLastVector(a: Vector, b: Vector, c: Vector)
    requires |a| == |b| == |c|
    ensures Add(Add(a, b), c) == Add(Add(a, c), b)
  {
  }

  /** Equal multisets: the last element of g occurs in h, and removing both keeps them equal. */
  lemma MatchLast(g: History, h: History) returns (k: nat)
    requires g != [] && multiset(g) == multiset(h)
    ensures k < |h| && h[k] == g[|g| - 1]
    ensures multiset(g[..|g| - 1]) == multiset(h[..k] + h[k + 1..])
  {
    var n := |g| - 1;
    assert g == g[..n] + [g[n]];
    assert g[n] in multiset(h);
    k :| 0 <= k < |h| && h[k] == g[n];
    assert h == h[..k] + ([h[k]] + h[k + 1..]);
    var rest := h[..k] + h[k + 1..];
    assert multiset(h) == multiset(rest) + multiset{g[n]};
    assert multiset(g) == multiset(g[..n]) + multiset{g[n]};
    assert multiset(rest) == multiset(h) - multiset{g[n]};
  }

  lemma {:induction false} DesignIgnoresOrder(g: History, h: History, d: nat)
    requires OfDimension(g, d) && OfDimension(h, d) && multiset(g) == multiset(h)
    ensures Design(g, d) == Design(h, d) && RewardSum(g, d) == RewardSum(h, d)
  {
    if g == [] {
      assert |multiset(h)| == 0;
    } else {
      var n := |g| - 1;
      var k := MatchLast(g, h);
      var rest := h[..k] + h[k + 1..];
      DesignIgnoresOrder(g[..n], rest, d);
      MoveToEnd(h, k, d);
      FoldLast(rest, g[n], d);
    }
  }

  /** A matrix is determined by its action. */
  lemma SameActionSameMatrix(a: Matrix, b: Matrix, d: nat)
    requires IsSquare(a, d) && IsSquare(b, d)
    requires forall j :: 0 <= j < d ==> Apply(a, Basis(d, j)) == Apply(b, Basis(d, j))
    ensures a == b
  {
    forall i, j | 0 <= i < d && 0 <= j < d ensures a[i][j] == b[i][j] {
      ApplyBasis(a, j, d);
      ApplyBasis(b, j, d);
      assert Apply(a, Basis(d, j))[i] == Apply(b, Basis(d, j))[i];
    }
    RowsEqual(a, b, d);
  }

  /** MAIN RESULT. The state of an arm, and so every prediction, depends only on the multiset of
      (context, reward) pairs and not on their order of arrival. */
  lemma StateIgnoresOrder(g: History, h: History, d: nat)
    requires OfDimension(g, d) && OfDimension(h, d) && multiset(g) == multiset(h)
    ensures Inverse(g, d) == Inverse(h, d)
    ensures RewardSum(g, d) == RewardSum(h, d)
    ensures Theta(g, d) == Theta(h, d)
  {
    DesignIgnoresOrder(g, h, d);
    forall j | 0 <= j < d ensures Apply(Inverse(g, d), Basis(d, j)) == Apply(Inverse(h, d), Basis(d, j)) {
      InverseUndoesDesign(h, d, Basis(d, j));
      InverseUndoesDesign(g, d, Apply(Inverse(h, d), Basis(d, j)));
    }
    SameActionSameMatrix(Inverse(g, d), Inverse(h, d), d);
  }

  // ------------------------------------------------------ optimism of the UCB

  lemma {:induction false} EnergyNonNegative(h: History, v: Vector)
    requires OfDimension(h, |v|)
    ensures Energy(h, v) >= 0.0
  {
    DesignDominatesIdentity(h, |v|, v);
    DotSelf(v);
  }

  /** Cauchy-Schwarz in the geometry of the design matrix. */
  lemma CauchySchwarz(h: History, d: nat, delta: Vector, x: Vector)
    requires OfDimension(h, d) && |delta| == |x| == d
    ensures Dot(delta, x) * Dot(delta, x) <= Energy(h, delta) * Variance(h, d, x)
  {
    hide DotUpTo, Inverse, Design;
    var c, k := Variance(h, d, x), Dot(delta, x);
    VarianceSign(h, d, x);
    if c == 0.0 {
      DotZeros(delta);
    } else {
      var t := -k / c;
      EnergyAlongStep(h, d, delta, x, t);
      Discriminant(Energy(h, delta), k, c, t);
    }
  }

  /** Moving delta by t along a_inv x leaves a non-negative energy. */
  lemma EnergyAlongStep(h: History, d: nat, delta: Vector, x: Vector, t: real)
    requires OfDimension(h, d) && |delta| == |x| == d
    ensures Energy(h, delta) + 2.0 * (t * Dot(delta, x)) + t * (t * Variance(h, d, x)) >= 0.0
  {
    hide DotUpTo, Design, Inverse, Energy;
    var w := VarianceIsEnergy(h, d, x);
    var e := Add(delta, Scale(t, w));
    DotCommutes(x, w);
    EnergyOfShift(h, delta, t, w, x, Variance(h, d, x), e);
    EnergyNonNegative(h, e);
  }

  lemma EnergyOfShift(h: History, delta: Vector, t: real, w: Vector, x: Vector, v: real, e: Vector)
    requires |delta| == |w| == |x| == |e| && OfDimension(h, |w|)
    requires x == Apply(Design(h, |w|), w) && v == Dot(w, x) && IsShift(delta, t, w, e)
    ensures Energy(h, e) == Energy(h, delta) + 2.0 * (t * Dot(delta, x)) + t * (t * v)
  {
    hide *;
    var p, r := Dot(delta, x), Dot(e, x);
    assert Energy(h, e) == Energy(h, delta) + t * p + t * r by {
      EnergySplit(h, delta, t, w, x, e);
    }
    assert r == p + t * v by {
      DotOfShift(delta, t, w, e, x);
    }
    Expand(t, p, v, r);
  }

  lemma EnergySplit(h: History, delta: Vector, t: real, w: Vector, x: Vector, e: Vector)
    requires |delta| == |w| == |x| == |e| && OfDimension(h, |w|)
    requires x == Apply(Design(h, |w|), w) && IsShift(delta, t, w, e)
    ensures Energy(h, e) == Energy(h, delta) + t * Dot(delta, x) + t * Dot(e, x)
  {
    hide DotUpTo;
    var a := Design(h, |w|);
    var y := Apply(a, delta);
    ApplyLinear(a, delta, w, t, e);
    DotLinear(e, y, x, t, Apply(a, e));
    DotOfShift(delta, t, w, e, y);
    DesignSelfAdjoint(h, |w|, w, delta);
  }

  lemma DotOfShift(v: Vector, t: real, w: Vector, e: Vector, y: Vector)
    requires |v| == |w| == |e| == |y| && IsShift(v, t, w, e)
    ensures Dot(e, y) == Dot(v, y) + t * Dot(w, y)
  {
    DotLinear(y, v, w, t, e);
    DotCommutes(y, v);
    DotCommutes(y, w);
    DotCommutes(y, e);
  }

  lemma Expand(t: real, p: real, q: real, e: real)
    requires e == p + t * q
    ensures t * e == t * p + t * (t * q)
  {
  }

  lemma Discriminant(a: real, k: real, c: real, t: real)
    requires c > 0.0 && t == -k / c && a + 2.0 * (t * k) + t * (t * c) >= 0.0
    ensures k * k <= a * c
  {
    assert t * c == -k;
    assert t * (t * c) == -(t * k);
    var s := a + t * k;
    assert s * c >= 0.0;
    assert s * c == a * c + t * c * k;
  }

  /** theta lies in the confidence ellipsoid of radius alpha around the estimate. */
  ghost predicate InEllipsoid(h: History, d: nat, alpha: real, theta: Vector)
    requires OfDimension(h, d) && |theta| == d
  {
    Energy(h, Sub(theta, Theta(h, d))) <= alpha * alpha
  }

  lemma RootBound(k: real, e: real, v: real, alpha: real, root: real)
    requires k * k <= e * v && e <= alpha * alpha && root * root == v && v >= 0.0
    requires alpha >= 0.0 && root >= 0.0
    ensures k <= alpha * root
  {
    var p := alpha * root;
    assert (alpha * alpha - e) * v >= 0.0;
    assert alpha * alpha * v == p * p;
    SquareRootMonotone(k, p);
  }

  lemma SquareRootMonotone(k: real, p: real)
    requires k * k <= p * p && p >= 0.0
    ensures k <= p
  {
    if k > p {
      SquareGrows(p, k - p, k);
    }
  }

  lemma SquareGrows(p: real, e: real, k: real)
    requires p >= 0.0 && e > 0.0 && k == p + e
    ensures k * k > p * p
  {
    ProductPositive(e, e, e * e);
    assert k * k == p * p + 2.0 * (p * e) + e * e;
  }

  /** score is the largest reward that any coefficients in the confidence ellipsoid predict for x:
      an upper bound on all of them, attained by one. */
  ghost predicate IsLargestPlausible(h: History, d: nat, alpha: real, x: Vector, score: real)
    requires OfDimension(h, d) && |x| == d
  {
    && (forall theta: Vector ::
          |theta| == d && InEllipsoid(h, d, alpha, theta) ==> Dot(theta, x) <= score)
    && (exists theta: Vector ::
          |theta| == d && InEllipsoid(h, d, alpha, theta) && Dot(theta, x) == score)
  }

  /** MAIN RESULT. The score theta.x + alpha sqrt(x^T a_inv x) is exactly the largest reward that any
      coefficient vector in the confidence ellipsoid predicts. */
  lemma ScoreIsLargestPlausible(h: History, d: nat, x: Vector, alpha: real, root: real)
    requires OfDimension(h, d) && |x| == d && alpha >= 0.0
    requires root >= 0.0 && root * root == Variance(h, d, x)
    ensures IsLargestPlausible(h, d, alpha, x, Dot(Theta(h, d), x) + alpha * root)
  {
    hide DotUpTo, Inverse, Design;
    var best := LargestPlausible(h, d, x, alpha, root);
    forall theta: Vector | |theta| == d && InEllipsoid(h, d, alpha, theta)
      ensures Dot(theta, x) <= Dot(best, x)
    {
      var delta := Sub(theta, Theta(h, d));
      CauchySchwarz(h, d, delta, x);
      VarianceSign(h, d, x);
      RootBound(Dot(delta, x), Energy(h, delta), Variance(h, d, x), alpha, root);
      DotCommutes(delta, x);
      DotSub(x, theta, Theta(h, d));
      DotCommutes(x, theta);
      DotCommutes(x, Theta(h, d));
    }
  }

  lemma LargestPlausible(h: History, d: nat, x: Vector, alpha: real, root: real) returns (best: Vector)
    requires OfDimension(h, d) && |x| == d && alpha >= 0.0
    requires root >= 0.0 && root * root == Variance(h, d, x)
    ensures |best| == d && InEllipsoid(h, d, alpha, best)
    ensures Dot(best, x) == Dot(Theta(h, d), x) + alpha * root
  {
    hide DotUpTo;
    var s := Theta(h, d);
    var w := VarianceIsEnergy(h, d, x);
    DotCommutes(x, w);
    var t := if root == 0.0 then 0.0 else alpha / root;
    var step := Scale(t, w);
    var p := DotScaled(t, w, x);
    Steepest(alpha, root, t, Dot(w, x), p);
    EnergyOfScaled(h, t, w, x, step);
    best := Add(s, step);
    assert Sub(best, s) == step;
    DotOfShift(s, 1.0, step, best, x);
  }

  lemma DotScaled(t: real, w: Vector, x: Vector) returns (p: real)
    requires |w| == |x|
    ensures p == Dot(Scale(t, w), x) == t * Dot(w, x)
  {
    p := Dot(Scale(t, w), x);
    DotCommutes(Scale(t, w), x);
    DotScale(x, t, w);
    DotCommutes(x, w);
  }

  lemma EnergyOfScaled(h: History, t: real, w: Vector, x: Vector, y: Vector)
    requires |w| == |x| == |y| && OfDimension(h, |w|) && x == Apply(Design(h, |w|), w) && y == Scale(t, w)
    ensures Energy(h, y) == t * Dot(y, x)
  {
    hide DotUpTo, Design;
    FormOfScaled(Design(h, |w|), t, w, x, y);
  }

  lemma FormOfScaled(a: Matrix, t: real, w: Vector, x: Vector, y: Vector)
    requires |w| == |x| == |y| && IsSquare(a, |w|) && x == Apply(a, w) && y == Scale(t, w)
    ensures Dot(y, Apply(a, y)) == t * Dot(y, x)
  {
    hide *;
    ApplyScale(a, t, w);
    DotScale(y, t, x);
  }

  lemma Steepest(alpha: real, root: real, t: real, v: real, p: real)
    requires alpha >= 0.0 && root >= 0.0 && v == root * root && p == t * v
    requires t == if root == 0.0 then 0.0 else alpha / root
    ensures p == alpha * root
    ensures t * p <= alpha * alpha
  {
    if root == 0.0 {
      Square(alpha, alpha * alpha);
    } else {
      assert t * root == alpha;
      assert p == t * root * root;
      assert t * p == t * root * alpha;
    }
  }
}
