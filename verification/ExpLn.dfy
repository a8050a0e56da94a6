/** The exponential and the logarithm as parameters. The laws below are the only facts about them that
    any proof uses; each is wrapped in a predicate so that it is cited explicitly. */
module ExpLn {
  import opened RealFacts

  datatype Functions = Functions(exp: real -> real, ln: real -> real)

  ghost predicate PositiveLaw(e: Functions, x: real) { e.exp(x) > 0.0 }

  ghost predicate SumLaw(e: Functions, x: real, y: real) { e.exp(x + y) == e.exp(x) * e.exp(y) }

  ghost predicate LnOfExpLaw(e: Functions, x: real) { e.ln(e.exp(x)) == x }

  ghost predicate ExpOfLnLaw(e: Functions, t: real) { t > 0.0 ==> e.exp(e.ln(t)) == t }

  ghost predicate TangentLaw(e: Functions, t: real) { t > 0.0 ==> e.ln(t) <= t - 1.0 }

  ghost predicate Lawful(e: Functions) {
    && (forall x :: PositiveLaw(e, x))
    && (forall x, y :: SumLaw(e, x, y))
    && (forall x :: LnOfExpLaw(e, x))
    && (forall t :: ExpOfLnLaw(e, t))
    && (forall t :: TangentLaw(e, t))
  }

  lemma ExpPositive(e: Functions, x: real)
    requires Lawful(e)
    ensures e.exp(x) > 0.0
  {
    assert PositiveLaw(e, x);
  }

  lemma ExpSum(e: Functions, x: real, y: real)
    requires Lawful(e)
    ensures e.exp(x + y) == e.exp(x) * e.exp(y)
  {
    assert SumLaw(e, x, y);
  }

  lemma ExpZero(e: Functions)
    requires Lawful(e)
    ensures e.exp(0.0) == 1.0
  {
    assert ExpOfLnLaw(e, 1.0);
    ExpSum(e, 0.0, e.ln(1.0));
  }

  lemma LnExp(e: Functions, x: real)
    requires Lawful(e)
    ensures e.ln(e.exp(x)) == x
  {
    assert LnOfExpLaw(e, x);
  }

  lemma ExpAtLeast(e: Functions, x: real)
    requires Lawful(e)
    ensures e.exp(x) >= 1.0 + x
  {
    ExpPositive(e, x);
    LnExp(e, x);
    assert TangentLaw(e, e.exp(x));
  }

  lemma ExpNegated(e: Functions, x: real)
    requires Lawful(e)
    ensures e.exp(-x) > 0.0 && e.exp(x) > 0.0 && e.exp(-x) * e.exp(x) == 1.0
  {
    ExpSum(e, -x, x);
    ExpZero(e);
    ExpPositive(e, x);
    ExpPositive(e, -x);
  }

  /** exp(x) <= 1 / (1 - x) below 1. */
  lemma ExpAtMost(e: Functions, x: real)
    requires Lawful(e) && x < 1.0
    ensures e.exp(x) * (1.0 - x) <= 1.0
  {
    ExpNegated(e, x);
    ExpAtLeast(e, -x);
    ProductNonNegative(e.exp(x), e.exp(-x) - (1.0 - x), e.exp(x) * (e.exp(-x) - (1.0 - x)));
  }

  lemma LnProduct(e: Functions, s: real, t: real, p: real)
    requires Lawful(e) && s > 0.0 && t > 0.0 && p == s * t
    ensures p > 0.0 && e.ln(p) == e.ln(s) + e.ln(t)
  {
    var x, y := e.ln(s), e.ln(t);
    assert ExpOfLnLaw(e, s) && ExpOfLnLaw(e, t);
    ExpSum(e, x, y);
    assert e.exp(x + y) == p;
    LnExp(e, x + y);
    ProductPositive(s, t, p);
  }

  lemma LnQuotient(e: Functions, s: real, t: real)
    requires Lawful(e) && s > 0.0 && t > 0.0
    ensures s / t > 0.0 && e.ln(s / t) == e.ln(s) - e.ln(t)
  {
    LnProduct(e, s / t, t, s);
  }

  /** The tangent law is strict away from 1: halve the logarithm. */
  lemma LnBelowTangent(e: Functions, t: real)
    requires Lawful(e) && t > 0.0
    ensures e.ln(t) <= t - 1.0
    ensures e.ln(t) == t - 1.0 ==> t == 1.0
  {
    assert TangentLaw(e, t);
    var half := e.ln(t) / 2.0;
    var root := e.exp(half);
    ExpPositive(e, half);
    ExpSum(e, half, half);
    assert ExpOfLnLaw(e, t);
    LnExp(e, half);
    assert TangentLaw(e, root);
    assert half + half == e.ln(t);
    assert e.exp(half + half) == t;
    RootTangent(t, root, half, e.ln(t));
  }

  lemma RootTangent(t: real, root: real, half: real, l: real)
    requires t == root * root && half <= root - 1.0 && l == half + half
    ensures l == t - 1.0 ==> t == 1.0
  {
    var d := root - 1.0;
    var p := d * d;
    Square(d, p);
    assert p == t - 2.0 * root + 1.0;
    if l == t - 1.0 {
      assert d == 0.0;
      assert t == root + d * root;
    }
  }

  lemma QuotientAtMostOne(s: real, t: real, u: real)
    requires 0.0 < s <= t && u * t == s
    ensures u <= 1.0
  {
    if u > 1.0 {
      ProductPositive(u - 1.0, t, (u - 1.0) * t);
    }
  }

  lemma LnMonotone(e: Functions, s: real, t: real)
    requires Lawful(e) && 0.0 < s <= t
    ensures e.ln(s) <= e.ln(t)
  {
    LnQuotient(e, s, t);
    assert TangentLaw(e, s / t);
    QuotientAtMostOne(s, t, s / t);
  }
}
