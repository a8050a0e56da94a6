/** Small facts of real arithmetic, stated over named products so that proofs can cite them. */
module RealFacts {

  lemma ProductPositive(a: real, b: real, p: real)
    requires p == a * b && a > 0.0 && b > 0.0
    ensures p > 0.0
  {
  }

  lemma ProductNonNegative(a: real, b: real, p: real)
    requires p == a * b && a >= 0.0 && b >= 0.0
    ensures p >= 0.0
  {
  }

  lemma Square(a: real, p: real)
    requires p == a * a
    ensures p >= 0.0
    ensures p == 0.0 <==> a == 0.0
  {
    if a > 0.0 {
      ProductPositive(a, a, p);
    } else if a < 0.0 {
      assert p == (-a) * (-a);
      ProductPositive(-a, -a, p);
    }
  }

  lemma Distribute(c: real, a: real, b: real)
    ensures c * (a + b) == c * a + c * b
  {
  }

  lemma SameQuotient(a: real, b: real, c: real)
    requires c > 0.0 && a * c == b * c
    ensures a == b
  {
  }
}
