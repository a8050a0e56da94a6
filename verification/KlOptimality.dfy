/** Why clip(r / C, lo, hi) is the KL projection, and exactly when the bracket test lets it be found. */
module KlOptimality {
  import opened ExpLn
  import opened KlProjection
  import opened RealFacts

  /** One term q ln(q / r) of the divergence, 0 at q = 0. */
  function Term(e: Functions, q: real, r: real): real
    requires r > 0.0
  {
    if q == 0.0 then 0.0 else q * e.ln(q / r)
  }

  function DivergenceUpTo(e: Functions, q: Vector, r: Vector, n: nat): real
    requires n <= |q| == |r| && forall i :: 0 <= i < |r| ==> r[i] > 0.0
  {
    if n == 0 then 0.0 else DivergenceUpTo(e, q, r, n - 1) + Term(e, q[n - 1], r[n - 1])
  }

  /** KL(q || r). */
  function Divergence(e: Functions, q: Vector, r: Vector): real
    requires |q| == |r| && forall i :: 0 <= i < |r| ==> r[i] > 0.0
  {
    DivergenceUpTo(e, q, r, |q|)
  }

  // ----------------------------------------------------------- one coordinate

  /** The term is convex: it lies above its tangent at q, and touches it only there. */
  lemma TermAboveTangent(e: Functions, q': real, q: real, r: real, l: real)
    requires Lawful(e) && q' >= 0.0 && q > 0.0 && r > 0.0 && l == e.ln(q) - e.ln(r)
    ensures Term(e, q', r) >= Term(e, q, r) + (l + 1.0) * (q' - q)
    ensures Term(e, q', r) == Term(e, q, r) + (l + 1.0) * (q' - q) ==> q' == q
  {
    LnQuotient(e, q, r);
    assert Term(e, q, r) == q * l;
    assert (l + 1.0) * (q' - q) == l * q' - q * l + q' - q;
    if q' > 0.0 {
      var u := q / q';
      LnQuotient(e, q', r);
      LnQuotient(e, q, q');
      LnBelowTangent(e, u);
      var k := e.ln(u);
      assert Term(e, q', r) == q' * (l - k);
      assert q' * (l - k) == l * q' - q' * k;
      assert u * q' == q;
      var gap := u - 1.0 - k;
      ProductNonNegative(q', gap, q' * gap);
      assert q' * gap == q - q' - q' * k;
      if gap > 0.0 {
        ProductPositive(q', gap, q' * gap);
      } else {
        assert u == 1.0;
      }
    }
  }

  /** Where the clip leaves r / c alone the slope ln(q / r) is -ln c; at a bound it errs on the side
      the bound allows no q' to exploit. */
  lemma ClippedSlope(e: Functions, r: real, c: real, lo: real, hi: real, q': real, l: real)
    requires Lawful(e) && r > 0.0 && c > 0.0 && 0.0 <= lo <= q' <= hi
    requires var q := Clip(r / c, lo, hi); q > 0.0 && l == e.ln(q) - e.ln(r)
    ensures (l + e.ln(c)) * (q' - Clip(r / c, lo, hi)) >= 0.0
  {
    var x, q := r / c, Clip(r / c, lo, hi);
    LnQuotient(e, r, c);
    var d := l + e.ln(c);
    assert d == e.ln(q) - e.ln(x);
    if x < q {
      LnMonotone(e, x, q);
      ProductNonNegative(d, q' - q, d * (q' - q));
    } else if x > q {
      LnMonotone(e, q, x);
      ProductNonNegative(-d, q - q', (-d) * (q - q'));
      assert (-d) * (q - q') == d * (q' - q);
    }
  }

  /** What a competitor pays at one coordinate beyond the price m per unit. */
  ghost function Gap(e: Functions, q': real, q: real, r: real, m: real): real
    requires r > 0.0
  {
    Term(e, q', r) - Term(e, q, r) - m * (q' - q)
  }

  lemma EntryOptimal(e: Functions, r: real, c: real, m: real, lo: real, hi: real, q': real)
    requires Lawful(e) && r > 0.0 && c > 0.0 && 0.0 <= lo <= q' <= hi && m == 1.0 - e.ln(c)
    ensures var q := Clip(r / c, lo, hi);
      Gap(e, q', q, r, m) >= 0.0 && (Gap(e, q', q, r, m) == 0.0 ==> q' == q)
  {
    var q := Clip(r / c, lo, hi);
    assert r / c > 0.0;
    if q > 0.0 {
      var l := e.ln(q) - e.ln(r);
      ClippedSlope(e, r, c, lo, hi, q', l);
      hide Clip;
      TermAboveTangent(e, q', q, r, l);
      assert (l + 1.0) * (q' - q) == m * (q' - q) + (l + e.ln(c)) * (q' - q);
    }
  }

  // -------------------------------------------------------------- whole vector

  ghost function GapUpTo(e: Functions, q': Vector, q: Vector, r: Vector, m: real, n: nat): real
    requires n <= |r| == |q| == |q'| && IsPositive(r)
  {
    if n == 0 then 0.0 else GapUpTo(e, q', q, r, m, n - 1) + Gap(e, q'[n - 1], q[n - 1], r[n - 1], m)
  }

  lemma {:induction false} GapIsDifference(e: Functions, q': Vector, q: Vector, r: Vector, m: real, n: nat)
    returns (price: real)
    requires n <= |r| == |q| == |q'| && IsPositive(r)
    ensures price == m * (SumUpTo(q', n) - SumUpTo(q, n))
    ensures GapUpTo(e, q', q, r, m, n) == DivergenceUpTo(e, q', r, n) - DivergenceUpTo(e, q, r, n) - price
  {
    hide Gap, Term;
    if n == 0 {
      price := 0.0;
    } else {
      var before := GapIsDifference(e, q', q, r, m, n - 1);
      var last := GapParts(e, q'[n - 1], q[n - 1], r[n - 1], m);
      price := before + last;
      SumOfPrices(m, SumUpTo(q', n - 1) - SumUpTo(q, n - 1), q'[n - 1] - q[n - 1],
                  SumUpTo(q', n) - SumUpTo(q, n), before, last);
    }
  }

  lemma SumOfPrices(m: real, a: real, b: real, c: real, p: real, q: real)
    requires c == a + b && p == m * a && q == m * b
    ensures p + q == m * c
  {
  }

  lemma GapParts(e: Functions, q': real, q: real, r: real, m: real) returns (price: real)
    requires r > 0.0
    ensures price == m * (q' - q) && Gap(e, q', q, r, m) == Term(e, q', r) - Term(e, q, r) - price
  {
    price := m * (q' - q);
  }

  lemma {:induction false} GapNonNegative(e: Functions, r: Vector, c: real, m: real, lo: Vector, hi: Vector,
      q: Vector, q': Vector, n: nat)
    requires Lawful(e) && n <= |r| == |lo| && IsBox(lo, hi) && IsPositive(r) && c > 0.0 && m == 1.0 - e.ln(c)
    requires q == Clipped(r, c, lo, hi) && InBox(q', lo, hi)
    ensures GapUpTo(e, q', q, r, m, n) >= 0.0
    ensures GapUpTo(e, q', q, r, m, n) == 0.0 ==> forall i :: 0 <= i < n ==> q'[i] == q[i]
  {
    hide Gap, Clip, Lawful, Term;
    if n != 0 {
      GapNonNegative(e, r, c, m, lo, hi, q, q', n - 1);
      EntryOptimal(e, r[n - 1], c, m, lo[n - 1], hi[n - 1], q'[n - 1]);
    }
  }

  /** For any total: a competitor pays at least 1 - ln C per unit of extra total, and more unless it is
      the clipped vector itself. */
  lemma ClippedPrice(e: Functions, r: Vector, c: real, lo: Vector, hi: Vector, q': Vector) returns (price: real)
    requires IsInput(e, r, lo, hi) && IsPositive(r) && c > 0.0 && InBox(q', lo, hi)
    ensures price == (1.0 - e.ln(c)) * (Total(q') - Total(Clipped(r, c, lo, hi)))
    ensures Divergence(e, q', r) >= Divergence(e, Clipped(r, c, lo, hi), r) + price
    ensures Divergence(e, q', r) == Divergence(e, Clipped(r, c, lo, hi), r) + price ==> q' == Clipped(r, c, lo, hi)
  {
    hide DivergenceUpTo, SumUpTo, Lawful, Clipped;
    var q := Clipped(r, c, lo, hi);
    var m := 1.0 - e.ln(c);
    price := GapIsDifference(e, q', q, r, m, |r|);
    GapNonNegative(e, r, c, m, lo, hi, q, q', |r|);
  }

  /** So among vectors with its total the clipped one is the unique minimiser. */
  lemma ClippedIsOptimal(e: Functions, r: Vector, c: real, lo: Vector, hi: Vector, q': Vector)
    requires IsInput(e, r, lo, hi) && IsPositive(r) && c > 0.0 && InBox(q', lo, hi)
    requires Total(q') == Total(Clipped(r, c, lo, hi))
    ensures Divergence(e, q', r) >= Divergence(e, Clipped(r, c, lo, hi), r)
    ensures Divergence(e, q', r) == Divergence(e, Clipped(r, c, lo, hi), r) <==> q' == Clipped(r, c, lo, hi)
  {
    hide Divergence, Total, Lawful, Clipped;
    var price := ClippedPrice(e, r, c, lo, hi, q');
  }

  /** MAIN RESULT. For positive references a returned projection is the unique minimiser of KL(. || r)
      among all vectors within the same bounds and with the same total. */
  lemma ProjectionIsOptimal(e: Functions, r: Vector, lo: Vector, hi: Vector, q': Vector)
    requires IsInput(e, r, lo, hi) && IsPositive(r) && InBox(q', lo, hi)
    ensures var q := Projection(e, r, lo, hi);
      q.Some? && Total(q') == Total(q.value) ==>
        && Divergence(e, q.value, r) <= Divergence(e, q', r)
        && (Divergence(e, q', r) == Divergence(e, q.value, r) <==> q' == q.value)
  {
    hide Projection, Divergence, Total, Clipped, Lawful;
    var c := ProjectionIsNearFeasible(e, r, lo, hi);
    var q := Projection(e, r, lo, hi);
    if q.Some? && Total(q') == Total(q.value) {
      ClippedIsOptimal(e, r, c, lo, hi, q');
    }
  }

  // ------------------------------------------- when the bracket test succeeds

  /** The polytope the projection is documented to search: within the bounds and summing to 1. */
  ghost predicate PolytopeIsEmpty(lo: Vector, hi: Vector) {
    forall q: Vector :: InBox(q, lo, hi) ==> Total(q) != 1.0
  }

  lemma {:induction false} TotalMonotone(q: Vector, q': Vector, n: nat)
    requires n <= |q| == |q'| && forall i :: 0 <= i < n ==> q[i] <= q'[i]
    ensures SumUpTo(q, n) <= SumUpTo(q', n)
  {
    if n != 0 {
      TotalMonotone(q, q', n - 1);
    }
  }

  function Blend(lo: Vector, hi: Vector, t: real): (q: Vector)
    requires |lo| == |hi|
    ensures |q| == |lo| && forall i :: 0 <= i < |q| ==> q[i] == lo[i] + t * (hi[i] - lo[i])
  {
    seq(|lo|, i requires 0 <= i < |lo| => lo[i] + t * (hi[i] - lo[i]))
  }

  lemma {:induction false} BlendTotal(lo: Vector, hi: Vector, q: Vector, t: real, n: nat)
    requires n <= |lo| == |hi| == |q| && forall i :: 0 <= i < |q| ==> q[i] == lo[i] + t * (hi[i] - lo[i])
    ensures SumUpTo(q, n) == SumUpTo(lo, n) + t * (SumUpTo(hi, n) - SumUpTo(lo, n))
  {
    if n != 0 {
      BlendTotal(lo, hi, q, t, n - 1);
      Distribute(t, SumUpTo(hi, n - 1) - SumUpTo(lo, n - 1), hi[n - 1] - lo[n - 1]);
    }
  }

  lemma BlendInBox(lo: Vector, hi: Vector, t: real)
    requires IsBox(lo, hi) && 0.0 <= t <= 1.0
    ensures InBox(Blend(lo, hi, t), lo, hi)
  {
    forall i | 0 <= i < |lo| ensures lo[i] <= Blend(lo, hi, t)[i] <= hi[i] {
      var w := hi[i] - lo[i];
      ProductNonNegative(t, w, t * w);
      ProductNonNegative(1.0 - t, w, (1.0 - t) * w);
      assert (1.0 - t) * w == w - t * w;
    }
  }

  lemma Fraction(part: real, whole: real) returns (t: real)
    requires 0.0 <= part <= whole
    ensures 0.0 <= t <= 1.0 && t * whole == part
  {
    t := if whole == 0.0 then 0.0 else part / whole;
  }

  lemma BlendOfTotals(lo: Vector, hi: Vector, t: real, whole: real)
    requires |lo| == |hi| && whole == Total(hi) - Total(lo)
    ensures Total(Blend(lo, hi, t)) == Total(lo) + t * whole
  {
    hide SumUpTo;
    BlendTotal(lo, hi, Blend(lo, hi, t), t, |lo|);
    assert SumUpTo(hi, |hi|) - SumUpTo(lo, |lo|) == whole;
  }

  /** The polytope is empty exactly when the sums of the bounds do not enclose 1. */
  lemma EmptyPolytope(lo: Vector, hi: Vector)
    requires IsBox(lo, hi)
    ensures PolytopeIsEmpty(lo, hi) <==> !(Total(lo) <= 1.0 <= Total(hi))
  {
    hide SumUpTo;
    if Total(lo) <= 1.0 <= Total(hi) {
      var whole := Total(hi) - Total(lo);
      var t := Fraction(1.0 - Total(lo), whole);
      BlendInBox(lo, hi, t);
      BlendOfTotals(lo, hi, t, whole);
      assert Total(Blend(lo, hi, t)) == 1.0;
    } else {
      forall q: Vector | InBox(q, lo, hi) ensures Total(q) != 1.0 {
        TotalMonotone(lo, q, |q|);
        TotalMonotone(q, hi, |q|);
      }
    }
  }

  function PowerOfTwo(n: nat): real {
    if n == 0 then 1.0 else 2.0 * PowerOfTwo(n - 1)
  }

  lemma {:induction false} PowerSum(m: nat, n: nat)
    ensures PowerOfTwo(m + n) == PowerOfTwo(m) * PowerOfTwo(n)
  {
    if m != 0 {
      PowerSum(m - 1, n);
      assert 2.0 * PowerOfTwo(m - 1) * PowerOfTwo(n) == 2.0 * (PowerOfTwo(m - 1) * PowerOfTwo(n));
    }
  }

  lemma PowerFifty()
    ensures PowerOfTwo(50) >= 1000000000000.0
  {
    PowerSum(10, 10);
    PowerSum(20, 20);
    PowerSum(40, 10);
    assert PowerOfTwo(10) == 1024.0;
  }

  lemma {:induction false} ExpOfNat(e: Functions, n: nat)
    requires Lawful(e)
    ensures PowerOfTwo(n) <= e.exp(n as real)
    ensures e.exp(n as real / 2.0) <= PowerOfTwo(n)
  {
    if n == 0 {
      ExpZero(e);
    } else {
      ExpOfNat(e, n - 1);
      ExpSum(e, (n - 1) as real, 1.0);
      ExpSum(e, (n - 1) as real / 2.0, 0.5);
      ExpAtLeast(e, 1.0);
      ExpAtMost(e, 0.5);
      var a, b := e.exp((n - 1) as real), e.exp((n - 1) as real / 2.0);
      ExpPositive(e, (n - 1) as real);
      ExpPositive(e, (n - 1) as real / 2.0);
      ProductNonNegative(a, e.exp(1.0) - 2.0, a * (e.exp(1.0) - 2.0));
      ProductNonNegative(b, 2.0 - e.exp(0.5), b * (2.0 - e.exp(0.5)));
      assert (n - 1) as real + 1.0 == n as real;
      assert (n - 1) as real / 2.0 + 0.5 == n as real / 2.0;
    }
  }

  /** 2^50 <= exp(50) <= 2^100, all that is needed about the ends of the bracket. */
  lemma ExpFifty(e: Functions)
    requires Lawful(e)
    ensures 1000000000000.0 <= e.exp(LOG_BRACKET) <= PowerOfTwo(100)
    ensures 0.0 < e.exp(-LOG_BRACKET) && e.exp(-LOG_BRACKET) * e.exp(LOG_BRACKET) == 1.0
  {
    ExpOfNat(e, 50);
    ExpOfNat(e, 100);
    ExpNegated(e, LOG_BRACKET);
    PowerFifty();
  }

  /** A reference as the solver normalises it. */
  ghost predicate IsNormalised(r: Vector) {
    IsPositive(r) && Total(r) <= 2.0
  }

  lemma {:induction false} SumAffine(q: Vector, lo: Vector, k: real, r: Vector, n: nat)
    requires n <= |q| == |lo| == |r| && forall i :: 0 <= i < n ==> q[i] <= lo[i] + k * r[i]
    ensures SumUpTo(q, n) <= SumUpTo(lo, n) + k * SumUpTo(r, n)
  {
    if n != 0 {
      SumAffine(q, lo, k, r, n - 1);
      Distribute(k, SumUpTo(r, n - 1), r[n - 1]);
    }
  }

  lemma EntryBelow(r: real, c: real, k: real, lo: real, hi: real)
    requires r > 0.0 && c > 0.0 && k * c == 1.0 && 0.0 <= lo <= hi
    ensures Clip(r / c, lo, hi) <= lo + k * r
  {
    var x := r / c;
    assert x * c == r;
    assert k * r * c == k * c * r;
    SameQuotient(k * r, x, c);
  }

  lemma TinyReciprocal(k: real, c: real, t: real)
    requires k > 0.0 && k * c == 1.0 && c >= 1000000000000.0 && t <= 2.0
    ensures k * t <= SLACK
  {
    ProductNonNegative(k, 2.0 - t, k * (2.0 - t));
    ProductNonNegative(k, c - 1000000000000.0, k * (c - 1000000000000.0));
  }

  /** The upper end of the bracket is always far enough for a normalised reference. */
  lemma UpperEndSuffices(e: Functions, r: Vector, lo: Vector, hi: Vector)
    requires IsInput(e, r, lo, hi) && IsNormalised(r) && Total(lo) <= 1.0
    ensures TotalAt(e, r, lo, hi, LOG_BRACKET) <= 1.0 + SLACK
  {
    hide SumUpTo, Clip, Lawful;
    ExpFifty(e);
    var c, k := e.exp(LOG_BRACKET), e.exp(-LOG_BRACKET);
    var q := Clipped(r, c, lo, hi);
    forall i | 0 <= i < |r| ensures q[i] <= lo[i] + k * r[i] {
      EntryBelow(r[i], c, k, lo[i], hi[i]);
    }
    SumAffine(q, lo, k, r, |r|);
    TinyReciprocal(k, c, Total(r));
  }

  /** The lower end reaches every upper bound that no reference is e^50 times smaller than. */
  lemma LowerEndReachesBounds(e: Functions, r: Vector, lo: Vector, hi: Vector)
    requires IsInput(e, r, lo, hi) && e.exp(-LOG_BRACKET) > 0.0
    requires forall i :: 0 <= i < |r| ==> r[i] >= hi[i] * e.exp(-LOG_BRACKET)
    ensures TotalAt(e, r, lo, hi, -LOG_BRACKET) >= Total(hi)
  {
    hide SumUpTo, Clip, Lawful;
    var c := e.exp(-LOG_BRACKET);
    var q := Clipped(r, c, lo, hi);
    forall i | 0 <= i < |r| ensures hi[i] <= q[i] {
      EntryReaches(r[i], c, lo[i], hi[i]);
    }
    TotalMonotone(hi, q, |r|);
  }

  lemma EntryReaches(r: real, c: real, lo: real, hi: real)
    requires c > 0.0 && lo <= hi && r >= hi * c
    ensures Clip(r / c, lo, hi) == hi
  {
    var x := r / c;
    assert x * c == r;
    if x < hi {
      ProductPositive(hi - x, c, (hi - x) * c);
    }
  }

  /** MAIN RESULT. The exact condition under which a non-empty polytope gets an answer: the total at the
      lower end of the bracket, sum of clip(r_i e^50, lo_i, hi_i), reaches 1 up to the slack. It does
      when no reference is more than e^50 times smaller than its upper bound. */
  lemma AnswerExactlyWhen(e: Functions, r: Vector, lo: Vector, hi: Vector)
    requires IsInput(e, r, lo, hi) && IsNormalised(r) && !PolytopeIsEmpty(lo, hi)
    ensures Projection(e, r, lo, hi).Some? <==> TotalAt(e, r, lo, hi, -50.0) >= 1.0 - 1e-9
    ensures (forall i :: 0 <= i < |r| ==> r[i] >= hi[i] * e.exp(-LOG_BRACKET)) ==> Projection(e, r, lo, hi).Some?
  {
    hide TotalAt, Total, Lawful, BisectEnds, PolytopeIsEmpty;
    EmptyPolytope(lo, hi);
    UpperEndSuffices(e, r, lo, hi);
    if forall i :: 0 <= i < |r| ==> r[i] >= hi[i] * e.exp(-LOG_BRACKET) {
      ExpPositive(e, -LOG_BRACKET);
      LowerEndReachesBounds(e, r, lo, hi);
    }
  }

  /** MAIN RESULT. None does not mean that the polytope is empty: with references (1e-300, 1), the
      floored form of probabilities (0, 1), and the second arm capped at 1/2, the point (1/2, 1/2) is
      admissible but the bracket test fails. */
  lemma NoneOnNonEmptyPolytope(e: Functions, tiny: real)
    requires Lawful(e) && 0.0 < tiny && tiny * PowerOfTwo(100) <= 0.25
    ensures var r, lo, hi := [tiny, 1.0], [0.0, 0.0], [1.0, 0.5];
      && !PolytopeIsEmpty(lo, hi)
      && IsInput(e, r, lo, hi)
      && Projection(e, r, lo, hi).None?
  {
    var r, lo, hi := [tiny, 1.0], [0.0, 0.0], [1.0, 0.5];
    assert InBox([0.5, 0.5], lo, hi) && Total([0.5, 0.5]) == 1.0 by {
      TotalOfTwo([0.5, 0.5]);
    }
    ExpFifty(e);
    var c := e.exp(-LOG_BRACKET);
    var q := Clipped(r, c, lo, hi);
    var x := tiny / c;
    assert x * c == tiny;
    FirstEntrySmall(tiny, c, e.exp(LOG_BRACKET), PowerOfTwo(100), x);
    TotalOfTwo(q);
  }

  lemma TotalOfTwo(q: Vector)
    requires |q| == 2
    ensures Total(q) == q[0] + q[1]
  {
    assert SumUpTo(q, 2) == SumUpTo(q, 1) + q[1];
  }

  lemma FirstEntrySmall(tiny: real, c: real, k: real, bound: real, x: real)
    requires tiny > 0.0 && c > 0.0 && c * k == 1.0 && x * c == tiny && k <= bound && tiny * bound <= 0.25
    ensures 0.0 < x <= 0.25
  {
    assert x == tiny * k by {
      assert tiny * k * c == tiny * (c * k);
      SameQuotient(x, tiny * k, c);
    }
    ProductNonNegative(tiny, bound - k, tiny * (bound - k));
    assert k > 0.0 by {
      if k <= 0.0 {
        ProductNonNegative(c, -k, c * (-k));
      }
    }
    ProductPositive(tiny, k, x);
  }
}
