/** The KL projection onto a box with a prescribed total: clip(r / C, lo, hi), with C found by 64
    bisection steps on log C. */
module KlProjection {
  import opened ExpLn
  import opened RealFacts
  import opened Wrappers

  type Vector = seq<real>

  const SLACK := 1e-9
  const LOG_BRACKET := 50.0
  const STEPS := 64

  function SumUpTo(v: Vector, n: nat): real
    requires n <= |v|
  {
    if n == 0 then 0.0 else SumUpTo(v, n - 1) + v[n - 1]
  }

  function Total(v: Vector): real {
    SumUpTo(v, |v|)
  }

  /** Per-arm bounds as the solver holds them. */
  ghost predicate IsBox(lo: Vector, hi: Vector) {
    |lo| == |hi| && forall i :: 0 <= i < |lo| ==> 0.0 <= lo[i] <= hi[i]
  }

  ghost predicate InBox(q: Vector, lo: Vector, hi: Vector) {
    |q| == |lo| == |hi| && forall i :: 0 <= i < |q| ==> lo[i] <= q[i] <= hi[i]
  }

  ghost predicate IsPositive(r: Vector) {
    forall i :: 0 <= i < |r| ==> r[i] > 0.0
  }

  function Clip(x: real, lo: real, hi: real): (y: real)
    requires lo <= hi
    ensures lo <= y <= hi
    ensures lo <= x <= hi ==> y == x
  {
    if x < lo then lo else if x > hi then hi else x
  }

  function Clipped(r: Vector, c: real, lo: Vector, hi: Vector): (q: Vector)
    requires |r| == |lo| == |hi| && c > 0.0 && forall i :: 0 <= i < |r| ==> lo[i] <= hi[i]
    ensures |q| == |r| && InBox(q, lo, hi)
    ensures forall i :: 0 <= i < |r| ==> q[i] == Clip(r[i] / c, lo[i], hi[i])
  {
    seq(|r|, i requires 0 <= i < |r| => Clip(r[i] / c, lo[i], hi[i]))
  }

  /** The inputs the projection is called with. */
  ghost predicate IsInput(e: Functions, r: Vector, lo: Vector, hi: Vector) {
    Lawful(e) && |r| == |lo| && IsBox(lo, hi)
  }

  /** The total of clip(r / exp(logC), lo, hi). */
  function TotalAt(e: Functions, r: Vector, lo: Vector, hi: Vector, logC: real): real
    requires IsInput(e, r, lo, hi)
  {
    ExpPositive(e, logC);
    Total(Clipped(r, e.exp(logC), lo, hi))
  }

  predicate SumsAllowOne(lo: Vector, hi: Vector) {
    Total(lo) <= 1.0 + SLACK && Total(hi) >= 1.0 - SLACK
  }

  /** The test that the bracket [-50, 50] for log C encloses the target total. */
  predicate BracketEncloses(e: Functions, r: Vector, lo: Vector, hi: Vector)
    requires IsInput(e, r, lo, hi)
  {
    TotalAt(e, r, lo, hi, -LOG_BRACKET) >= 1.0 - SLACK && TotalAt(e, r, lo, hi, LOG_BRACKET) <= 1.0 + SLACK
  }

  /** The two ends after n bisection steps from [a, b]. */
  ghost function BisectEnds(e: Functions, r: Vector, lo: Vector, hi: Vector, a: real, b: real, n: nat): (real, real)
    requires IsInput(e, r, lo, hi)
    decreases n, |r|
  {
    var mid := (a + b) * 0.5;
    if n == 0 then (a, b)
    else if TotalAt(e, r, lo, hi, mid) > 1.0 then BisectEnds(e, r, lo, hi, mid, b, n - 1)
    else BisectEnds(e, r, lo, hi, a, mid, n - 1)
  }

  ghost function Midpoint(ends: (real, real)): real {
    (ends.0 + ends.1) * 0.5
  }

  /** The log C that the bisection settles on. */
  ghost function FinalLogC(e: Functions, r: Vector, lo: Vector, hi: Vector): real
    requires IsInput(e, r, lo, hi)
  {
    Midpoint(BisectEnds(e, r, lo, hi, -LOG_BRACKET, LOG_BRACKET, STEPS))
  }

  /** What the projection returns, as a function of its inputs. */
  ghost function Projection(e: Functions, r: Vector, lo: Vector, hi: Vector): (q: Option<Vector>)
    requires IsInput(e, r, lo, hi)
    ensures q.Some? ==> InBox(q.value, lo, hi)
  {
    if SumsAllowOne(lo, hi) && BracketEncloses(e, r, lo, hi) then
      var logC := FinalLogC(e, r, lo, hi);
      ExpPositive(e, logC);
      Some(Clipped(r, e.exp(logC), lo, hi))
    else None
  }

  /** Bisection as the program runs it. */
  method BisectKlProjection(e: Functions, r: Vector, lo: Vector, hi: Vector) returns (q: Option<Vector>)
    requires IsInput(e, r, lo, hi)
    ensures q == Projection(e, r, lo, hi)
  {
    hide TotalAt, Clipped, Total, Lawful;
    if Total(lo) > 1.0 + SLACK || Total(hi) < 1.0 - SLACK {
      return None;
    }
    var logCLo, logCHi := -LOG_BRACKET, LOG_BRACKET;
    var atLo := TotalAt(e, r, lo, hi, logCLo);
    var atHi := TotalAt(e, r, lo, hi, logCHi);
    if atLo < 1.0 - SLACK || atHi > 1.0 + SLACK {
      return None;
    }
    for step := 0 to STEPS
      invariant BisectEnds(e, r, lo, hi, logCLo, logCHi, STEPS - step)
             == BisectEnds(e, r, lo, hi, -LOG_BRACKET, LOG_BRACKET, STEPS)
    {
      var mid := (logCLo + logCHi) * 0.5;
      if TotalAt(e, r, lo, hi, mid) > 1.0 {
        logCLo := mid;
      } else {
        logCHi := mid;
      }
    }
    var logC := (logCLo + logCHi) * 0.5;
    ExpPositive(e, logC);
    q := Some(Clipped(r, e.exp(logC), lo, hi));
  }

  // -------------------------------------------------------- the total is near 1

  lemma FactorShrinks(y: real, t: real, x: real)
    requires t >= 1.0 && y * t == x && x >= 0.0
    ensures 0.0 <= y <= x
  {
    if y < 0.0 {
      ProductPositive(-y, t, (-y) * t);
    }
    ProductNonNegative(t - 1.0, y, (t - 1.0) * y);
  }

  lemma FactorGrows(y: real, z: real, t: real, x: real, p: real)
    requires t >= 1.0 && z >= 0.0 && y * t == x && p == t * z
    ensures p >= z && (y <= z ==> x <= p)
  {
    ProductNonNegative(t - 1.0, z, (t - 1.0) * z);
    if y <= z {
      ProductNonNegative(t, z - y, t * (z - y));
    }
  }

  /** Dividing by a further factor t >= 1 shrinks a clipped entry, by at most the factor t. */
  lemma ClipScales(x: real, y: real, t: real, lo: real, hi: real)
    requires t >= 1.0 && 0.0 <= lo <= hi && y * t == x
    ensures x >= 0.0 ==> Clip(y, lo, hi) <= Clip(x, lo, hi)
    ensures Clip(x, lo, hi) <= t * Clip(y, lo, hi)
  {
    var z := Clip(y, lo, hi);
    FactorGrows(y, z, t, x, t * z);
    if x >= 0.0 {
      FactorShrinks(y, t, x);
    }
  }

  lemma {:induction false} SumScales(q: Vector, q': Vector, t: real, n: nat)
    requires n <= |q| == |q'| && forall i :: 0 <= i < n ==> q[i] <= t * q'[i]
    ensures SumUpTo(q, n) <= t * SumUpTo(q', n)
  {
    if n != 0 {
      SumScales(q, q', t, n - 1);
      Distribute(t, SumUpTo(q', n - 1), q'[n - 1]);
    }
  }

  lemma TotalScales(r: Vector, c: real, t: real, c': real, lo: Vector, hi: Vector)
    requires |r| == |lo| && IsBox(lo, hi) && c > 0.0 && t >= 1.0 && c' == c * t && c' > 0.0
    ensures Total(Clipped(r, c, lo, hi)) <= t * Total(Clipped(r, c', lo, hi))
  {
    hide SumUpTo, Clip, Clipped;
    var q, q' := Clipped(r, c, lo, hi), Clipped(r, c', lo, hi);
    forall i | 0 <= i < |r| ensures q[i] <= t * q'[i] {
      EntryScales(r[i], c, t, c', lo[i], hi[i]);
    }
    SumScales(q, q', t, |r|);
  }

  lemma EntryScales(a: real, c: real, t: real, c': real, lo: real, hi: real)
    requires c > 0.0 && t >= 1.0 && c' == c * t && c' > 0.0 && 0.0 <= lo <= hi
    ensures Clip(a / c, lo, hi) <= t * Clip(a / c', lo, hi)
  {
    var y := a / c';
    assert y * c' == a;
    assert y * t * c == a;
    SameQuotient(y * t, a / c, c);
    ClipScales(a / c, y, t, lo, hi);
  }

  /** In the logarithm: moving log C up by d divides the total by at most exp(d). */
  lemma TotalMoves(e: Functions, r: Vector, lo: Vector, hi: Vector, logC: real, d: real)
    requires IsInput(e, r, lo, hi) && d >= 0.0
    ensures TotalAt(e, r, lo, hi, logC) <= e.exp(d) * TotalAt(e, r, lo, hi, logC + d)
  {
    hide SumUpTo, Clipped, Lawful;
    ExpPositive(e, logC);
    ExpPositive(e, logC + d);
    ExpSum(e, logC, d);
    ExpAtLeast(e, d);
    TotalScales(r, e.exp(logC), e.exp(d), e.exp(logC + d), lo, hi);
  }

  function Halved(w: real, n: nat): real
    decreases n
  {
    if n == 0 then w * 0.5 else Halved(w * 0.5, n - 1)
  }

  /** Total t is within a factor s of 1 - slack and of 1 + slack. */
  ghost predicate Near(t: real, s: real, slack: real) {
    1.0 - slack <= s * t && t <= s * (1.0 + slack)
  }

  /** Total t is within a factor s of the two tested bounds. */
  ghost predicate NearOne(t: real, s: real) {
    Near(t, s, SLACK)
  }

  /** The invariant of the bisection, after any number of steps: the low end keeps a total of at least 1
      and the high end of at most 1, up to what they missed it by at first, in nested, halving intervals. */
  lemma {:induction false} BracketInvariant(e: Functions, r: Vector, lo: Vector, hi: Vector, slack: real,
      a: real, b: real, n: nat)
    requires IsInput(e, r, lo, hi) && a <= b && slack >= 0.0
    requires TotalAt(e, r, lo, hi, a) >= 1.0 - slack && TotalAt(e, r, lo, hi, b) <= 1.0 + slack
    ensures var (a', b') := BisectEnds(e, r, lo, hi, a, b, n);
      && a <= a' <= b' <= b && (b' - a') * 0.5 == Halved(b - a, n)
      && TotalAt(e, r, lo, hi, a') >= 1.0 - slack && TotalAt(e, r, lo, hi, b') <= 1.0 + slack
    decreases n
  {
    hide TotalAt, Lawful;
    var mid := (a + b) * 0.5;
    if n != 0 {
      if TotalAt(e, r, lo, hi, mid) > 1.0 {
        assert b - mid == (b - a) * 0.5;
        BracketInvariant(e, r, lo, hi, slack, mid, b, n - 1);
      } else {
        assert mid - a == (b - a) * 0.5;
        BracketInvariant(e, r, lo, hi, slack, a, mid, n - 1);
      }
    }
  }

  /** The final point is half a final interval from both ends, so its total is near 1. */
  lemma BisectStaysClose(e: Functions, r: Vector, lo: Vector, hi: Vector, slack: real, a: real, b: real, n: nat)
    requires IsInput(e, r, lo, hi) && a <= b && slack >= 0.0
    requires TotalAt(e, r, lo, hi, a) >= 1.0 - slack && TotalAt(e, r, lo, hi, b) <= 1.0 + slack
    ensures a <= Midpoint(BisectEnds(e, r, lo, hi, a, b, n)) <= b
    ensures Near(TotalAt(e, r, lo, hi, Midpoint(BisectEnds(e, r, lo, hi, a, b, n))), e.exp(Halved(b - a, n)), slack)
  {
    hide TotalAt, Lawful, Near, BisectEnds, Halved;
    BracketInvariant(e, r, lo, hi, slack, a, b, n);
    var (a', b') := BisectEnds(e, r, lo, hi, a, b, n);
    MidpointIsClose(e, r, lo, hi, slack, a', b', (a' + b') * 0.5, (b' - a') * 0.5);
  }

  lemma MidpointIsClose(e: Functions, r: Vector, lo: Vector, hi: Vector, slack: real,
      a: real, b: real, mid: real, d: real)
    requires IsInput(e, r, lo, hi) && d >= 0.0 && a + d == mid && mid + d == b
    requires TotalAt(e, r, lo, hi, a) >= 1.0 - slack && TotalAt(e, r, lo, hi, b) <= 1.0 + slack
    ensures Near(TotalAt(e, r, lo, hi, mid), e.exp(d), slack)
  {
    hide TotalAt, Lawful;
    TotalMoves(e, r, lo, hi, a, d);
    TotalMoves(e, r, lo, hi, mid, d);
    ExpPositive(e, d);
    var gap := 1.0 + slack - TotalAt(e, r, lo, hi, b);
    ProductNonNegative(e.exp(d), gap, e.exp(d) * gap);
  }

  /** Half the width of the interval left by the 64 steps, 50 / 2^64. */
  const HALF_WIDTH := Halved(2.0 * LOG_BRACKET, STEPS)

  /** MAIN RESULT. The projection succeeds exactly when both guards hold. What it returns is
      clip(r / C, lo, hi) for some C in [e^-50, e^50], respects every bound, and has a total in
      [(1 - 1e-9) / s, s (1 + 1e-9)] with s = exp(50 / 2^64). */
  lemma ProjectionIsNearFeasible(e: Functions, r: Vector, lo: Vector, hi: Vector) returns (c: real)
    requires IsInput(e, r, lo, hi)
    ensures var q := Projection(e, r, lo, hi);
      && (q.Some? <==>
          && Total(lo) <= 1.0 + 1e-9 && Total(hi) >= 1.0 - 1e-9
          && TotalAt(e, r, lo, hi, -50.0) >= 1.0 - 1e-9 && TotalAt(e, r, lo, hi, 50.0) <= 1.0 + 1e-9)
      && (q.Some? ==>
          && c == e.exp(FinalLogC(e, r, lo, hi)) && -LOG_BRACKET <= FinalLogC(e, r, lo, hi) <= LOG_BRACKET
          && c > 0.0 && q.value == Clipped(r, c, lo, hi) && InBox(q.value, lo, hi)
          && NearOne(Total(q.value), e.exp(HALF_WIDTH)))
  {
    hide Near, Lawful, BisectEnds, Midpoint;
    c := 1.0;
    if Projection(e, r, lo, hi).Some? {
      var logC := FinalLogC(e, r, lo, hi);
      ExpPositive(e, logC);
      BisectStaysClose(e, r, lo, hi, SLACK, -LOG_BRACKET, LOG_BRACKET, STEPS);
      c := e.exp(logC);
    }
  }
}
