/** The mixture-adaptive-design e-process: a running GROW bet on the uniformly randomised rewards of
    an interleaved stream. */
module Mad {
  import opened RealFacts
  import opened Wrappers

  /** One reward difference, with the flag that says whether its arm was drawn uniformly. */
  datatype Sample = Sample(rewardDiff: real, isUniform: bool)

  /** The uniform subsequence of a stream. */
  ghost function UniformPart(stream: seq<Sample>): (xs: seq<real>) {
    if stream == [] then []
    else
      var s := stream[|stream| - 1];
      UniformPart(stream[..|stream| - 1]) + if s.isUniform then [s.rewardDiff] else []
  }

  ghost function Sum(xs: seq<real>): real {
    if xs == [] then 0.0 else Sum(xs[..|xs| - 1]) + xs[|xs| - 1]
  }

  /** The plug-in mean, 0 before any observation. */
  ghost function Mean(xs: seq<real>): real {
    if xs == [] then 0.0 else Sum(xs) / |xs| as real
  }

  ghost function SumOfSquares(xs: seq<real>): real {
    if xs == [] then 0.0 else SumOfSquares(xs[..|xs| - 1]) + xs[|xs| - 1] * xs[|xs| - 1]
  }

  /** The distance of the last observation from the mean of the earlier ones. */
  ghost function Surprise(xs: seq<real>): real
    requires xs != []
  {
    xs[|xs| - 1] - Mean(xs[..|xs| - 1])
  }

  /** The squared one-step prediction errors, sum of (X_t - mean of X_1..X_{t-1})^2. */
  ghost function PredictionError(xs: seq<real>): real {
    if xs == [] then 0.0 else PredictionError(xs[..|xs| - 1]) + Surprise(xs) * Surprise(xs)
  }

  /** The gain of one bet: bet x - bet^2 sigma^2 / 2. */
  function Gain(bet: real, x: real, sigmaSq: real): real {
    bet * x - 0.5 * bet * bet * sigmaSq
  }

  /** Log-wealth of the plug-in strategy that bets mean / sigma^2 of what it has seen so far. */
  ghost function Wealth(xs: seq<real>, sigmaSq: real): real
    requires sigmaSq > 0.0
  {
    if xs == [] then 0.0
    else
      var past := xs[..|xs| - 1];
      Wealth(past, sigmaSq) + Gain(Mean(past) / sigmaSq, xs[|xs| - 1], sigmaSq)
  }

  /** Log-wealth of the strategy that bets the same bet every time. */
  ghost function ConstantBet(xs: seq<real>, bet: real, sigmaSq: real): real {
    if xs == [] then 0.0
    else ConstantBet(xs[..|xs| - 1], bet, sigmaSq) + Gain(bet, xs[|xs| - 1], sigmaSq)
  }

  /** The price of learning the mean: sum of (X_t - mean_{t-1})^2 / t. */
  ghost function LearningCost(xs: seq<real>): (cost: real)
    ensures cost >= 0.0
  {
    if xs == [] then 0.0
    else
      var e := Surprise(xs);
      Square(e, e * e);
      LearningCost(xs[..|xs| - 1]) + e * e / |xs| as real
  }

  /** The log-wealth after each uniform observation. */
  ghost function Trajectory(xs: seq<real>, sigmaSq: real): (ws: seq<real>)
    requires sigmaSq > 0.0
    ensures |ws| == |xs|
  {
    if xs == [] then [] else Trajectory(xs[..|xs| - 1], sigmaSq) + [Wealth(xs, sigmaSq)]
  }

  /** Entry t is the wealth of the first t + 1 uniform observations; the last is the current one. */
  lemma {:induction false} TrajectoryEntry(xs: seq<real>, sigmaSq: real, t: nat)
    requires sigmaSq > 0.0 && t < |xs|
    ensures Trajectory(xs, sigmaSq)[t] == Wealth(xs[..t + 1], sigmaSq)
    ensures Trajectory(xs, sigmaSq)[|xs| - 1] == Wealth(xs, sigmaSq)
  {
    var n := |xs| - 1;
    if t == n {
      assert xs[..t + 1] == xs;
    } else {
      TrajectoryEntry(xs[..n], sigmaSq, t);
      assert xs[..n][..t + 1] == xs[..t + 1];
    }
  }

  /** The causal plug-in bet: the mean of what was seen so far over the variance, 0 at the first. */
  function NextBet(uniformSum: real, nUniform: nat, sigmaSq: real): real
    requires sigmaSq > 0.0
  {
    var muHatPrev := if nUniform == 0 then 0.0 else uniformSum / nUniform as real;
    muHatPrev / sigmaSq
  }

  /** What a uniform observation adds to each of the running quantities. */
  lemma UniformStep(stream: seq<Sample>, x: real, sigmaSq: real)
    requires sigmaSq > 0.0
    ensures var xs, ys := UniformPart(stream), UniformPart(stream + [Sample(x, true)]);
      var wealth := Wealth(xs, sigmaSq) + Gain(NextBet(Sum(xs), |xs|, sigmaSq), x, sigmaSq);
      && ys == xs + [x] && Sum(ys) == Sum(xs) + x
      && Wealth(ys, sigmaSq) == wealth && Trajectory(ys, sigmaSq) == Trajectory(xs, sigmaSq) + [wealth]
  {
    var xs := UniformPart(stream);
    assert (stream + [Sample(x, true)])[..|stream|] == stream;
    assert (xs + [x])[..|xs|] == xs;
    assert NextBet(Sum(xs), |xs|, sigmaSq) == Mean(xs) / sigmaSq;
    hide Gain, Mean, NextBet;
  }

  lemma BanditStep(stream: seq<Sample>, x: real)
    ensures UniformPart(stream + [Sample(x, false)]) == UniformPart(stream)
  {
    assert (stream + [Sample(x, false)])[..|stream|] == stream;
  }

  class MadEProcess {
    const sigmaSq: real
    const alpha: real
    var uniformSum: real
    var nUniform: nat
    var nTotal: nat
    var logWealth: real
    var logWealthTrajectory: seq<real>
    ghost var stream: seq<Sample>

    ghost predicate Valid()
      reads this
    {
      var xs := UniformPart(stream);
      && sigmaSq > 0.0 && 0.0 < alpha < 1.0
      && nTotal == |stream| && nUniform == |xs|
      && uniformSum == Sum(xs)
      && logWealth == Wealth(xs, sigmaSq)
      && logWealthTrajectory == Trajectory(xs, sigmaSq)
    }

    constructor Init(sigmaSq: real, alpha: real)
      requires sigmaSq > 0.0 && 0.0 < alpha < 1.0
      ensures Valid() && stream == [] && this.sigmaSq == sigmaSq && this.alpha == alpha
    {
      this.sigmaSq := sigmaSq;
      this.alpha := alpha;
      uniformSum, nUniform, nTotal, logWealth := 0.0, 0, 0, 0.0;
      logWealthTrajectory, stream := [], [];
    }

    /** Parameters are validated in this order; nothing is built from invalid ones. */
    static method New(sigmaSq: real, alpha: real) returns (r: Result<MadEProcess, string>)
      ensures r.Ok? <==> sigmaSq > 0.0 && 0.0 < alpha < 1.0
      ensures r.Ok? ==> fresh(r.value) && r.value.Valid() && r.value.stream == []
      ensures r.Ok? ==> r.value.sigmaSq == sigmaSq && r.value.alpha == alpha
      ensures r.Err? && sigmaSq <= 0.0 ==> r.error == "sigma_sq must be positive"
      ensures r.Err? && sigmaSq > 0.0 ==> r.error == "alpha must be in (0, 1)"
    {
      if sigmaSq <= 0.0 {
        return Err("sigma_sq must be positive");
      }
      if alpha <= 0.0 || alpha >= 1.0 {
        return Err("alpha must be in (0, 1)");
      }
      var process := new MadEProcess.Init(sigmaSq, alpha);
      r := Ok(process);
    }

    method Update(rewardDiff: real, isUniform: bool)
      requires Valid()
      modifies this
      ensures Valid()
      ensures stream == old(stream) + [Sample(rewardDiff, isUniform)]
      ensures !isUniform ==> logWealth == old(logWealth) && logWealthTrajectory == old(logWealthTrajectory)
      ensures isUniform ==> logWealthTrajectory == old(logWealthTrajectory) + [logWealth]
    {
      hide Sum, Wealth, Trajectory, Gain, NextBet, UniformPart;
      BanditStep(stream, rewardDiff);
      UniformStep(stream, rewardDiff, sigmaSq);
      stream := stream + [Sample(rewardDiff, isUniform)];
      nTotal := nTotal + 1;
      if !isUniform {
        return;
      }
      var bet := NextBet(uniformSum, nUniform, sigmaSq);
      var logIncrement := Gain(bet, rewardDiff, sigmaSq);
      logWealth := logWealth + logIncrement;
      logWealthTrajectory := logWealthTrajectory + [logWealth];
      uniformSum := uniformSum + rewardDiff;
      nUniform := nUniform + 1;
    }
  }

  // ------------------------------------------------------------- closed forms

  /** One plug-in gain in closed form: 2 sigma^2 gain = x^2 - (x - m)^2 for the bet m / sigma^2. */
  lemma GainClosedForm(m: real, x: real, sigmaSq: real)
    requires sigmaSq > 0.0
    ensures 2.0 * sigmaSq * Gain(m / sigmaSq, x, sigmaSq) == x * x - (x - m) * (x - m)
  {
    var l := m / sigmaSq;
    assert l * sigmaSq == m;
    GainExpanded(l, m, x, sigmaSq);
  }

  lemma GainExpanded(l: real, m: real, x: real, s: real)
    requires l * s == m
    ensures 2.0 * s * (l * x - 0.5 * l * l * s) == x * x - (x - m) * (x - m)
  {
    assert 2.0 * s * (l * x - 0.5 * l * l * s) == 2.0 * ((l * s) * x) - (l * s) * (l * s);
    assert x * x - (x - m) * (x - m) == 2.0 * (m * x) - m * m;
  }

  /** MAIN RESULT. 2 sigma^2 log-wealth = sum X^2 - sum (X_t - mean_{t-1})^2. */
  lemma {:induction false} WealthClosedForm(xs: seq<real>, sigmaSq: real)
    requires sigmaSq > 0.0
    ensures 2.0 * sigmaSq * Wealth(xs, sigmaSq) == SumOfSquares(xs) - PredictionError(xs)
  {
    hide Gain, Mean;
    if xs == [] {
    } else {
      var past, x := xs[..|xs| - 1], xs[|xs| - 1];
      WealthClosedForm(past, sigmaSq);
      GainClosedForm(Mean(past), x, sigmaSq);
      var w, g := Wealth(past, sigmaSq), Gain(Mean(past) / sigmaSq, x, sigmaSq);
      Distribute(2.0 * sigmaSq, w, g);
    }
  }

  /** Welford's step for (sum)^2 / n, which equals mean * sum. */
  lemma WelfordStep(n: real, s: real, m: real, x: real, m': real)
    requires n >= 0.0 && s == n * m && m' * (n + 1.0) == s + x
    ensures m' * (s + x) == m * s + x * x - (x - m) * (x - m) + (x - m) * (x - m) / (n + 1.0)
  {
    var e := x - m;
    var q := e / (n + 1.0);
    assert q * (n + 1.0) == e;
    assert m' == m + q by {
      assert (m + q) * (n + 1.0) == s + x;
      SameQuotient(m', m + q, n + 1.0);
    }
    assert e * e / (n + 1.0) == e * q by {
      assert e * q * (n + 1.0) == e * e;
      SameQuotient(e * e / (n + 1.0), e * q, n + 1.0);
    }
    WelfordExpanded(n, s, m, x, e, q);
  }

  lemma WelfordExpanded(n: real, s: real, m: real, x: real, e: real, q: real)
    requires s == n * m && e == x - m && q * (n + 1.0) == e
    ensures (m + q) * (s + x) == m * s + x * x - e * e + e * q
  {
    assert s + x == (n + 1.0) * m + e;
    assert (m + q) * (s + x) == m * (s + x) + (q * (n + 1.0)) * m + q * e;
    assert m * (s + x) + e * m == m * s + m * x + e * m;
    assert x * x - e * e == m * x + e * m;
  }

  lemma MeanTimesCount(xs: seq<real>)
    ensures Mean(xs) * |xs| as real == Sum(xs)
  {
  }

  /** 2 sigma^2 log-wealth plus the learning cost, less (sum)^2 / n. */
  ghost function Imbalance(xs: seq<real>, sigmaSq: real): real
    requires sigmaSq > 0.0
  {
    2.0 * sigmaSq * Wealth(xs, sigmaSq) + LearningCost(xs) - Mean(xs) * Sum(xs)
  }

  lemma {:induction false} NoImbalance(xs: seq<real>, sigmaSq: real)
    requires sigmaSq > 0.0
    ensures Imbalance(xs, sigmaSq) == 0.0
  {
    if xs == [] {
    } else {
      hide Imbalance;
      NoImbalance(xs[..|xs| - 1], sigmaSq);
      ImbalanceStep(xs, sigmaSq);
    }
  }

  lemma ImbalanceStep(xs: seq<real>, sigmaSq: real)
    requires sigmaSq > 0.0 && xs != []
    ensures Imbalance(xs, sigmaSq) == Imbalance(xs[..|xs| - 1], sigmaSq)
  {
    hide Wealth, LearningCost, Mean, Sum, Surprise;
    var p, c := WealthStep(xs, sigmaSq);
    var p', c' := MeanStep(xs);
  }

  /** MAIN RESULT. The exact regret: the strategy falls short of (sum X)^2 / n, which is what the best
      constant bet earns, by precisely the learning cost. */
  lemma WealthPlusLearningCost(xs: seq<real>, sigmaSq: real)
    requires sigmaSq > 0.0
    ensures 2.0 * sigmaSq * Wealth(xs, sigmaSq) + LearningCost(xs) == Mean(xs) * Sum(xs)
  {
    hide Wealth, LearningCost, Mean, Sum;
    NoImbalance(xs, sigmaSq);
  }

  /** What one observation adds to (sum)^2 / n, in two parts. */
  lemma MeanStep(xs: seq<real>) returns (p: real, c: real)
    requires xs != []
    ensures p == xs[|xs| - 1] * xs[|xs| - 1] - Surprise(xs) * Surprise(xs)
    ensures c == Surprise(xs) * Surprise(xs) / |xs| as real
    ensures Mean(xs) * Sum(xs) == Mean(xs[..|xs| - 1]) * Sum(xs[..|xs| - 1]) + p + c
  {
    hide Mean;
    var past, x := xs[..|xs| - 1], xs[|xs| - 1];
    p := x * x - Surprise(xs) * Surprise(xs);
    c := Surprise(xs) * Surprise(xs) / |xs| as real;
    MeanTimesCount(past);
    MeanTimesCount(xs);
    WelfordStep(|past| as real, Sum(past), Mean(past), x, Mean(xs));
  }

  /** One observation adds p to the scaled log-wealth and c to the learning cost. */
  lemma WealthStep(xs: seq<real>, sigmaSq: real) returns (p: real, c: real)
    requires sigmaSq > 0.0 && xs != []
    ensures p == xs[|xs| - 1] * xs[|xs| - 1] - Surprise(xs) * Surprise(xs)
    ensures c == Surprise(xs) * Surprise(xs) / |xs| as real
    ensures var past := xs[..|xs| - 1];
      && 2.0 * sigmaSq * Wealth(xs, sigmaSq) == 2.0 * sigmaSq * Wealth(past, sigmaSq) + p
      && LearningCost(xs) == LearningCost(past) + c
  {
    hide Gain, Mean;
    var past, x := xs[..|xs| - 1], xs[|xs| - 1];
    p := x * x - Surprise(xs) * Surprise(xs);
    c := Surprise(xs) * Surprise(xs) / |xs| as real;
    GainClosedForm(Mean(past), x, sigmaSq);
    Distribute(2.0 * sigmaSq, Wealth(past, sigmaSq), Gain(Mean(past) / sigmaSq, x, sigmaSq));
  }

  /** What a constant bet earns depends only on the sum and the count. */
  lemma {:induction false} ConstantBetClosedForm(xs: seq<real>, bet: real, sigmaSq: real)
    ensures ConstantBet(xs, bet, sigmaSq) == bet * Sum(xs) - |xs| as real * (0.5 * bet * bet * sigmaSq)
  {
    if xs == [] {
    } else {
      ConstantBetClosedForm(xs[..|xs| - 1], bet, sigmaSq);
      var cost := 0.5 * bet * bet * sigmaSq;
      Distribute(bet, Sum(xs[..|xs| - 1]), xs[|xs| - 1]);
      Distribute(cost, (|xs| - 1) as real, 1.0);
    }
  }

  /** MAIN RESULT. No constant bet chosen in hindsight earns more than (sum X)^2 / (2 n sigma^2), and
      exactly the bet mean / sigma^2 earns that much. */
  lemma BestConstantBet(xs: seq<real>, bet: real, sigmaSq: real)
    requires sigmaSq > 0.0 && xs != []
    ensures 2.0 * sigmaSq * ConstantBet(xs, bet, sigmaSq) <= Mean(xs) * Sum(xs)
    ensures 2.0 * sigmaSq * ConstantBet(xs, bet, sigmaSq) == Mean(xs) * Sum(xs) <==> bet * sigmaSq == Mean(xs)
  {
    ConstantBetClosedForm(xs, bet, sigmaSq);
    MeanTimesCount(xs);
    var e := bet * sigmaSq - Mean(xs);
    hide *;
    CompleteSquare(|xs| as real, Sum(xs), Mean(xs), bet, sigmaSq, e);
    Square(e, e * e);
    PositiveMultiple(|xs| as real, e * e);
  }

  lemma PositiveMultiple(n: real, p: real)
    requires n > 0.0 && p >= 0.0
    ensures n * p >= 0.0 && (n * p == 0.0 <==> p == 0.0)
  {
  }

  lemma CompleteSquare(n: real, s: real, m: real, l: real, v: real, e: real)
    requires m * n == s && e == l * v - m
    ensures 2.0 * v * (l * s - n * (0.5 * l * l * v)) == m * s - n * (e * e)
  {
    var u := l * v;
    assert 2.0 * v * (l * s - n * (0.5 * l * l * v)) == 2.0 * (u * s) - n * (u * u);
    assert e * e == u * u - 2.0 * (u * m) + m * m;
    assert n * (e * e) == n * (u * u) - 2.0 * (u * (m * n)) + m * (m * n);
  }

  /** MAIN RESULT. The running strategy never beats the best constant bet in hindsight; it ties with it
      exactly when every uniform observation is 0. */
  lemma HindsightBound(xs: seq<real>, sigmaSq: real)
    requires sigmaSq > 0.0 && xs != []
    ensures 2.0 * sigmaSq * Wealth(xs, sigmaSq) <= 2.0 * sigmaSq * ConstantBet(xs, Mean(xs) / sigmaSq, sigmaSq)
    ensures 2.0 * sigmaSq * Wealth(xs, sigmaSq) == 2.0 * sigmaSq * ConstantBet(xs, Mean(xs) / sigmaSq, sigmaSq)
            <==> AllZero(xs)
  {
    hide *;
    var bet := Mean(xs) / sigmaSq;
    assert bet * sigmaSq == Mean(xs);
    WealthPlusLearningCost(xs, sigmaSq);
    BestConstantBet(xs, bet, sigmaSq);
    NoLearningCost(xs);
  }

  ghost predicate AllZero(xs: seq<real>) {
    forall t :: 0 <= t < |xs| ==> xs[t] == 0.0
  }

  lemma {:induction false} AllZeroSum(xs: seq<real>)
    requires AllZero(xs)
    ensures Sum(xs) == 0.0
  {
    if xs != [] {
      AllZeroSum(xs[..|xs| - 1]);
    }
  }

  lemma {:induction false} NoLearningCost(xs: seq<real>)
    ensures LearningCost(xs) == 0.0 <==> AllZero(xs)
  {
    if xs == [] {
    } else {
      var past, x := xs[..|xs| - 1], xs[|xs| - 1];
      NoLearningCost(past);
      NoCostStep(xs);
      hide LearningCost, Mean;
      assert AllZero(xs) <==> AllZero(past) && x == 0.0 by {
        assert xs == past + [x];
      }
      if AllZero(past) {
        AllZeroMean(past);
      }
    }
  }

  lemma NoCostStep(xs: seq<real>)
    requires xs != []
    ensures LearningCost(xs) == 0.0 <==> LearningCost(xs[..|xs| - 1]) == 0.0 && Surprise(xs) == 0.0
  {
    hide Surprise;
    var e := Surprise(xs);
    Square(e, e * e);
    ZeroQuotient(e * e, |xs| as real);
  }

  lemma AllZeroMean(xs: seq<real>)
    requires AllZero(xs)
    ensures Mean(xs) == 0.0
  {
    AllZeroSum(xs);
  }

  lemma ZeroQuotient(p: real, n: real)
    requires p >= 0.0 && n > 0.0
    ensures p / n >= 0.0 && (p / n == 0.0 <==> p == 0.0)
  {
    assert p / n * n == p;
  }

  /** keep lists, in order, the positions of the uniform samples of the stream, whose rewards are xs. */
  ghost predicate IsUniformSubsequence(stream: seq<Sample>, xs: seq<real>, keep: seq<nat>) {
    && |keep| == |xs|
    && (forall i, j :: 0 <= i < j < |keep| ==> keep[i] < keep[j])
    && (forall i :: 0 <= i < |keep| ==> keep[i] < |stream| && stream[keep[i]] == Sample(xs[i], true))
    && (forall k :: 0 <= k < |stream| && stream[k].isUniform ==> k in keep)
  }

  /** UniformPart, on which alone the wealth of a process depends, is the subsequence of the rewards at
      all uniform positions, in order. */
  lemma {:induction false} UniformPositions(stream: seq<Sample>) returns (keep: seq<nat>)
    ensures IsUniformSubsequence(stream, UniformPart(stream), keep)
  {
    if stream == [] {
      keep := [];
    } else {
      hide IsUniformSubsequence;
      var n := |stream| - 1;
      var before := UniformPositions(stream[..n]);
      if stream[n].isUniform {
        keep := before + [n];
        KeepUniform(stream, UniformPart(stream[..n]), before);
      } else {
        keep := before;
        SkipBandit(stream, UniformPart(stream[..n]), before);
        assert UniformPart(stream) == UniformPart(stream[..n]);
      }
    }
  }

  lemma SkipBandit(stream: seq<Sample>, xs: seq<real>, keep: seq<nat>)
    requires stream != [] && !stream[|stream| - 1].isUniform
    requires IsUniformSubsequence(stream[..|stream| - 1], xs, keep)
    ensures IsUniformSubsequence(stream, xs, keep)
  {
    forall k | 0 <= k < |stream| && stream[k].isUniform ensures k in keep {
      assert stream[..|stream| - 1][k].isUniform;
    }
  }

  lemma KeepUniform(stream: seq<Sample>, xs: seq<real>, keep: seq<nat>)
    requires stream != [] && stream[|stream| - 1].isUniform
    requires IsUniformSubsequence(stream[..|stream| - 1], xs, keep)
    ensures IsUniformSubsequence(stream, xs + [stream[|stream| - 1].rewardDiff], keep + [|stream| - 1])
  {
    var n, all := |stream| - 1, keep + [|stream| - 1];
    forall k | 0 <= k < |stream| && stream[k].isUniform ensures k in all {
      if k < n {
        assert stream[..n][k].isUniform;
        assert k in keep;
      } else {
        assert all[|keep|] == n;
      }
    }
  }
}
