/** The LinUCB bandit policy: arms whose matrices are updated in place, scoring and selection. */
module LinUcb {
  import opened LinearAlgebra
  import opened RealFacts
  import opened RealMaps
  import opened RidgeRegression
  import opened Wrappers

  type Context = map<string, real>

  /** A square root on the non-negative reals, the only property of `sqrt` the scores rely on. */
  ghost predicate IsSquareRoot(sqrt: real -> real) {
    forall v :: v >= 0.0 ==> sqrt(v) >= 0.0 && sqrt(v) * sqrt(v) == v
  }

  /** The UCB of a history: predicted reward plus alpha standard deviations. */
  ghost function Ucb(h: History, x: Vector, alpha: real, sqrt: real -> real): real
    requires OfDimension(h, |x|)
  {
    Dot(Theta(h, |x|), x) + alpha * sqrt(Variance(h, |x|, x))
  }

  // ----------------------------------------------------------- context features

  /** x reads a context through the feature keys, in their order; an absent feature reads as 0. */
  ghost predicate Encodes(x: Vector, keys: seq<string>, context: Context) {
    && |x| == |keys|
    && (forall i :: 0 <= i < |keys| && keys[i] in context ==> x[i] == context[keys[i]])
    && (forall i :: 0 <= i < |keys| && keys[i] !in context ==> x[i] == 0.0)
  }

  /** The sum of weight times feature over those of the first n keys that the context has. */
  ghost function WeightedFeatures(weights: Vector, keys: seq<string>, context: Context, n: nat): real
    requires n <= |keys| == |weights|
  {
    if n == 0 then 0.0
    else
      WeightedFeatures(weights, keys, context, n - 1)
      + if keys[n - 1] in context then weights[n - 1] * context[keys[n - 1]] else 0.0
  }

  lemma {:induction false} DotReadsFeatures(weights: Vector, x: Vector, keys: seq<string>, context: Context, n: nat)
    requires Encodes(x, keys, context) && |weights| == |keys| && n <= |keys|
    ensures DotUpTo(weights, x, n) == WeightedFeatures(weights, keys, context, n)
  {
    if n != 0 {
      DotReadsFeatures(weights, x, keys, context, n - 1);
      if keys[n - 1] !in context {
        assert weights[n - 1] * x[n - 1] == 0.0;
      }
    }
  }

  /** The sum of products of two contexts over those of the first n keys that both have. */
  ghost function Overlap(keys: seq<string>, a: Context, b: Context, n: nat): real
    requires n <= |keys|
  {
    if n == 0 then 0.0
    else
      Overlap(keys, a, b, n - 1)
      + if keys[n - 1] in a && keys[n - 1] in b then a[keys[n - 1]] * b[keys[n - 1]] else 0.0
  }

  lemma {:induction false} DotIsOverlap(keys: seq<string>, a: Context, b: Context, x: Vector, y: Vector, n: nat)
    requires Encodes(x, keys, a) && Encodes(y, keys, b) && n <= |keys|
    ensures DotUpTo(x, y, n) == Overlap(keys, a, b, n)
  {
    if n != 0 {
      DotIsOverlap(keys, a, b, x, y, n - 1);
      if keys[n - 1] !in a || keys[n - 1] !in b {
        assert x[n - 1] == 0.0 || y[n - 1] == 0.0;
      }
    }
  }

  lemma EncodedLength(x: Vector, keys: seq<string>, context: Context)
    requires Encodes(x, keys, context)
    ensures |x| == |keys|
  {
  }

  class LinUcbArm {
    const armId: string
    var aInv: Matrix
    var b: Vector
    var nPulls: nat
    ghost var history: History

    ghost predicate Valid()
      reads this
    {
      && OfDimension(history, |b|)
      && aInv == Inverse(history, |b|)
      && b == RewardSum(history, |b|)
      && nPulls == |history|
    }

    constructor (armId: string, dim: nat)
      ensures Valid()
      ensures this.armId == armId && history == [] && |b| == dim
    {
      this.armId := armId;
      aInv := Identity(dim);
      b := Zeros(dim);
      nPulls := 0;
      history := [];
    }

    /** The score of a context: the largest reward predicted by any coefficients in the confidence
        ellipsoid of radius alpha, attained by one of them. */
    method UcbScore(x: Vector, alpha: real, sqrt: real -> real) returns (score: real)
      requires Valid() && |x| == |b| && alpha > 0.0 && IsSquareRoot(sqrt)
      ensures IsLargestPlausible(history, |b|, alpha, x, score)
      ensures score == Ucb(history, x, alpha, sqrt)
    {
      hide Dot, Inverse, Apply, RewardSum, InEllipsoid, IsLargestPlausible;
      var exploitation := Dot(Apply(aInv, b), x);
      var variance := Dot(x, Apply(aInv, x));
      VarianceSign(history, |b|, x);
      var deviation := sqrt(if variance > 0.0 then variance else 0.0);
      assert deviation == sqrt(Variance(history, |b|, x));
      score := exploitation + alpha * deviation;
      ScoreIsLargestPlausible(history, |b|, x, alpha, deviation);
    }

    /** One rank-one update. The skip branch for a near-zero denominator stays in the code; the
        precondition Valid() already rules it out. */
    method Update(x: Vector, reward: real)
      requires Valid() && |x| == |b|
      modifies this
      ensures Valid() && |b| == old(|b|)
      ensures history == old(history) + [Observation(x, reward)]
      ensures aInv == ShermanMorrison(old(aInv), x) && old(Denominator(aInv, x)) >= 1.0
      ensures b == Add(old(b), Scale(reward, x)) && nPulls == old(nPulls) + 1
    {
      hide Dot, Apply, DotUpTo, Design;
      DenominatorAtLeastOne(history, |b|, x);
      FoldLast(history, Observation(x, reward), |b|);
      assert (history + [Observation(x, reward)])[..|history|] == history;
      var aInvX := Apply(aInv, x);
      var denominator := 1.0 + Dot(x, aInvX);
      if -DENOMINATOR_FLOOR < denominator < DENOMINATOR_FLOOR {
        // near-zero denominator: a_inv keeps its value
      } else {
        var numerator := Outer(aInvX, aInvX);
        aInv := MatrixAdd(aInv, MatrixScale(-1.0 / denominator, numerator, |x|), |x|);
      }
      b := Add(b, Scale(reward, x));
      nPulls := nPulls + 1;
      history := history + [Observation(x, reward)];
    }
  }

  // --------------------------------------------------------------- selection

  /** The last index holding the largest score, as the iterator's maximum returns it. */
  function LastArgMax(scores: seq<real>): (best: nat)
    requires scores != []
    ensures best < |scores|
    ensures forall i :: 0 <= i < |scores| ==> scores[i] <= scores[best]
    ensures forall i :: best < i < |scores| ==> scores[i] < scores[best]
  {
    var n := |scores| - 1;
    if n == 0 then 0
    else
      var before := LastArgMax(scores[..n]);
      if scores[n] >= scores[before] then n else before
  }

  /** The share of the best arm: its own floor and whatever the k floors leave over. */
  function BestShare(k: nat, floor: real): real {
    floor + (1.0 - k as real * floor)
  }

  /** The probabilities collected by arm id; a repeated id keeps its last value. */
  function CollectProbabilities(ids: seq<string>, best: nat, share: real, floor: real): (probs: map<string, real>)
    ensures forall id :: id in probs <==> id in ids
    ensures Distinct(ids) ==> forall i :: 0 <= i < |ids| ==> probs[ids[i]] == if i == best then share else floor
  {
    if ids == [] then map[]
    else
      var n := |ids| - 1;
      CollectProbabilities(ids[..n], best, share, floor)[ids[n] := if n == best then share else floor]
  }

  /** The last position with an id decides the id's probability. */
  lemma {:induction false} LastCollected(ids: seq<string>, i: nat, best: nat, share: real, floor: real)
    requires i < |ids| && forall j :: i < j < |ids| ==> ids[j] != ids[i]
    ensures CollectProbabilities(ids, best, share, floor)[ids[i]] == if i == best then share else floor
  {
    var n := |ids| - 1;
    if i < n {
      LastCollected(ids[..n], i, best, share, floor);
    }
  }

  lemma CollectStep(ids: seq<string>, i: nat, best: nat, share: real, floor: real)
    requires i < |ids|
    ensures CollectProbabilities(ids[..0], best, share, floor) == map[]
    ensures CollectProbabilities(ids[..i + 1], best, share, floor)
         == CollectProbabilities(ids[..i], best, share, floor)[ids[i] := if i == best then share else floor]
  {
    assert ids[..i + 1][..i] == ids[..i];
  }

  lemma OneMore(n: nat, floor: real, total: real)
    requires total == (n + 1) as real * floor
    ensures n as real * floor == total - floor
  {
  }

  lemma {:induction false} CollectedSum(ids: seq<string>, best: nat, share: real, floor: real, floors: real)
    requires Distinct(ids) && floors == |ids| as real * floor
    ensures SumValues(CollectProbabilities(ids, best, share, floor))
            == floors + if best < |ids| then share - floor else 0.0
  {
    if ids == [] {
    } else {
      var n := |ids| - 1;
      OneMore(n, floor, floors);
      CollectedSum(ids[..n], best, share, floor, floors - floor);
      SumValuesInsert(CollectProbabilities(ids[..n], best, share, floor), ids[n], if n == best then share else floor);
    }
  }

  lemma BestShareBounds(k: nat, floor: real, floors: real)
    requires k > 0 && 0.0 <= floor && floors == k as real * floor <= 1.0
    ensures BestShare(k, floor) == floor + 1.0 - floors == 1.0 - (k - 1) as real * floor
    ensures floor <= BestShare(k, floor) <= 1.0
  {
    OneMore(k - 1, floor, floors);
    OthersNonNegative(k - 1, floor);
  }

  /** MAIN RESULT. Probabilities over distinct arms sum to 1, none is below the exploration floor, and
      the best arm gets everything the other floors leave over. */
  lemma ProbabilitiesAreADistribution(ids: seq<string>, best: nat, floor: real)
    requires Distinct(ids) && best < |ids| && 0.0 <= floor && |ids| as real * floor <= 1.0
    ensures var probs := CollectProbabilities(ids, best, BestShare(|ids|, floor), floor);
      && SumValues(probs) == 1.0
      && (forall id :: id in probs ==> floor <= probs[id] <= 1.0)
      && probs[ids[best]] == 1.0 - (|ids| - 1) as real * floor
  {
    hide *;
    var floors := |ids| as real * floor;
    BestShareBounds(|ids|, floor, floors);
    CollectedSum(ids, best, BestShare(|ids|, floor), floor, floors);
    SharesInRange(ids, best, BestShare(|ids|, floor), floor);
  }

  lemma SharesInRange(ids: seq<string>, best: nat, share: real, floor: real)
    requires Distinct(ids) && best < |ids| && 0.0 <= floor <= share <= 1.0
    ensures var probs := CollectProbabilities(ids, best, share, floor);
      probs[ids[best]] == share && forall id :: id in probs ==> floor <= probs[id] <= 1.0
  {
    var probs := CollectProbabilities(ids, best, share, floor);
    forall id | id in probs ensures floor <= probs[id] <= 1.0 {
      var i :| 0 <= i < |ids| && ids[i] == id;
    }
  }

  lemma OthersNonNegative(n: nat, floor: real)
    requires floor >= 0.0
    ensures n as real * floor >= 0.0
  {
  }

  datatype ArmSelection = ArmSelection(
    armId: string,
    assignmentProbability: real,
    allArmProbabilities: map<string, real>,
    isUniformRandom: bool)

  // ------------------------------------------------------------------ policy

  /** One accepted policy update. */
  datatype Event = Event(armId: string, x: Vector, reward: real)

  /** What a log of updates contributes to the arm that answers to an id. */
  ghost function ObservationsOf(log: seq<Event>, armId: string): History {
    if log == [] then []
    else
      var e := log[|log| - 1];
      ObservationsOf(log[..|log| - 1], armId) + if e.armId == armId then [Observation(e.x, e.reward)] else []
  }

  lemma ObservationsGrow(log: seq<Event>, e: Event, id: string)
    ensures ObservationsOf(log + [e], id)
      == ObservationsOf(log, id) + if id == e.armId then [Observation(e.x, e.reward)] else []
  {
    assert (log + [e])[..|log|] == log;
  }

  /** The first arm with an id receives every update addressed to that id. */
  ghost predicate IsFirst(ids: seq<string>, i: nat) {
    i < |ids| && forall j :: 0 <= j < i ==> ids[j] != ids[i]
  }

  function IndexOf(ids: seq<string>, id: string): (i: Option<nat>)
    ensures i.None? <==> id !in ids
    ensures i.Some? ==> IsFirst(ids, i.value) && ids[i.value] == id
    ensures i.Some? ==> forall j: nat :: IsFirst(ids, j) && ids[j] == id ==> j == i.value
  {
    if ids == [] then None
    else
      var n := |ids| - 1;
      var before := IndexOf(ids[..n], id);
      assert forall j: nat :: IsFirst(ids[..n], j) ==> IsFirst(ids, j);
      if before.Some? then before else if ids[n] == id then Some(n) else None
  }

  class LinUcbPolicy {
    const experimentId: string
    const arms: seq<LinUcbArm>
    ghost const ids: seq<string>
    const featureKeys: seq<string>
    const alpha: real
    const minExplorationFraction: real
    var totalRewards: nat
    ghost var log: seq<Event>

    /** The fixed shape of a policy: its parameters and the identity of its arms. */
    ghost predicate WellFormed()
      reads this
    {
      && arms != [] && featureKeys != [] && alpha > 0.0
      && 0.0 <= minExplorationFraction < 1.0
      && |arms| as real * minExplorationFraction <= 1.0
      && |ids| == |arms| && Distinct(arms)
      && (forall i :: 0 <= i < |arms| ==> arms[i].armId == ids[i])
      && (forall e :: e in log ==> |e.x| == |featureKeys| && e.armId in ids)
      && totalRewards == |log|
    }

    ghost predicate Valid()
      reads this, arms
    {
      && WellFormed()
      && forall i :: 0 <= i < |arms| ==>
        && arms[i].Valid() && |arms[i].b| == |featureKeys|
        && arms[i].history == if IsFirst(ids, i) then ObservationsOf(log, ids[i]) else []
    }

    function ContextToVector(context: Context): (x: Vector)
      ensures Encodes(x, featureKeys, context)
    {
      seq(|featureKeys|, i requires 0 <= i < |featureKeys| =>
        if featureKeys[i] in context then context[featureKeys[i]] else 0.0)
    }

    constructor (experimentId: string, armIds: seq<string>, featureKeys: seq<string>,
        alpha: real, minExplorationFraction: real)
      requires armIds != [] && featureKeys != [] && alpha > 0.0
      requires 0.0 <= minExplorationFraction < 1.0
      requires |armIds| as real * minExplorationFraction <= 1.0
      ensures Valid() && fresh(arms)
      ensures ids == armIds && log == []
      ensures this.featureKeys == featureKeys && this.alpha == alpha
      ensures this.minExplorationFraction == minExplorationFraction
    {
      var built: seq<LinUcbArm> := [];
      for i := 0 to |armIds|
        invariant |built| == i
        invariant fresh(built) && Distinct(built)
        invariant forall j :: 0 <= j < i ==>
          built[j].Valid() && built[j].armId == armIds[j] && built[j].history == [] && |built[j].b| == |featureKeys|
      {
        var arm := new LinUcbArm(armIds[i], |featureKeys|);
        built := built + [arm];
      }
      this.experimentId := experimentId;
      this.arms := built;
      this.ids := armIds;
      this.featureKeys := featureKeys;
      this.alpha := alpha;
      this.minExplorationFraction := minExplorationFraction;
      totalRewards := 0;
      log := [];
    }

    /** The arm an id addresses: the first with that id. */
    method Find(armId: string) returns (index: Option<nat>)
      requires WellFormed()
      ensures index == IndexOf(ids, armId)
    {
      hide IndexOf;
      for i := 0 to |arms|
        invariant forall j :: 0 <= j < i ==> ids[j] != armId
      {
        if arms[i].armId == armId {
          assert IsFirst(ids, i);
          return Some(i);
        }
      }
      return None;
    }

    /** The prediction for a known arm is the sum of its coefficients times the context's features; the
        coefficients depend on the log only through that arm's observations. None stands for the panic on
        an unknown arm. */
    method PredictedReward(armId: string, context: Context) returns (reward: Option<real>)
      requires Valid()
      ensures reward.None? <==> armId !in ids
      ensures reward.Some? ==> OfDimension(ObservationsOf(log, armId), |featureKeys|)
      ensures reward.Some? ==>
        reward.value
        == WeightedFeatures(Theta(ObservationsOf(log, armId), |featureKeys|), featureKeys, context, |featureKeys|)
    {
      hide DotUpTo, Inverse, RewardSum, ObservationsOf, WeightedFeatures, Encodes;
      var x := ContextToVector(context);
      var found := Find(armId);
      match found
      case None => reward := None;
      case Some(i) =>
        var theta := Apply(arms[i].aInv, arms[i].b);
        DotReadsFeatures(theta, x, featureKeys, context, |featureKeys|);
        reward := Some(Dot(theta, x));
    }

    ghost function Score(i: nat, x: Vector, sqrt: real -> real): real
      requires Valid() && i < |arms| && |x| == |featureKeys|
      reads this, arms
    {
      Ucb(arms[i].history, x, alpha, sqrt)
    }

    /** One score per arm, in order. */
    method ScoreArms(x: Vector, sqrt: real -> real) returns (ucbScores: seq<real>)
      requires Valid() && IsSquareRoot(sqrt) && |x| == |featureKeys|
      ensures |ucbScores| == |arms|
      ensures forall i :: 0 <= i < |arms| ==> ucbScores[i] == Score(i, x, sqrt)
    {
      hide Dot, Inverse, RewardSum, Apply, IsLargestPlausible, ObservationsOf, Ucb, IsSquareRoot;
      ucbScores := [];
      for i := 0 to |arms|
        invariant |ucbScores| == i
        invariant forall j :: 0 <= j < i ==> ucbScores[j] == Score(j, x, sqrt)
      {
        var score := arms[i].UcbScore(x, alpha, sqrt);
        ucbScores := ucbScores + [score];
      }
    }

    lemma Shape()
      requires Valid()
      ensures arms != [] && |ids| == |arms| && forall i :: 0 <= i < |arms| ==> arms[i].armId == ids[i]
    {
      hide ObservationsOf, LinUcbArm.Valid;
    }

    /** The best index, the last among ties, and the probabilities by arm id. */
    method ComputeProbabilities(ucbScores: seq<real>) returns (bestIndex: nat, probs: map<string, real>)
      requires Valid() && |ucbScores| == |arms| && arms != []
      ensures bestIndex == LastArgMax(ucbScores)
      ensures probs
           == CollectProbabilities(ids, bestIndex, BestShare(|arms|, minExplorationFraction), minExplorationFraction)
    {
      hide *;
      Shape();
      bestIndex := LastArgMax(ucbScores);
      var bestProb := BestShare(|arms|, minExplorationFraction);
      probs := map[];
      CollectStep(ids, 0, bestIndex, bestProb, minExplorationFraction);
      for i := 0 to |arms|
        invariant probs == CollectProbabilities(ids[..i], bestIndex, bestProb, minExplorationFraction)
      {
        CollectStep(ids, i, bestIndex, bestProb, minExplorationFraction);
        probs := probs[arms[i].armId := if i == bestIndex then bestProb else minExplorationFraction];
      }
      assert ids[..|ids|] == ids;
    }

    /** Selection maximises the UCB score of the vector x that encodes the context (the last arm among
        ties) and reports its probability; None stands for the panic on a missing context. */
    method SelectArm(context: Option<Context>, sqrt: real -> real)
      returns (selection: Option<ArmSelection>, ghost best: nat, ghost x: Vector)
      requires Valid() && IsSquareRoot(sqrt)
      ensures selection.None? <==> context.None?
      ensures selection.Some? ==> best < |arms| && selection.value.armId == ids[best]
      ensures selection.Some? ==> |x| == |featureKeys| && Encodes(x, featureKeys, context.value)
      ensures selection.Some? ==> forall i :: 0 <= i < |arms| ==> Score(i, x, sqrt) <= Score(best, x, sqrt)
      ensures selection.Some? ==> forall i :: best < i < |arms| ==> Score(i, x, sqrt) < Score(best, x, sqrt)
      ensures selection.Some? ==>
        && !selection.value.isUniformRandom
        && selection.value.allArmProbabilities
           == CollectProbabilities(ids, best, BestShare(|arms|, minExplorationFraction), minExplorationFraction)
        && ids[best] in selection.value.allArmProbabilities
        && selection.value.assignmentProbability == selection.value.allArmProbabilities[ids[best]]
    {
      hide *;
      best, x := 0, [];
      if context.None? {
        return None, best, x;
      }
      var vector := ContextToVector(context.value);
      x := vector;
      EncodedLength(x, featureKeys, context.value);
      Shape();
      var ucbScores := ScoreArms(vector, sqrt);
      var bestIndex, probs := ComputeProbabilities(ucbScores);
      best := bestIndex;
      var armId := arms[bestIndex].armId;
      selection := Some(ArmSelection(armId, probs[armId], probs, false));
    }

    /** Routes an observation to the first arm with the id; a missing context or an unknown arm,
        which panic in the program, leave the policy as it was. */
    method Update(armId: string, reward: real, context: Option<Context>) returns (accepted: bool)
      requires Valid()
      modifies this, arms
      ensures Valid()
      ensures accepted <==> context.Some? && armId in ids
      ensures accepted ==> exists x ::
        Encodes(x, featureKeys, context.value) && log == old(log) + [Event(armId, x, reward)]
      ensures !accepted ==> log == old(log)
      ensures !accepted ==> forall i :: 0 <= i < |arms| ==>
        arms[i].aInv == old(arms[i].aInv) && arms[i].b == old(arms[i].b) && arms[i].nPulls == old(arms[i].nPulls)
    {
      hide Dot, Inverse, RewardSum, Apply, ObservationsOf, ShermanMorrison, IndexOf, LinUcbArm.Valid;
      if context.None? {
        return false;
      }
      var x := ContextToVector(context.value);
      var found := Find(armId);
      if found.None? {
        return false;
      }
      ghost var event := Event(armId, x, reward);
      arms[found.value].Update(x, reward);
      totalRewards := totalRewards + 1;
      forall id ensures ObservationsOf(log + [event], id)
        == ObservationsOf(log, id) + if id == armId then [Observation(x, reward)] else []
      {
        ObservationsGrow(log, event, id);
      }
      log := log + [event];
      return true;
    }
  }

  // --------------------------------------------------------- the first observation

  /** MAIN RESULT. An arm that has seen one reward, in context `seen`, predicts that reward for context
      `asked` scaled by their overlap over one plus the squared length of `seen`. */
  lemma FirstRewardPrediction(keys: seq<string>, x: Vector, seen: Context, asked: Context, armId: string, reward: real)
    requires Encodes(x, keys, seen)
    ensures var h, d := ObservationsOf([Event(armId, x, reward)], armId), |keys|;
      && OfDimension(h, d)
      && WeightedFeatures(Theta(h, d), keys, asked, d) * (1.0 + Overlap(keys, seen, seen, d))
         == reward * Overlap(keys, seen, asked, d)
  {
    hide DotUpTo, WeightedFeatures, Overlap, Theta;
    var d, log := |keys|, [Event(armId, x, reward)];
    assert log == [] + log;
    ObservationsGrow([], log[0], armId);
    assert ObservationsOf(log, armId) == [Observation(x, reward)];
    var y := seq(d, i requires 0 <= i < d => if keys[i] in asked then asked[keys[i]] else 0.0);
    OneObservationPrediction(x, reward, y);
    DotReadsFeatures(Theta([Observation(x, reward)], d), y, keys, asked, d);
    DotIsOverlap(keys, seen, seen, x, x, d);
    DotIsOverlap(keys, seen, asked, x, y, d);
  }

  /** With one feature f at value v both times the prediction is r v^2 / (1 + v^2). */
  lemma OneFeaturePrediction(f: string, v: real, x: Vector, armId: string, reward: real)
    requires Encodes(x, [f], map[f := v])
    ensures var h := ObservationsOf([Event(armId, x, reward)], armId);
      && OfDimension(h, 1) && 1.0 + v * v > 0.0
      && WeightedFeatures(Theta(h, 1), [f], map[f := v], 1) == reward * (v * v) / (1.0 + v * v)
  {
    hide DotUpTo, Theta, WeightedFeatures;
    FirstRewardPrediction([f], x, map[f := v], map[f := v], armId, reward);
    assert Overlap([f], map[f := v], map[f := v], 1) == v * v;
    Square(v, v * v);
    var h := ObservationsOf([Event(armId, x, reward)], armId);
    Solved(WeightedFeatures(Theta(h, 1), [f], map[f := v], 1), 1.0 + v * v, reward * (v * v));
  }

  lemma Solved(y: real, k: real, p: real)
    requires k > 0.0 && y * k == p
    ensures y == p / k
  {
  }

  // ------------------------------------------------- order of arrival, whole policy

  lemma {:induction false} ObservationCount(log: seq<Event>, armId: string, o: Observation)
    ensures multiset(ObservationsOf(log, armId))[o] == multiset(log)[Event(armId, o.x, o.reward)]
  {
    if log == [] {
    } else {
      var n := |log| - 1;
      ObservationCount(log[..n], armId, o);
      assert log == log[..n] + [log[n]];
      if log[n].armId == armId {
        assert Observation(log[n].x, log[n].reward) == o <==> log[n] == Event(armId, o.x, o.reward);
      }
    }
  }

  lemma {:induction false} ObservationsHaveDimension(log: seq<Event>, armId: string, d: nat)
    requires forall e :: e in log ==> |e.x| == d
    ensures OfDimension(ObservationsOf(log, armId), d)
  {
    if log != [] {
      ObservationsHaveDimension(log[..|log| - 1], armId, d);
    }
  }

  /** MAIN RESULT. Two policies whose update logs agree as multisets hold the same matrices and
      vectors for every arm and make the same prediction in every context. */
  lemma PolicyIgnoresOrder(log1: seq<Event>, log2: seq<Event>, armId: string, d: nat)
    requires multiset(log1) == multiset(log2)
    requires forall e :: e in log1 ==> |e.x| == d
    ensures var g, h := ObservationsOf(log1, armId), ObservationsOf(log2, armId);
      && OfDimension(g, d) && OfDimension(h, d)
      && Inverse(g, d) == Inverse(h, d) && RewardSum(g, d) == RewardSum(h, d) && Theta(g, d) == Theta(h, d)
  {
    var g, h := ObservationsOf(log1, armId), ObservationsOf(log2, armId);
    forall e | e in log2 ensures |e.x| == d {
      assert e in multiset(log2);
      assert e in multiset(log1);
    }
    ObservationsHaveDimension(log1, armId, d);
    ObservationsHaveDimension(log2, armId, d);
    forall o ensures multiset(g)[o] == multiset(h)[o] {
      ObservationCount(log1, armId, o);
      ObservationCount(log2, armId, o);
    }
    assert multiset(g) == multiset(h);
    StateIgnoresOrder(g, h, d);
  }
}
