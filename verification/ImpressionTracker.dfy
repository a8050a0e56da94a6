/** The exponentially decayed impression fractions kept per arm. */
module Impressions {
  import opened RealFacts
  import opened RealMaps

  type Fractions = map<string, real>

  /** Uniform fractions over the given ids; repeated ids share one entry. */
  function Initial(ids: seq<string>): Fractions {
    map id | id in ids :: 1.0 / |ids| as real
  }

  /** keep is 1 - alpha, the weight the old fraction retains. */
  function Decayed(fraction: real, keep: real, alpha: real, hit: bool): real {
    keep * fraction + alpha * if hit then 1.0 else 0.0
  }

  function DecayAll(ema: Fractions, keep: real, alpha: real, selected: string): Fractions {
    map id | id in ema :: Decayed(ema[id], keep, alpha, id == selected)
  }

  function Recorded(ema: Fractions, alpha: real, selected: string): Fractions {
    DecayAll(ema, 1.0 - alpha, alpha, selected)
  }

  function WithArm(ema: Fractions, id: string): Fractions {
    if id in ema then ema else ema[id := 0.0]
  }

  class ImpressionTracker {
    var ema: Fractions
    const alpha: real
    var totalSelections: nat

    ghost predicate Valid()
      reads this
    {
      0.0 < alpha <= 1.0
    }

    constructor (ids: seq<string>, alpha: real)
      requires 0.0 < alpha <= 1.0
      ensures Valid() && ema == Initial(ids) && this.alpha == alpha && totalSelections == 0
    {
      this.alpha := alpha;
      ema := Initial(ids);
      totalSelections := 0;
    }

    /** Rewrites every entry in place, in whatever order the map yields them. */
    method Record(selected: string)
      requires Valid()
      modifies this
      ensures Valid() && ema == Recorded(old(ema), alpha, selected)
      ensures totalSelections == old(totalSelections) + 1
    {
      ghost var before := ema;
      var oneMinusAlpha := 1.0 - alpha;
      var todo := ema.Keys;
      while todo != {}
        invariant todo <= ema.Keys == before.Keys
        invariant forall id :: id in ema ==>
          ema[id] == if id in todo then before[id] else Decayed(before[id], oneMinusAlpha, alpha, id == selected)
        invariant totalSelections == old(totalSelections)
        decreases todo
      {
        var id :| id in todo;
        var indicator := if id == selected then 1.0 else 0.0;
        ema := ema[id := oneMinusAlpha * ema[id] + alpha * indicator];
        todo := todo - {id};
      }
      totalSelections := totalSelections + 1;
    }

    method AddArm(id: string)
      requires Valid()
      modifies this
      ensures Valid() && ema == WithArm(old(ema), id) && totalSelections == old(totalSelections)
    {
      if id !in ema {
        ema := ema[id := 0.0];
      }
    }
  }

  // ------------------------------------------------------------ one operation

  lemma DecayedIs(e: real, keep: real, alpha: real, hit: bool)
    ensures Decayed(e, keep, alpha, hit) == keep * e + if hit then alpha else 0.0
  {
  }

  lemma {:induction false} DecayedSum(ema: Fractions, keep: real, alpha: real, selected: string)
    ensures SumValues(DecayAll(ema, keep, alpha, selected))
            == keep * SumValues(ema) + if selected in ema then alpha else 0.0
    decreases |ema|
  {
    hide SumValues, Decayed;
    var after := DecayAll(ema, keep, alpha, selected);
    if ema == map[] {
      assert after == map[];
      SumValuesEmpty<string>();
    } else {
      var k :| k in ema;
      var rest := ema - {k};
      DecayedSum(rest, keep, alpha, selected);
      SumValuesRemove(ema, k);
      SumValuesRemove(after, k);
      assert after - {k} == DecayAll(rest, keep, alpha, selected);
      assert after[k] == keep * ema[k] + if k == selected then alpha else 0.0 by {
        DecayedIs(ema[k], keep, alpha, k == selected);
      }
      Distribute(keep, ema[k], SumValues(rest));
    }
  }

  /** Recording scales the total by 1 - alpha, and gives alpha back when the arm is tracked. */
  lemma RecordedSum(ema: Fractions, alpha: real, selected: string) returns (keep: real, kept: real)
    ensures keep == 1.0 - alpha && kept == keep * SumValues(ema)
    ensures SumValues(Recorded(ema, alpha, selected)) == kept + if selected in ema then alpha else 0.0
  {
    hide SumValues, DecayAll, Decayed;
    keep := 1.0 - alpha;
    kept := keep * SumValues(ema);
    DecayedSum(ema, keep, alpha, selected);
  }

  lemma WithArmSum(ema: Fractions, id: string)
    ensures SumValues(WithArm(ema, id)) == SumValues(ema)
  {
    if id !in ema {
      SumValuesInsert(ema, id, 0.0);
    }
  }

  // -------------------------------------------------------------- whole runs

  datatype Op = Record(armId: string) | AddArm(armId: string)

  function Step(ema: Fractions, alpha: real, op: Op): Fractions {
    match op
    case Record(id) => Recorded(ema, alpha, id)
    case AddArm(id) => WithArm(ema, id)
  }

  function Run(ema: Fractions, alpha: real, ops: seq<Op>): Fractions {
    if ops == [] then ema else Step(Run(ema, alpha, ops[..|ops| - 1]), alpha, ops[|ops| - 1])
  }

  /** Every recorded arm was tracked at the moment it was recorded. */
  ghost predicate AlwaysTracked(ema: Fractions, alpha: real, ops: seq<Op>) {
    forall t :: 0 <= t < |ops| && ops[t].Record? ==> ops[t].armId in Run(ema, alpha, ops[..t])
  }

  ghost predicate InUnitRange(ema: Fractions) {
    forall id :: id in ema ==> 0.0 <= ema[id] <= 1.0
  }

  lemma DecayedInRange(e: real, keep: real, alpha: real, hit: bool)
    requires 0.0 <= e <= 1.0 && 0.0 < alpha <= 1.0 && keep == 1.0 - alpha
    ensures 0.0 <= Decayed(e, keep, alpha, hit) <= 1.0
  {
    Shrinks(keep, e, keep * e);
  }

  lemma Shrinks(keep: real, e: real, p: real)
    requires p == keep * e && 0.0 <= keep <= 1.0 && 0.0 <= e <= 1.0
    ensures 0.0 <= p <= keep
    ensures e == 1.0 ==> p == keep
    ensures e < 1.0 && keep > 0.0 ==> p < keep
  {
    var q := keep * (1.0 - e);
    assert p + q == keep;
    ProductNonNegative(keep, e, p);
    ProductNonNegative(keep, 1.0 - e, q);
    if e < 1.0 && keep > 0.0 {
      ProductPositive(keep, 1.0 - e, q);
    }
  }

  lemma {:induction false} RunInRange(ema: Fractions, alpha: real, ops: seq<Op>)
    requires InUnitRange(ema) && 0.0 < alpha <= 1.0
    ensures InUnitRange(Run(ema, alpha, ops))
  {
    if ops != [] {
      var before := Run(ema, alpha, ops[..|ops| - 1]);
      RunInRange(ema, alpha, ops[..|ops| - 1]);
      forall id | id in Run(ema, alpha, ops) ensures 0.0 <= Run(ema, alpha, ops)[id] <= 1.0 {
        if id in before && ops[|ops| - 1].Record? {
          DecayedInRange(before[id], 1.0 - alpha, alpha, id == ops[|ops| - 1].armId);
        }
      }
    }
  }

  lemma TrackedPrefix(ema: Fractions, alpha: real, ops: seq<Op>)
    requires ops != []
    ensures AlwaysTracked(ema, alpha, ops) <==>
      AlwaysTracked(ema, alpha, ops[..|ops| - 1])
      && (ops[|ops| - 1].Record? ==> ops[|ops| - 1].armId in Run(ema, alpha, ops[..|ops| - 1]))
  {
    var p := ops[..|ops| - 1];
    assert forall t :: 0 <= t < |p| ==> p[..t] == ops[..t] && p[t] == ops[t];
    if AlwaysTracked(ema, alpha, ops) {
      forall t | 0 <= t < |p| && p[t].Record? ensures p[t].armId in Run(ema, alpha, p[..t]) {
        assert ops[t].armId in Run(ema, alpha, ops[..t]);
      }
    }
    if AlwaysTracked(ema, alpha, p) {
      forall t | 0 <= t < |p| && ops[t].Record? ensures ops[t].armId in Run(ema, alpha, ops[..t]) {
        assert p[t].armId in Run(ema, alpha, p[..t]);
      }
    }
  }

  /** One step of the total, as a fact about the number s. */
  ghost predicate TotalIs(s: real, tracked: bool, alpha: real) {
    && 0.0 <= s <= 1.0
    && (tracked ==> s == 1.0)
    && (alpha < 1.0 && !tracked ==> s < 1.0)
  }

  lemma TotalStep(s: real, keep: real, alpha: real, tracked: bool, hit: bool, p: real)
    requires 0.0 < alpha <= 1.0 && keep == 1.0 - alpha && p == keep * s && TotalIs(s, tracked, alpha)
    ensures TotalIs(p + if hit then alpha else 0.0, tracked && hit, alpha)
  {
    Shrinks(keep, s, p);
  }

  lemma TotalStepOf(before: Fractions, alpha: real, op: Op, tracked: bool)
    requires 0.0 < alpha <= 1.0 && TotalIs(SumValues(before), tracked, alpha)
    ensures TotalIs(SumValues(Step(before, alpha, op)), tracked && (op.Record? ==> op.armId in before), alpha)
  {
    hide TotalIs, SumValues, Recorded, WithArm;
    match op
    case Record(id) =>
      var keep, kept := RecordedSum(before, alpha, id);
      TotalStep(SumValues(before), keep, alpha, tracked, id in before, kept);
    case AddArm(id) =>
      WithArmSum(before, id);
  }

  lemma {:induction false} TotalInvariant(ema: Fractions, alpha: real, ops: seq<Op>)
    requires SumValues(ema) == 1.0 && 0.0 < alpha <= 1.0
    ensures TotalIs(SumValues(Run(ema, alpha, ops)), AlwaysTracked(ema, alpha, ops), alpha)
  {
    if ops == [] {
    } else {
      hide TotalIs, AlwaysTracked, Step;
      TotalInvariant(ema, alpha, ops[..|ops| - 1]);
      TrackedPrefix(ema, alpha, ops);
      var before := ops[..|ops| - 1];
      TotalStepOf(Run(ema, alpha, before), alpha, ops[|ops| - 1], AlwaysTracked(ema, alpha, before));
    }
  }

  /** MAIN RESULT. Conservation over any run: starting from a total of 1 the total never leaves [0, 1],
      is still 1 if every recorded arm was tracked, and for alpha < 1 only then. */
  lemma TotalOverRun(ema: Fractions, alpha: real, ops: seq<Op>)
    requires SumValues(ema) == 1.0 && 0.0 < alpha <= 1.0
    ensures 0.0 <= SumValues(Run(ema, alpha, ops)) <= 1.0
    ensures AlwaysTracked(ema, alpha, ops) ==> SumValues(Run(ema, alpha, ops)) == 1.0
    ensures alpha < 1.0 && SumValues(Run(ema, alpha, ops)) == 1.0 ==> AlwaysTracked(ema, alpha, ops)
  {
    TotalInvariant(ema, alpha, ops);
  }

  // ---------------------------------------------------------- initial fractions

  lemma {:induction false} DistinctIds(ids: seq<string>)
    ensures |set id | id in ids| <= |ids|
    ensures |set id | id in ids| == |ids| <==> Distinct(ids)
  {
    if ids == [] {
      assert (set id | id in ids) == {};
    } else {
      var n := |ids| - 1;
      var before := set id | id in ids[..n];
      DistinctIds(ids[..n]);
      assert ids == ids[..n] + [ids[n]];
      assert (set id | id in ids) == before + {ids[n]};
      DistinctLast(ids, n);
    }
  }

  lemma DistinctLast(ids: seq<string>, n: nat)
    requires |ids| == n + 1
    ensures Distinct(ids) <==> Distinct(ids[..n]) && ids[n] !in ids[..n]
  {
    if ids[n] in ids[..n] {
      var i :| 0 <= i < n && ids[..n][i] == ids[n];
      assert ids[i] == ids[n];
    }
  }

  lemma {:induction false} ConstantSum(m: Fractions, c: real, n: nat)
    requires n == |m| && forall id :: id in m ==> m[id] == c
    ensures SumValues(m) == n as real * c
    decreases |m|
  {
    hide SumValues;
    if m == map[] {
      SumValuesEmpty<string>();
    } else {
      var k :| k in m;
      ConstantSum(m - {k}, c, n - 1);
      SumValuesRemove(m, k);
      Distribute(c, (n - 1) as real, 1.0);
    }
  }

  /** MAIN RESULT. A fresh tracker is in range, and its total is 1 exactly when the ids are distinct. */
  lemma InitialTotal(ids: seq<string>)
    requires ids != []
    ensures InUnitRange(Initial(ids))
    ensures SumValues(Initial(ids)) == 1.0 <==> Distinct(ids)
  {
    hide SumValues;
    var n, c := |ids| as real, 1.0 / |ids| as real;
    assert c * n == 1.0 && 0.0 < c <= 1.0;
    ConstantSum(Initial(ids), c, |Initial(ids)|);
    assert Initial(ids).Keys == set id | id in ids;
    assert |Initial(ids)| == |Initial(ids).Keys|;
    DistinctIds(ids);
    if !Distinct(ids) {
      FewerIsLess(|Initial(ids)| as real, n, c);
    }
  }

  lemma FewerIsLess(m: real, n: real, c: real)
    requires m < n && c > 0.0 && c * n == 1.0
    ensures m * c < 1.0
  {
    ProductPositive(n - m, c, (n - m) * c);
  }

  // ------------------------------------------------------------- closed form

  /** The arms recorded by a run, in order. */
  ghost function Selections(ops: seq<Op>): seq<string> {
    if ops == [] then []
    else
      var op := ops[|ops| - 1];
      Selections(ops[..|ops| - 1]) + if op.Record? then [op.armId] else []
  }

  ghost function Power(b: real, n: nat): real {
    if n == 0 then 1.0 else b * Power(b, n - 1)
  }

  /** The weight of the first k of n selections: alpha keep^(n - 1 - t) for each hit t. */
  ghost function HitWeight(recs: seq<string>, id: string, keep: real, alpha: real, k: nat): real
    requires k <= |recs|
  {
    if k == 0 then 0.0
    else
      HitWeight(recs, id, keep, alpha, k - 1)
      + if recs[k - 1] == id then alpha * Power(keep, |recs| - k) else 0.0
  }

  lemma {:induction false} HitWeightDecays(recs: seq<string>, last: string, id: string, keep: real, alpha: real, k: nat)
    requires k <= |recs|
    ensures HitWeight(recs + [last], id, keep, alpha, k) == keep * HitWeight(recs, id, keep, alpha, k)
  {
    if k != 0 {
      HitWeightDecays(recs, last, id, keep, alpha, k - 1);
      var p := Power(keep, |recs| - k);
      assert alpha * (keep * p) == keep * (alpha * p);
      Distribute(keep, HitWeight(recs, id, keep, alpha, k - 1), if recs[k - 1] == id then alpha * p else 0.0);
    }
  }

  /** keep^n e + the weight of the arm's selections among all n. */
  ghost function ClosedForm(recs: seq<string>, id: string, keep: real, alpha: real, e: real): real {
    Power(keep, |recs|) * e + HitWeight(recs, id, keep, alpha, |recs|)
  }

  lemma ClosedFormStep(recs: seq<string>, last: string, id: string, keep: real, alpha: real, e: real)
    ensures ClosedForm(recs + [last], id, keep, alpha, e)
            == Decayed(ClosedForm(recs, id, keep, alpha, e), keep, alpha, id == last)
  {
    HitWeightDecays(recs, last, id, keep, alpha, |recs|);
    var q := Power(keep, |recs|);
    assert (keep * q) * e == keep * (q * e);
    Distribute(keep, q * e, HitWeight(recs, id, keep, alpha, |recs|));
  }

  lemma {:induction false} FractionClosedFormWith(ema: Fractions, keep: real, alpha: real, ops: seq<Op>, id: string)
    requires id in ema && keep == 1.0 - alpha
    ensures id in Run(ema, alpha, ops)
    ensures Run(ema, alpha, ops)[id] == ClosedForm(Selections(ops), id, keep, alpha, ema[id])
  {
    if ops != [] {
      hide ClosedForm, Decayed;
      var p, op := ops[..|ops| - 1], ops[|ops| - 1];
      FractionClosedFormWith(ema, keep, alpha, p, id);
      if op.Record? {
        ClosedFormStep(Selections(p), op.armId, id, keep, alpha, ema[id]);
      } else {
        assert Selections(ops) == Selections(p);
      }
    }
  }

  /** MAIN RESULT. After n selections an arm that was tracked at the start holds
      (1 - alpha)^n e + sum of alpha (1 - alpha)^(n - 1 - t) over its selections t, whatever arms were
      added meanwhile; for an arm of a fresh tracker over K ids e is 1 / K. */
  lemma FractionClosedForm(ids: seq<string>, alpha: real, ops: seq<Op>, id: string)
    requires id in ids
    ensures var ema := Run(Initial(ids), alpha, ops);
      id in ema && ema[id] == ClosedForm(Selections(ops), id, 1.0 - alpha, alpha, 1.0 / |ids| as real)
  {
    hide ClosedForm, Run;
    FractionClosedFormWith(Initial(ids), 1.0 - alpha, alpha, ops, id);
  }
}
