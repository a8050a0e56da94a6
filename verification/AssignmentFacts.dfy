/** What the assignment decision depends on, its agreement with the Go SDK, and temporal exposure. */
module AssignmentFacts {
  import opened AssignmentAnswers
  import opened AssignmentService
  import opened Config
  import GoSdk
  import opened Murmur3
  import opened Murmur3Collisions
  import SB = Switchback
  import opened VariantSelection
  import opened Wrappers

  /** Two snapshots agree on an experiment and on the layer it names. */
  ghost predicate AgreeOn(a: Config, b: Config, id: string) {
    && (id in a.experimentsById <==> id in b.experimentsById)
    && (id in a.experimentsById ==>
          && a.experimentsById[id] == b.experimentsById[id]
          && var l := a.experimentsById[id].streamed.layerId;
            (l in a.layersById <==> l in b.layersById) && (l in a.layersById ==> a.layersById[l] == b.layersById[l]))
  }

  /** A decision reads one experiment and its layer; no other part of a snapshot can change it. */
  lemma DependsOnOneExperiment(world: World, a: Config, b: Config, id: string, request: Request)
    requires AgreeOn(a, b, id)
    ensures Assign(world, a, id, request) == Assign(world, b, id, request)
  {}

  // ---------------------------------------------------------------- the Go SDK

  /** The SDK's cached copy of a service experiment and its layer. */
  ghost predicate IsCopy(e: GoSdk.Experiment, exp: ExperimentConfig, totalBuckets: Word) {
    && e.experimentId == exp.experimentId && e.hashSalt == exp.streamed.hashSalt
    && e.allocationStart == exp.local.allocation.startBucket && e.allocationEnd == exp.local.allocation.endBucket
    && e.totalBuckets == totalBuckets
    && e.variants == exp.streamed.variants
  }

  /** The service's answer says the same as the SDK's: unassigned and active for nil, else the same
      variant. */
  ghost predicate SameAnswer(r: Result<Response, Failure>, a: Option<GoSdk.Assignment>, id: string) {
    match a
    case None => r == Ok(Unassigned(id, true))
    case Some(g) =>
      && r.Ok? && g.experimentId == id && g.fromCache
      && r.value.(assignmentProbability := 0.0) == Response(id, g.variantName, g.payload, 0.0, true, 0, g.isControl)
  }

  /** MAIN RESULT. For a running, untargeted, hashed experiment the service and a Go SDK holding a copy of
      its configuration give every user the same answer, unless the allocation is the whole 32-bit
      range. */
  lemma SdkAgreesWithService(world: World, config: Config, id: string, request: Request, e: GoSdk.Experiment)
    requires id in config.experimentsById
    requires var exp := config.experimentsById[id];
      && exp.experimentId == id && exp.streamed.state == "RUNNING" && exp.local.targetingRule.None?
      && IsHashed(exp.streamed.kind) && exp.streamed.variants != []
      && exp.streamed.layerId in config.layersById
      && config.layersById[exp.streamed.layerId].totalBuckets > 0
      && IsCopy(e, exp, config.layersById[exp.streamed.layerId].totalBuckets)
      && !FullRange(exp.local.allocation.startBucket, exp.local.allocation.endBucket)
    ensures GoSdk.Usable(e)
    ensures SameAnswer(Assign(world, config, id, request), GoSdk.AssignmentIn(e, world.utf8, request.userId), id)
  {
    hide Bucket, Chosen, CumulativeTo;
    var exp := config.experimentsById[id];
    var a := exp.local.allocation;
    var bucket := BucketOf(world, exp, config.layersById[exp.streamed.layerId].totalBuckets, request);
    assert GoSdk.Narrow(e.totalBuckets) == e.totalBuckets;
    assert GoSdk.Narrow(e.allocationStart) == a.startBucket && GoSdk.Narrow(e.allocationEnd) == a.endBucket;
    if InAllocation(bucket, a.startBucket, a.endBucket) {
      SizesAgree(a.startBucket, a.endBucket);
    }
  }

  lemma SizesAgree(startBucket: Word, endBucket: Word)
    requires startBucket <= endBucket && !FullRange(startBucket, endBucket)
    ensures WrappedSize(startBucket, endBucket) == UnwrappedSize(startBucket, endBucket)
  {}

  // ------------------------------------------------------------------ switchback

  ghost predicate RunsSwitchback(world: World, config: Config, id: string, request: Request) {
    && id in config.experimentsById
    && var exp := config.experimentsById[id];
      && exp.streamed.state == "RUNNING" && exp.streamed.kind == "SWITCHBACK"
      && exp.streamed.layerId in config.layersById
      && (exp.local.targetingRule.Some? ==> world.targets(exp.local.targetingRule.value, request.attributes))
      && exp.local.switchbackConfig.Some? && SB.ValidateConfig(exp.local.switchbackConfig.value).Ok?
      && exp.streamed.variants != []
  }

  /** The seconds at which the service answers with the given variant id, "" meaning excluded. */
  ghost function SecondsAnswered(variantId: string, world: World, config: Config, id: string, request: Request,
      from: nat, until: nat): set<int> {
    set t: int | from <= t < until && AnswersAt(variantId, world, config, id, request, t)
  }

  predicate AnswersAt(variantId: string, world: World, config: Config, id: string, request: Request, t: int) {
    t >= 0 && var r := Assign(world.(nowSecs := t), config, id, request); r.Ok? && r.value.variantId == variantId
  }

  /** The cluster attribute's value, or no cluster if it is not configured or the request lacks it. */
  ghost predicate IsCluster(sb: SwitchbackConfig, attributes: map<string, string>, cluster: string) {
    if sb.clusterAttribute != "" && sb.clusterAttribute in attributes then cluster == attributes[sb.clusterAttribute]
    else cluster == ""
  }

  lemma ClusterIs(sb: SwitchbackConfig, attributes: map<string, string>)
    ensures IsCluster(sb, attributes, ClusterOf(sb, attributes))
  {}

  lemma AnswerAtSecond(world: World, config: Config, id: string, request: Request, cluster: string, t: nat)
    requires RunsSwitchback(world, config, id, request)
    requires IsCluster(config.experimentsById[id].local.switchbackConfig.value, request.attributes, cluster)
    ensures var exp := config.experimentsById[id];
      var sb := exp.local.switchbackConfig.value;
      var vs := exp.streamed.variants;
      var r := Assign(world.(nowSecs := t), config, id, request);
      var served := SB.Served(world.utf8, sb, cluster, id, t);
      && r.Ok?
      && (served.None? ==> r.value == Response(id, "", "", 0.0, true, 0, false))
      && (served.Some? ==>
            var v := vs[if served.value then SB.TreatmentIndex(vs) else SB.ControlIndex(vs)];
            var block := SB.ComputeBlockIndex(t, sb.blockDurationSecs);
            r.value == Response(id, v.variantId, v.payloadJson, 1.0, true, block, v.isControl))
  {
    hide SB.UsesTreatment, SB.TreatmentIndex, SB.ControlIndex, SB.IsInWashout, SB.ComputeBlockIndex, SB.ValidateConfig;
  }

  lemma SecondsMatch(variantId: string, what: Option<bool>, world: World, config: Config, id: string, request: Request,
      sb: SwitchbackConfig, cluster: string, from: nat, until: nat)
    requires forall t: nat ::
      AnswersAt(variantId, world, config, id, request, t) <==> SB.Served(world.utf8, sb, cluster, id, t) == what
    ensures |SecondsAnswered(variantId, world, config, id, request, from, until)|
         == |SB.SecondsServed(what, world.utf8, sb, cluster, id, from, until)|
  {
    hide AnswersAt, SB.Served;
    assert SecondsAnswered(variantId, world, config, id, request, from, until)
        == SB.SecondsServed(what, world.utf8, sb, cluster, id, from, until);
  }

  /** The two sides of a running switchback have different, non-empty variant ids. */
  ghost predicate DistinctSides(vs: seq<VariantConfig>)
    requires vs != []
  {
    var t, c := vs[SB.TreatmentIndex(vs)].variantId, vs[SB.ControlIndex(vs)].variantId;
    t != c && t != "" && c != ""
  }

  lemma AnswerMatches(side: bool, variantId: string, world: World, config: Config, id: string, request: Request, t: nat)
    requires RunsSwitchback(world, config, id, request) && DistinctSides(config.experimentsById[id].streamed.variants)
    requires var vs := config.experimentsById[id].streamed.variants;
      variantId == vs[if side then SB.TreatmentIndex(vs) else SB.ControlIndex(vs)].variantId
    ensures var sb := config.experimentsById[id].local.switchbackConfig.value;
      var served := SB.Served(world.utf8, sb, ClusterOf(sb, request.attributes), id, t);
      && (AnswersAt(variantId, world, config, id, request, t) <==> served == Some(side))
      && (AnswersAt("", world, config, id, request, t) <==> served == None)
  {
    hide Assign, SB.Served, SB.TreatmentIndex, SB.ControlIndex, SB.ValidateConfig, ClusterOf;
    var sb := config.experimentsById[id].local.switchbackConfig.value;
    ClusterIs(sb, request.attributes);
    AnswerAtSecond(world, config, id, request, ClusterOf(sb, request.attributes), t);
  }

  /** MAIN RESULT. Over any 2 n consecutive blocks the service serves a user of a valid alternating or
      balanced switchback the treatment variant and the control variant for n * (d - washout) seconds
      each, and excludes the user for the remaining 2 n * washout. */
  lemma EqualService(side: bool, world: World, config: Config, id: string, request: Request, first: nat,
      n: nat, from: nat, until: nat)
    requires RunsSwitchback(world, config, id, request) && DistinctSides(config.experimentsById[id].streamed.variants)
    requires var sb := config.experimentsById[id].local.switchbackConfig.value;
      && SB.IsAlternatingDesign(sb.design)
      && from == first * sb.blockDurationSecs && until == (first + 2 * n) * sb.blockDurationSecs
    ensures var exp := config.experimentsById[id];
      var sb, vs := exp.local.switchbackConfig.value, exp.streamed.variants;
      var variantId := vs[if side then SB.TreatmentIndex(vs) else SB.ControlIndex(vs)].variantId;
      && |SecondsAnswered(variantId, world, config, id, request, from, until)|
         == n * (sb.blockDurationSecs - sb.washoutPeriodSecs)
      && |SecondsAnswered("", world, config, id, request, from, until)| == 2 * n * sb.washoutPeriodSecs
  {
    hide Assign, AnswersAt, DistinctSides, ClusterOf;
    hide SB.Served, SB.TreatmentIndex, SB.ControlIndex, SB.ValidateConfig, SB.IsAlternatingDesign;
    var exp := config.experimentsById[id];
    var sb, vs := exp.local.switchbackConfig.value, exp.streamed.variants;
    var cluster := ClusterOf(sb, request.attributes);
    var variantId := vs[if side then SB.TreatmentIndex(vs) else SB.ControlIndex(vs)].variantId;
    forall t: nat ensures
      && (AnswersAt(variantId, world, config, id, request, t)
          <==> SB.Served(world.utf8, sb, cluster, id, t) == Some(side))
      && (AnswersAt("", world, config, id, request, t) <==> SB.Served(world.utf8, sb, cluster, id, t) == None)
    {
      AnswerMatches(side, variantId, world, config, id, request, t);
    }
    SB.EqualExposure(side, world.utf8, sb, cluster, id, first, n, from, until);
    SecondsMatch(variantId, Some(side), world, config, id, request, sb, cluster, from, until);
    SecondsMatch("", None, world, config, id, request, sb, cluster, from, until);
  }
}
