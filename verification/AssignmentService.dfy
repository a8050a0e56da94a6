/** The assignment decision for one experiment, branch by branch, over one configuration snapshot. */
module AssignmentService {
  import opened Config
  import opened Murmur3
  import opened Murmur3Collisions
  import Switchback
  import opened VariantSelection
  import opened Wrappers

  datatype Request = Request(userId: string, sessionId: string, attributes: map<string, string>)

  datatype Response = Response(
    experimentId: string, variantId: string, payloadJson: string, assignmentProbability: real,
    isActive: bool, blockIndex: int, isControl: bool)

  /** The status codes returned, and a panic, which aborts the whole request. */
  datatype Failure = NotFound | Internal | FailedPrecondition | InvalidArgument | Panic

  datatype ArmSelection = ArmSelection(armId: string, probability: real)

  type Positive = n: nat | n > 0 witness 1

  /** A seeded generator's draw below a bound. */
  type Draw = f: (nat, Positive) -> nat | forall seed: nat, n: Positive :: f(seed, n) < n witness (seed, n) => 0

  /** Everything outside the snapshot that a decision reads. selectArm is the bandit service, None when
      it is not configured, fails or times out. */
  datatype World = World(
    utf8: string -> seq<Byte>,
    targets: (TargetingRule, map<string, string>) -> bool,
    selectArm: (string, BanditConfig, Request) -> Option<ArmSelection>,
    draw: Draw,
    nowSecs: nat)

  function Unassigned(experimentId: string, isActive: bool): Response {
    Response(experimentId, "", "", 0.0, isActive, 0, false)
  }

  // ----------------------------------------------------------------- bandit arms

  function FindPayload(arms: seq<BanditArm>, armId: string): string {
    if arms == [] then "" else if arms[0].armId == armId then arms[0].payloadJson else FindPayload(arms[1..], armId)
  }

  function Seed(utf8: string -> seq<Byte>, parts: seq<string>): nat
    requires parts != []
  {
    var text := Joined(utf8, parts);
    Hash(text, 1) * WORD + Hash(text, 0)
  }

  /** The parts in order with a zero byte between them. */
  function Joined(utf8: string -> seq<Byte>, parts: seq<string>): seq<Byte>
    requires parts != []
  {
    if |parts| == 1 then utf8(parts[0]) else utf8(parts[0]) + [0] + Joined(utf8, parts[1..])
  }

  /** The bandit service's arm with its local payload, or else a uniform draw over the arms. */
  function SelectArm(world: World, policyKey: string, seedParts: seq<string>, bandit: BanditConfig, request: Request):
      (r: Result<(ArmSelection, string), Failure>)
    requires seedParts != []
    ensures r.Err? <==> world.selectArm(policyKey, bandit, request).None? && bandit.arms == []
  {
    var live := world.selectArm(policyKey, bandit, request);
    if live.Some? then Ok((live.value, FindPayload(bandit.arms, live.value.armId)))
    else if bandit.arms == [] then Err(FailedPrecondition)
    else
      var n: Positive := |bandit.arms|;
      var arm := bandit.arms[world.draw(Seed(world.utf8, seedParts), n)];
      Ok((ArmSelection(arm.armId, 1.0 / n as real), arm.payloadJson))
  }

  function AssignBandit(world: World, exp: ExperimentConfig, experimentId: string,
      request: Request): (r: Result<Response, Failure>)
    ensures r.Ok? ==> r.value.experimentId == experimentId && r.value.isActive
    ensures r.Err? ==> r.error == FailedPrecondition
  {
    if exp.local.banditConfig.None? then Err(FailedPrecondition)
    else
      var bandit := exp.local.banditConfig.value;
      var selected := SelectArm(world, experimentId, [request.userId, experimentId], bandit, request);
      if selected.Err? then Err(FailedPrecondition)
      else
        var (arm, payload) := selected.value;
        Ok(Response(experimentId, arm.armId, payload, arm.probability, true, 0, false))
  }

  /** An arm within a hashed variant: the probability is the product of both levels. */
  function AssignMeta(world: World, exp: ExperimentConfig, experimentId: string, variant: VariantConfig,
      request: Request): (r: Result<Response, Failure>)
    ensures r.Ok? ==> r.value.experimentId == experimentId && r.value.isActive
    ensures r.Err? ==> r.error == FailedPrecondition
  {
    if exp.local.banditConfig.None? then Err(FailedPrecondition)
    else
      var bandit := exp.local.banditConfig.value;
      var policyKey := experimentId + ":" + variant.variantId;
      var seedParts := [request.userId, experimentId, variant.variantId];
      var selected := SelectArm(world, policyKey, seedParts, bandit, request);
      if selected.Err? then Err(FailedPrecondition)
      else
        var (arm, payload) := selected.value;
        var probability := variant.trafficFraction * arm.probability;
        Ok(Response(experimentId, arm.armId, payload, probability, true, 0, variant.isControl))
  }

  // ------------------------------------------------------------------ switchback

  function ClusterOf(sb: SwitchbackConfig, attributes: map<string, string>): string {
    if sb.clusterAttribute == "" || sb.clusterAttribute !in attributes then "" else attributes[sb.clusterAttribute]
  }

  function AssignSwitchback(world: World, exp: ExperimentConfig, experimentId: string,
      request: Request): (r: Result<Response, Failure>)
    ensures r.Ok? ==> r.value.experimentId == experimentId && r.value.isActive
    ensures r.Err? ==> r.error == FailedPrecondition || r.error == Panic
  {
    if exp.local.switchbackConfig.None? then Err(FailedPrecondition)
    else
      var sb := exp.local.switchbackConfig.value;
      if Switchback.ValidateConfig(sb).Err? then Err(FailedPrecondition)
      else if Switchback.IsInWashout(world.nowSecs, sb.blockDurationSecs, sb.washoutPeriodSecs) then
        Ok(Unassigned(experimentId, true))
      else if exp.streamed.variants == [] then Err(Panic)
      else
        var block := Switchback.ComputeBlockIndex(world.nowSecs, sb.blockDurationSecs);
        var cluster := ClusterOf(sb, request.attributes);
        var v := Switchback.SelectVariant(world.utf8, block, sb.design, cluster, experimentId, exp.streamed.variants);
        Ok(Response(experimentId, v.variantId, v.payloadJson, 1.0, true, block, v.isControl))
  }

  // -------------------------------------------------------------------- bucketing

  /** Sessions vary only where the session configuration allows it or is absent. */
  function HashInput(exp: ExperimentConfig, request: Request): string {
    if exp.streamed.kind == "SESSION_LEVEL"
       && (exp.local.sessionConfig.None? || exp.local.sessionConfig.value.allowCrossSessionVariation)
    then request.sessionId
    else request.userId
  }

  function BucketOf(world: World, exp: ExperimentConfig, totalBuckets: Word, request: Request): nat
    requires totalBuckets > 0
  {
    Bucket(world.utf8(HashInput(exp, request)), world.utf8(exp.streamed.hashSalt), totalBuckets)
  }

  predicate IsAllocated(exp: ExperimentConfig, bucket: nat) {
    InAllocation(bucket, exp.local.allocation.startBucket, exp.local.allocation.endBucket)
  }

  function AssignBucketed(world: World, exp: ExperimentConfig, experimentId: string, totalBuckets: Word,
      request: Request): (r: Result<Response, Failure>)
    ensures r.Ok? ==> r.value.experimentId == experimentId && r.value.isActive
    ensures r.Err? ==> r.error == FailedPrecondition || r.error == Panic
  {
    if totalBuckets == 0 then Err(Panic)
    else
      var bucket := BucketOf(world, exp, totalBuckets, request);
      if !IsAllocated(exp, bucket) then Ok(Unassigned(experimentId, true))
      else if exp.streamed.variants == [] then Err(Panic)
      else
        var v := Selected(exp.streamed.variants, exp.local.allocation, bucket);
        if exp.streamed.kind == "META" then AssignMeta(world, exp, experimentId, v, request)
        else Ok(Response(experimentId, v.variantId, v.payloadJson, v.trafficFraction, true, 0, v.isControl))
  }

  /** The experiment exists, is running and targets the request. */
  ghost predicate Eligible(world: World, config: Config, id: string, request: Request) {
    id in config.experimentsById && Targets(world, config.experimentsById[id], request)
  }

  ghost predicate Targets(world: World, exp: ExperimentConfig, request: Request) {
    && exp.streamed.state == "RUNNING"
    && (exp.local.targetingRule.Some? ==> world.targets(exp.local.targetingRule.value, request.attributes))
  }

  /** The decision. Each status arises exactly in its case, and a variant only for an eligible request of
      an experiment whose layer is known. */
  function Assign(world: World, config: Config, id: string, request: Request): (r: Result<Response, Failure>)
    ensures r.Ok? ==> r.value.experimentId == id
    ensures r == Err(NotFound) <==> id !in config.experimentsById
    ensures r.Ok? && !r.value.isActive <==>
      id in config.experimentsById && config.experimentsById[id].streamed.state != "RUNNING"
    ensures r == Err(Internal) <==>
      Eligible(world, config, id, request) && config.experimentsById[id].streamed.layerId !in config.layersById
    ensures r == Err(InvalidArgument) <==>
      && Eligible(world, config, id, request) && config.experimentsById[id].streamed.layerId in config.layersById
      && config.experimentsById[id].streamed.kind == "SESSION_LEVEL" && request.sessionId == ""
    ensures r.Ok? && r.value.variantId != "" ==>
      Eligible(world, config, id, request) && config.experimentsById[id].streamed.layerId in config.layersById
  {
    if id !in config.experimentsById then Err(NotFound)
    else AssignFound(world, config, config.experimentsById[id], id, request)
  }

  function AssignFound(world: World, config: Config, exp: ExperimentConfig, id: string, request: Request):
      (r: Result<Response, Failure>)
    ensures r.Ok? ==> r.value.experimentId == id
    ensures r != Err(NotFound)
    ensures r.Ok? && !r.value.isActive <==> exp.streamed.state != "RUNNING"
    ensures r == Err(Internal) <==> Targets(world, exp, request) && exp.streamed.layerId !in config.layersById
    ensures r == Err(InvalidArgument) <==>
      && Targets(world, exp, request) && exp.streamed.layerId in config.layersById
      && exp.streamed.kind == "SESSION_LEVEL" && request.sessionId == ""
    ensures r.Ok? && r.value.variantId != "" ==>
      Targets(world, exp, request) && exp.streamed.layerId in config.layersById
  {
    var rule := exp.local.targetingRule;
    var kind := exp.streamed.kind;
    if exp.streamed.state != "RUNNING" then Ok(Unassigned(id, false))
    else if rule.Some? && !world.targets(rule.value, request.attributes) then Ok(Unassigned(id, true))
    else if exp.streamed.layerId !in config.layersById then Err(Internal)
    else if kind == "MAB" || kind == "CONTEXTUAL_BANDIT" then AssignBandit(world, exp, id, request)
    else if kind == "SWITCHBACK" then AssignSwitchback(world, exp, id, request)
    else if kind == "SLATE_BANDIT" then Ok(Unassigned(id, true))
    else if kind == "SESSION_LEVEL" && request.sessionId == "" then Err(InvalidArgument)
    else AssignBucketed(world, exp, id, config.layersById[exp.streamed.layerId].totalBuckets, request)
  }
}
