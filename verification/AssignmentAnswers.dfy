/** What the service answers for each type of experiment, and which requests get one answer. */
module AssignmentAnswers {
  import opened AssignmentService
  import opened Config
  import opened Murmur3
  import opened Murmur3Collisions
  import Switchback
  import opened VariantSelection
  import opened Wrappers

  /** The experiment is eligible for the request and its layer is known. */
  ghost predicate IsServed(world: World, config: Config, id: string, request: Request) {
    Eligible(world, config, id, request) && config.experimentsById[id].streamed.layerId in config.layersById
  }

  /** The answer that assigns nothing. */
  ghost predicate IsExcluded(r: Result<Response, Failure>, id: string) {
    r == Ok(Response(id, "", "", 0.0, true, 0, false))
  }

  predicate IsHashed(kind: string) {
    kind !in {"MAB", "CONTEXTUAL_BANDIT", "SWITCHBACK", "SLATE_BANDIT", "SESSION_LEVEL", "META"}
  }

  // ------------------------------------------------------------ hashed experiments

  /** v is the variant of a bucket: the first whose running total exceeds the bucket's position in the
      allocation, or else the last. The allocation's size wraps at 2^32. */
  ghost predicate IsSelected(variants: seq<VariantConfig>, a: AllocationConfig, bucket: nat, v: VariantConfig) {
    var position, size := bucket - a.startBucket, (a.endBucket - a.startBucket + 1) % 0x1_0000_0000;
    exists i: nat :: IsFirstAbove(Fractions(variants), i, position as real, size as real) && v == variants[i]
  }

  lemma SelectedIs(variants: seq<VariantConfig>, a: AllocationConfig, bucket: nat)
    requires variants != [] && a.startBucket <= bucket
    ensures IsSelected(variants, a, bucket, Selected(variants, a, bucket))
    ensures Selected(variants, a, bucket) in variants
  {
    hide CumulativeTo, IsFirstAbove, Chosen;
    var size := WrappedSize(a.startBucket, a.endBucket);
    var i := VariantAt(Fractions(variants), bucket - a.startBucket, size);
    InRange(Fractions(variants), i, (bucket - a.startBucket) as real, size as real);
  }

  lemma InRange(fractions: seq<real>, i: nat, position: real, size: real)
    requires IsFirstAbove(fractions, i, position, size)
    ensures i < |fractions|
  {}

  /** r is the answer to a hashed request: excluded outside the allocation, else the variant its bucket
      selects, with that variant's traffic fraction as probability. */
  ghost predicate IsBucketAnswer(r: Result<Response, Failure>, exp: ExperimentConfig, id: string, bucket: nat) {
    var a, variants := exp.local.allocation, exp.streamed.variants;
    if !(a.startBucket <= bucket <= a.endBucket) then IsExcluded(r, id)
    else if variants == [] then r == Err(Panic)
    else
      exists v ::
        && IsSelected(variants, a, bucket, v)
        && r == Ok(Response(id, v.variantId, v.payloadJson, v.trafficFraction, true, 0, v.isControl))
  }

  /** MAIN RESULT. The bucket of a served request is the hash of the user id; for a session-level experiment
      it is that of the session id, unless the session configuration forbids cross-session variation. */
  lemma HashedAnswer(world: World, config: Config, id: string, request: Request)
    requires IsServed(world, config, id, request)
    requires var exp := config.experimentsById[id];
      && config.layersById[exp.streamed.layerId].totalBuckets > 0
      && (IsHashed(exp.streamed.kind) || (exp.streamed.kind == "SESSION_LEVEL" && request.sessionId != ""))
    ensures var exp, r := config.experimentsById[id], Assign(world, config, id, request);
      var salt, n := world.utf8(exp.streamed.hashSalt), config.layersById[exp.streamed.layerId].totalBuckets;
      var locked := exp.local.sessionConfig.Some? && !exp.local.sessionConfig.value.allowCrossSessionVariation;
      if exp.streamed.kind == "SESSION_LEVEL" && !locked
      then IsBucketAnswer(r, exp, id, Bucket(world.utf8(request.sessionId), salt, n))
      else IsBucketAnswer(r, exp, id, Bucket(world.utf8(request.userId), salt, n))
  {
    hide Bucket, Selected, IsSelected;
    var exp := config.experimentsById[id];
    var bucket := BucketOf(world, exp, config.layersById[exp.streamed.layerId].totalBuckets, request);
    if IsAllocated(exp, bucket) && exp.streamed.variants != [] {
      SelectedIs(exp.streamed.variants, exp.local.allocation, bucket);
    }
  }

  /** MAIN RESULT. A session-level experiment that forbids cross-session variation gives one user one answer
      in all sessions; any other gives one session one answer whoever the user is. */
  lemma SessionLocking(world: World, config: Config, id: string, a: Request, b: Request)
    requires id in config.experimentsById && config.experimentsById[id].streamed.kind == "SESSION_LEVEL"
    requires a.attributes == b.attributes && a.sessionId != "" && b.sessionId != ""
    ensures var session := config.experimentsById[id].local.sessionConfig;
      && (session.Some? && !session.value.allowCrossSessionVariation && a.userId == b.userId ==>
            Assign(world, config, id, a) == Assign(world, config, id, b))
      && ((session.None? || session.value.allowCrossSessionVariation) && a.sessionId == b.sessionId ==>
            Assign(world, config, id, a) == Assign(world, config, id, b))
  {
    hide Bucket, Selected;
  }

  /** An eligible user of a hashed experiment with named variants gets one exactly when the user's bucket
      is allocated, and its probability is that variant's traffic fraction. */
  lemma ServedExactlyWhenAllocated(world: World, config: Config, id: string, request: Request)
    requires IsServed(world, config, id, request) && IsHashed(config.experimentsById[id].streamed.kind)
    requires var exp := config.experimentsById[id];
      && config.layersById[exp.streamed.layerId].totalBuckets > 0
      && exp.streamed.variants != [] && forall v :: v in exp.streamed.variants ==> v.variantId != ""
    ensures var exp, r := config.experimentsById[id], Assign(world, config, id, request);
      var n := config.layersById[exp.streamed.layerId].totalBuckets;
      var bucket := Bucket(world.utf8(request.userId), world.utf8(exp.streamed.hashSalt), n);
      && r.Ok?
      && (r.value.variantId != "" <==> exp.local.allocation.startBucket <= bucket <= exp.local.allocation.endBucket)
      && (r.value.variantId != "" ==>
            exists v ::
              && v in exp.streamed.variants
              && v.variantId == r.value.variantId && v.trafficFraction == r.value.assignmentProbability)
  {
    hide Bucket, Selected;
    var exp := config.experimentsById[id];
    var n := config.layersById[exp.streamed.layerId].totalBuckets;
    var bucket := Bucket(world.utf8(request.userId), world.utf8(exp.streamed.hashSalt), n);
    if exp.local.allocation.startBucket <= bucket <= exp.local.allocation.endBucket {
      SelectedIs(exp.streamed.variants, exp.local.allocation, bucket);
    }
  }

  // -------------------------------------------------------------- bandits and META

  /** payload is that of the first arm with the id, or "" without one. */
  ghost predicate IsArmPayload(arms: seq<BanditArm>, armId: string, payload: string) {
    && ((forall i :: 0 <= i < |arms| ==> arms[i].armId != armId) ==> payload == "")
    && (forall i :: 0 <= i < |arms| && arms[i].armId == armId && (forall k :: 0 <= k < i ==> arms[k].armId != armId) ==>
          payload == arms[i].payloadJson)
  }

  /** r serves an arm with the given share of its probability: the one the bandit service answers for the
      key, with its local payload; without such an answer, one of the n arms drawn with probability 1 / n
      by a generator seeded with two hashes of the text. */
  ghost predicate IsArmAnswer(r: Result<Response, Failure>, world: World, key: string, text: seq<Byte>,
      bandit: BanditConfig, request: Request, id: string, share: real, isControl: bool) {
    var live, n := world.selectArm(key, bandit, request), |bandit.arms|;
    if live.Some? then
      && r.Ok? && r.value.assignmentProbability == share * live.value.probability
      && IsArmPayload(bandit.arms, live.value.armId, r.value.payloadJson)
      && r.value.(assignmentProbability := 0.0, payloadJson := "")
         == Response(id, live.value.armId, "", 0.0, true, 0, isControl)
    else if n == 0 then r == Err(FailedPrecondition)
    else
      var arm := bandit.arms[world.draw(0x1_0000_0000 * Hash(text, 1) + Hash(text, 0), n)];
      && r.Ok? && r.value.assignmentProbability * n as real == share
      && r.value.(assignmentProbability := 0.0) == Response(id, arm.armId, arm.payloadJson, 0.0, true, 0, isControl)
  }

  lemma {:induction false} PayloadIsFirst(arms: seq<BanditArm>, armId: string)
    ensures IsArmPayload(arms, armId, FindPayload(arms, armId))
  {
    if arms != [] && arms[0].armId != armId {
      PayloadIsFirst(arms[1..], armId);
      forall i | 0 <= i < |arms| && arms[i].armId == armId && (forall k :: 0 <= k < i ==> arms[k].armId != armId)
        ensures FindPayload(arms, armId) == arms[i].payloadJson
      {
        assert arms[1..][i - 1] == arms[i];
        assert forall k :: 0 <= k < i - 1 ==> arms[1..][k] == arms[k + 1];
      }
      if forall i :: 0 <= i < |arms| ==> arms[i].armId != armId {
        assert forall i :: 0 <= i < |arms[1..]| ==> arms[1..][i] == arms[i + 1];
      }
    }
  }

  lemma Texts(utf8: string -> seq<Byte>, a: string, b: string, c: string)
    ensures Joined(utf8, [a, b]) == utf8(a) + [0] + utf8(b)
    ensures Joined(utf8, [a, b, c]) == utf8(a) + [0] + utf8(b) + [0] + utf8(c)
  {
    assert [a, b][1..] == [b] && [a, b, c][1..] == [b, c] && [b, c][1..] == [c];
    assert Joined(utf8, [b, c]) == utf8(b) + [0] + utf8(c);
    assert utf8(a) + [0] + (utf8(b) + [0] + utf8(c)) == utf8(a) + [0] + utf8(b) + [0] + utf8(c);
  }

  /** Selecting an arm, and taking a share of its probability. */
  lemma ArmSelected(world: World, key: string, parts: seq<string>, bandit: BanditConfig, request: Request,
      id: string, share: real, probability: real, isControl: bool, r: Result<Response, Failure>)
    requires parts != []
    requires var selected := SelectArm(world, key, parts, bandit, request);
      match selected
      case Err(_) => r == Err(FailedPrecondition)
      case Ok((arm, payload)) =>
        && probability == share * arm.probability
        && r == Ok(Response(id, arm.armId, payload, probability, true, 0, isControl))
    ensures IsArmAnswer(r, world, key, Joined(world.utf8, parts), bandit, request, id, share, isControl)
  {
    hide Hash, Joined, FindPayload, IsArmPayload;
    var live := world.selectArm(key, bandit, request);
    if live.Some? {
      PayloadIsFirst(bandit.arms, live.value.armId);
    } else if bandit.arms != [] {
      EqualShares(share, |bandit.arms| as real);
    }
  }

  lemma EqualShares(share: real, n: real)
    requires n > 0.0
    ensures share * (1.0 / n) * n == share
  {
    assert (1.0 / n) * n == 1.0;
    assert share * (1.0 / n) * n == share * ((1.0 / n) * n);
  }

  /** MAIN RESULT. A served request to a bandit experiment gets the bandit service's arm with its
      probability, or else one of its arms, each with the same probability; without a bandit configuration
      it fails a precondition. */
  lemma BanditAnswer(world: World, config: Config, id: string, request: Request)
    requires IsServed(world, config, id, request)
    requires config.experimentsById[id].streamed.kind in {"MAB", "CONTEXTUAL_BANDIT"}
    ensures var bandit, r := config.experimentsById[id].local.banditConfig, Assign(world, config, id, request);
      var text := world.utf8(request.userId) + [0] + world.utf8(id);
      if bandit.None? then r == Err(FailedPrecondition)
      else IsArmAnswer(r, world, id, text, bandit.value, request, id, 1.0, false)
  {
    hide SelectArm, IsArmAnswer;
    var exp := config.experimentsById[id];
    if exp.local.banditConfig.Some? {
      Texts(world.utf8, request.userId, id, "");
      var bandit, r := exp.local.banditConfig.value, AssignBandit(world, exp, id, request);
      var probability := if r.Ok? then r.value.assignmentProbability else 0.0;
      ArmSelected(world, id, [request.userId, id], bandit, request, id, 1.0, probability, false, r);
    }
  }

  /** The arm level of a meta-experiment: the variant scopes the key and the seed. */
  ghost predicate IsMetaAnswer(r: Result<Response, Failure>, world: World, exp: ExperimentConfig, id: string,
      v: VariantConfig, request: Request)
    requires exp.local.banditConfig.Some?
  {
    var text := world.utf8(request.userId) + [0] + world.utf8(id) + [0] + world.utf8(v.variantId);
    IsArmAnswer(r, world, id + ":" + v.variantId, text, exp.local.banditConfig.value, request, id,
                v.trafficFraction, v.isControl)
  }

  lemma MetaArm(world: World, exp: ExperimentConfig, id: string, v: VariantConfig, request: Request)
    requires exp.local.banditConfig.Some?
    ensures IsMetaAnswer(AssignMeta(world, exp, id, v, request), world, exp, id, v, request)
  {
    hide SelectArm, IsArmAnswer, Joined;
    var key, parts := id + ":" + v.variantId, [request.userId, id, v.variantId];
    var bandit, r := exp.local.banditConfig.value, AssignMeta(world, exp, id, v, request);
    var selected := SelectArm(world, key, parts, bandit, request);
    var probability := 0.0;
    if selected.Ok? {
      var (arm, payload) := selected.value;
      probability := v.trafficFraction * arm.probability;
      assert r.value.assignmentProbability == probability;
    }
    Texts(world.utf8, request.userId, id, v.variantId);
    ArmSelected(world, key, parts, bandit, request, id, v.trafficFraction, probability, v.isControl, r);
  }

  lemma NoMetaArm(world: World, exp: ExperimentConfig, id: string, v: VariantConfig, request: Request)
    requires exp.local.banditConfig.None?
    ensures AssignMeta(world, exp, id, v, request) == Err(FailedPrecondition)
  {}

  /** MAIN RESULT. A served request to a meta-experiment is excluded outside the allocation. Inside, the
      variant of the user's bucket scopes the bandit's key and the seed, its fraction multiplies the arm's
      probability, and its control flag is reported. */
  lemma MetaAnswer(world: World, config: Config, id: string, request: Request)
    requires IsServed(world, config, id, request) && config.experimentsById[id].streamed.kind == "META"
    requires var exp := config.experimentsById[id];
      config.layersById[exp.streamed.layerId].totalBuckets > 0 && exp.streamed.variants != []
    ensures var exp, r := config.experimentsById[id], Assign(world, config, id, request);
      var n, a := config.layersById[exp.streamed.layerId].totalBuckets, exp.local.allocation;
      var bucket := Bucket(world.utf8(request.userId), world.utf8(exp.streamed.hashSalt), n);
      if !(a.startBucket <= bucket <= a.endBucket) then IsExcluded(r, id)
      else if exp.local.banditConfig.None? then r == Err(FailedPrecondition)
      else
        exists v :: IsSelected(exp.streamed.variants, a, bucket, v) && IsMetaAnswer(r, world, exp, id, v, request)
  {
    hide IsSelected, IsMetaAnswer, AssignMeta, IsArmAnswer, Bucket, Selected;
    var exp := config.experimentsById[id];
    var n, a := config.layersById[exp.streamed.layerId].totalBuckets, exp.local.allocation;
    var bucket := Bucket(world.utf8(request.userId), world.utf8(exp.streamed.hashSalt), n);
    if a.startBucket <= bucket <= a.endBucket {
      var v := Selected(exp.streamed.variants, a, bucket);
      assert Assign(world, config, id, request) == AssignMeta(world, exp, id, v, request);
      if exp.local.banditConfig.Some? {
        SelectedIs(exp.streamed.variants, a, bucket);
        MetaArm(world, exp, id, v, request);
      } else {
        NoMetaArm(world, exp, id, v, request);
      }
    }
  }

  /** Requests that get no variant by their experiment's state, type or targeting. */
  lemma NothingAssigned(world: World, config: Config, id: string, request: Request)
    requires id in config.experimentsById
    ensures var exp, r := config.experimentsById[id], Assign(world, config, id, request);
      var rule := exp.local.targetingRule;
      && (exp.streamed.state != "RUNNING" ==> r == Ok(Response(id, "", "", 0.0, false, 0, false)))
      && (exp.streamed.state == "RUNNING" && rule.Some? && !world.targets(rule.value, request.attributes) ==>
            IsExcluded(r, id))
      && (IsServed(world, config, id, request) && exp.streamed.kind == "SLATE_BANDIT" ==> IsExcluded(r, id))
  {}

  /** Served requests that fail by their experiment's configuration: a switchback without a valid one, hashing
      into no buckets, and a bucket of the allocation without any variant. */
  lemma MisconfiguredFails(world: World, config: Config, id: string, request: Request)
    requires IsServed(world, config, id, request)
    ensures var exp, r := config.experimentsById[id], Assign(world, config, id, request);
      var n, a, sb := config.layersById[exp.streamed.layerId].totalBuckets, exp.local.allocation,
        exp.local.switchbackConfig;
      && (exp.streamed.kind == "SWITCHBACK" && (sb.None? || Switchback.ValidateConfig(sb.value).Err?) ==>
            r == Err(FailedPrecondition))
      && (n == 0 && (IsHashed(exp.streamed.kind) || exp.streamed.kind == "META") ==> r == Err(Panic))
      && (n == 0 && exp.streamed.kind == "SESSION_LEVEL" && request.sessionId != "" ==> r == Err(Panic))
      && (exp.streamed.kind == "META" && n > 0 && exp.streamed.variants == [] ==>
            var bucket := Bucket(world.utf8(request.userId), world.utf8(exp.streamed.hashSalt), n);
            if a.startBucket <= bucket <= a.endBucket then r == Err(Panic) else IsExcluded(r, id))
  {
    hide Bucket, Selected, Switchback.ValidateConfig;
  }
}
