/** What the cache holds after any log of updates, and what that means for assignments. */
module ConfigHistory {
  import opened AssignmentAnswers
  import opened AssignmentService
  import opened Config
  import opened ConfigCaching
  import opened Murmur3
  import opened Murmur3Collisions
  import opened VariantSelection
  import opened Wrappers

  /** A deletion without an experiment names the empty id. */
  predicate Deletes(u: ConfigUpdate, id: string) {
    u.isDeletion && if u.experiment.Some? then u.experiment.value.experimentId == id else id == ""
  }

  predicate Upserts(u: ConfigUpdate, id: string) {
    !u.isDeletion && u.experiment.Some? && u.experiment.value.experimentId == id
  }

  predicate Touches(u: ConfigUpdate, id: string) {
    Deletes(u, id) || Upserts(u, id)
  }

  ghost predicate IsLastTouch(log: seq<ConfigUpdate>, i: nat, id: string) {
    && i < |log| && Touches(log[i], id)
    && forall j :: i < j < |log| ==> !Touches(log[j], id)
  }

  ghost predicate NeverDeleted(log: seq<ConfigUpdate>, id: string) {
    forall i :: 0 <= i < |log| ==> !Deletes(log[i], id)
  }

  /** One update, seen from one experiment. */
  lemma StepOnExperiment(c: Cache, u: ConfigUpdate, id: string)
    ensures !Touches(u, id) ==> Lookup(Step(c, u).experiments, id) == Lookup(c.experiments, id)
    ensures Deletes(u, id) ==> id !in Step(c, u).experiments
    ensures Upserts(u, id) ==>
      Lookup(Step(c, u).experiments, id) == Some(ExperimentFromProto(u.experiment.value, Lookup(c.experiments, id)))
  {
    hide ExperimentFromProto, WithLayer;
  }

  lemma {:induction false} UntouchedStays(c: Cache, log: seq<ConfigUpdate>, from: nat, id: string)
    requires from <= |log| && forall j :: from <= j < |log| ==> !Touches(log[j], id)
    ensures Lookup(Replay(c, log).experiments, id) == Lookup(Replay(c, log[..from]).experiments, id)
    decreases |log|
  {
    hide Step, Touches, Lookup;
    if from == |log| {
      assert log[..from] == log;
    } else {
      var last := |log| - 1;
      UntouchedStays(c, log[..last], from, id);
      StepOnExperiment(Replay(c, log[..last]), log[last], id);
      assert log[..last][..from] == log[..from];
    }
  }

  /** The initial local fields while the experiment is never deleted, and the defaults otherwise. */
  ghost function ExpectedLocal(c: Cache, log: seq<ConfigUpdate>, id: string): Local {
    if id in c.experiments && NeverDeleted(log, id) then c.experiments[id].local
    else Local(AllocationConfig(0, 9999), None, None, None, None, None, None)
  }

  lemma {:induction false} LocalPart(c: Cache, log: seq<ConfigUpdate>, id: string)
    ensures id in c.experiments && NeverDeleted(log, id) ==> id in Replay(c, log).experiments
    ensures id in Replay(c, log).experiments ==> Replay(c, log).experiments[id].local == ExpectedLocal(c, log, id)
    decreases |log|
  {
    hide Step, Deletes, Upserts;
    if log != [] {
      var last := |log| - 1;
      var before, u := log[..last], log[last];
      LocalPart(c, before, id);
      StepOnExperiment(Replay(c, before), u, id);
      assert NeverDeleted(log, id) <==> NeverDeleted(before, id) && !Deletes(u, id);
      assert Deletes(u, id) ==> !Upserts(u, id) by { NotBoth(u, id); }
    }
  }

  lemma NotBoth(u: ConfigUpdate, id: string)
    ensures !(Deletes(u, id) && Upserts(u, id))
  {}

  /** The streamed fields are the update's, one by one; states and types are the names of their codes. */
  ghost predicate Carries(proto: ProtoExperiment, s: Streamed) {
    && s.name == proto.name && s.hashSalt == proto.hashSalt && s.layerId == proto.layerId
    && s.isCumulativeHoldout == proto.isCumulativeHoldout
    && s.state == StateName(proto.state) && s.kind == TypeName(proto.kind)
    && |s.variants| == |proto.variants|
    && (forall i :: 0 <= i < |s.variants| ==>
          && s.variants[i].variantId == proto.variants[i].variantId
          && s.variants[i].trafficFraction == proto.variants[i].trafficFraction
          && s.variants[i].isControl == proto.variants[i].isControl
          && s.variants[i].payloadJson == proto.variants[i].payloadJson)
  }

  ghost function StateName(code: int): string {
    match code
    case 1 => "DRAFT"
    case 2 => "STARTING"
    case 3 => "RUNNING"
    case 4 => "CONCLUDING"
    case 5 => "CONCLUDED"
    case 6 => "ARCHIVED"
    case 7 => "PAUSED"
    case _ => "UNSPECIFIED"
  }

  ghost function TypeName(code: int): string {
    match code
    case 1 => "AB"
    case 2 => "MULTIVARIATE"
    case 3 => "INTERLEAVING"
    case 4 => "SESSION_LEVEL"
    case 5 => "PLAYBACK_QOE"
    case 6 => "MAB"
    case 7 => "CONTEXTUAL_BANDIT"
    case 8 => "CUMULATIVE_HOLDOUT"
    case 9 => "META"
    case 10 => "SWITCHBACK"
    case 11 => "QUASI"
    case _ => "UNSPECIFIED"
  }

  lemma StateNames(code: int)
    ensures NameOf(STATE_NAMES, code) == StateName(code)
  {}

  lemma TypeNames(code: int)
    ensures NameOf(TYPE_NAMES, code) == TypeName(code)
  {}

  lemma StreamedCarries(proto: ProtoExperiment)
    ensures Carries(proto, StreamedPart(proto))
  {
    StateNames(proto.state);
    TypeNames(proto.kind);
    hide NameOf, StateName, TypeName;
  }

  /** MAIN RESULT. After any log an experiment is as its last touching update left it: absent if that was
      a deletion, else with that update's streamed fields and with its initial local fields exactly when
      it was present initially and no deletion of it occurred, the defaults otherwise. */
  lemma ExperimentAfterLog(c: Cache, log: seq<ConfigUpdate>, id: string, i: nat)
    requires IsLastTouch(log, i, id)
    ensures id in Replay(c, log).experiments <==> Upserts(log[i], id)
    ensures Upserts(log[i], id) ==>
      var exp := Replay(c, log).experiments[id];
      && exp.experimentId == id && Carries(log[i].experiment.value, exp.streamed)
      && exp.local == ExpectedLocal(c, log, id)
  {
    LastTouch(c, log, id, i);
    hide *;
    if Upserts(log[i], id) {
      StreamedCarries(log[i].experiment.value);
    }
  }

  lemma LastTouch(c: Cache, log: seq<ConfigUpdate>, id: string, i: nat)
    requires IsLastTouch(log, i, id)
    ensures id in Replay(c, log).experiments <==> Upserts(log[i], id)
    ensures Upserts(log[i], id) ==>
      Replay(c, log).experiments[id]
      == ExperimentConfig(id, StreamedPart(log[i].experiment.value), ExpectedLocal(c, log, id))
  {
    hide Step, ExpectedLocal, StreamedPart;
    UntouchedStays(c, log, i + 1, id);
    assert log[..i + 1][..i] == log[..i];
    StepOnExperiment(Replay(c, log[..i]), log[i], id);
    LocalPart(c, log, id);
  }

  /** An experiment no update touches stays exactly as it was. */
  lemma UntouchedExperiment(c: Cache, log: seq<ConfigUpdate>, id: string)
    requires forall i :: 0 <= i < |log| ==> !Touches(log[i], id)
    ensures Lookup(Replay(c, log).experiments, id) == Lookup(c.experiments, id)
  {
    UntouchedStays(c, log, 0, id);
  }

  // ----------------------------------------------------------- layers and versions

  ghost predicate Names(log: seq<ConfigUpdate>, i: nat, layerId: string) {
    i < |log| && IsUpsert(log[i]) && log[i].experiment.value.layerId == layerId
  }

  /** MAIN RESULT. Layers never disappear or change; the new ones are exactly the non-empty layer names of
      upserts, at the default size. */
  lemma {:induction false} LayersAfterLog(c: Cache, log: seq<ConfigUpdate>, layerId: string)
    ensures layerId in c.layers ==> Lookup(Replay(c, log).layers, layerId) == Some(c.layers[layerId])
    ensures layerId !in c.layers ==>
      Lookup(Replay(c, log).layers, layerId) ==
        if layerId != "" && exists i: nat :: Names(log, i, layerId)
        then Some(LayerConfig(layerId, 10000))
        else None
    decreases |log|
  {
    if log != [] {
      var last := |log| - 1;
      var before := log[..last];
      LayersAfterLog(c, before, layerId);
      if i: nat :| Names(before, i, layerId) {
        assert Names(log, i, layerId);
      }
      if i: nat :| Names(log, i, layerId) && i < last {
        assert Names(before, i, layerId);
      }
      assert Names(log, last, layerId) <==> IsUpsert(log[last]) && log[last].experiment.value.layerId == layerId;
    }
  }

  /** MAIN RESULT. The version is the maximum of the initial one and those seen. */
  lemma {:induction false} VersionIsMaximum(c: Cache, log: seq<ConfigUpdate>)
    ensures c.lastVersion <= Replay(c, log).lastVersion
    ensures forall i :: 0 <= i < |log| ==> log[i].version <= Replay(c, log).lastVersion
    ensures Replay(c, log).lastVersion == c.lastVersion
      || exists i :: 0 <= i < |log| && Replay(c, log).lastVersion == log[i].version
    decreases |log|
  {
    if log != [] {
      var last := |log| - 1;
      VersionIsMaximum(c, log[..last]);
      assert Replay(c, log).lastVersion == log[last].version
        || Replay(c, log).lastVersion == Replay(c, log[..last]).lastVersion;
    }
  }

  /** Re-applying the latest update changes nothing. */
  lemma ReapplyingIsIdle(c: Cache, log: seq<ConfigUpdate>, u: ConfigUpdate)
    ensures Replay(c, log + [u] + [u]) == Replay(c, log + [u])
  {
    assert (log + [u])[..|log|] == log;
    assert (log + [u] + [u])[..|log| + 1] == log + [u];
    var s := Replay(c, log);
    StepTwice(s, u);
  }

  lemma StepTwice(c: Cache, u: ConfigUpdate)
    ensures Step(Step(c, u), u) == Step(c, u)
  {}

  /** Versions do not order updates: an update older than the cache's version is applied all the same. */
  lemma StaleUpdatesApply(c: Cache, u: ConfigUpdate, version: int)
    ensures Step(c, u.(version := version)).experiments == Step(c, u).experiments
    ensures Step(c, u.(version := version)).layers == Step(c, u).layers
  {}

  // ------------------------------------------------------------------ assignments

  /** The cache's readers see the state after a log. */
  ghost predicate Serves(config: Config, c: Cache, log: seq<ConfigUpdate>) {
    Publishes(config, Replay(c, log))
  }

  /** MAIN RESULT. The layer of an experiment an update brought is found, unless the update left it
      unnamed and the initial layers have no unnamed one. */
  lemma UpsertedExperimentFindsLayer(config: Config, c: Cache, log: seq<ConfigUpdate>, id: string, i: nat)
    requires Serves(config, c, log) && IsLastTouch(log, i, id) && Upserts(log[i], id)
    ensures id in config.experimentsById
    ensures config.experimentsById[id].streamed.layerId in config.layersById
      <==> log[i].experiment.value.layerId != "" || "" in c.layers
  {
    hide Replay, Touches;
    LastTouch(c, log, id, i);
    var layerId := log[i].experiment.value.layerId;
    LayersAfterLog(c, log, layerId);
    assert Names(log, i, layerId);
  }

  /** The experiment arrived on the stream and has no local configuration. */
  ghost predicate StreamOnly(c: Cache, log: seq<ConfigUpdate>, id: string, i: nat) {
    && IsLastTouch(log, i, id) && Upserts(log[i], id)
    && !(id in c.experiments && NeverDeleted(log, id))
  }

  /** MAIN RESULT. A running hashed experiment that arrived on the stream in a new layer gives every user
      one of its variants: its default allocation is the whole of its default-sized layer. */
  lemma NewExperimentReachesEveryone(world: World, config: Config, c: Cache, log: seq<ConfigUpdate>,
      id: string, i: nat, request: Request)
    requires Serves(config, c, log) && StreamOnly(c, log, id, i)
    requires var proto := log[i].experiment.value;
      && proto.layerId != "" && proto.layerId !in c.layers && proto.variants != []
      && NameOf(STATE_NAMES, proto.state) == "RUNNING" && IsHashed(NameOf(TYPE_NAMES, proto.kind))
    ensures var r, variants := Assign(world, config, id, request), log[i].experiment.value.variants;
      r.Ok? && exists k :: 0 <= k < |variants| && r.value.variantId == variants[k].variantId
  {
    var proto := log[i].experiment.value;
    ArrivedExperiment(config, c, log, id, i);
    LayersAfterLog(c, log, proto.layerId);
    assert Names(log, i, proto.layerId);
    ServedFromDefaults(world, config, id, proto, request);
  }

  lemma ArrivedExperiment(config: Config, c: Cache, log: seq<ConfigUpdate>, id: string, i: nat)
    requires Serves(config, c, log) && StreamOnly(c, log, id, i)
    ensures id in config.experimentsById
    ensures config.experimentsById[id] == ExperimentConfig(id, StreamedPart(log[i].experiment.value), DEFAULT_LOCAL)
    ensures config.layersById == Replay(c, log).layers
  {
    hide Replay, StreamedPart, Touches;
    LastTouch(c, log, id, i);
  }

  lemma ServedFromDefaults(world: World, config: Config, id: string, proto: ProtoExperiment, request: Request)
    requires id in config.experimentsById
    requires config.experimentsById[id] == ExperimentConfig(id, StreamedPart(proto), DEFAULT_LOCAL)
    requires Lookup(config.layersById, proto.layerId) == Some(LayerConfig(proto.layerId, DEFAULT_TOTAL_BUCKETS))
    requires proto.variants != [] && NameOf(STATE_NAMES, proto.state) == "RUNNING"
    requires IsHashed(NameOf(TYPE_NAMES, proto.kind))
    ensures var r := Assign(world, config, id, request);
      r.Ok? && exists k :: 0 <= k < |proto.variants| && r.value.variantId == proto.variants[k].variantId
  {
    hide NameOf, Chosen, CumulativeTo, WrappedSize, Hash;
    var exp := config.experimentsById[id];
    var bucket := Bucket(world.utf8(request.userId), world.utf8(exp.streamed.hashSalt), DEFAULT_TOTAL_BUCKETS);
    assert InAllocation(bucket, 0, 9999);
    var k := VariantAt(Fractions(exp.streamed.variants), bucket - 0, WrappedSize(0, 9999));
    assert Selected(exp.streamed.variants, exp.local.allocation, bucket) == exp.streamed.variants[k];
    assert exp.streamed.variants[k].variantId == proto.variants[k].variantId;
  }

  /** MAIN RESULT. A bandit or switchback experiment that arrived on the stream cannot be served: its
      configuration never travels on the stream, so every request fails a precondition. */
  lemma StreamedBanditNeverServes(world: World, config: Config, c: Cache, log: seq<ConfigUpdate>, id: string,
      i: nat, request: Request)
    requires Serves(config, c, log) && StreamOnly(c, log, id, i)
    requires var proto := log[i].experiment.value;
      && (proto.layerId != "" || "" in c.layers)
      && NameOf(STATE_NAMES, proto.state) == "RUNNING"
      && NameOf(TYPE_NAMES, proto.kind) in {"MAB", "CONTEXTUAL_BANDIT", "SWITCHBACK"}
    ensures Assign(world, config, id, request) == Err(FailedPrecondition)
  {
    hide Replay, Touches, NameOf;
    ArrivedExperiment(config, c, log, id, i);
    UpsertedExperimentFindsLayer(config, c, log, id, i);
  }
}
