/** The live configuration cache: a log of updates folded into two maps, published after each one. */
module ConfigCaching {
  import opened Config
  import opened Wrappers

  datatype ProtoVariant = ProtoVariant(
    variantId: string, name: string, trafficFraction: real, isControl: bool, payloadJson: string)

  /** States and types travel as enumeration codes. */
  datatype ProtoExperiment = ProtoExperiment(
    experimentId: string, name: string, state: int, kind: int, hashSalt: string, layerId: string,
    variants: seq<ProtoVariant>, isCumulativeHoldout: bool)

  datatype ConfigUpdate = ConfigUpdate(experiment: Option<ProtoExperiment>, isDeletion: bool, version: int)

  const DEFAULT_TOTAL_BUCKETS := 10000

  const STATE_NAMES := ["UNSPECIFIED", "DRAFT", "STARTING", "RUNNING", "CONCLUDING", "CONCLUDED", "ARCHIVED", "PAUSED"]

  const TYPE_NAMES := ["UNSPECIFIED", "AB", "MULTIVARIATE", "INTERLEAVING", "SESSION_LEVEL", "PLAYBACK_QOE", "MAB",
                       "CONTEXTUAL_BANDIT", "CUMULATIVE_HOLDOUT", "META", "SWITCHBACK", "QUASI"]

  /** Unknown codes read as unspecified. */
  function NameOf(names: seq<string>, code: int): string {
    if 0 <= code < |names| then names[code] else "UNSPECIFIED"
  }

  function VariantFromProto(v: ProtoVariant): VariantConfig {
    VariantConfig(v.variantId, v.trafficFraction, v.isControl, v.payloadJson)
  }

  function StreamedPart(proto: ProtoExperiment): Streamed {
    Streamed(
      proto.name, NameOf(STATE_NAMES, proto.state), NameOf(TYPE_NAMES, proto.kind), proto.hashSalt, proto.layerId,
      seq(|proto.variants|, i requires 0 <= i < |proto.variants| => VariantFromProto(proto.variants[i])),
      proto.isCumulativeHoldout)
  }

  /** The stream carries none of these. */
  const DEFAULT_LOCAL := Local(AllocationConfig(0, 9999), None, None, None, None, None, None)

  function ExperimentFromProto(proto: ProtoExperiment, existing: Option<ExperimentConfig>): ExperimentConfig {
    var local := if existing.Some? then existing.value.local else DEFAULT_LOCAL;
    ExperimentConfig(proto.experimentId, StreamedPart(proto), local)
  }

  // ------------------------------------------------------------------------ state

  datatype Cache = Cache(experiments: map<string, ExperimentConfig>, layers: map<string, LayerConfig>, lastVersion: int)

  ghost predicate KeyedById(c: Cache) {
    && (forall id :: id in c.experiments ==> c.experiments[id].experimentId == id)
    && (forall id :: id in c.layers ==> c.layers[id].layerId == id)
  }

  function Initial(config: Config): Cache {
    Cache(IndexExperiments(config.experiments), IndexLayers(config.layers), 0)
  }

  function TargetId(u: ConfigUpdate): string {
    if u.experiment.Some? then u.experiment.value.experimentId else ""
  }

  predicate IsUpsert(u: ConfigUpdate) {
    !u.isDeletion && u.experiment.Some?
  }

  function Lookup<K, V>(m: map<K, V>, k: K): Option<V> {
    if k in m then Some(m[k]) else None
  }

  function WithLayer(layers: map<string, LayerConfig>, layerId: string): map<string, LayerConfig> {
    if layerId == "" || layerId in layers then layers
    else layers[layerId := LayerConfig(layerId, DEFAULT_TOTAL_BUCKETS)]
  }

  function Step(c: Cache, u: ConfigUpdate): Cache {
    var version := if u.version > c.lastVersion then u.version else c.lastVersion;
    if u.isDeletion then Cache(c.experiments - {TargetId(u)}, c.layers, version)
    else if u.experiment.None? then c.(lastVersion := version)
    else
      var proto := u.experiment.value;
      var config := ExperimentFromProto(proto, Lookup(c.experiments, proto.experimentId));
      Cache(c.experiments[proto.experimentId := config], WithLayer(c.layers, proto.layerId), version)
  }

  function Replay(c: Cache, log: seq<ConfigUpdate>): Cache {
    if log == [] then c else Step(Replay(c, log[..|log| - 1]), log[|log| - 1])
  }

  /** What readers see holds exactly the maps: by-id indexes equal to them, and lists of their values
      without repetition. */
  ghost predicate Publishes(published: Config, c: Cache) {
    && published.experimentsById == c.experiments && published.layersById == c.layers
    && |published.experiments| == |c.experiments| && |published.layers| == |c.layers|
    && (forall e ::
          e in published.experiments <==> e.experimentId in c.experiments && c.experiments[e.experimentId] == e)
    && (forall l :: l in published.layers <==> l.layerId in c.layers && c.layers[l.layerId] == l)
  }

  class ConfigCache {
    var experiments: map<string, ExperimentConfig>
    var layers: map<string, LayerConfig>
    var lastVersion: int
    var published: Config

    function State(): Cache
      reads this
    {
      Cache(experiments, layers, lastVersion)
    }

    constructor (initial: Config)
      ensures State() == Initial(initial) && KeyedById(State())
      ensures published == initial
    {
      var es: map<string, ExperimentConfig> := map[];
      for i := 0 to |initial.experiments|
        invariant es == IndexExperiments(initial.experiments[..i])
      {
        var e := initial.experiments[i];
        IndexExperimentsStep(initial.experiments[..i], e);
        assert initial.experiments[..i + 1] == initial.experiments[..i] + [e];
        es := es[e.experimentId := e];
      }
      var ls: map<string, LayerConfig> := map[];
      for i := 0 to |initial.layers|
        invariant ls == IndexLayers(initial.layers[..i])
      {
        var l := initial.layers[i];
        IndexLayersStep(initial.layers[..i], l);
        assert initial.layers[..i + 1] == initial.layers[..i] + [l];
        ls := ls[l.layerId := l];
      }
      assert initial.experiments[..|initial.experiments|] == initial.experiments;
      assert initial.layers[..|initial.layers|] == initial.layers;
      experiments, layers, lastVersion, published := es, ls, 0, initial;
      InitialIsKeyed(initial);
    }

    method ApplyUpdate(update: ConfigUpdate)
      requires KeyedById(State())
      modifies this
      ensures State() == Step(old(State()), update) && KeyedById(State())
      ensures Publishes(published, State())
    {
      var expId := if update.experiment.Some? then update.experiment.value.experimentId else "";
      if update.isDeletion {
        experiments := experiments - {expId};
      } else if update.experiment.Some? {
        var expConfig := ExperimentFromProto(update.experiment.value, Lookup(experiments, expId));
        var layerId := expConfig.streamed.layerId;
        if layerId != "" && layerId !in layers {
          layers := layers[layerId := LayerConfig(layerId, DEFAULT_TOTAL_BUCKETS)];
        }
        experiments := experiments[expId := expConfig];
      }
      if update.version > lastVersion {
        lastVersion := update.version;
      }
      Publish();
    }

    /** The maps are walked in no particular order. */
    method Publish()
      requires KeyedById(State())
      modifies this`published
      ensures Publishes(published, State())
    {
      var es := ExperimentValues(experiments);
      var ls := LayerValues(layers);
      published := FromExperimentsAndLayers(es, ls);
    }

    /** What a reader's handle returns. */
    method Snapshot() returns (c: Config)
      ensures c == published
    {
      c := published;
    }
  }

  /** The stream task's loop over a log of updates. */
  method Consume(cache: ConfigCache, log: seq<ConfigUpdate>)
    requires KeyedById(cache.State())
    modifies cache
    ensures cache.State() == Replay(old(cache.State()), log) && KeyedById(cache.State())
    ensures if log == [] then cache.published == old(cache.published) else Publishes(cache.published, cache.State())
  {
    hide Step, Publishes;
    for i := 0 to |log|
      invariant KeyedById(cache.State()) && cache.State() == Replay(old(cache.State()), log[..i])
      invariant if i == 0 then cache.published == old(cache.published) else Publishes(cache.published, cache.State())
    {
      assert log[..i + 1][..i] == log[..i];
      cache.ApplyUpdate(log[i]);
    }
    assert log[..|log|] == log;
  }

  lemma IndexExperimentsStep(es: seq<ExperimentConfig>, e: ExperimentConfig)
    ensures IndexExperiments([]) == map[]
    ensures IndexExperiments(es + [e]) == IndexExperiments(es)[e.experimentId := e]
  {
    assert (es + [e])[..|es|] == es;
  }

  lemma IndexLayersStep(ls: seq<LayerConfig>, l: LayerConfig)
    ensures IndexLayers([]) == map[]
    ensures IndexLayers(ls + [l]) == IndexLayers(ls)[l.layerId := l]
  {
    assert (ls + [l])[..|ls|] == ls;
  }

  /** The last entry with an id is the one its index holds. */
  lemma {:induction false} LastExperimentIndexed(es: seq<ExperimentConfig>, i: nat)
    requires i < |es| && forall j :: i < j < |es| ==> es[j].experimentId != es[i].experimentId
    ensures Lookup(IndexExperiments(es), es[i].experimentId) == Some(es[i])
  {
    if i < |es| - 1 {
      LastExperimentIndexed(es[..|es| - 1], i);
    }
  }

  lemma {:induction false} LastLayerIndexed(ls: seq<LayerConfig>, i: nat)
    requires i < |ls| && forall j :: i < j < |ls| ==> ls[j].layerId != ls[i].layerId
    ensures Lookup(IndexLayers(ls), ls[i].layerId) == Some(ls[i])
  {
    if i < |ls| - 1 {
      LastLayerIndexed(ls[..|ls| - 1], i);
    }
  }

  lemma {:induction false} IndexesAreKeyed(es: seq<ExperimentConfig>, ls: seq<LayerConfig>)
    ensures forall id :: id in IndexExperiments(es) ==> IndexExperiments(es)[id].experimentId == id
    ensures forall id :: id in IndexLayers(ls) ==> IndexLayers(ls)[id].layerId == id
    decreases |es| + |ls|
  {
    if es != [] { IndexesAreKeyed(es[..|es| - 1], ls); }
    if ls != [] { IndexesAreKeyed(es, ls[..|ls| - 1]); }
  }

  lemma InitialIsKeyed(config: Config)
    ensures KeyedById(Initial(config))
  {
    IndexesAreKeyed(config.experiments, config.layers);
  }

  lemma PutBack<V>(m: map<string, V>, left: set<string>, id: string)
    requires id in left && left <= m.Keys
    ensures m - (left - {id}) == (m - left)[id := m[id]]
  {}

  /** The values of a map keyed by id, in some order. */
  method ExperimentValues(m: map<string, ExperimentConfig>) returns (es: seq<ExperimentConfig>)
    requires forall id :: id in m ==> m[id].experimentId == id
    ensures IndexExperiments(es) == m && |es| == |m|
    ensures forall e :: e in es <==> e.experimentId in m && m[e.experimentId] == e
  {
    hide IndexExperiments;
    es := [];
    var left := m.Keys;
    assert IndexExperiments([]) == map[] by { NoIndexes(); }
    while left != {}
      invariant left <= m.Keys && |es| + |left| == |m|
      invariant IndexExperiments(es) == m - left
      invariant forall e :: e in es <==> e.experimentId in m && e.experimentId !in left && m[e.experimentId] == e
      decreases |left|
    {
      var id :| id in left;
      IndexExperimentsStep(es, m[id]);
      PutBack(m, left, id);
      es, left := es + [m[id]], left - {id};
    }
  }

  method LayerValues(m: map<string, LayerConfig>) returns (ls: seq<LayerConfig>)
    requires forall id :: id in m ==> m[id].layerId == id
    ensures IndexLayers(ls) == m && |ls| == |m|
    ensures forall l :: l in ls <==> l.layerId in m && m[l.layerId] == l
  {
    hide IndexLayers;
    ls := [];
    var left := m.Keys;
    assert IndexLayers([]) == map[] by { NoIndexes(); }
    while left != {}
      invariant left <= m.Keys && |ls| + |left| == |m|
      invariant IndexLayers(ls) == m - left
      invariant forall l :: l in ls <==> l.layerId in m && l.layerId !in left && m[l.layerId] == l
      decreases |left|
    {
      var id :| id in left;
      IndexLayersStep(ls, m[id]);
      PutBack(m, left, id);
      ls, left := ls + [m[id]], left - {id};
    }
  }

  lemma NoIndexes()
    ensures IndexExperiments([]) == map[] && IndexLayers([]) == map[]
  {}
}
