/** The configuration records the assignment service reads. */
module Config {
  import opened Murmur3
  import opened Wrappers

  datatype VariantConfig = VariantConfig(
    variantId: string, trafficFraction: real, isControl: bool, payloadJson: string)

  /** Both ends are inclusive. */
  datatype AllocationConfig = AllocationConfig(startBucket: Word, endBucket: Word)

  datatype LayerConfig = LayerConfig(layerId: string, totalBuckets: Word)

  datatype TargetingPredicate = TargetingPredicate(attributeKey: string, operator: string, values: seq<string>)

  datatype TargetingRule = TargetingRule(groups: seq<seq<TargetingPredicate>>)

  datatype SessionConfig = SessionConfig(sessionIdAttribute: string, allowCrossSessionVariation: bool)

  datatype InterleavingConfig = InterleavingConfig(method_: string, algorithmIds: seq<string>, maxListSize: nat)

  datatype BanditArm = BanditArm(armId: string, payloadJson: string)

  datatype BanditConfig = BanditConfig(algorithm: string, arms: seq<BanditArm>, numSlots: Option<int>)

  datatype SwitchbackConfig = SwitchbackConfig(
    blockDurationSecs: int, plannedCycles: int, clusterAttribute: string, washoutPeriodSecs: int, design: string)

  datatype MetaExperimentConfig = MetaExperimentConfig(baseAlgorithm: string, outcomeMetricIds: seq<string>)

  /** The fields an update stream carries. */
  datatype Streamed = Streamed(
    name: string, state: string, kind: string, hashSalt: string, layerId: string,
    variants: seq<VariantConfig>, isCumulativeHoldout: bool)

  /** The fields only a local configuration file carries. */
  datatype Local = Local(
    allocation: AllocationConfig,
    targetingRule: Option<TargetingRule>,
    sessionConfig: Option<SessionConfig>,
    interleavingConfig: Option<InterleavingConfig>,
    banditConfig: Option<BanditConfig>,
    switchbackConfig: Option<SwitchbackConfig>,
    metaExperimentConfig: Option<MetaExperimentConfig>)

  datatype ExperimentConfig = ExperimentConfig(experimentId: string, streamed: Streamed, local: Local)

  /** Lists and indexes; an index keeps the last entry of a repeated id. */
  datatype Config = Config(
    experiments: seq<ExperimentConfig>,
    layers: seq<LayerConfig>,
    experimentsById: map<string, ExperimentConfig>,
    layersById: map<string, LayerConfig>)

  function IndexExperiments(es: seq<ExperimentConfig>): map<string, ExperimentConfig> {
    if es == [] then map[]
    else IndexExperiments(es[..|es| - 1])[es[|es| - 1].experimentId := es[|es| - 1]]
  }

  function IndexLayers(ls: seq<LayerConfig>): map<string, LayerConfig> {
    if ls == [] then map[]
    else IndexLayers(ls[..|ls| - 1])[ls[|ls| - 1].layerId := ls[|ls| - 1]]
  }

  function FromExperimentsAndLayers(experiments: seq<ExperimentConfig>, layers: seq<LayerConfig>): Config {
    Config(experiments, layers, IndexExperiments(experiments), IndexLayers(layers))
  }
}
