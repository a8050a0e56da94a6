/** What a batch can leak when updates are published between its calls: a holdout and a regular experiment
    whose calls see them in one layer. */
module BatchLeaks {
  import opened AssignmentBatch
  import opened AssignmentService
  import opened Config
  import opened ConfigCaching
  import opened ConfigHistory
  import opened VariantSelection
  import opened Wrappers

  /** The layer in which call k, for an experiment its snapshot knows, sees that experiment. */
  ghost predicate SeesIn(calls: Calls, k: nat, id: string, layerId: string) {
    var serving := calls(k).snapshot;
    id in serving.experimentsById && serving.experimentsById[id].streamed.layerId == layerId
  }

  /** Call j decided a holdout, which claimed, and call k served a regular experiment a variant. */
  ghost predicate ClaimsAndServes(snapshot: Config, calls: Calls, request: Request, j: nat, k: nat) {
    var called := Called(snapshot, calls, request);
    && j < |Select(snapshot.experiments, true)| <= k < |called|
    && Claims(Answer(calls, j, called[j].experimentId, request))
    && var r := Answer(calls, k, called[k].experimentId, request); r.Ok? && r.value.variantId != ""
  }

  /** Both calls see their experiments in one layer, which the holdout should have kept to itself. */
  ghost predicate Leaks(snapshot: Config, calls: Calls, request: Request, j: nat, k: nat) {
    && ClaimsAndServes(snapshot, calls, request, j, k)
    && var called := Called(snapshot, calls, request);
      exists layerId ::
        SeesIn(calls, j, called[j].experimentId, layerId) && SeesIn(calls, k, called[k].experimentId, layerId)
  }

  lemma ClaimsBatchLayer(snapshot: Config, calls: Calls, request: Request, j: nat, k: nat)
    requires ClaimsAndServes(snapshot, calls, request, j, k)
    ensures var called := Called(snapshot, calls, request);
      && called[j].streamed.layerId != called[k].streamed.layerId
      && called[j] in snapshot.experiments && called[k] in snapshot.experiments
  {
    hide Answer;
    var hs := Select(snapshot.experiments, true);
    var claimed := ClaimedLayers(snapshot, calls, request);
    var us := Unclaimed(Select(snapshot.experiments, false), claimed);
    var called := Called(snapshot, calls, request);
    assert called[j] == hs[j] && called[k] == us[k - |hs|] && us[k - |hs|] in us && hs[j] in hs;
    ClaimedExactly(hs, calls, request, hs[j].streamed.layerId);
    assert ClaimsAt(hs, j, hs[j].streamed.layerId, calls, request);
  }

  // ------------------------------------------------------ seen from the update log

  /** The layer the last upsert of the experiment names, or else the one it had before. */
  function LayerAfter(layerId: string, log: seq<ConfigUpdate>, id: string): string {
    if log == [] then layerId
    else
      var u := log[|log| - 1];
      if Upserts(u, id) then u.experiment.value.layerId else LayerAfter(layerId, log[..|log| - 1], id)
  }

  /** The last update that touches the experiment, if any, is no deletion. */
  predicate KnownAfter(log: seq<ConfigUpdate>, id: string) {
    log == []
    || (var u := log[|log| - 1];
        !Deletes(u, id) && (Upserts(u, id) || KnownAfter(log[..|log| - 1], id)))
  }

  /** An update that puts the experiment in another layer than the given one. */
  predicate Moves(u: ConfigUpdate, id: string, layerId: string) {
    Upserts(u, id) && u.experiment.value.layerId != layerId
  }

  lemma {:induction false} SeenAfterLog(c: Cache, log: seq<ConfigUpdate>, id: string)
    requires id in c.experiments
    ensures id in Replay(c, log).experiments <==> KnownAfter(log, id)
    ensures KnownAfter(log, id) ==>
      Replay(c, log).experiments[id].streamed.layerId == LayerAfter(c.experiments[id].streamed.layerId, log, id)
    decreases |log|
  {
    hide Step, Deletes, Upserts;
    if log != [] {
      var last := |log| - 1;
      SeenAfterLog(c, log[..last], id);
      StepOnExperiment(Replay(c, log[..last]), log[last], id);
      NotBoth(log[last], id);
    }
  }

  lemma {:induction false} NoMoveSameLayer(layerId: string, log: seq<ConfigUpdate>, id: string)
    requires forall i :: 0 <= i < |log| ==> !Moves(log[i], id, layerId)
    ensures LayerAfter(layerId, log, id) == layerId
    decreases |log|
  {
    hide Upserts;
    if log != [] {
      var last := |log| - 1;
      NoMoveSameLayer(layerId, log[..last], id);
      assert !Moves(log[last], id, layerId);
    }
  }

  /** The batch begins in state c; call k's snapshot is published after the first reached(k) updates. */
  ghost predicate FollowsLog(snapshot: Config, calls: Calls, c: Cache, log: seq<ConfigUpdate>, reached: nat -> nat) {
    && KeyedById(c) && Publishes(snapshot, c)
    && (forall k: nat :: reached(k) <= |log|)
    && (forall k: nat :: Publishes(calls(k).snapshot, Replay(c, log[..reached(k)])))
    && (forall i: nat, k: nat :: i <= k ==> reached(i) <= reached(k))
  }

  lemma SeenByCall(snapshot: Config, calls: Calls, c: Cache, log: seq<ConfigUpdate>, reached: nat -> nat, k: nat,
      e: ExperimentConfig, layerId: string)
    requires FollowsLog(snapshot, calls, c, log, reached) && e in snapshot.experiments
    ensures reached(k) <= |log|
    ensures SeesIn(calls, k, e.experimentId, layerId)
      <==> KnownAfter(log[..reached(k)], e.experimentId)
           && LayerAfter(e.streamed.layerId, log[..reached(k)], e.experimentId) == layerId
  {
    hide Replay, KnownAfter, LayerAfter;
    assert Publishes(calls(k).snapshot, Replay(c, log[..reached(k)]));
    SeenAfterLog(c, log[..reached(k)], e.experimentId);
  }

  lemma MeetingNeedsMove(h: string, r: string, id: string, id': string, log: seq<ConfigUpdate>, n: nat, n': nat)
    requires n <= |log| && n' <= |log| && h != r && LayerAfter(h, log[..n], id) == LayerAfter(r, log[..n'], id')
    ensures (exists i :: 0 <= i < n && Moves(log[i], id, h)) || (exists i :: 0 <= i < n' && Moves(log[i], id', r))
  {
    hide LayerAfter, Moves;
    if forall i :: 0 <= i < n ==> !Moves(log[i], id, h) {
      NoMoveSameLayer(h, log[..n], id);
    }
    if forall i :: 0 <= i < n' ==> !Moves(log[i], id', r) {
      NoMoveSameLayer(r, log[..n'], id');
    }
  }

  lemma LeaksOfSeen(snapshot: Config, calls: Calls, request: Request, j: nat, k: nat, h': string, r': string)
    requires ClaimsAndServes(snapshot, calls, request, j, k)
    requires SeesIn(calls, j, Called(snapshot, calls, request)[j].experimentId, h')
    requires SeesIn(calls, k, Called(snapshot, calls, request)[k].experimentId, r')
    ensures Leaks(snapshot, calls, request, j, k) <==> h' == r'
  {
    hide Called, ClaimsAndServes;
  }

  lemma NoLeakUnlessSeen(snapshot: Config, calls: Calls, request: Request, j: nat, k: nat)
    requires ClaimsAndServes(snapshot, calls, request, j, k)
    requires forall layerId :: !SeesIn(calls, j, Called(snapshot, calls, request)[j].experimentId, layerId)
    ensures !Leaks(snapshot, calls, request, j, k)
  {
    hide Called, ClaimsAndServes, SeesIn;
  }

  /** MAIN RESULT. A claiming holdout and a served experiment are in different layers of the batch's
      snapshot. Their calls leak exactly when the holdout is still known at its call and the last upserts of
      the two before their calls, or else the batch's layers, name one layer. That takes an update during
      the batch that moved one of them. */
  lemma LeaksExactlyWhen(snapshot: Config, calls: Calls, request: Request, j: nat, k: nat,
      c: Cache, log: seq<ConfigUpdate>, reached: nat -> nat)
    requires FollowsLog(snapshot, calls, c, log, reached) && ClaimsAndServes(snapshot, calls, request, j, k)
    ensures var h, r := Called(snapshot, calls, request)[j], Called(snapshot, calls, request)[k];
      && reached(j) <= reached(k) <= |log|
      && h.streamed.layerId != r.streamed.layerId
      && (Leaks(snapshot, calls, request, j, k)
          <==> KnownAfter(log[..reached(j)], h.experimentId)
               && LayerAfter(h.streamed.layerId, log[..reached(j)], h.experimentId)
                  == LayerAfter(r.streamed.layerId, log[..reached(k)], r.experimentId))
      && (Leaks(snapshot, calls, request, j, k) ==>
            (exists i :: 0 <= i < reached(j) && Moves(log[i], h.experimentId, h.streamed.layerId))
            || (exists i :: 0 <= i < reached(k) && Moves(log[i], r.experimentId, r.streamed.layerId)))
  {
    var h, r := Called(snapshot, calls, request)[j], Called(snapshot, calls, request)[k];
    ClaimsBatchLayer(snapshot, calls, request, j, k);
    var seen := ServedIsSeen(snapshot, calls, request, j, k);
    ReachedInOrder(snapshot, calls, c, log, reached, j, k);
    hide *;
    var h' := LayerAfter(h.streamed.layerId, log[..reached(j)], h.experimentId);
    SeenByCall(snapshot, calls, c, log, reached, k, r, seen);
    SeenByCall(snapshot, calls, c, log, reached, j, h, h');
    if KnownAfter(log[..reached(j)], h.experimentId) {
      LeaksOfSeen(snapshot, calls, request, j, k, h', seen);
      if h' == seen {
        MeetingNeedsMove(
          h.streamed.layerId, r.streamed.layerId, h.experimentId, r.experimentId, log, reached(j), reached(k));
      }
    } else {
      forall layerId ensures !SeesIn(calls, j, h.experimentId, layerId) {
        SeenByCall(snapshot, calls, c, log, reached, j, h, layerId);
      }
      NoLeakUnlessSeen(snapshot, calls, request, j, k);
    }
  }

  lemma ReachedInOrder(snapshot: Config, calls: Calls, c: Cache, log: seq<ConfigUpdate>, reached: nat -> nat,
      j: nat, k: nat)
    requires FollowsLog(snapshot, calls, c, log, reached) && j <= k
    ensures reached(j) <= reached(k) <= |log|
  {
    hide Publishes, Replay;
  }

  lemma ServedIsSeen(snapshot: Config, calls: Calls, request: Request, j: nat, k: nat) returns (layerId: string)
    requires ClaimsAndServes(snapshot, calls, request, j, k)
    ensures SeesIn(calls, k, Called(snapshot, calls, request)[k].experimentId, layerId) && j < k
  {
    var id := Called(snapshot, calls, request)[k].experimentId;
    assert Answer(calls, k, id, request) == Assign(calls(k).world, calls(k).snapshot, id, request);
    hide Assign;
    layerId := calls(k).snapshot.experimentsById[id].streamed.layerId;
  }

  // ---------------------------------------------------------- inputs that do leak

  const AB_CODE := 1
  const RUNNING_CODE := 3

  /** A running experiment with one variant, as the stream delivers it. */
  function OneVariant(id: string, layerId: string, isCumulativeHoldout: bool): ProtoExperiment {
    var variants := [ProtoVariant("v", "v", 1.0, true, "")];
    ProtoExperiment(id, id, RUNNING_CODE, AB_CODE, id, layerId, variants, isCumulativeHoldout)
  }

  /** The same in the cache, with the default local fields. */
  function OneVariantConfig(id: string, layerId: string, isCumulativeHoldout: bool): ExperimentConfig {
    ExperimentConfig(
      id,
      Streamed(id, "RUNNING", "AB", id, layerId, [VariantConfig("v", 1.0, true, "")], isCumulativeHoldout),
      DEFAULT_LOCAL)
  }

  /** Holdout h and regular experiment r in the given layers. */
  function Pair(holdoutLayer: string, regularLayer: string): seq<ExperimentConfig> {
    [OneVariantConfig("h", holdoutLayer, true), OneVariantConfig("r", regularLayer, false)]
  }

  function Known(layerId: string): LayerConfig {
    LayerConfig(layerId, DEFAULT_TOTAL_BUCKETS)
  }

  function WithListed(ls: seq<LayerConfig>, layerId: string): seq<LayerConfig> {
    if layerId == "" || Known(layerId) in ls then ls else ls + [Known(layerId)]
  }

  /** What readers see when the batch begins: h in layer A, r in layer B. */
  function Before(): Config {
    FromExperimentsAndLayers(Pair("A", "B"), [Known("A"), Known("B")])
  }

  /** What they see after h and r moved to the given layers; layers stay and new ones are registered. */
  function After(holdoutLayer: string, regularLayer: string): Config {
    FromExperimentsAndLayers(
      Pair(holdoutLayer, regularLayer),
      WithListed(WithListed([Known("A"), Known("B")], holdoutLayer), regularLayer))
  }

  /** The two updates, published between the batch's snapshot and its first call. */
  function Moved(holdoutLayer: string, regularLayer: string): seq<ConfigUpdate> {
    [ConfigUpdate(Some(OneVariant("h", holdoutLayer, true)), false, 1),
     ConfigUpdate(Some(OneVariant("r", regularLayer, false)), false, 2)]
  }

  function MovedCalls(world: World, holdoutLayer: string, regularLayer: string): Calls {
    (k: nat) => Call(world, After(holdoutLayer, regularLayer))
  }

  /** ls lists m, whose layers all have the default size. */
  ghost predicate IsListing(ls: seq<LayerConfig>, m: map<string, LayerConfig>) {
    && IndexLayers(ls) == m && |ls| == |m|
    && (forall l :: l in ls <==> l.layerId in m && m[l.layerId] == l)
    && (forall id :: id in m ==> m[id] == Known(id))
  }

  lemma ListingGrows(ls: seq<LayerConfig>, m: map<string, LayerConfig>, layerId: string)
    requires IsListing(ls, m)
    ensures IsListing(WithListed(ls, layerId), WithLayer(m, layerId))
  {
    hide IndexLayers;
    assert Known(layerId) in ls <==> layerId in m;
    if layerId != "" && layerId !in m {
      IndexLayersStep(ls, Known(layerId));
    }
  }

  lemma FirstListing()
    ensures IsListing([Known("A"), Known("B")], map["A" := Known("A"), "B" := Known("B")])
  {
    var m0 := map["A" := Known("A")];
    IndexLayersStep([], Known("A"));
    IndexLayersStep([Known("A")], Known("B"));
    assert [] + [Known("A")] == [Known("A")] && [Known("A")] + [Known("B")] == [Known("A"), Known("B")];
    hide IndexLayers;
    assert m0["B" := Known("B")] == map["A" := Known("A"), "B" := Known("B")];
  }

  lemma PairIndex(holdoutLayer: string, regularLayer: string)
    ensures var es := Pair(holdoutLayer, regularLayer);
      IndexExperiments(es) == map["h" := es[0], "r" := es[1]]
  {
    var es := Pair(holdoutLayer, regularLayer);
    IndexExperimentsStep([], es[0]);
    IndexExperimentsStep([es[0]], es[1]);
    assert [] + [es[0]] == [es[0]] && [es[0]] + [es[1]] == es;
  }

  lemma PublishedPair(holdoutLayer: string, regularLayer: string, ls: seq<LayerConfig>, m: map<string, LayerConfig>,
      version: int)
    requires IsListing(ls, m)
    ensures var es := Pair(holdoutLayer, regularLayer);
      && Publishes(FromExperimentsAndLayers(es, ls), Cache(map["h" := es[0], "r" := es[1]], m, version))
      && KeyedById(Cache(map["h" := es[0], "r" := es[1]], m, version))
  {
    hide IndexLayers, IndexExperiments;
    PairIndex(holdoutLayer, regularLayer);
    var es := Pair(holdoutLayer, regularLayer);
    var all := map["h" := es[0], "r" := es[1]];
    assert all.Keys == {"h", "r"};
    assert |all| == |all.Keys| == 2;
  }

  lemma UpsertStep(c: Cache, id: string, layerId: string, holdout: bool, version: int)
    requires id in c.experiments && c.experiments[id].local == DEFAULT_LOCAL && c.lastVersion < version
    ensures Step(c, ConfigUpdate(Some(OneVariant(id, layerId, holdout)), false, version))
         == Cache(c.experiments[id := OneVariantConfig(id, layerId, holdout)], WithLayer(c.layers, layerId), version)
  {
    hide WithLayer;
    assert StreamedPart(OneVariant(id, layerId, holdout)).variants == [VariantConfig("v", 1.0, true, "")];
  }

  lemma ReplayTwo(c: Cache, log: seq<ConfigUpdate>)
    requires |log| == 2
    ensures Replay(c, log) == Step(Step(c, log[0]), log[1])
  {
    hide Step;
    assert log[..1] == [log[0]] && [log[0]][..0] == [];
    assert Replay(c, [log[0]]) == Step(c, log[0]);
  }

  lemma InitialPair()
    ensures var es := Pair("A", "B");
      Initial(Before()) == Cache(map["h" := es[0], "r" := es[1]], map["A" := Known("A"), "B" := Known("B")], 0)
  {
    FirstListing();
    PairIndex("A", "B");
    hide IndexLayers, IndexExperiments;
  }

  lemma ReplayMoved(holdoutLayer: string, regularLayer: string)
    ensures var es := Pair(holdoutLayer, regularLayer);
      var layers := map["A" := Known("A"), "B" := Known("B")];
      Replay(Initial(Before()), Moved(holdoutLayer, regularLayer))
      == Cache(map["h" := es[0], "r" := es[1]], WithLayer(WithLayer(layers, holdoutLayer), regularLayer), 2)
  {
    var c, log, es := Initial(Before()), Moved(holdoutLayer, regularLayer), Pair("A", "B");
    InitialPair();
    hide Initial, Step, WithLayer, Before;
    UpsertStep(c, "h", holdoutLayer, true, 1);
    var c1 := Step(c, log[0]);
    UpsertStep(c1, "r", regularLayer, false, 2);
    ReplayTwo(c, log);
  }

  lemma PublishedMoved(holdoutLayer: string, regularLayer: string)
    ensures KeyedById(Initial(Before())) && Publishes(Before(), Initial(Before()))
    ensures Publishes(After(holdoutLayer, regularLayer), Replay(Initial(Before()), Moved(holdoutLayer, regularLayer)))
  {
    var m, ls := map["A" := Known("A"), "B" := Known("B")], [Known("A"), Known("B")];
    FirstListing();
    PublishedPair("A", "B", ls, m, 0);
    ListingGrows(ls, m, holdoutLayer);
    var ls', m' := WithListed(ls, holdoutLayer), WithLayer(m, holdoutLayer);
    ListingGrows(ls', m', regularLayer);
    PublishedPair(holdoutLayer, regularLayer, WithListed(ls', regularLayer), WithLayer(m', regularLayer), 2);
    InitialPair();
    ReplayMoved(holdoutLayer, regularLayer);
    hide Initial, Replay, Publishes, IsListing, WithListed, WithLayer, KeyedById, FromExperimentsAndLayers, Pair;
  }

  lemma SameSnapshotFollows(snapshot: Config, calls: Calls, serving: Config, c: Cache, log: seq<ConfigUpdate>, n: nat)
    requires KeyedById(c) && Publishes(snapshot, c) && Publishes(serving, Replay(c, log)) && n == |log|
    requires forall k: nat :: calls(k).snapshot == serving
    ensures FollowsLog(snapshot, calls, c, log, k => n)
  {
    hide Publishes, Replay, KeyedById;
    assert log[..n] == log;
  }

  /** Both snapshots are what the cache publishes, before the two updates and after them. */
  lemma MovedIsPublished(world: World, holdoutLayer: string, regularLayer: string)
    ensures var c, log := Initial(Before()), Moved(holdoutLayer, regularLayer);
      FollowsLog(Before(), MovedCalls(world, holdoutLayer, regularLayer), c, log, k => |log|)
  {
    PublishedMoved(holdoutLayer, regularLayer);
    hide Initial, Replay, Publishes, KeyedById, Before, After, FollowsLog;
    var log := Moved(holdoutLayer, regularLayer);
    var calls, serving := MovedCalls(world, holdoutLayer, regularLayer), After(holdoutLayer, regularLayer);
    SameSnapshotFollows(Before(), calls, serving, Initial(Before()), log, |log|);
  }

  /** The whole default layer is allocated to the one variant. */
  lemma OneVariantServesEveryone(world: World, config: Config, id: string, layerId: string, holdout: bool,
      request: Request)
    requires id in config.experimentsById && config.experimentsById[id] == OneVariantConfig(id, layerId, holdout)
    requires layerId in config.layersById && config.layersById[layerId].totalBuckets == DEFAULT_TOTAL_BUCKETS
    ensures Assign(world, config, id, request) == Ok(Response(id, "v", "", 1.0, true, 0, true))
  {
    hide Chosen, CumulativeTo, WrappedSize;
    var exp := config.experimentsById[id];
    var bucket := BucketOf(world, exp, DEFAULT_TOTAL_BUCKETS, request);
    assert IsAllocated(exp, bucket);
    assert Selected(exp.streamed.variants, exp.local.allocation, bucket) == exp.streamed.variants[0];
  }

  /** With a single claiming holdout before a single regular experiment of another layer, both are called. */
  lemma BothCalled(snapshot: Config, calls: Calls, request: Request, h: ExperimentConfig, r: ExperimentConfig)
    requires snapshot.experiments == [h, r] && h.streamed.isCumulativeHoldout && !r.streamed.isCumulativeHoldout
    requires h.streamed.layerId != r.streamed.layerId && Claims(Answer(calls, 0, h.experimentId, request))
    ensures Select(snapshot.experiments, true) == [h]
    ensures ClaimedLayers(snapshot, calls, request) == {h.streamed.layerId}
    ensures Called(snapshot, calls, request) == [h, r]
  {
    hide Answer, Claims, Select, Claimed, Unclaimed, Successes;
    assert [] + [h] == [h] && [h] + [r] == [h, r];
    SelectStep([], h, true);
    SelectStep([], h, false);
    SelectStep([h], r, true);
    SelectStep([h], r, false);
    assert Select([h, r], true) == [h] && Select([h, r], false) == [r];
    AppendCall([], h, calls, request);
    UnclaimedStep([r], 0, {h.streamed.layerId});
    assert [r][..1] == [r] && [r][..0] == [];
    NoneUnclaimed({h.streamed.layerId});
    NothingClaimed(calls, request);
  }

  lemma NothingClaimed(calls: Calls, request: Request)
    ensures Claimed([], calls, request) == {}
  {}

  /** Both calls of the batch serve, seeing h and r where the updates put them. */
  lemma MovedAnswers(world: World, request: Request, holdoutLayer: string, regularLayer: string, k: nat)
    requires holdoutLayer != "" && regularLayer != ""
    ensures var calls := MovedCalls(world, holdoutLayer, regularLayer);
      && Answer(calls, k, "h", request) == Ok(Response("h", "v", "", 1.0, true, 0, true))
      && Answer(calls, k, "r", request) == Ok(Response("r", "v", "", 1.0, true, 0, true))
      && SeesIn(calls, k, "h", holdoutLayer) && SeesIn(calls, k, "r", regularLayer)
  {
    var m := map["A" := Known("A"), "B" := Known("B")];
    var ls := [Known("A"), Known("B")];
    FirstListing();
    ListingGrows(ls, m, holdoutLayer);
    ListingGrows(WithListed(ls, holdoutLayer), WithLayer(m, holdoutLayer), regularLayer);
    PairIndex(holdoutLayer, regularLayer);
    hide IndexLayers, IndexExperiments, WithListed;
    var serving := After(holdoutLayer, regularLayer);
    OneVariantServesEveryone(world, serving, "h", holdoutLayer, true, request);
    OneVariantServesEveryone(world, serving, "r", regularLayer, false, request);
    hide Assign;
  }

  /** A published batch: it begins with h in layer A and r in layer B, and updates move them to the given
      layers before its calls. It leaks exactly when those are one layer. */
  lemma MovesLeakExactlyWhen(world: World, request: Request, holdoutLayer: string, regularLayer: string)
    requires holdoutLayer != "" && regularLayer != ""
    ensures var calls := MovedCalls(world, holdoutLayer, regularLayer);
      var log := Moved(holdoutLayer, regularLayer);
      && FollowsLog(Before(), calls, Initial(Before()), log, k => |log|)
      && (Leaks(Before(), calls, request, 0, 1) <==> holdoutLayer == regularLayer)
  {
    var calls := MovedCalls(world, holdoutLayer, regularLayer);
    MovedIsPublished(world, holdoutLayer, regularLayer);
    MovedAnswers(world, request, holdoutLayer, regularLayer, 0);
    MovedAnswers(world, request, holdoutLayer, regularLayer, 1);
    hide MovedCalls, Answer, Select, Called, ClaimedLayers, FollowsLog, Moved, SeesIn, Leaks;
    BothCalled(Before(), calls, request, OneVariantConfig("h", "A", true), OneVariantConfig("r", "B", false));
    hide Before, FromExperimentsAndLayers;
    LeaksOfSeen(Before(), calls, request, 0, 1, holdoutLayer, regularLayer);
  }

  /** Three published batches that leak: r moves into the holdout's layer, h moves into r's, and both move
      into a new one. */
  lemma LayerMovesLeak(world: World, request: Request, layerId: string)
    requires layerId in {"A", "B", "C"}
    ensures var calls, log := MovedCalls(world, layerId, layerId), Moved(layerId, layerId);
      && FollowsLog(Before(), calls, Initial(Before()), log, k => |log|)
      && Leaks(Before(), calls, request, 0, 1)
  {
    hide Leaks, Before, MovedCalls, Moved, FollowsLog;
    MovesLeakExactlyWhen(world, request, layerId, layerId);
  }
}
