/** The two-phase batch: holdouts first, then the regular experiments of unclaimed layers. Configuration
    updates may be published between the inner decisions, each of which takes its own snapshot. */
module AssignmentBatch {
  import opened AssignmentService
  import opened Config
  import opened Wrappers

  /** What the k-th inner decision sees. */
  datatype Call = Call(world: World, snapshot: Config)

  type Calls = nat -> Call

  function Answer(calls: Calls, k: nat, id: string, request: Request): (r: Result<Response, Failure>)
    ensures r.Ok? ==> r.value.experimentId == id
  {
    Assign(calls(k).world, calls(k).snapshot, id, request)
  }

  /** A holdout claims its layer by assigning a variant or by failing. */
  predicate Claims(r: Result<Response, Failure>) {
    r.Err? || r.value.variantId != ""
  }

  function Select(es: seq<ExperimentConfig>, holdout: bool): (r: seq<ExperimentConfig>)
    ensures forall e :: e in r <==> e in es && e.streamed.isCumulativeHoldout == holdout
  {
    if es == [] then []
    else
      var e := es[|es| - 1];
      Select(es[..|es| - 1], holdout) + if e.streamed.isCumulativeHoldout == holdout then [e] else []
  }

  /** The layers claimed by a run of holdouts, the k-th decided by the k-th call. */
  function Claimed(holdouts: seq<ExperimentConfig>, calls: Calls, request: Request): set<string> {
    if holdouts == [] then {}
    else
      var k := |holdouts| - 1;
      var before := Claimed(holdouts[..k], calls, request);
      if !Claims(Answer(calls, k, holdouts[k].experimentId, request)) then before
      else before + {holdouts[k].streamed.layerId}
  }

  /** Holdout k is in the layer, and its call failed or served a variant. */
  ghost predicate ClaimsAt(holdouts: seq<ExperimentConfig>, k: nat, layer: string, calls: Calls, request: Request) {
    && k < |holdouts| && holdouts[k].streamed.layerId == layer
    && var r := Answer(calls, k, holdouts[k].experimentId, request);
      r.Err? || r.value.variantId != ""
  }

  lemma {:induction false} ClaimedExactly(holdouts: seq<ExperimentConfig>, calls: Calls, request: Request,
      layer: string)
    ensures layer in Claimed(holdouts, calls, request)
      <==> exists k: nat :: ClaimsAt(holdouts, k, layer, calls, request)
  {
    hide Answer;
    if holdouts != [] {
      var last: nat := |holdouts| - 1;
      var before := holdouts[..last];
      ClaimedExactly(before, calls, request, layer);
      if k: nat :| ClaimsAt(before, k, layer, calls, request) {
        assert ClaimsAt(holdouts, k, layer, calls, request);
      }
      if k: nat :| ClaimsAt(holdouts, k, layer, calls, request) && k < last {
        assert ClaimsAt(before, k, layer, calls, request);
      }
      assert ClaimsAt(holdouts, last, layer, calls, request) <==>
        holdouts[last].streamed.layerId == layer && Claims(Answer(calls, last, holdouts[last].experimentId, request));
    }
  }

  function Unclaimed(es: seq<ExperimentConfig>, claimed: set<string>): (r: seq<ExperimentConfig>)
    ensures forall e :: e in r <==> e in es && e.streamed.layerId !in claimed
  {
    if es == [] then []
    else
      var e := es[|es| - 1];
      Unclaimed(es[..|es| - 1], claimed) + if e.streamed.layerId !in claimed then [e] else []
  }

  /** The successful answers to a run of calls, in order. */
  function Successes(called: seq<ExperimentConfig>, calls: Calls, request: Request): seq<Response> {
    if called == [] then []
    else
      var k := |called| - 1;
      var r := Answer(calls, k, called[k].experimentId, request);
      Successes(called[..k], calls, request) + if r.Ok? then [r.value] else []
  }

  /** The layers the holdouts of a snapshot claim for one request. */
  function ClaimedLayers(snapshot: Config, calls: Calls, request: Request): set<string> {
    Claimed(Select(snapshot.experiments, true), calls, request)
  }

  /** The experiments a batch decides, in order. */
  function Called(snapshot: Config, calls: Calls, request: Request): seq<ExperimentConfig> {
    Select(snapshot.experiments, true)
    + Unclaimed(Select(snapshot.experiments, false), ClaimedLayers(snapshot, calls, request))
  }

  function Batch(snapshot: Config, calls: Calls, request: Request): seq<Response> {
    Successes(Called(snapshot, calls, request), calls, request)
  }

  lemma SelectStep(es: seq<ExperimentConfig>, e: ExperimentConfig, holdout: bool)
    ensures Select([], holdout) == []
    ensures Select(es + [e], holdout)
         == Select(es, holdout) + if e.streamed.isCumulativeHoldout == holdout then [e] else []
  {
    assert (es + [e])[..|es|] == es;
  }

  method Partition(es: seq<ExperimentConfig>) returns (holdouts: seq<ExperimentConfig>, regular: seq<ExperimentConfig>)
    ensures holdouts == Select(es, true) && regular == Select(es, false)
  {
    holdouts, regular := [], [];
    for i := 0 to |es|
      invariant holdouts == Select(es[..i], true) && regular == Select(es[..i], false)
    {
      assert es[..i + 1] == es[..i] + [es[i]];
      SelectStep(es[..i], es[i], true);
      SelectStep(es[..i], es[i], false);
      if es[i].streamed.isCumulativeHoldout {
        holdouts := holdouts + [es[i]];
      } else {
        regular := regular + [es[i]];
      }
    }
    assert es[..|es|] == es;
  }

  lemma AppendCall(called: seq<ExperimentConfig>, e: ExperimentConfig, calls: Calls, request: Request)
    ensures Successes(called + [e], calls, request) ==
      Successes(called, calls, request)
      + var r := Answer(calls, |called|, e.experimentId, request); if r.Ok? then [r.value] else []
    ensures Claimed(called + [e], calls, request) ==
      Claimed(called, calls, request)
      + if Claims(Answer(calls, |called|, e.experimentId, request)) then {e.streamed.layerId} else {}
  {
    hide Answer, Claims;
    assert (called + [e])[..|called|] == called;
  }

  /** Phase one: every holdout is decided, and claims are collected. */
  method AssignHoldouts(holdouts: seq<ExperimentConfig>, calls: Calls, request: Request)
      returns (assignments: seq<Response>, holdoutLayers: set<string>)
    ensures assignments == Successes(holdouts, calls, request)
    ensures holdoutLayers == Claimed(holdouts, calls, request)
  {
    hide Answer;
    assignments, holdoutLayers := [], {};
    for i := 0 to |holdouts|
      invariant assignments == Successes(holdouts[..i], calls, request)
      invariant holdoutLayers == Claimed(holdouts[..i], calls, request)
    {
      var exp := holdouts[i];
      assert holdouts[..i + 1] == holdouts[..i] + [exp];
      AppendCall(holdouts[..i], exp, calls, request);
      var r := Answer(calls, i, exp.experimentId, request);
      if r.Ok? {
        if r.value.variantId != "" {
          holdoutLayers := holdoutLayers + {exp.streamed.layerId};
        }
        assignments := assignments + [r.value];
      } else {
        holdoutLayers := holdoutLayers + {exp.streamed.layerId};
      }
    }
    assert holdouts[..|holdouts|] == holdouts;
  }

  lemma UnclaimedStep(es: seq<ExperimentConfig>, i: nat, claimed: set<string>)
    requires i < |es|
    ensures Unclaimed(es[..i + 1], claimed)
         == Unclaimed(es[..i], claimed) + if es[i].streamed.layerId !in claimed then [es[i]] else []
  {
    assert es[..i + 1][..i] == es[..i];
  }

  /** A panic inside a decision aborts the request, so none of the decisions made may panic. */
  method AssignBatch(snapshot: Config, calls: Calls, request: Request) returns (assignments: seq<Response>)
    requires forall k :: 0 <= k < |Called(snapshot, calls, request)| ==>
      Answer(calls, k, Called(snapshot, calls, request)[k].experimentId, request) != Err(Panic)
    ensures assignments == Batch(snapshot, calls, request)
  {
    hide *;
    var holdouts, regular := Partition(snapshot.experiments);
    var holdoutLayers;
    assignments, holdoutLayers := AssignHoldouts(holdouts, calls, request);
    var made := |holdouts|;
    ghost var kept := [];
    assert holdouts + kept == holdouts && regular[..0] == [];
    NoneUnclaimed(holdoutLayers);
    for i := 0 to |regular|
      invariant kept == Unclaimed(regular[..i], holdoutLayers)
      invariant made == |holdouts + kept|
      invariant assignments == Successes(holdouts + kept, calls, request)
    {
      var exp := regular[i];
      UnclaimedStep(regular, i, holdoutLayers);
      if exp.streamed.layerId in holdoutLayers {
        continue;
      }
      AppendCall(holdouts + kept, exp, calls, request);
      assert (holdouts + kept) + [exp] == holdouts + (kept + [exp]);
      kept := kept + [exp];
      var r := Answer(calls, made, exp.experimentId, request);
      made := made + 1;
      if r.Ok? {
        assignments := assignments + [r.value];
      }
    }
    assert regular[..|regular|] == regular;
    BatchPhases(snapshot, calls, request);
  }

  lemma BatchPhases(snapshot: Config, calls: Calls, request: Request)
    ensures Batch(snapshot, calls, request) ==
      var holdouts := Select(snapshot.experiments, true);
      var claimed := Claimed(holdouts, calls, request);
      Successes(holdouts + Unclaimed(Select(snapshot.experiments, false), claimed), calls, request)
  {}

  lemma NoneUnclaimed(claimed: set<string>)
    ensures Unclaimed([], claimed) == []
  {}

  // ------------------------------------------------------------------- properties

  ghost predicate DistinctIds(es: seq<ExperimentConfig>) {
    forall i, j :: 0 <= i < j < |es| ==> es[i].experimentId != es[j].experimentId
  }

  /** The calls behind the answers: answer i is call ks[i]'s, the calls are in increasing order, and every
      successful call is among them. */
  lemma {:induction false} SuccessfulCalls(called: seq<ExperimentConfig>, calls: Calls,
      request: Request) returns (ks: seq<nat>)
    ensures |ks| == |Successes(called, calls, request)|
    ensures forall i, j :: 0 <= i < j < |ks| ==> ks[i] < ks[j]
    ensures forall i :: 0 <= i < |ks| ==>
      && ks[i] < |called|
      && Answer(calls, ks[i], called[ks[i]].experimentId, request) == Ok(Successes(called, calls, request)[i])
    ensures forall k :: 0 <= k < |called| && Answer(calls, k, called[k].experimentId, request).Ok? ==> k in ks
  {
    hide Answer;
    if called == [] {
      ks := [];
    } else {
      var last := |called| - 1;
      ks := SuccessfulCalls(called[..last], calls, request);
      if Answer(calls, last, called[last].experimentId, request).Ok? {
        ks := ks + [last];
      }
    }
  }

  /** MAIN RESULT. A batch answers a call exactly when the call succeeded, in call order: holdouts first,
      then the regular experiments whose layer, in the batch's own snapshot, no holdout claimed. */
  lemma BatchContents(snapshot: Config, calls: Calls, request: Request) returns (ks: seq<nat>)
    ensures var called, holdouts := Called(snapshot, calls, request), |Select(snapshot.experiments, true)|;
      var batch := Batch(snapshot, calls, request);
      && |ks| == |batch|
      && (forall i, j :: 0 <= i < j < |ks| ==> ks[i] < ks[j])
      && (forall i :: 0 <= i < |ks| ==>
            ks[i] < |called| && Answer(calls, ks[i], called[ks[i]].experimentId, request) == Ok(batch[i])
            && batch[i].experimentId == called[ks[i]].experimentId)
      && (forall k :: 0 <= k < |called| && Answer(calls, k, called[k].experimentId, request).Ok? ==> k in ks)
      && (forall k :: 0 <= k < holdouts ==> called[k] in snapshot.experiments && called[k].streamed.isCumulativeHoldout)
      && (forall k :: holdouts <= k < |called| ==>
            called[k] in snapshot.experiments && !called[k].streamed.isCumulativeHoldout
            && called[k].streamed.layerId !in ClaimedLayers(snapshot, calls, request))
      && (forall e :: e in snapshot.experiments ==>
            (e in called
             <==> e.streamed.isCumulativeHoldout || e.streamed.layerId !in ClaimedLayers(snapshot, calls, request)))
  {
    ks := SuccessfulCalls(Called(snapshot, calls, request), calls, request);
    hide Answer, Successes, Claimed;
    var hs := Select(snapshot.experiments, true);
    var us := Unclaimed(Select(snapshot.experiments, false), ClaimedLayers(snapshot, calls, request));
    var called := Called(snapshot, calls, request);
    assert called == hs + us;
    forall k | 0 <= k < |hs| ensures called[k] in hs { assert called[k] == hs[k]; }
    forall k | |hs| <= k < |called| ensures called[k] in us { assert called[k] == us[k - |hs|]; }
    forall i | 0 <= i < |ks| ensures Batch(snapshot, calls, request)[i].experimentId == called[ks[i]].experimentId {
      OwnId(calls, ks[i], called[ks[i]].experimentId, request);
    }
  }

  lemma OwnId(calls: Calls, k: nat, id: string, request: Request)
    ensures Answer(calls, k, id, request).Ok? ==> Answer(calls, k, id, request).value.experimentId == id
  {}

  /** MAIN RESULT. With distinct ids, an experiment of the snapshot is answered exactly when one of the
      batch's calls decided it and succeeded. */
  lemma AnsweredExactlyWhen(snapshot: Config, calls: Calls, request: Request, e: ExperimentConfig)
    requires DistinctIds(snapshot.experiments) && e in snapshot.experiments
    ensures (exists r :: r in Batch(snapshot, calls, request) && r.experimentId == e.experimentId)
      <==> exists k :: 0 <= k < |Called(snapshot, calls, request)| && Called(snapshot, calls, request)[k] == e
                       && Answer(calls, k, e.experimentId, request).Ok?
  {
    hide Answer, Called, Batch, ClaimedLayers;
    var ks := BatchContents(snapshot, calls, request);
    var batch, called := Batch(snapshot, calls, request), Called(snapshot, calls, request);
    if r :| r in batch && r.experimentId == e.experimentId {
      var i :| 0 <= i < |batch| && batch[i] == r;
      SameExperiment(snapshot.experiments, e, called[ks[i]]);
      assert called[ks[i]] == e;
    }
    if k :| 0 <= k < |called| && called[k] == e && Answer(calls, k, e.experimentId, request).Ok? {
      assert k in ks;
      var i :| 0 <= i < |ks| && ks[i] == k;
      assert batch[i].experimentId == e.experimentId && batch[i] in batch;
    }
  }

  lemma SameExperiment(es: seq<ExperimentConfig>, a: ExperimentConfig, b: ExperimentConfig)
    requires DistinctIds(es) && a in es && b in es && a.experimentId == b.experimentId
    ensures a == b
  {
    var i :| 0 <= i < |es| && es[i] == a;
    var j :| 0 <= j < |es| && es[j] == b;
    assert !(i < j) && !(j < i);
  }

  /** MAIN RESULT. No holdout leakage: once the call for a holdout has failed or served a variant, no regular
      experiment of its layer is answered, whatever is published between the calls. */
  lemma HoldoutsAreExclusive(snapshot: Config, calls: Calls, request: Request, k: nat, e: ExperimentConfig)
    requires DistinctIds(snapshot.experiments)
    requires k < |Select(snapshot.experiments, true)|
    requires var h := Select(snapshot.experiments, true)[k];
      var r := Assign(calls(k).world, calls(k).snapshot, h.experimentId, request);
      r.Err? || r.value.variantId != ""
    requires e in snapshot.experiments && !e.streamed.isCumulativeHoldout
    requires e.streamed.layerId == Select(snapshot.experiments, true)[k].streamed.layerId
    ensures forall r :: r in Batch(snapshot, calls, request) ==> r.experimentId != e.experimentId
  {
    var layer := e.streamed.layerId;
    assert ClaimsAt(Select(snapshot.experiments, true), k, layer, calls, request);
    hide Answer, Claims, Called, Batch, Assign;
    var ks := BatchContents(snapshot, calls, request);
    AnsweredExactlyWhen(snapshot, calls, request, e);
    ClaimedExactly(Select(snapshot.experiments, true), calls, request, layer);
  }

  /** MAIN RESULT. And no layer is closed without cause: if every holdout of a layer is answered without a
      variant, each regular experiment of the layer is decided. */
  lemma OpenLayersAreDecided(snapshot: Config, calls: Calls, request: Request, e: ExperimentConfig)
    requires e in snapshot.experiments && !e.streamed.isCumulativeHoldout
    requires var holdouts := Select(snapshot.experiments, true);
      forall k: nat :: k < |holdouts| && holdouts[k].streamed.layerId == e.streamed.layerId ==>
        var r := Assign(calls(k).world, calls(k).snapshot, holdouts[k].experimentId, request);
        r.Ok? && r.value.variantId == ""
    ensures e in Called(snapshot, calls, request)
  {
    var holdouts := Select(snapshot.experiments, true);
    assert forall k: nat :: !ClaimsAt(holdouts, k, e.streamed.layerId, calls, request);
    hide Answer, Claims, Called, Batch, Assign;
    ClaimedExactly(holdouts, calls, request, e.streamed.layerId);
    var ks := BatchContents(snapshot, calls, request);
  }

  // ------------------------------------------------------------------------ order

  /** at lists, in increasing order and without gaps, where es holds the entries of sub that pass the
      test. */
  ghost predicate IsSublist(es: seq<ExperimentConfig>, sub: seq<ExperimentConfig>, at: seq<nat>,
      test: ExperimentConfig -> bool) {
    && |at| == |sub|
    && (forall i, j :: 0 <= i < j < |at| ==> at[i] < at[j])
    && (forall i :: 0 <= i < |at| ==> at[i] < |es| && sub[i] == es[at[i]])
    && (forall k: nat :: k < |es| ==> (test(es[k]) <==> k in at))
  }

  lemma GrownSublist(es: seq<ExperimentConfig>, sub: seq<ExperimentConfig>, at: seq<nat>,
      test: ExperimentConfig -> bool) returns (at': seq<nat>)
    requires es != [] && IsSublist(es[..|es| - 1], sub, at, test)
    ensures IsSublist(es, sub + if test(es[|es| - 1]) then [es[|es| - 1]] else [], at', test)
  {
    var last: nat := |es| - 1;
    at' := at + if test(es[last]) then [last] else [];
    forall k: nat | k < |es| ensures test(es[k]) <==> k in at' {
      if k < last {
        assert es[..last][k] == es[k];
      } else {
        assert k !in at;
      }
    }
  }

  lemma {:induction false} SelectedInOrder(es: seq<ExperimentConfig>, holdout: bool) returns (at: seq<nat>)
    ensures IsSublist(es, Select(es, holdout), at, (e: ExperimentConfig) => e.streamed.isCumulativeHoldout == holdout)
  {
    if es == [] {
      at := [];
    } else {
      at := SelectedInOrder(es[..|es| - 1], holdout);
      var test := (e: ExperimentConfig) => e.streamed.isCumulativeHoldout == holdout;
      at := GrownSublist(es, Select(es[..|es| - 1], holdout), at, test);
    }
  }

  lemma {:induction false} UnclaimedInOrder(es: seq<ExperimentConfig>, claimed: set<string>) returns (at: seq<nat>)
    ensures IsSublist(es, Unclaimed(es, claimed), at, (e: ExperimentConfig) => e.streamed.layerId !in claimed)
  {
    if es == [] {
      at := [];
    } else {
      at := UnclaimedInOrder(es[..|es| - 1], claimed);
      var test := (e: ExperimentConfig) => e.streamed.layerId !in claimed;
      at := GrownSublist(es, Unclaimed(es[..|es| - 1], claimed), at, test);
    }
  }

  /** A sublist of a sublist. */
  lemma NestedSublist(es: seq<ExperimentConfig>, sub: seq<ExperimentConfig>, inner: seq<ExperimentConfig>,
      at: seq<nat>, at': seq<nat>, p: ExperimentConfig -> bool, q: ExperimentConfig -> bool) returns (through: seq<nat>)
    requires IsSublist(es, sub, at, p) && IsSublist(sub, inner, at', q)
    ensures IsSublist(es, inner, through, (e: ExperimentConfig) => p(e) && q(e))
  {
    through := seq(|at'|, i requires 0 <= i < |at'| => at[at'[i]]);
    forall k: nat | k < |es| ensures p(es[k]) && q(es[k]) <==> k in through {
      if p(es[k]) && q(es[k]) {
        var j :| 0 <= j < |at| && at[j] == k;
        assert sub[j] == es[k];
        var i :| 0 <= i < |at'| && at'[i] == j;
        assert through[i] == k;
      }
    }
  }

  /** MAIN RESULT. A batch decides the snapshot's experiments in its order: all holdouts, then all regular
      experiments of unclaimed layers. */
  lemma DecidedInOrder(snapshot: Config, calls: Calls, request: Request) returns (first: seq<nat>, second: seq<nat>)
    ensures var called, h := Called(snapshot, calls, request), |first|;
      && h <= |called|
      && IsSublist(snapshot.experiments, called[..h], first, (e: ExperimentConfig) => e.streamed.isCumulativeHoldout)
      && IsSublist(snapshot.experiments, called[h..], second, (e: ExperimentConfig) =>
           !e.streamed.isCumulativeHoldout && e.streamed.layerId !in ClaimedLayers(snapshot, calls, request))
  {
    hide Select, Unclaimed, Claimed;
    var es, claimed := snapshot.experiments, ClaimedLayers(snapshot, calls, request);
    first := SelectedInOrder(es, true);
    var at := SelectedInOrder(es, false);
    var at' := UnclaimedInOrder(Select(es, false), claimed);
    second := NestedSublist(es, Select(es, false), Unclaimed(Select(es, false), claimed), at, at',
      (e: ExperimentConfig) => e.streamed.isCumulativeHoldout == false,
      (e: ExperimentConfig) => e.streamed.layerId !in claimed);
    var called := Called(snapshot, calls, request);
    assert called[..|first|] == Select(es, true) && called[|first|..] == Unclaimed(Select(es, false), claimed);
  }
}
