/** The Go SDK's provider that evaluates assignments from a cached configuration. */
module GoSdk {
  import opened Config
  import opened Murmur3
  import opened Murmur3Collisions
  import VS = VariantSelection
  import opened Wrappers

  /** The ends and the bucket count are signed here and are narrowed to 32 bits where they are used. A
      variant's name and payload are the service's variant id and payload text. */
  datatype Experiment = Experiment(
    experimentId: string, hashSalt: string, layerName: string, variants: seq<VariantConfig>,
    allocationStart: int, allocationEnd: int, totalBuckets: int)

  datatype Assignment = Assignment(
    experimentId: string, variantName: string, payload: string, fromCache: bool, isControl: bool)

  function Narrow(n: int): Word {
    n % WORD
  }

  /** The word differs from the signed integer by a multiple of 2^32. */
  lemma NarrowedBy(n: int) returns (k: int)
    ensures n == k * 0x1_0000_0000 + Narrow(n)
  {
    k := n / WORD;
  }

  /** Hashing into zero buckets panics, so a configuration with variants needs some. */
  predicate Usable(e: Experiment) {
    e.variants != [] ==> Narrow(e.totalBuckets) > 0
  }

  predicate AllUsable(experiments: map<string, Experiment>) {
    forall id :: id in experiments ==> Usable(experiments[id])
  }

  /** What the provider answers for one experiment: nothing outside the allocation. */
  function AssignmentIn(e: Experiment, utf8: string -> seq<Byte>, userId: string): Option<Assignment>
    requires Usable(e)
  {
    if e.variants == [] then None
    else
      var bucket := Bucket(utf8(userId), utf8(e.hashSalt), Narrow(e.totalBuckets));
      if !VS.InAllocation(bucket, Narrow(e.allocationStart), Narrow(e.allocationEnd)) then None
      else
        var size := VS.UnwrappedSize(e.allocationStart, e.allocationEnd);
        var v := e.variants[VS.VariantAt(VS.Fractions(e.variants), bucket - Narrow(e.allocationStart), size)];
        Some(Assignment(e.experimentId, v.variantId, v.payloadJson, true, v.isControl))
  }

  function Index(configs: seq<Experiment>, n: nat): map<string, Experiment>
    requires n <= |configs|
  {
    if n == 0 then map[] else Index(configs, n - 1)[configs[n - 1].experimentId := configs[n - 1]]
  }

  /** The last configuration of an id is the one that is kept. */
  lemma {:induction false} LastIsKept(configs: seq<Experiment>, n: nat, i: nat)
    requires i < n <= |configs| && forall j :: i < j < n ==> configs[j].experimentId != configs[i].experimentId
    ensures configs[i].experimentId in Index(configs, n) && Index(configs, n)[configs[i].experimentId] == configs[i]
  {
    if i < n - 1 {
      LastIsKept(configs, n - 1, i);
    }
  }

  class LocalProvider {
    var experiments: map<string, Experiment>

    constructor (configs: seq<Experiment>)
      ensures experiments == Index(configs, |configs|)
    {
      var m: map<string, Experiment> := map[];
      for i := 0 to |configs|
        invariant m == Index(configs, i)
      {
        m := m[configs[i].experimentId := configs[i]];
      }
      experiments := m;
    }

    method GetAssignment(utf8: string -> seq<Byte>, experimentId: string,
        userId: string) returns (a: Option<Assignment>)
      requires experimentId in experiments ==> Usable(experiments[experimentId])
      ensures a == if experimentId !in experiments then None else AssignmentIn(experiments[experimentId], utf8, userId)
    {
      if experimentId !in experiments {
        return None;
      }
      var config := experiments[experimentId];
      if |config.variants| == 0 {
        return None;
      }
      var bucket := GoComputeBucket(utf8(userId), utf8(config.hashSalt), Narrow(config.totalBuckets));
      if !VS.InAllocation(bucket, Narrow(config.allocationStart), Narrow(config.allocationEnd)) {
        return None;
      }
      a := Allocate(config, bucket);
      assert config == experiments[experimentId];
    }

    /** The selection loop of GetAssignment. */
    method Allocate(config: Experiment, bucket: Word) returns (a: Option<Assignment>)
      requires config.variants != []
      requires VS.InAllocation(bucket, Narrow(config.allocationStart), Narrow(config.allocationEnd))
      ensures
        var size := VS.UnwrappedSize(config.allocationStart, config.allocationEnd);
        var position := bucket - Narrow(config.allocationStart);
        var v := config.variants[VS.VariantAt(VS.Fractions(config.variants), position, size)];
        a == Some(Assignment(config.experimentId, v.variantId, v.payloadJson, true, v.isControl))
    {
      hide VS.Fractions, Narrow, VS.CumulativeTo, VS.Chosen, VS.UnwrappedSize;
      var allocSize := VS.UnwrappedSize(config.allocationStart, config.allocationEnd) as real;
      var relativeBucket := (bucket - Narrow(config.allocationStart)) as real;
      var cumulative := 0.0;
      ghost var f := VS.Fractions(config.variants);
      VS.CumulativeStep(f, 0, allocSize);
      for i := 0 to |config.variants|
        invariant cumulative == VS.CumulativeTo(f, i, allocSize)
        invariant forall k :: 1 <= k <= i ==> VS.CumulativeTo(f, k, allocSize) <= relativeBucket
      {
        var v := config.variants[i];
        VS.CumulativeStep(f, i, allocSize);
        cumulative := cumulative + v.trafficFraction * allocSize;
        if relativeBucket < cumulative {
          VS.FirstAboveIsUnique(f, i, relativeBucket, allocSize);
          return Some(Assignment(config.experimentId, v.variantId, v.payloadJson, true, v.isControl));
        }
      }
      VS.FirstAboveIsUnique(f, |f| - 1, relativeBucket, allocSize);
      var last := config.variants[|config.variants| - 1];
      a := Some(Assignment(config.experimentId, last.variantId, last.payloadJson, true, last.isControl));
    }

    /** The assigned experiments and nothing else, in whatever order the map is walked. */
    method GetAllAssignments(utf8: string -> seq<Byte>, userId: string) returns (results: map<string, Assignment>)
      requires AllUsable(experiments)
      ensures forall id :: id in results <==> id in experiments && AssignmentIn(experiments[id], utf8, userId).Some?
      ensures forall id :: id in results ==> Some(results[id]) == AssignmentIn(experiments[id], utf8, userId)
    {
      hide AssignmentIn;
      results := map[];
      var ids := experiments.Keys;
      while ids != {}
        invariant ids <= experiments.Keys
        invariant forall id :: id in results <==>
          id in experiments && id !in ids && AssignmentIn(experiments[id], utf8, userId).Some?
        invariant forall id :: id in results ==> Some(results[id]) == AssignmentIn(experiments[id], utf8, userId)
        decreases |ids|
      {
        var id :| id in ids;
        ids := ids - {id};
        var a := GetAssignment(utf8, id, userId);
        if a.Some? {
          results := results[id := a.value];
        }
      }
    }
  }
}
