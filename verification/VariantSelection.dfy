/** Splitting an allocation range among variants by traffic fraction. */
module VariantSelection {
  import opened Config
  import opened Murmur3

  /** The loop's running total after n variants: each adds its fraction times the range's size. */
  function CumulativeTo(fractions: seq<real>, n: nat, size: real): real
    requires n <= |fractions|
  {
    if n == 0 then 0.0 else CumulativeTo(fractions, n - 1, size) + fractions[n - 1] * size
  }

  /** i is the first index whose running total exceeds position, or the last index if none does. */
  predicate IsFirstAbove(fractions: seq<real>, i: nat, position: real, size: real) {
    && i < |fractions|
    && (i < |fractions| - 1 ==> position < CumulativeTo(fractions, i + 1, size))
    && forall k :: 1 <= k <= i ==> CumulativeTo(fractions, k, size) <= position
  }

  function ChosenFrom(fractions: seq<real>, i: nat, position: real, size: real): (c: nat)
    requires fractions != [] && i <= |fractions|
    requires forall k :: 1 <= k <= i ==> CumulativeTo(fractions, k, size) <= position
    ensures IsFirstAbove(fractions, c, position, size)
    decreases |fractions| - i
  {
    if i == |fractions| then i - 1
    else if position < CumulativeTo(fractions, i + 1, size) then i
    else ChosenFrom(fractions, i + 1, position, size)
  }

  /** The variant a position of the range belongs to. */
  function Chosen(fractions: seq<real>, position: real, size: real): (c: nat)
    requires fractions != []
    ensures IsFirstAbove(fractions, c, position, size)
  {
    ChosenFrom(fractions, 0, position, size)
  }

  function VariantAt(fractions: seq<real>, position: nat, size: int): (c: nat)
    requires fractions != []
    ensures IsFirstAbove(fractions, c, position as real, size as real)
  {
    Chosen(fractions, position as real, size as real)
  }

  function Fractions(variants: seq<VariantConfig>): (f: seq<real>)
    ensures |f| == |variants|
    ensures forall i :: 0 <= i < |f| ==> f[i] == variants[i].trafficFraction
  {
    seq(|variants|, i requires 0 <= i < |variants| => variants[i].trafficFraction)
  }

  predicate InAllocation(bucket: nat, startBucket: nat, endBucket: nat) {
    startBucket <= bucket <= endBucket
  }

  /** The range's size in wrapping 32-bit arithmetic: the full range wraps to zero. */
  function WrappedSize(startBucket: Word, endBucket: Word): Word {
    (endBucket - startBucket + 1) % WORD
  }

  /** The service's variant for a bucket inside the allocation. */
  function Selected(variants: seq<VariantConfig>, allocation: AllocationConfig, bucket: nat): VariantConfig
    requires variants != [] && allocation.startBucket <= bucket
  {
    var size := WrappedSize(allocation.startBucket, allocation.endBucket);
    variants[VariantAt(Fractions(variants), bucket - allocation.startBucket, size)]
  }

  method SelectVariant(variants: seq<VariantConfig>, allocation: AllocationConfig,
      bucket: nat) returns (v: VariantConfig)
    requires variants != []
    requires InAllocation(bucket, allocation.startBucket, allocation.endBucket)
    ensures v == Selected(variants, allocation, bucket)
  {
    hide WrappedSize, CumulativeTo, Chosen, Fractions;
    var allocSize := WrappedSize(allocation.startBucket, allocation.endBucket) as real;
    var relativeBucket := (bucket - allocation.startBucket) as real;
    var cumulative := 0.0;
    ghost var f := Fractions(variants);
    CumulativeStep(f, 0, allocSize);
    for i := 0 to |variants|
      invariant cumulative == CumulativeTo(f, i, allocSize)
      invariant forall k :: 1 <= k <= i ==> CumulativeTo(f, k, allocSize) <= relativeBucket
    {
      CumulativeStep(f, i, allocSize);
      cumulative := cumulative + variants[i].trafficFraction * allocSize;
      if relativeBucket < cumulative {
        FirstAboveIsUnique(f, i, relativeBucket, allocSize);
        return variants[i];
      }
    }
    FirstAboveIsUnique(f, |f| - 1, relativeBucket, allocSize);
    v := variants[|variants| - 1];
  }

  lemma CumulativeStep(fractions: seq<real>, i: nat, size: real)
    requires i < |fractions|
    ensures CumulativeTo(fractions, 0, size) == 0.0
    ensures CumulativeTo(fractions, i + 1, size) == CumulativeTo(fractions, i, size) + fractions[i] * size
  {}

  lemma FirstAboveIsUnique(fractions: seq<real>, i: nat, position: real, size: real)
    requires IsFirstAbove(fractions, i, position, size)
    ensures i == Chosen(fractions, position, size)
  {
    hide CumulativeTo, Chosen;
  }

  // ---------------------------------------------------------------------- runs

  ghost predicate Proportions(fractions: seq<real>) {
    && fractions != []
    && (forall i :: 0 <= i < |fractions| ==> fractions[i] >= 0.0)
    && CumulativeTo(fractions, |fractions|, 1.0) == 1.0
  }

  function Ceil(x: real): (n: int)
    ensures (n - 1) as real < x <= n as real
  {
    -((-x).Floor)
  }

  lemma BelowCeil(b: int, x: real)
    ensures (b as real) < x <==> b < Ceil(x)
  {
    if b < Ceil(x) {
      assert b as real <= (Ceil(x) - 1) as real;
    } else {
      assert Ceil(x) as real <= b as real;
    }
  }

  /** The first position of variant i's run. */
  function RunStart(fractions: seq<real>, i: nat, size: nat): int
    requires i <= |fractions|
  {
    Ceil(CumulativeTo(fractions, i, size as real))
  }

  predicate InRun(fractions: seq<real>, i: nat, size: nat, b: nat)
    requires i < |fractions|
  {
    RunStart(fractions, i, size) <= b < RunStart(fractions, i + 1, size)
  }

  lemma {:induction false} CumulativeGrows(fractions: seq<real>, i: nat, j: nat, size: real)
    requires i <= j <= |fractions| && size >= 0.0
    requires forall k :: 0 <= k < |fractions| ==> fractions[k] >= 0.0
    ensures CumulativeTo(fractions, i, size) <= CumulativeTo(fractions, j, size)
    decreases j
  {
    if i < j {
      CumulativeGrows(fractions, i, j - 1, size);
      assert fractions[j - 1] * size >= 0.0;
    }
  }

  lemma {:induction false} CumulativeScales(fractions: seq<real>, n: nat, size: real)
    requires n <= |fractions|
    ensures CumulativeTo(fractions, n, size) == CumulativeTo(fractions, n, 1.0) * size
    decreases n
  {
    if n > 0 {
      CumulativeScales(fractions, n - 1, size);
      var c, f := CumulativeTo(fractions, n - 1, 1.0), fractions[n - 1];
      assert (c + f * 1.0) * size == c * size + f * size;
    }
  }

  /** For non-negative fractions, summing to 1 or not, a position's variant is the one in whose run it
      lies, the last run being open-ended. */
  lemma ChosenByRun(fractions: seq<real>, i: nat, position: nat, size: nat)
    requires fractions != [] && i < |fractions|
    requires forall k :: 0 <= k < |fractions| ==> fractions[k] >= 0.0
    ensures VariantAt(fractions, position, size) == i
      <==> RunStart(fractions, i, size) <= position
           && (i < |fractions| - 1 ==> position < RunStart(fractions, i + 1, size))
  {
    hide CumulativeTo;
    var c := VariantAt(fractions, position, size);
    var s := size as real;
    BelowCeil(position, CumulativeTo(fractions, i, s));
    BelowCeil(position, CumulativeTo(fractions, i + 1, s));
    ZeroTotal(fractions, s);
    if i < c {
      assert CumulativeTo(fractions, i + 1, s) <= position as real;
    } else if c < i {
      assert (position as real) < CumulativeTo(fractions, c + 1, s);
      CumulativeGrows(fractions, c + 1, i, s);
    } else if i > 0 {
      assert CumulativeTo(fractions, i, s) <= position as real;
    }
  }

  lemma ZeroTotal(fractions: seq<real>, size: real)
    ensures CumulativeTo(fractions, 0, size) == 0.0
  {}

  /** MAIN RESULT. For fractions summing to 1 the runs tile the range in variant order: run i starts
      where run i - 1 ends, the first at 0, the last ending at size, and every position has exactly the
      variant whose run holds it. */
  lemma RunsTileTheRange(fractions: seq<real>, size: nat)
    requires Proportions(fractions)
    ensures RunStart(fractions, 0, size) == 0 && RunStart(fractions, |fractions|, size) == size
    ensures forall i, j :: 0 <= i <= j <= |fractions| ==> RunStart(fractions, i, size) <= RunStart(fractions, j, size)
    ensures forall b: nat, i: nat ::
      b < size && i < |fractions| ==>
        (VariantAt(fractions, b, size) == i <==> InRun(fractions, i, size, b))
  {
    var n := |fractions|;
    CumulativeScales(fractions, n, size as real);
    assert RunStart(fractions, n, size) == size;
    forall i, j | 0 <= i <= j <= n ensures RunStart(fractions, i, size) <= RunStart(fractions, j, size) {
      hide CumulativeTo;
      CumulativeGrows(fractions, i, j, size as real);
      BelowCeil(RunStart(fractions, j, size), CumulativeTo(fractions, i, size as real));
      BelowCeil(RunStart(fractions, j, size), CumulativeTo(fractions, j, size as real));
    }
    forall b: nat, i: nat | b < size && i < n
      ensures VariantAt(fractions, b, size) == i <==> InRun(fractions, i, size, b)
    {
      ChosenByRun(fractions, i, b, size);
    }
  }

  ghost function PositionsOf(fractions: seq<real>, i: nat, size: nat): set<nat>
    requires fractions != []
  {
    set b: nat | b < size && VariantAt(fractions, b, size) == i
  }

  lemma {:induction false} SpanCount(from: nat, until: nat)
    requires from <= until
    ensures |set b: nat | b < until && InAllocation(b, from, until)| == until - from
    decreases until
  {
    var span := set b: nat | b < until && InAllocation(b, from, until);
    if from == until {
      assert span == {};
    } else {
      var last := until - 1;
      SpanCount(from, last);
      assert span == (set b: nat | b < last && InAllocation(b, from, last)) + {last};
    }
  }

  /** MAIN RESULT. Every variant gets its exact share of the range, to within less than one bucket. */
  lemma ShareWithinOneBucket(fractions: seq<real>, i: nat, size: nat)
    requires Proportions(fractions) && i < |fractions|
    ensures -1.0 < |PositionsOf(fractions, i, size)| as real - fractions[i] * size as real < 1.0
  {
    var from, until := RunStart(fractions, i, size), RunStart(fractions, i + 1, size);
    RunsTileTheRange(fractions, size);
    SpanCount(from, until);
    PositionsAreRun(fractions, i, size, from, until);
  }

  lemma PositionsAreRun(fractions: seq<real>, i: nat, size: nat, from: nat, until: nat)
    requires i < |fractions| && until <= size
    requires from == RunStart(fractions, i, size) && until == RunStart(fractions, i + 1, size)
    requires forall b: nat :: b < size ==> (VariantAt(fractions, b, size) == i <==> InRun(fractions, i, size, b))
    ensures PositionsOf(fractions, i, size) == set b: nat | b < until && InAllocation(b, from, until)
  {
    hide VariantAt, RunStart;
    forall b: nat ensures b in PositionsOf(fractions, i, size) <==> b < until && InAllocation(b, from, until) {
      assert b < size ==> (VariantAt(fractions, b, size) == i <==> InRun(fractions, i, size, b));
    }
  }

  /** A later bucket never gets an earlier variant. */
  lemma OrderKept(fractions: seq<real>, a: real, b: real, size: real)
    requires fractions != [] && a <= b
    ensures Chosen(fractions, a, size) <= Chosen(fractions, b, size)
  {
    hide CumulativeTo;
  }

  // -------------------------------------------------------------- two selectors

  /** The Go SDK computes the size in 64-bit signed arithmetic, so it does not wrap. */
  function UnwrappedSize(startBucket: int, endBucket: int): int {
    endBucket - startBucket + 1
  }

  predicate FullRange(startBucket: Word, endBucket: Word) {
    startBucket == 0 && endBucket == WORD - 1
  }

  ghost predicate SelectorsAgree(fractions: seq<real>, startBucket: Word, endBucket: Word)
    requires fractions != []
  {
    forall position: nat ::
      position <= endBucket - startBucket ==>
        VariantAt(fractions, position, WrappedSize(startBucket, endBucket))
        == VariantAt(fractions, position, UnwrappedSize(startBucket, endBucket))
  }

  lemma {:induction false} NothingOfNothing(fractions: seq<real>, n: nat)
    requires n <= |fractions|
    ensures CumulativeTo(fractions, n, 0.0) == 0.0
  {
    if n > 0 { NothingOfNothing(fractions, n - 1); }
  }

  /** Over a range whose size wrapped to zero every bucket gets the last variant. */
  lemma WrappedRangeIsLast(fractions: seq<real>, position: nat)
    requires fractions != []
    ensures VariantAt(fractions, position, 0) == |fractions| - 1
  {
    var c := VariantAt(fractions, position, 0);
    if c < |fractions| - 1 { NothingOfNothing(fractions, c + 1); }
  }

  /** MAIN RESULT. The service and the Go SDK choose the same variant for every bucket of an allocation
      exactly when the allocation is not the whole 32-bit range, or the last variant has all traffic. */
  lemma SelectorsAgreeExactly(fractions: seq<real>, startBucket: Word, endBucket: Word)
    requires Proportions(fractions) && startBucket <= endBucket
    ensures SelectorsAgree(fractions, startBucket, endBucket)
      <==> !FullRange(startBucket, endBucket) || fractions[|fractions| - 1] == 1.0
  {
    hide VariantAt;
    var last := |fractions| - 1;
    if FullRange(startBucket, endBucket) {
      forall position: nat ensures VariantAt(fractions, position, 0) == last {
        WrappedRangeIsLast(fractions, position);
      }
      LastTakesAll(fractions, WORD);
      if fractions[last] != 1.0 {
        assert VariantAt(fractions, 0, WORD) != last;
        assert VariantAt(fractions, 0, WrappedSize(startBucket, endBucket)) == last;
      }
    } else {
      assert WrappedSize(startBucket, endBucket) == UnwrappedSize(startBucket, endBucket);
    }
  }

  lemma LastTakesAll(fractions: seq<real>, size: nat)
    requires Proportions(fractions) && size > 0
    ensures fractions[|fractions| - 1] == 1.0 <==> VariantAt(fractions, 0, size) == |fractions| - 1
    ensures fractions[|fractions| - 1] == 1.0 ==>
      forall position: nat ::
        VariantAt(fractions, position, size) == |fractions| - 1
  {
    var last := |fractions| - 1;
    var before := CumulativeTo(fractions, last, 1.0);
    assert before == 1.0 - fractions[last];
    CumulativeScales(fractions, last, size as real);
    CumulativeGrows(fractions, 0, last, 1.0);
    assert before == 0.0 || before * size as real > 0.0;
    assert RunStart(fractions, last, size) <= 0 <==> before == 0.0 by {
      BelowCeil(0, before * size as real);
    }
    forall position: nat ensures
      VariantAt(fractions, position, size) == last <==> RunStart(fractions, last, size) <= position
    {
      ChosenByRun(fractions, last, position, size);
    }
  }
}
