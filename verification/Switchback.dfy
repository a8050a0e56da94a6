/** Temporal alternation: epoch-aligned blocks, a washout at the head of each, and three designs. */
module Switchback {
  import opened Config
  import opened Murmur3
  import opened Wrappers

  const MIN_BLOCK_DURATION_SECS := 3600
  const MIN_PLANNED_CYCLES := 4

  function ComputeBlockIndex(currentUnixSecs: int, blockDurationSecs: int): int {
    if blockDurationSecs <= 0 then 0 else currentUnixSecs / blockDurationSecs
  }

  predicate IsInWashout(currentUnixSecs: int, blockDurationSecs: int, washoutPeriodSecs: int) {
    if washoutPeriodSecs <= 0 || blockDurationSecs <= 0 then false
    else currentUnixSecs % blockDurationSecs < washoutPeriodSecs
  }

  /** The truncating remainder of the implementation language. */
  function TruncatedRemainder(a: int, b: int): int
    requires b > 0
  {
    if a >= 0 then a % b else -((-a) % b)
  }

  predicate SimpleAlternating(blockIndex: int) {
    TruncatedRemainder(blockIndex, 2) != 0
  }

  /** utf8 encodes text; the group of a cluster is the parity of a hash. */
  function Group(utf8: string -> seq<Byte>, clusterValue: string, experimentId: string): nat {
    var seed := utf8(clusterValue) + [0] + utf8(experimentId) + [0] + utf8("group");
    Hash(seed, 0) % 2
  }

  predicate RegularBalanced(utf8: string -> seq<Byte>, blockIndex: int, clusterValue: string, experimentId: string) {
    var base := SimpleAlternating(blockIndex);
    if Group(utf8, clusterValue, experimentId) == 0 then base else !base
  }

  function Decimal(n: nat): string {
    if n < 10 then ["0123456789"[n]] else Decimal(n / 10) + ["0123456789"[n % 10]]
  }

  function SignedDecimal(n: int): string {
    if n < 0 then "-" + Decimal(-n) else Decimal(n)
  }

  predicate Randomized(utf8: string -> seq<Byte>, blockIndex: int, clusterValue: string, experimentId: string) {
    var seed := utf8(experimentId) + [0] + utf8(clusterValue) + [0] + utf8(SignedDecimal(blockIndex));
    Hash(seed, 0) % 2 != 0
  }

  predicate UsesTreatment(utf8: string -> seq<Byte>, blockIndex: int, design: string, clusterValue: string,
      experimentId: string) {
    if design == "REGULAR_BALANCED" then RegularBalanced(utf8, blockIndex, clusterValue, experimentId)
    else if design == "RANDOMIZED" then Randomized(utf8, blockIndex, clusterValue, experimentId)
    else SimpleAlternating(blockIndex)
  }

  /** The first control variant, or the first variant if none is flagged. */
  function ControlIndex(variants: seq<VariantConfig>): (i: nat)
    requires variants != []
    ensures i < |variants|
    ensures (exists k :: 0 <= k < |variants| && variants[k].isControl) ==>
      variants[i].isControl && forall k :: 0 <= k < i ==> !variants[k].isControl
    ensures (forall k :: 0 <= k < |variants| ==> !variants[k].isControl) ==> i == 0
  {
    FirstControl(variants, 0)
  }

  function FirstControl(variants: seq<VariantConfig>, from: nat): (i: nat)
    requires from <= |variants| && variants != []
    requires forall k :: 0 <= k < from ==> !variants[k].isControl
    ensures i < |variants|
    ensures (exists k :: 0 <= k < |variants| && variants[k].isControl) ==>
      variants[i].isControl && forall k :: 0 <= k < i ==> !variants[k].isControl
    ensures (forall k :: 0 <= k < |variants| ==> !variants[k].isControl) ==> i == 0
    decreases |variants| - from
  {
    if from == |variants| then 0
    else if variants[from].isControl then from
    else FirstControl(variants, from + 1)
  }

  function TreatmentIndex(variants: seq<VariantConfig>): (i: nat)
    requires variants != []
    ensures i < |variants|
    ensures i != ControlIndex(variants) <==> |variants| >= 2
  {
    if ControlIndex(variants) == 0 then (if |variants| == 1 then 0 else 1) else 0
  }

  predicate IsFirstNonControl(variants: seq<VariantConfig>, i: nat) {
    i < |variants| && !variants[i].isControl && forall k :: 0 <= k < i ==> variants[k].isControl
  }

  /** The treatment slot is documented as the first non-control variant. It is, exactly when some
      variant is flagged as control and the first two are not both flagged. */
  lemma TreatmentIsFirstNonControl(variants: seq<VariantConfig>)
    requires |variants| >= 2
    ensures IsFirstNonControl(variants, TreatmentIndex(variants))
      <==> (exists k :: 0 <= k < |variants| && variants[k].isControl)
           && !(variants[0].isControl && variants[1].isControl)
  {
    var c := ControlIndex(variants);
    assert variants[0].isControl ==> c == 0;
    if c == 0 && !variants[0].isControl {
      assert forall k :: 0 <= k < |variants| ==> !variants[k].isControl;
    }
  }

  function SelectVariant(utf8: string -> seq<Byte>, blockIndex: int, design: string, clusterValue: string,
      experimentId: string, variants: seq<VariantConfig>): (v: VariantConfig)
    requires variants != []
    ensures v in variants
  {
    if UsesTreatment(utf8, blockIndex, design, clusterValue, experimentId)
    then variants[TreatmentIndex(variants)] else variants[ControlIndex(variants)]
  }

  datatype ConfigError = BlockTooShort | TooFewCycles | NegativeWashout | WashoutTooLong

  function ValidateConfig(config: SwitchbackConfig): (r: Result<(), ConfigError>)
    ensures r.Ok? <==>
      && config.blockDurationSecs >= 3600 && config.plannedCycles >= 4
      && 0 <= config.washoutPeriodSecs < config.blockDurationSecs
    ensures r == Err(BlockTooShort) <==> config.blockDurationSecs < 3600
    ensures r == Err(TooFewCycles) <==> config.blockDurationSecs >= 3600 && config.plannedCycles < 4
    ensures r == Err(NegativeWashout) <==>
      config.blockDurationSecs >= 3600 && config.plannedCycles >= 4 && config.washoutPeriodSecs < 0
    ensures r == Err(WashoutTooLong) <==>
      && config.blockDurationSecs >= 3600 && config.plannedCycles >= 4
      && config.washoutPeriodSecs >= config.blockDurationSecs
  {
    if config.blockDurationSecs < MIN_BLOCK_DURATION_SECS then Err(BlockTooShort)
    else if config.plannedCycles < MIN_PLANNED_CYCLES then Err(TooFewCycles)
    else if config.washoutPeriodSecs < 0 then Err(NegativeWashout)
    else if config.washoutPeriodSecs > 0 && config.washoutPeriodSecs >= config.blockDurationSecs
    then Err(WashoutTooLong)
    else Ok(())
  }

  // -------------------------------------------------------------------- blocks

  /** t lies in the half-open span [from, until). */
  predicate InSpan(t: int, from: int, until: int) {
    from <= t < until
  }

  lemma {:induction false} SpanSize(from: int, until: int)
    requires from <= until
    ensures |set t: int | from <= t < until && InSpan(t, from, until)| == until - from
    decreases until - from
  {
    var span := set t: int | from <= t < until && InSpan(t, from, until);
    if from == until {
      assert span == {};
    } else {
      var last := until - 1;
      SpanSize(from, last);
      assert span == (set t: int | from <= t < last && InSpan(t, from, last)) + {last};
    }
  }

  lemma MultipleAtLeastOne(k: int, d: int, p: int)
    requires k >= 1 && d > 0 && p == k * d
    ensures p >= d
  {
    assert p == (k - 1) * d + d;
  }

  lemma DivisionFacts(t: int, d: int)
    requires d > 0
    ensures t == (t / d) * d + t % d && 0 <= t % d < d
  {}

  /** Division by the block duration is membership in the block's span. */
  lemma QuotientWindow(t: int, d: int, b: int, start: int)
    requires d > 0 && start == b * d
    ensures t / d == b <==> InSpan(t, start, start + d)
    ensures InSpan(t, start, start + d) ==> t % d == t - start
  {
    DivisionFacts(t, d);
    var q := t / d;
    var gap := (b - q) * d;
    assert gap == start - q * d;
    if q < b {
      MultipleAtLeastOne(b - q, d, gap);
    } else if q > b {
      MultipleAtLeastOne(q - b, d, -gap);
    }
  }

  /** MAIN RESULT. Under a valid configuration block b is the d consecutive seconds from b * d on, of
      which exactly the first washout seconds are excluded. */
  lemma BlockShape(config: SwitchbackConfig, b: int, start: int)
    requires ValidateConfig(config).Ok?
    requires start == b * config.blockDurationSecs
    ensures var d, w := config.blockDurationSecs, config.washoutPeriodSecs;
      && (forall t :: ComputeBlockIndex(t, d) == b <==> InSpan(t, start, start + d))
      && (forall t :: InSpan(t, start, start + d) ==> (IsInWashout(t, d, w) <==> t < start + w))
      && |set t: int | start <= t < start + d && ComputeBlockIndex(t, d) == b| == d
      && |set t: int | start <= t < start + d && IsInWashout(t, d, w)| == w
  {
    var d, w := config.blockDurationSecs, config.washoutPeriodSecs;
    forall t ensures ComputeBlockIndex(t, d) == b <==> InSpan(t, start, start + d) {
      QuotientWindow(t, d, b, start);
    }
    forall t | InSpan(t, start, start + d) ensures IsInWashout(t, d, w) <==> t < start + w {
      QuotientWindow(t, d, b, start);
    }
    SpanSize(start, start + d);
    SpanSize(start, start + w);
    SetsAgree(config, b, start, start + w, start + d);
  }

  lemma SetsAgree(config: SwitchbackConfig, b: int, start: int, washed: int, end: int)
    requires ValidateConfig(config).Ok?
    requires washed == start + config.washoutPeriodSecs && end == start + config.blockDurationSecs
    requires forall t :: ComputeBlockIndex(t, config.blockDurationSecs) == b <==> InSpan(t, start, end)
    requires forall t :: InSpan(t, start, end) ==>
      (IsInWashout(t, config.blockDurationSecs, config.washoutPeriodSecs) <==> t < washed)
    ensures (set t: int | start <= t < end && ComputeBlockIndex(t, config.blockDurationSecs) == b)
         == (set t: int | start <= t < end && InSpan(t, start, end))
    ensures (set t: int | start <= t < end && IsInWashout(t, config.blockDurationSecs, config.washoutPeriodSecs))
         == (set t: int | start <= t < washed && InSpan(t, start, washed))
  {
    hide ComputeBlockIndex, IsInWashout;
    assert forall t :: InSpan(t, start, washed) ==> InSpan(t, start, end);
    assert forall t :: start <= t < end ==> InSpan(t, start, end);
  }

  // ------------------------------------------------------------------- designs

  predicate IsAlternatingDesign(design: string) {
    design != "RANDOMIZED"
  }

  /** MAIN RESULT. The side of each block. Alternating, which is also what an unknown design means: odd blocks
      are treated and even ones, block 0 among them, are not. Balanced: so for the clusters of hash group 0,
      and the other way round for those of group 1. */
  lemma SideOfBlock(utf8: string -> seq<Byte>, b: int, design: string, cluster: string, experimentId: string)
    ensures design != "REGULAR_BALANCED" && design != "RANDOMIZED" ==>
      (UsesTreatment(utf8, b, design, cluster, experimentId) <==> b % 2 == 1)
    ensures design == "REGULAR_BALANCED" ==>
      var group := Hash(utf8(cluster) + [0] + utf8(experimentId) + [0] + utf8("group"), 0) % 2;
      (UsesTreatment(utf8, b, design, cluster, experimentId) <==> (b + group) % 2 == 1)
  {
    hide Hash;
  }

  /** s is the decimal numeral of a natural number: digits, and no leading zero but in "0". */
  ghost predicate IsNumeral(s: string) {
    && s != [] && (forall i :: 0 <= i < |s| ==> '0' <= s[i] <= '9')
    && (s[0] == '0' ==> |s| == 1)
  }

  ghost function NumeralValue(s: string): nat
    requires forall i :: 0 <= i < |s| ==> '0' <= s[i] <= '9'
  {
    if s == [] then 0 else 10 * NumeralValue(s[..|s| - 1]) + (s[|s| - 1] as nat - '0' as nat)
  }

  lemma DigitAt(d: nat)
    requires d < 10
    ensures "0123456789"[d] as nat == '0' as nat + d
  {}

  lemma {:induction false} PositiveNumeral(s: string)
    requires IsNumeral(s) && s[0] != '0'
    ensures NumeralValue(s) > 0
  {
    if |s| > 1 {
      PositiveNumeral(s[..|s| - 1]);
    }
  }

  lemma {:induction false} DecimalOfNumeral(s: string)
    requires IsNumeral(s)
    ensures Decimal(NumeralValue(s)) == s
  {
    var n, last := |s| - 1, s[|s| - 1];
    var d := last as nat - '0' as nat;
    DigitAt(d);
    assert s == s[..n] + [last];
    if n == 0 {
      assert NumeralValue(s[..n]) == 0;
    } else {
      PositiveNumeral(s[..n]);
      DecimalOfNumeral(s[..n]);
      assert NumeralValue(s) / 10 == NumeralValue(s[..n]) && NumeralValue(s) % 10 == d;
    }
  }

  ghost predicate Writes(numeral: string, n: nat) {
    IsNumeral(numeral) && NumeralValue(numeral) == n
  }

  lemma WrittenInDecimal(numeral: string, n: nat)
    requires Writes(numeral, n)
    ensures Decimal(n) == numeral
  {
    DecimalOfNumeral(numeral);
  }

  /** text writes the block's number in decimal. */
  ghost predicate WritesBlock(text: string, b: int) {
    if b >= 0 then Writes(text, b) else text != [] && text[0] == '-' && Writes(text[1..], -b)
  }

  lemma WrittenBlock(text: string, b: int)
    requires WritesBlock(text, b)
    ensures SignedDecimal(b) == text
  {
    hide Writes, Decimal;
    if b >= 0 {
      WrittenInDecimal(text, b);
    } else {
      WrittenInDecimal(text[1..], -b);
      assert text == "-" + text[1..];
    }
  }

  /** The randomized design treats a block when the hash of experiment, cluster and the block's number,
      written in decimal, is odd. */
  lemma RandomizedSide(utf8: string -> seq<Byte>, b: int, text: string, design: string, cluster: string,
      experimentId: string)
    requires design == "RANDOMIZED" && WritesBlock(text, b)
    ensures UsesTreatment(utf8, b, design, cluster, experimentId)
      <==> Hash(utf8(experimentId) + [0] + utf8(cluster) + [0] + utf8(text), 0) % 2 == 1
  {
    hide Hash, Decimal, Writes, WritesBlock, SignedDecimal;
    WrittenBlock(text, b);
  }

  lemma Alternates(utf8: string -> seq<Byte>, b: int, design: string, cluster: string, experimentId: string)
    requires IsAlternatingDesign(design)
    ensures UsesTreatment(utf8, b + 1, design, cluster, experimentId)
            == !UsesTreatment(utf8, b, design, cluster, experimentId)
  {
    assert SimpleAlternating(b + 1) == !SimpleAlternating(b);
  }

  /** The blocks of [first, first + count) in which the cluster gets the given side. */
  ghost function BlocksOn(side: bool, utf8: string -> seq<Byte>, first: int, count: nat, design: string,
      cluster: string, experimentId: string): set<int> {
    set b: int | first <= b < first + count && UsesTreatment(utf8, b, design, cluster, experimentId) == side
  }

  lemma BlocksStep(side: bool, utf8: string -> seq<Byte>, first: int, n: nat, design: string, cluster: string,
      experimentId: string)
    ensures |BlocksOn(side, utf8, first, 0, design, cluster, experimentId)| == 0
    ensures |BlocksOn(side, utf8, first, n + 1, design, cluster, experimentId)|
         == |BlocksOn(side, utf8, first, n, design, cluster, experimentId)|
          + if UsesTreatment(utf8, first + n, design, cluster, experimentId) == side then 1 else 0
  {
    hide UsesTreatment;
    var before := BlocksOn(side, utf8, first, n, design, cluster, experimentId);
    var after := BlocksOn(side, utf8, first, n + 1, design, cluster, experimentId);
    assert BlocksOn(side, utf8, first, 0, design, cluster, experimentId) == {};
    if UsesTreatment(utf8, first + n, design, cluster, experimentId) == side {
      assert after == before + {first + n};
    } else {
      assert after == before;
    }
  }

  /** MAIN RESULT. Under the alternating and the balanced design every cluster is treated in exactly n
      of any 2 n consecutive blocks, and is a control in the other n. */
  lemma {:induction false} HalfOfBlocksTreated(side: bool, utf8: string -> seq<Byte>, first: int, n: nat,
      design: string, cluster: string, experimentId: string)
    requires IsAlternatingDesign(design)
    ensures |BlocksOn(side, utf8, first, 2 * n, design, cluster, experimentId)| == n
  {
    hide *;
    if n == 0 {
      BlocksStep(side, utf8, first, 0, design, cluster, experimentId);
    } else {
      var k := 2 * (n - 1);
      HalfOfBlocksTreated(side, utf8, first, n - 1, design, cluster, experimentId);
      Alternates(utf8, first + k, design, cluster, experimentId);
      BlocksStep(side, utf8, first, k, design, cluster, experimentId);
      BlocksStep(side, utf8, first, k + 1, design, cluster, experimentId);
    }
  }

  ghost function TreatedClusters(utf8: string -> seq<Byte>, b: int, clusters: set<string>,
      experimentId: string): set<string> {
    set c | c in clusters && UsesTreatment(utf8, b, "REGULAR_BALANCED", c, experimentId)
  }

  ghost function InGroup(g: nat, utf8: string -> seq<Byte>, clusters: set<string>, experimentId: string): set<string> {
    set c | c in clusters && Group(utf8, c, experimentId) == g
  }

  /** MAIN RESULT. The balanced design is documented to treat exactly half of the clusters at every
      moment. It does, in this block and in every other, exactly when the hash puts equally many of them
      in both groups. */
  lemma BalancedSplitExactlyWhen(utf8: string -> seq<Byte>, b: int, clusters: set<string>, experimentId: string)
    ensures 2 * |TreatedClusters(utf8, b, clusters, experimentId)| == |clusters|
      <==> |InGroup(0, utf8, clusters, experimentId)| == |InGroup(1, utf8, clusters, experimentId)|
  {
    hide Group, SimpleAlternating;
    var zero, one := InGroup(0, utf8, clusters, experimentId), InGroup(1, utf8, clusters, experimentId);
    forall c ensures 0 <= Group(utf8, c, experimentId) < 2 { TwoGroups(utf8, c, experimentId); }
    assert clusters == zero + one && zero !! one;
    assert TreatedClusters(utf8, b, clusters, experimentId) == if SimpleAlternating(b) then zero else one;
  }

  lemma TwoGroups(utf8: string -> seq<Byte>, c: string, experimentId: string)
    ensures Group(utf8, c, experimentId) < 2
  {
    hide Hash;
  }

  /** So it does not for a single cluster. */
  lemma SingleClusterIsNeverSplit(utf8: string -> seq<Byte>, b: int, c: string, experimentId: string)
    ensures 2 * |TreatedClusters(utf8, b, {c}, experimentId)| != |{c}|
  {
    hide TreatedClusters;
  }

  /** Any two clusters of an experiment agree in all blocks or in none. */
  lemma ClustersAgreeAlwaysOrNever(utf8: string -> seq<Byte>, design: string, c1: string, c2: string,
      experimentId: string, b: int, b': int)
    requires IsAlternatingDesign(design)
    ensures (UsesTreatment(utf8, b, design, c1, experimentId) == UsesTreatment(utf8, b, design, c2, experimentId))
      <==> (UsesTreatment(utf8, b', design, c1, experimentId) == UsesTreatment(utf8, b', design, c2, experimentId))
  {
    hide SimpleAlternating, Group;
  }

  // ------------------------------------------------------------------ exposure

  /** What a cluster is served at second t: nothing during washout, else its side. */
  function Served(utf8: string -> seq<Byte>, config: SwitchbackConfig, cluster: string, experimentId: string,
      t: int): Option<bool> {
    if IsInWashout(t, config.blockDurationSecs, config.washoutPeriodSecs) then None
    else Some(UsesTreatment(utf8, ComputeBlockIndex(t, config.blockDurationSecs), config.design, cluster, experimentId))
  }

  ghost function SecondsServed(what: Option<bool>, utf8: string -> seq<Byte>, config: SwitchbackConfig,
      cluster: string, experimentId: string,
      from: int, until: int): set<int> {
    set t: int | from <= t < until && Served(utf8, config, cluster, experimentId, t) == what
  }

  /** One block: washout seconds serve nothing, all the others the block's side. */
  lemma OneBlock(side: bool, utf8: string -> seq<Byte>, config: SwitchbackConfig, cluster: string,
      experimentId: string, b: int, start: int)
    requires ValidateConfig(config).Ok? && start == b * config.blockDurationSecs
    ensures var d, w := config.blockDurationSecs, config.washoutPeriodSecs;
      && |SecondsServed(None, utf8, config, cluster, experimentId, start, start + d)| == w
      && |SecondsServed(Some(side), utf8, config, cluster, experimentId, start, start + d)|
         == if UsesTreatment(utf8, b, config.design, cluster, experimentId) == side then d - w else 0
  {
    hide UsesTreatment, IsInWashout, ComputeBlockIndex;
    var d, w := config.blockDurationSecs, config.washoutPeriodSecs;
    var washed, end := start + w, start + d;
    BlockShape(config, b, start);
    SpanSize(washed, end);
    assert SecondsServed(None, utf8, config, cluster, experimentId, start, end)
        == set t: int | start <= t < end && IsInWashout(t, d, w);
    if UsesTreatment(utf8, b, config.design, cluster, experimentId) == side {
      assert forall t :: start <= t < end ==> InSpan(t, start, end);
      assert SecondsServed(Some(side), utf8, config, cluster, experimentId, start, end)
          == set t: int | washed <= t < end && InSpan(t, washed, end);
    } else {
      assert forall t :: start <= t < end ==> InSpan(t, start, end);
      assert SecondsServed(Some(side), utf8, config, cluster, experimentId, start, end) == {};
    }
  }

  lemma SecondsSplit(what: Option<bool>, utf8: string -> seq<Byte>, config: SwitchbackConfig, cluster: string,
      experimentId: string,
      from: int, mid: int, until: int)
    requires from <= mid <= until
    ensures |SecondsServed(what, utf8, config, cluster, experimentId, from, until)|
         == |SecondsServed(what, utf8, config, cluster, experimentId, from, mid)|
          + |SecondsServed(what, utf8, config, cluster, experimentId, mid, until)|
  {
    hide Served;
    assert SecondsServed(what, utf8, config, cluster, experimentId, from, until)
        == SecondsServed(what, utf8, config, cluster, experimentId, from, mid)
         + SecondsServed(what, utf8, config, cluster, experimentId, mid, until);
  }

  lemma NoSeconds(what: Option<bool>, utf8: string -> seq<Byte>, config: SwitchbackConfig, cluster: string,
      experimentId: string, t: int)
    ensures |SecondsServed(what, utf8, config, cluster, experimentId, t, t)| == 0
  {
    assert SecondsServed(what, utf8, config, cluster, experimentId, t, t) == {};
  }

  lemma TimesStep(k: int, x: int)
    ensures (k + 1) * x == k * x + x && 0 * x == 0
  {}

  lemma BlockEnds(first: int, n: nat, d: int, from: int, mid: int, until: int)
    requires d > 0 && from == first * d && mid == (first + n) * d && until == (first + n + 1) * d
    ensures from <= mid && until == mid + d
  {
    if n > 0 { MultipleAtLeastOne(n, d, n * d); }
    assert mid == from + n * d;
    TimesStep(first + n, d);
  }

  lemma {:induction false} ManyBlocks(side: bool, utf8: string -> seq<Byte>, config: SwitchbackConfig,
      cluster: string, experimentId: string,
      first: int, count: nat, from: int, until: int)
    requires ValidateConfig(config).Ok?
    requires from == first * config.blockDurationSecs && until == (first + count) * config.blockDurationSecs
    ensures |SecondsServed(None, utf8, config, cluster, experimentId, from, until)| == count * config.washoutPeriodSecs
    ensures |SecondsServed(Some(side), utf8, config, cluster, experimentId, from, until)|
         == |BlocksOn(side, utf8, first, count, config.design, cluster, experimentId)|
          * (config.blockDurationSecs - config.washoutPeriodSecs)
    decreases count
  {
    hide *;
    var d, w := config.blockDurationSecs, config.washoutPeriodSecs;
    if count == 0 {
      NoSeconds(None, utf8, config, cluster, experimentId, from);
      NoSeconds(Some(side), utf8, config, cluster, experimentId, from);
      BlocksStep(side, utf8, first, 0, config.design, cluster, experimentId);
      TimesStep(0, w);
      TimesStep(0, d - w);
    } else {
      var n := count - 1;
      var mid := (first + n) * d;
      BlockEnds(first, n, d, from, mid, until);
      ManyBlocks(side, utf8, config, cluster, experimentId, first, n, from, mid);
      OneBlock(side, utf8, config, cluster, experimentId, first + n, mid);
      SecondsSplit(None, utf8, config, cluster, experimentId, from, mid, until);
      SecondsSplit(Some(side), utf8, config, cluster, experimentId, from, mid, until);
      BlocksStep(side, utf8, first, n, config.design, cluster, experimentId);
      TimesStep(n, w);
      TimesStep(|BlocksOn(side, utf8, first, n, config.design, cluster, experimentId)|, d - w);
    }
  }

  /** MAIN RESULT. Over any 2 n consecutive blocks of a valid alternating or balanced schedule every
      cluster is on treatment and on control for the same n * (d - washout) seconds, and is excluded for
      the remaining 2 n * washout. */
  lemma EqualExposure(side: bool, utf8: string -> seq<Byte>, config: SwitchbackConfig, cluster: string,
      experimentId: string,
      first: int, n: nat, from: int, until: int)
    requires ValidateConfig(config).Ok? && IsAlternatingDesign(config.design)
    requires from == first * config.blockDurationSecs && until == (first + 2 * n) * config.blockDurationSecs
    ensures var d, w := config.blockDurationSecs, config.washoutPeriodSecs;
      && |SecondsServed(Some(side), utf8, config, cluster, experimentId, from, until)| == n * (d - w)
      && |SecondsServed(None, utf8, config, cluster, experimentId, from, until)| == 2 * n * w
  {
    hide *;
    ManyBlocks(side, utf8, config, cluster, experimentId, first, 2 * n, from, until);
    HalfOfBlocksTreated(side, utf8, first, n, config.design, cluster, experimentId);
  }
}
