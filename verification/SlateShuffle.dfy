/** The fallback slate: an in-place Fisher-Yates shuffle driven by a sequence of random draws. */
module SlateShuffle {
  import opened RealMaps
  import opened Wrappers

  function Swapped<T>(s: seq<T>, i: nat, j: nat): (t: seq<T>)
    requires i < |s| && j < |s|
    ensures |t| == |s| && t[i] == s[j] && t[j] == s[i]
    ensures forall k :: 0 <= k < |s| && k != i && k != j ==> t[k] == s[k]
  {
    s[i := s[j]][j := s[i]]
  }

  /** The draws of a shuffle of the first n entries: one j <= i for each i = n - 1, ..., 1. */
  ghost predicate IsDraw(n: nat, d: seq<nat>) {
    |d| == (if n == 0 then 0 else n - 1) && forall t :: 0 <= t < |d| ==> d[t] <= n - 1 - t
  }

  ghost function Shuffled<T>(s: seq<T>, n: nat, d: seq<nat>): (t: seq<T>)
    requires n <= |s| && IsDraw(n, d)
    ensures |t| == |s| && forall k :: n <= k < |s| ==> t[k] == s[k]
    decreases n
  {
    if n <= 1 then s
    else
      assert forall t :: 0 <= t < |d[1..]| ==> d[1..][t] == d[t + 1];
      Shuffled(Swapped(s, n - 1, d[0]), n - 1, d[1..])
  }

  method ShuffleInPlace<T>(a: array<T>, draws: seq<nat>)
    requires IsDraw(a.Length, draws)
    modifies a
    ensures a[..] == Shuffled(old(a[..]), a.Length, draws)
  {
    var i := a.Length;
    ghost var goal := Shuffled(a[..], a.Length, draws);
    while i > 1
      invariant 0 <= i <= a.Length && (a.Length > 0 ==> i >= 1)
      invariant i > 0 ==> IsDraw(i, draws[a.Length - i..])
      invariant i > 0 ==> Shuffled(a[..], i, draws[a.Length - i..]) == goal
      invariant i == 0 ==> a[..] == goal
    {
      ghost var rest := draws[a.Length - i..];
      ghost var before := a[..];
      i := i - 1;
      var j := draws[a.Length - 1 - i];
      assert j == rest[0] && rest[1..] == draws[a.Length - i..];
      a[i], a[j] := a[j], a[i];
      assert a[..] == Swapped(before, i, j);
    }
  }

  // ------------------------------------------------------------ a bijection

  lemma SwapIsPermutation<T>(s: seq<T>, i: nat, j: nat)
    requires i < |s| && j < |s|
    ensures multiset(Swapped(s, i, j)) == multiset(s)
  {
  }

  lemma SwapKeepsDistinct<T>(s: seq<T>, i: nat, j: nat)
    requires i < |s| && j < |s| && Distinct(s)
    ensures Distinct(Swapped(s, i, j))
  {
  }

  lemma {:induction false} ShuffleIsPermutation<T>(s: seq<T>, n: nat, d: seq<nat>)
    requires n <= |s| && IsDraw(n, d)
    ensures multiset(Shuffled(s, n, d)) == multiset(s)
    decreases n
  {
    if n > 1 {
      SwapIsPermutation(s, n - 1, d[0]);
      ShuffleIsPermutation(Swapped(s, n - 1, d[0]), n - 1, d[1..]);
    }
  }

  /** The first draw decides the last of the shuffled entries for good. */
  lemma LastEntry<T>(s: seq<T>, n: nat, d: seq<nat>)
    requires 1 < n <= |s| && IsDraw(n, d)
    ensures Shuffled(s, n, d)[n - 1] == s[d[0]]
  {
  }

  lemma {:induction false} ShuffleIsInjective<T>(s: seq<T>, n: nat, d: seq<nat>, d': seq<nat>)
    requires n <= |s| && Distinct(s) && IsDraw(n, d) && IsDraw(n, d')
    requires Shuffled(s, n, d) == Shuffled(s, n, d')
    ensures d == d'
    decreases n
  {
    if n > 1 {
      LastEntry(s, n, d);
      LastEntry(s, n, d');
      assert d[0] == d'[0];
      SwapKeepsDistinct(s, n - 1, d[0]);
      ShuffleIsInjective(Swapped(s, n - 1, d[0]), n - 1, d[1..], d'[1..]);
      assert d == [d[0]] + d[1..] && d' == [d'[0]] + d'[1..];
    }
  }

  lemma SameMultisetPosition<T>(s: seq<T>, p: seq<T>, n: nat) returns (j: nat)
    requires 1 <= n <= |s| == |p| && multiset(s[..n]) == multiset(p[..n])
    ensures j < n && s[j] == p[n - 1]
    ensures multiset(Swapped(s, n - 1, j)[..n - 1]) == multiset(p[..n - 1])
  {
    hide Swapped;
    assert p[..n] == p[..n - 1] + [p[n - 1]];
    assert p[n - 1] in multiset(s[..n]);
    j :| 0 <= j < n && s[..n][j] == p[n - 1];
    var t := Swapped(s, n - 1, j);
    assert t[..n] == Swapped(s[..n], n - 1, j);
    SwapIsPermutation(s[..n], n - 1, j);
    assert t[..n] == t[..n - 1] + [p[n - 1]];
    DropSameLast(t[..n - 1], p[..n - 1], p[n - 1]);
  }

  lemma DropSameLast<T>(u: seq<T>, v: seq<T>, x: T)
    requires multiset(u + [x]) == multiset(v + [x])
    ensures multiset(u) == multiset(v)
  {
    assert multiset(u) == multiset(u + [x]) - multiset{x};
    assert multiset(v) == multiset(v + [x]) - multiset{x};
  }

  lemma {:induction false} ShuffleReaches<T>(s: seq<T>, p: seq<T>, n: nat) returns (d: seq<nat>)
    requires n <= |s| == |p| && multiset(s[..n]) == multiset(p[..n])
    requires forall k :: n <= k < |s| ==> p[k] == s[k]
    ensures IsDraw(n, d) && Shuffled(s, n, d) == p
    decreases n
  {
    if n == 0 {
      d := [];
    } else {
      var j := SameMultisetPosition(s, p, n);
      var t := Swapped(s, n - 1, j);
      if n == 1 {
        d := [];
        assert s == p;
      } else {
        var rest := ShuffleReaches(t, p, n - 1);
        d := [j] + rest;
        assert d[1..] == rest;
      }
    }
  }

  /** MAIN RESULT. On distinct candidates the shuffle is a bijection between draw sequences and
      permutations: every arrangement of the candidates arises from exactly one sequence. */
  lemma ShuffleIsBijection<T>(s: seq<T>, p: seq<T>) returns (d: seq<nat>)
    requires Distinct(s) && multiset(p) == multiset(s)
    ensures IsDraw(|s|, d) && Shuffled(s, |s|, d) == p
    ensures forall d' :: IsDraw(|s|, d') && Shuffled(s, |s|, d') == p ==> d' == d
  {
    assert |p| == |multiset(p)| == |multiset(s)| == |s|;
    assert s[..|s|] == s && p[..|s|] == p;
    d := ShuffleReaches(s, p, |s|);
    forall d' | IsDraw(|s|, d') && Shuffled(s, |s|, d') == p ensures d' == d {
      ShuffleIsInjective(s, |s|, d, d');
    }
  }

  // -------------------------------------------------------------- uniformity

  ghost function Prefixed(j: nat, D: set<seq<nat>>): set<seq<nat>> {
    set d | d in D :: [j] + d
  }

  ghost function PrefixedUpTo(m: nat, D: set<seq<nat>>): set<seq<nat>> {
    if m == 0 then {} else PrefixedUpTo(m - 1, D) + Prefixed(m - 1, D)
  }

  /** All draw sequences for n entries, as a finite set. */
  ghost function Draws(n: nat): set<seq<nat>> {
    if n <= 1 then {[]} else PrefixedUpTo(n, Draws(n - 1))
  }

  lemma {:induction false} PrefixedMember(m: nat, D: set<seq<nat>>, d: seq<nat>)
    ensures d in PrefixedUpTo(m, D) <==> d != [] && d[0] < m && d[1..] in D
  {
    if m != 0 {
      PrefixedMember(m - 1, D, d);
      if d != [] {
        assert d == [d[0]] + d[1..];
      }
      if d in Prefixed(m - 1, D) {
        var r :| r in D && d == [m - 1] + r;
        assert d[1..] == r;
      }
    }
  }

  lemma {:induction false} DrawsAreDraws(n: nat, d: seq<nat>)
    ensures d in Draws(n) <==> IsDraw(n, d)
  {
    if n > 1 {
      PrefixedMember(n, Draws(n - 1), d);
      if d != [] {
        DrawsAreDraws(n - 1, d[1..]);
        if IsDraw(n, d) {
          assert forall t :: 0 <= t < |d[1..]| ==> d[1..][t] == d[t + 1];
        }
        if d[0] < n && IsDraw(n - 1, d[1..]) {
          assert forall t :: 1 <= t < |d| ==> d[t] == d[1..][t - 1];
        }
      }
    }
  }

  lemma PrefixInjective(j: nat, r: seq<nat>, d: seq<nat>)
    ensures [j] + r == [j] + d ==> r == d
  {
    assert ([j] + r)[1..] == r && ([j] + d)[1..] == d;
  }

  lemma {:induction false} PrefixedCardinality(j: nat, D: set<seq<nat>>)
    ensures |Prefixed(j, D)| == |D|
    decreases |D|
  {
    if D != {} {
      var d :| d in D;
      PrefixedCardinality(j, D - {d});
      assert Prefixed(j, D) == Prefixed(j, D - {d}) + {[j] + d};
      forall r | r in D - {d} ensures [j] + r != [j] + d {
        PrefixInjective(j, r, d);
      }
      assert [j] + d !in Prefixed(j, D - {d});
    }
  }

  lemma DisjointUnion<T>(A: set<T>, B: set<T>)
    requires forall x :: x in A ==> x !in B
    ensures |A + B| == |A| + |B|
  {
    assert A !! B;
  }

  /** One more first draw adds as many sequences as there are continuations. */
  lemma PrefixedUpToStep(m: nat, D: set<seq<nat>>)
    ensures |PrefixedUpTo(0, D)| == 0
    ensures |PrefixedUpTo(m + 1, D)| == |PrefixedUpTo(m, D)| + |D|
  {
    PrefixedCardinality(m, D);
    var A, B := PrefixedUpTo(m, D), Prefixed(m, D);
    forall d | d in A ensures d !in B {
      PrefixedMember(m, D, d);
    }
    DisjointUnion(A, B);
  }

  lemma {:induction false} PrefixedUpToCardinality(m: nat, D: set<seq<nat>>)
    ensures |PrefixedUpTo(m, D)| == m * |D|
  {
    hide *;
    PrefixedUpToStep(if m == 0 then 0 else m - 1, D);
    if m != 0 {
      PrefixedUpToCardinality(m - 1, D);
      OneMoreTimes(m - 1, |D|);
    }
  }

  lemma OneMoreTimes(k: nat, n: nat)
    ensures (k + 1) * n == k * n + n
  {
  }

  lemma DrawsCardinality(n: nat)
    requires n > 0
    ensures |Draws(n)| == n * |Draws(n - 1)|
  {
    if n > 1 {
      PrefixedUpToCardinality(n, Draws(n - 1));
    }
  }

  /** The draw sequences that put candidate c in slot k. */
  ghost function Hits<T>(s: seq<T>, n: nat, k: nat, c: T): set<seq<nat>>
    requires n <= |s| && k < |s|
  {
    set d | d in Draws(n) && IsDraw(n, d) && Shuffled(s, n, d)[k] == c
  }

  /** The hits whose first draw is below m, assembled from the hits of the smaller shuffles. */
  ghost function HitsBelow<T>(s: seq<T>, n: nat, k: nat, c: T, m: nat): set<seq<nat>>
    requires 1 < n <= |s| && k < |s| && m <= n
  {
    if m == 0 then {}
    else HitsBelow(s, n, k, c, m - 1) + Prefixed(m - 1, Hits(Swapped(s, n - 1, m - 1), n - 1, k, c))
  }

  lemma {:induction false} HitsBelowMember<T>(s: seq<T>, n: nat, k: nat, c: T, m: nat, d: seq<nat>)
    requires 1 < n <= |s| && k < |s| && m <= n
    ensures d in HitsBelow(s, n, k, c, m) <==> d in Hits(s, n, k, c) && d[0] < m
  {
    DrawsAreDraws(n, d);
    if m != 0 {
      HitsBelowMember(s, n, k, c, m - 1, d);
      var H := Hits(Swapped(s, n - 1, m - 1), n - 1, k, c);
      PrefixedMember(n, Draws(n - 1), d);
      if d != [] {
        assert d == [d[0]] + d[1..];
        DrawsAreDraws(n - 1, d[1..]);
      }
      if d in Prefixed(m - 1, H) {
        var r :| r in H && d == [m - 1] + r;
        assert d[1..] == r;
      }
    }
  }

  lemma HitsBelowDisjoint<T>(s: seq<T>, n: nat, k: nat, c: T, m: nat)
    requires 1 < n <= |s| && k < |s| && 0 < m <= n
    ensures |HitsBelow(s, n, k, c, m)|
            == |HitsBelow(s, n, k, c, m - 1)| + |Hits(Swapped(s, n - 1, m - 1), n - 1, k, c)|
  {
    hide *;
    var H := Hits(Swapped(s, n - 1, m - 1), n - 1, k, c);
    PrefixedCardinality(m - 1, H);
    var A, B := HitsBelow(s, n, k, c, m - 1), Prefixed(m - 1, H);
    forall d | d in A ensures d !in B {
      HitsBelowMember(s, n, k, c, m - 1, d);
      PrefixedHead(m - 1, H, d);
    }
    DisjointUnion(A, B);
    HitsBelowStep(s, n, k, c, m);
  }

  lemma PrefixedHead(j: nat, D: set<seq<nat>>, d: seq<nat>)
    ensures d in Prefixed(j, D) ==> d != [] && d[0] == j
  {
  }

  lemma HitsBelowStep<T>(s: seq<T>, n: nat, k: nat, c: T, m: nat)
    requires 1 < n <= |s| && k < |s| && 0 < m <= n
    ensures HitsBelow(s, n, k, c, m)
         == HitsBelow(s, n, k, c, m - 1) + Prefixed(m - 1, Hits(Swapped(s, n - 1, m - 1), n - 1, k, c))
  {
    hide Hits, Prefixed, Draws, Shuffled;
  }

  /** The shuffled prefix is filled from the prefix. */
  lemma {:induction false} PrefixEntry<T>(s: seq<T>, n: nat, d: seq<nat>, k: nat)
    requires k < n <= |s| && IsDraw(n, d)
    ensures Shuffled(s, n, d)[k] in s[..n]
    decreases n
  {
    if n == 1 {
      assert s[..n][k] == s[k];
    } else if k == n - 1 {
      LastEntry(s, n, d);
      assert s[..n][d[0]] == s[d[0]];
    } else {
      var t := Swapped(s, n - 1, d[0]);
      PrefixEntry(t, n - 1, d[1..], k);
      var i :| 0 <= i < n - 1 && t[..n - 1][i] == Shuffled(s, n, d)[k];
      assert t[i] == s[..n][if i == d[0] then n - 1 else i];
    }
  }

  /** A candidate outside the shuffled prefix never lands in it. */
  lemma NoHits<T>(s: seq<T>, n: nat, k: nat, c: T)
    requires k < n <= |s| && c !in s[..n]
    ensures Hits(s, n, k, c) == {}
  {
    var H := Hits(s, n, k, c);
    forall d | d in H ensures Shuffled(s, n, d)[k] != c {
      PrefixEntry(s, n, d, k);
    }
  }

  /** Every candidate of a prefix of n - 1 entries hits slot k equally often. */
  ghost predicate SmallerKnown<T(!new)>(size: nat, n: nat, k: nat, c: T, count: nat)
    requires 1 < n <= size
  {
    k < n - 1 ==> forall s: seq<T> :: |s| == size && Distinct(s) && c in s[..n - 1] ==> |Hits(s, n - 1, k, c)| == count
  }

  /** The number of hits contributed by one first draw. */
  lemma HitsOfFirstDraw<T(!new)>(s: seq<T>, n: nat, k: nat, c: T, i: nat, j: nat, count: nat)
    requires 1 < n <= |s| && k < n && i < n && j < n && Distinct(s) && s[i] == c
    requires SmallerKnown(|s|, n, k, c, count)
    ensures |Hits(Swapped(s, n - 1, j), n - 1, k, c)|
      == if k == n - 1 then (if j == i then |Draws(n - 1)| else 0) else (if j == i then 0 else count)
  {
    var t := Swapped(s, n - 1, j);
    SwapKeepsDistinct(s, n - 1, j);
    if k == n - 1 {
      var D := Draws(n - 1);
      forall d | d in D ensures IsDraw(n - 1, d) && Shuffled(t, n - 1, d)[k] == s[j] {
        DrawsAreDraws(n - 1, d);
      }
      assert Hits(t, n - 1, k, c) == if j == i then D else {};
    } else if j == i {
      assert t[n - 1] == c;
      assert c !in t[..n - 1];
      NoHits(t, n - 1, k, c);
    } else {
      assert t[..n - 1][if i == n - 1 then j else i] == c;
    }
  }

  lemma {:induction false} HitsBelowCount<T(!new)>(s: seq<T>, n: nat, k: nat, c: T, i: nat, m: nat, count: nat)
    requires 1 < n <= |s| && k < n && i < n && m <= n && Distinct(s) && s[i] == c
    requires SmallerKnown(|s|, n, k, c, count)
    ensures |HitsBelow(s, n, k, c, m)|
      == if k == n - 1 then (if i < m then |Draws(n - 1)| else 0)
         else Multiple(if i < m then m - 1 else m, count)
  {
    hide SmallerKnown, Hits, Draws, Swapped, Distinct;
    if m == 0 {
    } else {
      HitsBelowCount(s, n, k, c, i, m - 1, count);
      HitsOfFirstDraw(s, n, k, c, i, m - 1, count);
      HitsBelowDisjoint(s, n, k, c, m);
    }
  }

  ghost function Multiple(m: nat, count: nat): nat {
    if m == 0 then 0 else Multiple(m - 1, count) + count
  }

  lemma {:induction false} MultipleIsProduct(m: nat, count: nat)
    ensures Multiple(m, count) == m * count
  {
    if m != 0 {
      MultipleIsProduct(m - 1, count);
      assert m * count == (m - 1) * count + count;
    }
  }

  lemma {:induction false} HitsCount<T(!new)>(s: seq<T>, n: nat, k: nat, c: T)
    requires 0 < n <= |s| && k < n && Distinct(s) && c in s[..n]
    ensures |Hits(s, n, k, c)| == |Draws(n - 1)|
    decreases n
  {
    if n == 1 {
      assert Hits(s, n, k, c) == {[]};
    } else {
      var count := |Draws(n - 2)|;
      HitsCountSmaller(|s|, n, k, c, count);
      hide SmallerKnown, Hits, Swapped;
      var i :| 0 <= i < n && s[..n][i] == c;
      HitsBelowCount(s, n, k, c, i, n, count);
      AllHitsBelow(s, n, k, c);
      MultipleIsProduct(n - 1, count);
      DrawsCardinality(n - 1);
    }
  }

  lemma HitsCountSmaller<T(!new)>(size: nat, n: nat, k: nat, c: T, count: nat)
    requires 1 < n <= size && k < n && count == |Draws(n - 2)|
    ensures SmallerKnown(size, n, k, c, count)
    decreases n, 0
  {
    if k < n - 1 {
      forall s: seq<T> | |s| == size && Distinct(s) && c in s[..n - 1] ensures |Hits(s, n - 1, k, c)| == count {
        HitsCount(s, n - 1, k, c);
      }
    }
  }

  lemma AllHitsBelow<T>(s: seq<T>, n: nat, k: nat, c: T)
    requires 1 < n <= |s| && k < n
    ensures HitsBelow(s, n, k, c, n) == Hits(s, n, k, c)
  {
    var A, B := HitsBelow(s, n, k, c, n), Hits(s, n, k, c);
    forall d | d in A ensures d in B {
      HitsBelowMember(s, n, k, c, n, d);
    }
    forall d | d in B ensures d in A {
      HitsBelowMember(s, n, k, c, n, d);
      PrefixedMember(n, Draws(n - 1), d);
    }
  }

  /** MAIN RESULT. Each candidate lands in each slot for exactly one n-th of all draw sequences, the
      probability the response reports. */
  lemma EverySlotIsUniform<T(!new)>(s: seq<T>, k: nat, c: T)
    requires Distinct(s) && k < |s| && c in s
    ensures forall d :: d in Draws(|s|) <==> IsDraw(|s|, d)
    ensures |s| * |Hits(s, |s|, k, c)| == |Draws(|s|)|
  {
    forall d ensures d in Draws(|s|) <==> IsDraw(|s|, d) {
      DrawsAreDraws(|s|, d);
    }
    assert s[..|s|] == s;
    HitsCount(s, |s|, k, c);
    DrawsCardinality(|s|);
  }

  // ------------------------------------------------------------------- slate

  datatype SlateError = NoSlotCount | NoSlots | TooFewCandidates

  datatype SlotProbability = SlotProbability(slotIndex: int, itemId: string, probability: real)

  datatype Slate = Slate(itemIds: seq<string>, slotProbabilities: seq<SlotProbability>, isUniformRandom: bool)

  const USIZE := 0x1_0000_0000_0000_0000

  /** The slate of a running experiment. slotCount is its configured slot count, None when it has no slate
      configuration; a negative one converts to a huge one. live is the bandit service's slate, None when
      the service is not configured, fails or times out. */
  method AssignSlate(candidateItemIds: seq<string>, slotCount: Option<int>, live: Option<Slate>, draws: seq<nat>)
    returns (slate: Result<Slate, SlateError>)
    requires slotCount.Some? ==> -0x8000_0000 <= slotCount.value < 0x8000_0000
    requires |candidateItemIds| < USIZE / 2
    requires live.None? ==> IsDraw(|candidateItemIds|, draws)
    ensures slate == Err(NoSlotCount) <==> slotCount.None?
    ensures slate == Err(NoSlots) <==> slotCount == Some(0)
    ensures slate.Ok? <==> slotCount.Some? && 0 < slotCount.value <= |candidateItemIds|
    ensures slate.Ok? && live.Some? ==> slate == Ok(live.value)
    ensures slate.Ok? && live.None? ==>
      && slate.value.itemIds == Shuffled(candidateItemIds, |candidateItemIds|, draws)[..slotCount.value]
      && slate.value.isUniformRandom
      && |slate.value.slotProbabilities| == slotCount.value
      && forall i :: 0 <= i < slotCount.value ==>
        slate.value.slotProbabilities[i]
        == SlotProbability(i, slate.value.itemIds[i], 1.0 / |candidateItemIds| as real)
  {
    if slotCount.None? {
      return Err(NoSlotCount);
    }
    var numSlots := slotCount.value;
    var nSlots := if numSlots < 0 then numSlots + USIZE else numSlots;
    if nSlots == 0 {
      return Err(NoSlots);
    }
    if |candidateItemIds| < nSlots {
      return Err(TooFewCandidates);
    }
    if live.Some? {
      var slots := [];
      for i := 0 to |live.value.slotProbabilities|
        invariant slots == live.value.slotProbabilities[..i]
      {
        var a := live.value.slotProbabilities[i];
        slots := slots + [SlotProbability(a.slotIndex, a.itemId, a.probability)];
      }
      assert slots == live.value.slotProbabilities;
      return Ok(Slate(live.value.itemIds, slots, live.value.isUniformRandom));
    }
    var candidates := new string[|candidateItemIds|](i requires 0 <= i < |candidateItemIds| => candidateItemIds[i]);
    assert candidates[..] == candidateItemIds;
    ShuffleInPlace(candidates, draws);
    var itemIds := candidates[..nSlots];
    var probability := 1.0 / |candidateItemIds| as real;
    var slots := seq(nSlots, i requires 0 <= i < nSlots => SlotProbability(i, itemIds[i], probability));
    slate := Ok(Slate(itemIds, slots, true));
  }

  /** A slate never shows a candidate twice, and shows only candidates. */
  lemma SlateIsDistinct(s: seq<string>, d: seq<nat>, n: nat)
    requires Distinct(s) && IsDraw(|s|, d) && n <= |s|
    ensures Distinct(Shuffled(s, |s|, d)[..n])
    ensures forall id :: id in Shuffled(s, |s|, d)[..n] ==> id in s
  {
    ShuffleKeepsDistinct(s, |s|, d);
    ShuffleIsPermutation(s, |s|, d);
    forall id | id in Shuffled(s, |s|, d)[..n] ensures id in s {
      assert id in multiset(Shuffled(s, |s|, d));
      assert id in multiset(s);
    }
  }

  lemma {:induction false} ShuffleKeepsDistinct<T>(s: seq<T>, n: nat, d: seq<nat>)
    requires n <= |s| && IsDraw(n, d) && Distinct(s)
    ensures Distinct(Shuffled(s, n, d))
    decreases n
  {
    if n > 1 {
      SwapKeepsDistinct(s, n - 1, d[0]);
      ShuffleKeepsDistinct(Swapped(s, n - 1, d[0]), n - 1, d[1..]);
    }
  }
}
