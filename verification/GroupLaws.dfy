/** What a published group says about its inputs, by counting and comparing them:
    where they come from, which observation of a collector is kept, which two are trimmed, what the
    median is, and what the average confidence and the source root cover. */
module GroupLaws {
  import opened Machine
  import opened Records
  import opened Sorting
  import opened Aggregation
  import opened EpochAggregation
  import opened EpochGroups
  import Merkle
  import WireLaws

  // ----- the observations of a group

  /** How often a batch of the input's commit hash holds its observation. */
  function Holding(x: Input): SourceBatch -> nat
  {
    (b: SourceBatch) => if b.commitHash == x.batchHash then multiset(b.observations)[x.obs] else 0
  }

  lemma CountSnoc<T>(s: seq<T>, last: T, x: T)
    ensures multiset(s + [last])[x] == multiset(s)[x] + (if last == x then 1 else 0)
  {}

  lemma {:induction false} OfEpochCounted(epoch: u64, hash: Hash32, os: seq<Observation>, x: Input)
    ensures multiset(OfEpoch(epoch, hash, os))[x]
            == if x.obs.epoch == epoch && x.batchHash == hash then multiset(os)[x.obs] else 0
  {
    if |os| > 0 {
      var front, last := os[..|os| - 1], os[|os| - 1];
      OfEpochCounted(epoch, hash, front, x);
      assert os == front + [last];
      CountSnoc(front, last, x.obs);
      CountSnoc(OfEpoch(epoch, hash, front), Input(last, hash), x);
    }
  }

  /** The inputs are the epoch's observations of all batches, as often as these
      hold them, each with its batch's commit hash. */
  lemma {:induction false} InputsCounted(epoch: u64, batches: seq<SourceBatch>, x: Input)
    ensures multiset(AllInputs(epoch, batches))[x] == if x.obs.epoch == epoch then SumBy(Holding(x), batches) else 0
  {
    if |batches| > 0 {
      var front, last := batches[..|batches| - 1], batches[|batches| - 1];
      InputsCounted(epoch, front, x);
      OfEpochCounted(epoch, last.commitHash, last.observations, x);
    }
  }

  /** A group's are those of its slot and app. */
  lemma {:induction false} GroupCounted(inputs: seq<Input>, k: Key, x: Input)
    ensures multiset(InGroup(inputs, k))[x] == if k == [x.obs.slot, x.obs.app] then multiset(inputs)[x] else 0
  {
    if |inputs| > 0 {
      var front, last := inputs[..|inputs| - 1], inputs[|inputs| - 1];
      GroupCounted(front, k, x);
      assert inputs == front + [last];
      CountSnoc(front, last, x);
      CountSnoc(InGroup(front, k), last, x);
    }
  }

  /** What each published group of an epoch is made from, in the batches' terms. */
  lemma EpochGroupInputs(sha: Merkle.Sha, scorer: Scorer, epoch: u64, batches: seq<SourceBatch>, keys: seq<Key>,
                         groups: seq<Group>, i: nat) returns (inputs: seq<Input>)
    requires EpochPublished(sha, scorer, AllInputs(epoch, batches), keys, groups) && i < |groups|
    ensures Published(sha, scorer, inputs, groups[i])
    ensures forall x: Input ::
              multiset(inputs)[x]
              == if keys[i] == [x.obs.slot, x.obs.app] && x.obs.epoch == epoch then SumBy(Holding(x), batches) else 0
  {
    var all := AllInputs(epoch, batches);
    inputs := GroupLists(all, keys)[i];
    assert PublishedBy(sha, scorer)(inputs, groups[i]);
    forall x: Input
      ensures multiset(inputs)[x]
              == if keys[i] == [x.obs.slot, x.obs.app] && x.obs.epoch == epoch then SumBy(Holding(x), batches) else 0
    {
      GroupCounted(all, keys[i], x);
      InputsCounted(epoch, batches, x);
    }
  }

  // ----- the observation kept for a collector

  /** Earlier; at one time, fewer players; then by body hash, batch and signature. */
  predicate Earlier(x: Input, y: Input)
  {
    || x.obs.observedAtMillis < y.obs.observedAtMillis
    || (x.obs.observedAtMillis == y.obs.observedAtMillis
        && (|| x.obs.players < y.obs.players
            || (x.obs.players == y.obs.players && SmallerHashes(x, y))))
  }

  predicate SmallerHashes(x: Input, y: Input)
  {
    if x.obs.bodyHash != y.obs.bodyHash then Leq(x.obs.bodyHash, y.obs.bodyHash)
    else if x.batchHash != y.batchHash then Leq(x.batchHash, y.batchHash)
    else Leq(x.obs.signature, y.obs.signature)
  }

  function HashPart(x: Input): Key { x.obs.bodyHash + (x.batchHash + x.obs.signature) }

  lemma HashPartOrder(x: Input, y: Input)
    ensures Leq(HashPart(x), HashPart(y)) <==> SmallerHashes(x, y)
  {
    LeqConcat(x.batchHash, y.batchHash, x.obs.signature, y.obs.signature);
    LeqConcat(x.obs.bodyHash, y.obs.bodyHash, x.batchHash + x.obs.signature, y.batchHash + y.obs.signature);
  }

  lemma RankIsEarlier(x: Input, y: Input)
    ensures Leq(Rank(x), Rank(y)) <==> Earlier(x, y)
  {
    var hx, hy := HashPart(x), HashPart(y);
    HashPartOrder(x, y);
    LeqFirst(x.obs.players, y.obs.players, hx, hy);
    LeqFirst(x.obs.observedAtMillis, y.obs.observedAtMillis, [x.obs.players] + hx, [y.obs.players] + hy);
    assert Rank(x) == [x.obs.observedAtMillis] + ([x.obs.players] + hx);
    assert Rank(y) == [y.obs.observedAtMillis] + ([y.obs.players] + hy);
  }

  /** Each collector's kept observation is its earliest. */
  lemma EarliestKept(inputs: seq<Input>, kept: Input, x: Input)
    requires kept in Dedup(inputs) && x in inputs && x.obs.collector == kept.obs.collector
    ensures kept in inputs && Earlier(kept, x) && kept.obs.observedAtMillis <= x.obs.observedAtMillis
  {
    DedupBest(inputs);
    RankIsEarlier(kept, x);
  }

  // ----- the two observations trimmed

  /** By players, then collector, time, body hash and batch. */
  predicate Lower(x: Input, y: Input)
  {
    || x.obs.players < y.obs.players
    || (x.obs.players == y.obs.players
        && if x.obs.collector != y.obs.collector then Leq(x.obs.collector, y.obs.collector) else LowerLater(x, y))
  }

  predicate LowerLater(x: Input, y: Input)
  {
    || x.obs.observedAtMillis < y.obs.observedAtMillis
    || (x.obs.observedAtMillis == y.obs.observedAtMillis
        && if x.obs.bodyHash != y.obs.bodyHash then Leq(x.obs.bodyHash, y.obs.bodyHash)
           else Leq(x.batchHash, y.batchHash))
  }

  lemma TrimKeyIsLower(x: Input, y: Input)
    ensures Leq(TrimKey(x), TrimKey(y)) <==> Lower(x, y)
  {
    var ax, ay := x.obs.bodyHash + x.batchHash, y.obs.bodyHash + y.batchHash;
    var tx, ty := [x.obs.observedAtMillis] + ax, [y.obs.observedAtMillis] + ay;
    LeqConcat(x.obs.bodyHash, y.obs.bodyHash, x.batchHash, y.batchHash);
    LeqFirst(x.obs.observedAtMillis, y.obs.observedAtMillis, ax, ay);
    LeqConcat(x.obs.collector, y.obs.collector, tx, ty);
    LeqFirst(x.obs.players, y.obs.players, x.obs.collector + tx, y.obs.collector + ty);
    assert TrimKey(x) == [x.obs.players] + (x.obs.collector + tx);
    assert TrimKey(y) == [y.obs.players] + (y.obs.collector + ty);
  }

  /** Of five or more, the lowest and the highest are dropped and no other. */
  lemma ExtremesTrimmed(xs: seq<Input>) returns (lowest: Input, highest: Input)
    requires |xs| >= 5
    ensures multiset(xs) == multiset(Trim(xs)) + multiset{lowest, highest}
    ensures forall x :: x in xs ==> Lower(lowest, x) && Lower(x, highest)
  {
    var s := SortBy(TrimKey, xs);
    var n := |s| - 1;
    lowest, highest := s[0], s[n];
    SortBySorted(TrimKey, xs);
    EndsOff(s);
    forall x | x in xs ensures Lower(lowest, x) && Lower(x, highest) {
      assert x in multiset(s);
      BetweenEnds(s, x);
    }
  }

  lemma EndsOff<T>(s: seq<T>)
    requires |s| >= 2
    ensures var n := |s| - 1; multiset(s) == multiset(s[1..n]) + multiset{s[0], s[n]}
  {
    var n := |s| - 1;
    assert s == [s[0]] + s[1..n] + [s[n]];
  }

  lemma BetweenEnds(s: seq<Input>, x: Input)
    requires SortedBy(TrimKey, s) && x in s
    ensures Lower(s[0], x) && Lower(x, s[|s| - 1])
  {
    var i :| 0 <= i < |s| && s[i] == x;
    LeqSelf(TrimKey(x));
    TrimKeyIsLower(s[0], x);
    TrimKeyIsLower(x, s[|s| - 1]);
  }

  /** Of fewer, none. */
  lemma FewUntrimmed(xs: seq<Input>)
    requires |xs| < 5
    ensures Trim(xs) == xs
  {}

  // ----- the median, by counting

  function CountBelow(ps: seq<nat>, v: nat): nat
  {
    if |ps| == 0 then 0 else CountBelow(ps[..|ps| - 1], v) + (if ps[|ps| - 1] < v then 1 else 0)
  }

  function CountUpTo(ps: seq<nat>, v: nat): nat
  {
    if |ps| == 0 then 0 else CountUpTo(ps[..|ps| - 1], v) + (if ps[|ps| - 1] <= v then 1 else 0)
  }

  /** The figure has at most `k` figures below it and more than `k` up to it. */
  predicate OrderStatistic(ps: seq<nat>, k: nat, v: nat) { CountBelow(ps, v) <= k < CountUpTo(ps, v) }

  function Below(v: nat): nat -> nat { (p: nat) => if p < v then 1 else 0 }
  function UpTo(v: nat): nat -> nat { (p: nat) => if p <= v then 1 else 0 }

  lemma {:induction false} CountsAreSums(ps: seq<nat>, v: nat)
    ensures CountBelow(ps, v) == SumBy(Below(v), ps) && CountUpTo(ps, v) == SumBy(UpTo(v), ps)
  {
    if |ps| > 0 { CountsAreSums(ps[..|ps| - 1], v); }
  }

  lemma CountsPermuted(a: seq<nat>, b: seq<nat>, v: nat)
    requires multiset(a) == multiset(b)
    ensures CountBelow(a, v) == CountBelow(b, v) && CountUpTo(a, v) == CountUpTo(b, v)
  {
    CountsAreSums(a, v);
    CountsAreSums(b, v);
    SumByPermuted(Below(v), a, b);
    SumByPermuted(UpTo(v), a, b);
  }

  lemma {:induction false} CountBelowAtLeast(s: seq<nat>, v: nat, k: nat)
    requires k <= |s| && forall i :: 0 <= i < k ==> s[i] < v
    ensures CountBelow(s, v) >= k
  {
    if |s| > 0 { CountBelowAtLeast(s[..|s| - 1], v, Min(k, |s| - 1)); }
  }

  lemma {:induction false} CountUpToAtMost(s: seq<nat>, v: nat, k: nat)
    requires k <= |s| && forall i :: k <= i < |s| ==> s[i] > v
    ensures CountUpTo(s, v) <= k
  {
    if |s| > 0 { CountUpToAtMost(s[..|s| - 1], v, Min(k, |s| - 1)); }
  }

  lemma {:induction false} CountUpToAtLeast(s: seq<nat>, v: nat, k: nat)
    requires k <= |s| && forall i :: 0 <= i < k ==> s[i] <= v
    ensures CountUpTo(s, v) >= k
  {
    if |s| > 0 { CountUpToAtLeast(s[..|s| - 1], v, Min(k, |s| - 1)); }
  }

  lemma {:induction false} CountBelowAtMost(s: seq<nat>, v: nat, k: nat)
    requires k <= |s| && forall i :: k <= i < |s| ==> s[i] >= v
    ensures CountBelow(s, v) <= k
  {
    if |s| > 0 { CountBelowAtMost(s[..|s| - 1], v, Min(k, |s| - 1)); }
  }

  /** In a sorted list the order statistic stands at its place. */
  lemma StatisticAt(s: seq<nat>, k: nat, v: nat)
    requires NonDecreasing(s) && k < |s|
    ensures OrderStatistic(s, k, v) <==> s[k] == v
  {
    if s[k] < v {
      CountBelowAtLeast(s, v, k + 1);
    } else if s[k] > v {
      CountUpToAtMost(s, v, k);
    } else {
      CountBelowAtMost(s, v, k);
      CountUpToAtLeast(s, v, k + 1);
    }
  }

  lemma StatisticOf(ps: seq<nat>, k: nat, v: nat)
    requires k < |ps|
    ensures OrderStatistic(ps, k, v) <==> Sorted(ps)[k] == v
  {
    SortedNonDecreasing(ps);
    CountsPermuted(ps, Sorted(ps), v);
    StatisticAt(Sorted(ps), k, v);
  }

  /** Half the sum of the two middle figures, rounded down, or of the largest
      64-bit value if the sum does not fit; with an odd number the two are one. */
  ghost predicate IsMedian(ps: seq<nat>, m: nat, a: nat, b: nat)
  {
    && (|ps| % 2 == 1 ==> a == b == m)
    && (|ps| % 2 == 0 && a + b < U64 ==> 2 * m <= a + b <= 2 * m + 1)
    && (|ps| % 2 == 0 && a + b >= U64 ==> m == 0x7FFF_FFFF_FFFF_FFFF)
  }

  lemma MedianLaw(ps: seq<nat>, a: nat, b: nat)
    requires |ps| > 0 && OrderStatistic(ps, (|ps| - 1) / 2, a) && OrderStatistic(ps, |ps| / 2, b)
    ensures IsMedian(ps, Median(ps), a, b)
  {
    StatisticOf(ps, (|ps| - 1) / 2, a);
    StatisticOf(ps, |ps| / 2, b);
  }

  /** There are such figures, and they are among those counted. */
  lemma MiddleFigures(ps: seq<nat>) returns (a: nat, b: nat)
    requires |ps| > 0
    ensures a in ps && b in ps
    ensures OrderStatistic(ps, (|ps| - 1) / 2, a) && OrderStatistic(ps, |ps| / 2, b)
  {
    var s := Sorted(ps);
    a, b := s[(|ps| - 1) / 2], s[|ps| / 2];
    StatisticOf(ps, (|ps| - 1) / 2, a);
    StatisticOf(ps, |ps| / 2, b);
    assert a in multiset(s) && b in multiset(s);
  }

  function Figures(os: seq<Observation>): (ps: seq<nat>)
    ensures |ps| == |os| && forall i :: 0 <= i < |os| ==> ps[i] == os[i].players
  {
    if |os| == 0 then [] else Figures(os[..|os| - 1]) + [os[|os| - 1].players]
  }

  /** The published median is that of the published observations, by counting. */
  lemma PublishedMedian(sha: Merkle.Sha, scorer: Scorer, inputs: seq<Input>, g: Group, a: nat, b: nat)
    requires Published(sha, scorer, inputs, g)
    requires OrderStatistic(Figures(g.accepted), (|g.accepted| - 1) / 2, a)
    requires OrderStatistic(Figures(g.accepted), |g.accepted| / 2, b)
    ensures IsMedian(Figures(g.accepted), g.median, a, b)
  {
    MedianOfFigures(Dedup(inputs), g.accepted);
    MedianLaw(Figures(g.accepted), a, b);
  }

  lemma MedianOfFigures(kept: seq<Input>, accepted: seq<Observation>)
    requires accepted == Observations(Trim(kept))
    ensures Median(Figures(accepted)) == MedianPlayers(kept)
  {
    TrimKeepsMedian(kept);
    assert Figures(accepted) == Players(Trim(kept));
  }

  // ----- the source kind

  /** The observations of a kind, by position. */
  function OfKind(os: seq<Observation>, k: SourceKind): set<nat> { set i: nat | i < |os| && os[i].source == k }

  lemma {:induction false} KindCounted(os: seq<Observation>, k: SourceKind)
    ensures CountKind(os, k) == |OfKind(os, k)|
  {
    if |os| > 0 {
      var n := |os| - 1;
      var front, before := os[..n], OfKind(os[..n], k);
      KindCounted(front, k);
      assert n !in before;
      if os[n].source == k {
        assert OfKind(os, k) == before + {n};
      } else {
        assert OfKind(os, k) == before;
      }
    }
  }

  /** A kind is one of the most frequent, and the last of these by tag. */
  ghost predicate MostFrequent(os: seq<Observation>, source: SourceKind)
  {
    forall k :: FrequentAs(os, source, k)
  }

  ghost predicate FrequentAs(os: seq<Observation>, source: SourceKind, k: SourceKind)
  {
    || |OfKind(os, k)| < |OfKind(os, source)|
    || (|OfKind(os, k)| == |OfKind(os, source)| && WireLaws.KindTag(k) <= WireLaws.KindTag(source))
  }

  lemma OutweighsFrequent(os: seq<Observation>, source: SourceKind, k: SourceKind)
    requires Outweighs(os, source, k)
    ensures FrequentAs(os, source, k)
  {
    KindCounted(os, k);
    KindCounted(os, source);
  }

  /** The published kind is that of the published observations. */
  lemma PublishedSource(sha: Merkle.Sha, scorer: Scorer, inputs: seq<Input>, g: Group)
    requires Published(sha, scorer, inputs, g)
    ensures MostFrequent(g.accepted, g.source)
  {
    var os, source := g.accepted, g.source;
    assert forall l :: Outweighs(os, source, l);
    forall k ensures FrequentAs(os, source, k) { OutweighsFrequent(os, source, k); }
  }

  // ----- the average confidence

  function ConfidenceOf(o: Observation): nat { o.confidencePpm }

  lemma {:induction false} TotalIsSum(os: seq<Observation>)
    ensures TotalConfidence(os) == SumBy(ConfidenceOf, os)
  {
    if |os| > 0 {
      TotalIsSum(os[1..]);
      SumByDrop(ConfidenceOf, os, 0);
      assert os[..0] + os[1..] == os[1..];
    }
  }

  /** It is the sum of all over their number, rounded down. */
  lemma AverageExact(os: seq<Observation>)
    ensures |os| > 0 ==> |os| * AverageConfidence(os) <= SumBy(ConfidenceOf, os) < |os| * (AverageConfidence(os) + 1)
    ensures os == [] ==> AverageConfidence(os) == 1_000_000
  {
    TotalIsSum(os);
    if |os| > 0 { FloorLaw(TotalConfidence(os), |os|); }
  }

  // ----- the source root

  /** It commits to the distinct batches of the observations, in ascending order. */
  lemma SourceRootCovers(sha: Merkle.Sha, xs: seq<Input>, hashes: seq<Hash32>)
    requires StrictlyAscending(hashes)
    requires forall h :: h in hashes <==> exists x :: x in xs && x.batchHash == h
    ensures SourceRoot(sha, xs) == Merkle.Root(sha, hashes)
  {
    var all := set x | x in xs :: x.batchHash;
    var listed := Ordered(all);
    InOrderAscending(all);
    forall h: Key ensures h in listed <==> h in hashes {
      if h in hashes {
        var i :| 0 <= i < |hashes| && hashes[i] == h;
        assert hashes[i] in all;
      }
      if h in listed {
        var i :| 0 <= i < |listed| && listed[i] == h;
        assert listed[i] in all;
      }
    }
    SameKeys(listed, hashes);
  }
}
