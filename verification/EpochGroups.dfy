/** The epoch pass: every observation of the epoch lands in exactly one group,
    and the published counters add up. */
module EpochGroups {
  import opened Machine
  import opened Records
  import opened Sorting
  import opened Aggregation
  import opened EpochAggregation
  import Gvs
  import Merkle

  datatype SourceBatch = SourceBatch(commitHash: Hash32, observations: seq<Observation>)

  datatype Group = Group(
    slot: u64,
    app: u32,
    total: nat,
    unique: nat,
    trimmed: nat,
    accepted: seq<Observation>,
    source: SourceKind,
    confidencePpm: nat,
    median: nat,
    factors: Gvs.Factors,
    sourceRoot: Hash32)

  /** How a group is scored from its slot, collectors and median. */
  type Scorer = (u64, u32, u64) -> Gvs.Factors

  function GvsScorer(tiers: Gvs.TierParams, slotsPerEpoch: u64): Scorer
  {
    (slot: u64, collectors: u32, median: u64) => Gvs.FactorsOf(tiers, slotsPerEpoch, slot, collectors, median)
  }

  function GroupKey(x: Input): Key { [x.obs.slot, x.obs.app] }

  /** One batch's observations of the epoch, as inputs. */
  function OfEpoch(epoch: u64, hash: Hash32, os: seq<Observation>): seq<Input>
  {
    if |os| == 0 then []
    else OfEpoch(epoch, hash, os[..|os| - 1])
         + (if os[|os| - 1].epoch == epoch then [Input(os[|os| - 1], hash)] else [])
  }

  function AllInputs(epoch: u64, batches: seq<SourceBatch>): seq<Input>
  {
    if |batches| == 0 then []
    else AllInputs(epoch, batches[..|batches| - 1])
         + OfEpoch(epoch, batches[|batches| - 1].commitHash, batches[|batches| - 1].observations)
  }

  function InGroup(inputs: seq<Input>, k: Key): seq<Input>
  {
    if |inputs| == 0 then []
    else InGroup(inputs[..|inputs| - 1], k)
         + (if GroupKey(inputs[|inputs| - 1]) == k then [inputs[|inputs| - 1]] else [])
  }

  lemma InGroupSnoc(inputs: seq<Input>, x: Input, k: Key)
    ensures InGroup(inputs + [x], k) == InGroup(inputs, k) + (if GroupKey(x) == k then [x] else [])
  {
    assert (inputs + [x])[..|inputs|] == inputs;
  }

  lemma {:induction false} NoneInGroup(inputs: seq<Input>, k: Key)
    requires forall x :: x in inputs ==> GroupKey(x) != k
    ensures InGroup(inputs, k) == []
  {
    if |inputs| > 0 {
      var n := |inputs| - 1;
      assert inputs[n] in inputs;
      NoneInGroup(inputs[..n], k);
    }
  }

  /** The group table holds, for each key seen, that key's inputs in order. */
  ghost predicate Grouped(groups: map<Key, seq<Input>>, seen: seq<Input>)
  {
    && (forall x :: x in seen ==> GroupKey(x) in groups)
    && forall k :: k in groups ==> groups[k] == InGroup(seen, k) && |groups[k]| > 0
  }

  /** `groups.entry(key).or_default().push(x)` */
  function Put(groups: map<Key, seq<Input>>, x: Input): map<Key, seq<Input>>
  {
    var k := GroupKey(x);
    groups[k := (if k in groups then groups[k] else []) + [x]]
  }

  lemma NewGroupEmpty(groups: map<Key, seq<Input>>, seen: seq<Input>, k: Key)
    requires Grouped(groups, seen) && k !in groups
    ensures InGroup(seen, k) == []
  {
    NoneInGroup(seen, k);
  }

  lemma PutAt(groups: map<Key, seq<Input>>, seen: seq<Input>, x: Input, j: Key)
    requires Grouped(groups, seen) && j in Put(groups, x)
    ensures Put(groups, x)[j] == InGroup(seen + [x], j) && |Put(groups, x)[j]| > 0
  {
    InGroupSnoc(seen, x, j);
    if j !in groups { NewGroupEmpty(groups, seen, j); }
  }

  lemma GroupedStep(groups: map<Key, seq<Input>>, seen: seq<Input>, x: Input)
    requires Grouped(groups, seen)
    ensures Grouped(Put(groups, x), seen + [x])
  {
    forall j | j in Put(groups, x) ensures Put(groups, x)[j] == InGroup(seen + [x], j) && |Put(groups, x)[j]| > 0 {
      PutAt(groups, seen, x, j);
    }
  }

  /** The table and the saturating counter, after reading `seen`. */
  ghost predicate Read(groups: map<Key, seq<Input>>, total: nat, seen: seq<Input>)
  {
    Grouped(groups, seen) && total == Min(|seen|, U32 - 1)
  }

  lemma ReadStep(groups: map<Key, seq<Input>>, total: nat, seen: seq<Input>, x: Input)
    requires Read(groups, total, seen)
    ensures Read(Put(groups, x), SatAdd(U32, total, 1), seen + [x])
  {
    GroupedStep(groups, seen, x);
  }

  method GroupBatch(epoch: u64, batch: SourceBatch, table: map<Key, seq<Input>>, count: nat, ghost before: seq<Input>)
    returns (groups: map<Key, seq<Input>>, total: nat)
    requires Read(table, count, before)
    ensures Read(groups, total, before + OfEpoch(epoch, batch.commitHash, batch.observations))
  {
    groups, total := table, count;
    ghost var seen := before;
    var os := batch.observations;
    assert before + [] == before;
    for i := 0 to |os|
      invariant seen == before + OfEpoch(epoch, batch.commitHash, os[..i])
      invariant Read(groups, total, seen)
    {
      OfEpochSnoc(epoch, batch.commitHash, os, i);
      if os[i].epoch == epoch {
        var x := Input(os[i], batch.commitHash);
        ReadStep(groups, total, seen, x);
        groups, total := Put(groups, x), SatAdd(U32, total, 1);
        seen := seen + [x];
      }
    }
    assert os[..|os|] == os;
  }

  lemma OfEpochSnoc(epoch: u64, hash: Hash32, os: seq<Observation>, i: nat)
    requires i < |os|
    ensures OfEpoch(epoch, hash, os[..i + 1])
         == OfEpoch(epoch, hash, os[..i]) + (if os[i].epoch == epoch then [Input(os[i], hash)] else [])
  {
    assert os[..i + 1][..i] == os[..i];
  }

  method GroupInputs(epoch: u64, batches: seq<SourceBatch>) returns (groups: map<Key, seq<Input>>, total: nat)
    ensures Read(groups, total, AllInputs(epoch, batches))
  {
    groups, total := map[], 0;
    for b := 0 to |batches|
      invariant Read(groups, total, AllInputs(epoch, batches[..b]))
    {
      assert batches[..b + 1][..b] == batches[..b];
      groups, total := GroupBatch(epoch, batches[b], groups, total, AllInputs(epoch, batches[..b]));
    }
    assert batches[..|batches|] == batches;
  }

  // ----- conservation

  function SumLengths(inputs: seq<Input>, keys: seq<Key>): nat
  {
    if |keys| == 0 then 0 else |InGroup(inputs, keys[0])| + SumLengths(inputs, keys[1..])
  }

  lemma {:induction false} SumSnoc(inputs: seq<Input>, x: Input, keys: seq<Key>)
    requires Distinct(keys)
    ensures SumLengths(inputs + [x], keys) == SumLengths(inputs, keys) + (if GroupKey(x) in keys then 1 else 0)
  {
    if |keys| > 0 {
      var rest := keys[1..];
      assert forall i :: 0 <= i < |rest| ==> rest[i] == keys[i + 1] && rest[i] != keys[0];
      SumSnoc(inputs, x, rest);
      InGroupSnoc(inputs, x, keys[0]);
      assert keys == [keys[0]] + rest;
    }
  }

  lemma {:induction false} NoInputsNoSum(keys: seq<Key>)
    ensures SumLengths([], keys) == 0
  {
    if |keys| > 0 { NoInputsNoSum(keys[1..]); }
  }

  /** Every input is counted in exactly one group. */
  lemma {:induction false} GroupsPartition(inputs: seq<Input>, keys: seq<Key>)
    requires Distinct(keys) && forall x :: x in inputs ==> GroupKey(x) in keys
    ensures SumLengths(inputs, keys) == |inputs|
  {
    if |inputs| == 0 {
      NoInputsNoSum(keys);
    } else {
      var n := |inputs| - 1;
      assert inputs == inputs[..n] + [inputs[n]];
      assert forall x :: x in inputs[..n] ==> x in inputs;
      GroupsPartition(inputs[..n], keys);
      SumSnoc(inputs[..n], inputs[n], keys);
    }
  }

  function Observations(xs: seq<Input>): (os: seq<Observation>)
    ensures |os| == |xs| && forall i :: 0 <= i < |xs| ==> os[i] == xs[i].obs
  {
    seq(|xs|, i requires 0 <= i < |xs| => xs[i].obs)
  }

  // ----- one published group

  /** A group's counters against its inputs. */
  ghost predicate Counted(inputs: seq<Input>, g: Group)
  {
    && |inputs| > 0 && g.slot == inputs[0].obs.slot && g.app == inputs[0].obs.app
    && g.total == |inputs| < U32
    && g.unique == |Present(inputs)| < U32
    && g.trimmed == g.unique - |g.accepted| && (g.trimmed == 0 || g.trimmed == 2)
  }

  /** A group's values against its inputs: the median is that of all distinct
      collectors, trimmed or not. */
  ghost predicate Valued(sha: Merkle.Sha, inputs: seq<Input>, g: Group)
  {
    && g.accepted == Observations(Trim(Dedup(inputs)))
    && g.median == MedianPlayers(Dedup(inputs)) < U64
    && g.sourceRoot == SourceRoot(sha, Trim(Dedup(inputs)))
    && g.confidencePpm == AverageConfidence(g.accepted)
    && |g.accepted| > 0 && forall l :: Outweighs(g.accepted, g.source, l)
  }

  ghost predicate Published(sha: Merkle.Sha, scorer: Scorer, inputs: seq<Input>, g: Group)
  {
    Counted(inputs, g) && Valued(sha, inputs, g)
    && g.factors == scorer(g.slot, g.unique, g.median)
  }

  lemma UniqueAtMostTotal(inputs: seq<Input>)
    ensures |Dedup(inputs)| == |Present(inputs)| <= |inputs|
    ensures |inputs| > 0 ==> |Dedup(inputs)| > 0
  {
    SelectPresent(inputs);
    PresentSize(inputs);
    if |inputs| > 0 { assert inputs[0].obs.collector in Present(inputs); }
  }

  lemma {:induction false} PresentSize(inputs: seq<Input>)
    ensures |Present(inputs)| <= |inputs|
  {
    if |inputs| > 0 {
      PresentSize(inputs[1..]);
      assert inputs == [inputs[0]] + inputs[1..];
      assert Present(inputs) == {inputs[0].obs.collector} + Present(inputs[1..]);
    }
  }

  lemma MedianFits(xs: seq<Input>)
    ensures MedianPlayers(xs) < U64
  {
    PlayersOfSorted(xs);
    var s := Sorted(Players(xs));
    if |xs| > 0 {
      assert forall k :: 0 <= k < |s| ==> s[k] < U64;
    }
  }

  method PublishGroup(sha: Merkle.Sha, scorer: Scorer, inputs: seq<Input>) returns (g: Group)
    requires 0 < |inputs| < U32
    ensures Published(sha, scorer, inputs, g)
  {
    var deduped := DeduplicateByCollector(inputs);
    var accepted := Trim(deduped);
    TrimmedSizes(inputs);
    var median := MedianPlayers(accepted);
    var observations, source, root := PublishAccepted(sha, accepted);
    assert |observations| == |accepted|;
    g := Group(inputs[0].obs.slot, inputs[0].obs.app, |inputs|, |deduped|, SatSub(|deduped|, |accepted|),
               observations, source, AverageConfidence(observations), median,
               scorer(inputs[0].obs.slot, |deduped|, median), root);
  }

  lemma TrimmedSizes(inputs: seq<Input>)
    requires |inputs| > 0
    ensures var d := Dedup(inputs);
            var a := Trim(d);
            && |d| == |Present(inputs)| <= |inputs| && 0 < |a| <= |d| && (|d| - |a| == 0 || |d| - |a| == 2)
            && MedianPlayers(a) == MedianPlayers(d) < U64
  {
    UniqueAtMostTotal(inputs);
    TrimKeepsMedian(Dedup(inputs));
    MedianFits(Dedup(inputs));
  }

  method PublishAccepted(sha: Merkle.Sha, accepted: seq<Input>)
    returns (observations: seq<Observation>, source: SourceKind, root: Hash32)
    requires |accepted| > 0
    ensures observations == Observations(accepted) && root == SourceRoot(sha, accepted)
    ensures forall l :: Outweighs(observations, source, l)
  {
    root := Merkle.ComputeRoot(sha, Ordered(set x | x in accepted :: x.batchHash));
    observations := Observations(accepted);
    source := DominantSourceKind(observations);
  }

  // ----- what a published group owes to the order of its inputs

  /** Two kinds that outweigh all others are the same. */
  lemma DominantUnique(os: seq<Observation>, k: SourceKind, l: SourceKind)
    requires Outweighs(os, k, l) && Outweighs(os, l, k)
    ensures k == l
  {}

  ghost predicate OfOneGroup(inputs: seq<Input>)
  {
    forall x, y :: x in inputs && y in inputs ==> GroupKey(x) == GroupKey(y)
  }

  /** Groups published from the same inputs in different order agree on slot, app,
      counters, median, every factor of the score, and the source root; if
      no collector's best rank is tied they are equal, source kind and
      confidence included. */
  lemma PublishedOrderIndependent(sha: Merkle.Sha, scorer: Scorer, a: seq<Input>, b: seq<Input>, g: Group, h: Group)
    requires multiset(a) == multiset(b) && OfOneGroup(a)
    requires Published(sha, scorer, a, g) && Published(sha, scorer, b, h)
    ensures g.slot == h.slot && g.app == h.app && g.total == h.total && g.unique == h.unique && g.trimmed == h.trimmed
    ensures g.median == h.median && g.factors == h.factors && g.sourceRoot == h.sourceRoot
    ensures NoTies(a) ==> g == h
  {
    SameGroup(a, b);
    SameFacts(sha, a, b);
    assert |g.accepted| == |h.accepted|;
    if NoTies(a) {
      NoTiesOrderIndependent(a, b);
      DominantUnique(g.accepted, g.source, h.source);
    }
  }

  lemma SameFacts(sha: Merkle.Sha, a: seq<Input>, b: seq<Input>)
    requires multiset(a) == multiset(b)
    ensures |Present(a)| == |Present(b)| && |Trim(Dedup(a))| == |Trim(Dedup(b))|
    ensures MedianPlayers(Dedup(a)) == MedianPlayers(Dedup(b))
    ensures SourceRoot(sha, Trim(Dedup(a))) == SourceRoot(sha, Trim(Dedup(b)))
  {
    FactsOrderIndependent(sha, a, b);
    PresentOfPermutation(a, b);
    TrimKeepsMedian(Dedup(a));
    TrimKeepsMedian(Dedup(b));
    assert |FactsOf(sha, a).collectors| == |FactsOf(sha, b).collectors|;
  }

  lemma SameGroup(a: seq<Input>, b: seq<Input>)
    requires multiset(a) == multiset(b) && OfOneGroup(a) && |a| > 0
    ensures |a| == |b| && a[0].obs.slot == b[0].obs.slot && a[0].obs.app == b[0].obs.app
  {
    assert |a| == |multiset(a)| == |multiset(b)| == |b|;
    assert b[0] in multiset(a);
    assert GroupKey(a[0])[0] == GroupKey(b[0])[0] && GroupKey(a[0])[1] == GroupKey(b[0])[1];
  }

  /** A published score is the exact product of the published factors. */
  lemma PublishedScoreExact(sha: Merkle.Sha, tiers: Gvs.TierParams, slotsPerEpoch: u64, inputs: seq<Input>, g: Group)
    requires Gvs.Ordered(tiers) && Published(sha, GvsScorer(tiers, slotsPerEpoch), inputs, g)
    ensures g.factors.base == Min(1_000_000 * g.median, U64 - 1)
    ensures g.factors.coveragePpm == Gvs.CoverageBonusPpm(|Present(inputs)|)
    ensures var f := g.factors;
            f.score == Min(Gvs.Product(f.base, f.weightPpm, f.decayPpm, f.coveragePpm) / Gvs.PPM_CUBED, U64 - 1)
            && 4 * f.score <= 5 * f.base
  {
    Gvs.FactorsExact(tiers, slotsPerEpoch, g.slot, g.unique, g.median);
  }

  datatype Totals = Totals(observed: nat, deduped: nat, accepted: nat)

  function SumUnique(groups: seq<Group>): nat
  {
    if |groups| == 0 then 0 else SumUnique(groups[..|groups| - 1]) + groups[|groups| - 1].unique
  }

  function SumAccepted(groups: seq<Group>): nat
  {
    if |groups| == 0 then 0 else SumAccepted(groups[..|groups| - 1]) + |groups[|groups| - 1].accepted|
  }

  /** The inputs of each group, in key order. */
  function GroupLists(all: seq<Input>, keys: seq<Key>): (lists: seq<seq<Input>>)
    ensures |lists| == |keys| && forall i :: 0 <= i < |keys| ==> lists[i] == InGroup(all, keys[i])
  {
    seq(|keys|, i requires 0 <= i < |keys| => InGroup(all, keys[i]))
  }

  ghost predicate Pairwise<A, B>(p: (A, B) -> bool, xs: seq<A>, ys: seq<B>)
  {
    |ys| <= |xs| && forall i :: 0 <= i < |ys| ==> p(xs[i], ys[i])
  }

  lemma PairwiseSnoc<A, B>(p: (A, B) -> bool, xs: seq<A>, ys: seq<B>, y: B)
    requires |ys| < |xs| && Pairwise(p, xs, ys) && p(xs[|ys|], y)
    ensures Pairwise(p, xs, ys + [y])
  {}

  ghost function PublishedBy(sha: Merkle.Sha, scorer: Scorer): (seq<Input>, Group) -> bool
  {
    (inputs: seq<Input>, g: Group) => Published(sha, scorer, inputs, g)
  }

  ghost predicate AllPublished(sha: Merkle.Sha, scorer: Scorer, lists: seq<seq<Input>>, groups: seq<Group>)
  {
    Pairwise(PublishedBy(sha, scorer), lists, groups)
  }

  /** One group per key in ascending order, each published from its own inputs. */
  ghost predicate EpochPublished(sha: Merkle.Sha, scorer: Scorer, inputs: seq<Input>,
                                 keys: seq<Key>, groups: seq<Group>)
  {
    && StrictlyAscending(keys) && |groups| == |keys|
    && (forall x :: x in inputs ==> GroupKey(x) in keys)
    && AllPublished(sha, scorer, GroupLists(inputs, keys), groups)
  }

  /** One group per key in ascending order, each published from its own inputs;
      the epoch totals are the sums over the groups, and no observation is lost. */
  method AggregateEpoch(sha: Merkle.Sha, scorer: Scorer, epoch: u64, batches: seq<SourceBatch>)
    returns (keys: seq<Key>, groups: seq<Group>, totals: Totals)
    requires |AllInputs(epoch, batches)| < U32
    ensures EpochPublished(sha, scorer, AllInputs(epoch, batches), keys, groups)
    ensures totals.observed == SumLengths(AllInputs(epoch, batches), keys) == |AllInputs(epoch, batches)|
    ensures Tallied(groups, totals.deduped, totals.accepted)
  {
    var table, total := GroupInputs(epoch, batches);
    ghost var all := AllInputs(epoch, batches);
    keys := InOrder(table.Keys);
    InOrderAscending(table.Keys);
    GroupsPartition(all, keys);
    var lists := Lists(table, keys, all);
    var deduped, accepted;
    groups, deduped, accepted := PublishAll(sha, scorer, lists);
    totals := Totals(total, deduped, accepted);
  }

  method Lists(table: map<Key, seq<Input>>, keys: seq<Key>, ghost all: seq<Input>) returns (lists: seq<seq<Input>>)
    requires Grouped(table, all) && (forall k :: k in keys ==> k in table) && SumLengths(all, keys) < U32
    ensures lists == GroupLists(all, keys) && forall i :: 0 <= i < |lists| ==> 0 < |lists[i]| < U32
  {
    assert forall i :: 0 <= i < |keys| ==> keys[i] in keys;
    lists := seq(|keys|, i requires 0 <= i < |keys| => table[keys[i]]);
    forall i | 0 <= i < |keys| ensures |InGroup(all, keys[i])| < U32 { GroupFits(all, keys, i); }
  }

  predicate Tallied(groups: seq<Group>, deduped: nat, accepted: nat)
  {
    deduped == Min(SumUnique(groups), U32 - 1) && accepted == Min(SumAccepted(groups), U32 - 1)
  }

  lemma TalliedSnoc(groups: seq<Group>, g: Group, deduped: nat, accepted: nat)
    requires Tallied(groups, deduped, accepted)
    ensures Tallied(groups + [g], SatAdd(U32, deduped, g.unique), SatAdd(U32, accepted, |g.accepted|))
  {
    assert (groups + [g])[..|groups|] == groups;
  }

  method PublishAll(sha: Merkle.Sha, scorer: Scorer, lists: seq<seq<Input>>)
    returns (groups: seq<Group>, deduped: nat, accepted: nat)
    requires forall i :: 0 <= i < |lists| ==> 0 < |lists[i]| < U32
    ensures |groups| == |lists| && AllPublished(sha, scorer, lists, groups) && Tallied(groups, deduped, accepted)
  {
    groups, deduped, accepted := [], 0, 0;
    for i := 0 to |lists|
      invariant |groups| == i && AllPublished(sha, scorer, lists, groups) && Tallied(groups, deduped, accepted)
    {
      groups, deduped, accepted := PublishNext(sha, scorer, lists, groups, deduped, accepted);
    }
  }

  method PublishNext(sha: Merkle.Sha, scorer: Scorer, lists: seq<seq<Input>>, groups: seq<Group>, deduped: nat,
                     accepted: nat)
    returns (next: seq<Group>, deduped': nat, accepted': nat)
    requires |groups| < |lists| && 0 < |lists[|groups|]| < U32
    requires AllPublished(sha, scorer, lists, groups) && Tallied(groups, deduped, accepted)
    ensures |next| == |groups| + 1 && AllPublished(sha, scorer, lists, next) && Tallied(next, deduped', accepted')
  {
    var g := PublishGroup(sha, scorer, lists[|groups|]);
    TalliedSnoc(groups, g, deduped, accepted);
    PairwiseSnoc(PublishedBy(sha, scorer), lists, groups, g);
    next := groups + [g];
    deduped', accepted' := SatAdd(U32, deduped, g.unique), SatAdd(U32, accepted, |g.accepted|);
  }

  lemma {:induction false} GroupFits(inputs: seq<Input>, keys: seq<Key>, i: nat)
    requires i < |keys|
    ensures |InGroup(inputs, keys[i])| <= SumLengths(inputs, keys)
  {
    if i > 0 { GroupFits(inputs, keys[1..], i - 1); }
  }
}
