/** The published median against collectors that report anything they like, and
    against reordering of the inputs. */
module RobustMedian {
  import opened Machine
  import opened Records
  import opened Sorting
  import opened Aggregation

  const HALF: nat := 0x8000_0000_0000_0000

  // ----- counting collectors

  function Faults(xs: seq<Input>, faulty: set<Hash32>): nat
  {
    if |xs| == 0 then 0
    else (if xs[0].obs.collector in faulty then 1 else 0) + Faults(xs[1..], faulty)
  }

  lemma {:induction false} FaultsConcat(a: seq<Input>, b: seq<Input>, faulty: set<Hash32>)
    ensures Faults(a + b, faulty) == Faults(a, faulty) + Faults(b, faulty)
  {
    if |a| == 0 {
      assert a + b == b;
    } else {
      assert (a + b)[1..] == a[1..] + b;
      FaultsConcat(a[1..], b, faulty);
    }
  }

  lemma FaultsDrop(xs: seq<Input>, i: nat, faulty: set<Hash32>)
    requires i < |xs|
    ensures Faults(xs, faulty)
            == Faults(xs[..i] + xs[i + 1..], faulty) + (if xs[i].obs.collector in faulty then 1 else 0)
  {
    assert xs == xs[..i] + ([xs[i]] + xs[i + 1..]);
    FaultsConcat(xs[..i], [xs[i]] + xs[i + 1..], faulty);
    FaultsConcat([xs[i]], xs[i + 1..], faulty);
    FaultsConcat(xs[..i], xs[i + 1..], faulty);
  }

  lemma {:induction false} FaultsOfPermutation(a: seq<Input>, b: seq<Input>, faulty: set<Hash32>)
    requires multiset(a) == multiset(b)
    ensures Faults(a, faulty) == Faults(b, faulty)
  {
    if a == [] {
      assert |b| == |multiset(b)| == 0;
    } else {
      assert a[0] in multiset(b);
      var i :| 0 <= i < |b| && b[i] == a[0];
      TailCount(a);
      DropCount(b, i);
      FaultsOfPermutation(a[1..], b[..i] + b[i + 1..], faulty);
      FaultsDrop(b, i, faulty);
    }
  }

  /** A stretch longer than the number of faulty entries holds an honest one. */
  lemma {:induction false} HonestIn(xs: seq<Input>, faulty: set<Hash32>) returns (k: nat)
    requires Faults(xs, faulty) < |xs|
    ensures k < |xs| && xs[k].obs.collector !in faulty
  {
    if xs[0].obs.collector !in faulty {
      k := 0;
    } else {
      k := HonestIn(xs[1..], faulty);
      k := k + 1;
    }
  }

  lemma HonestBetween(xs: seq<Input>, faulty: set<Hash32>, lo: nat, hi: nat) returns (k: nat)
    requires lo <= hi <= |xs| && Faults(xs, faulty) < hi - lo
    ensures lo <= k < hi && xs[k].obs.collector !in faulty
  {
    assert xs == xs[..lo] + (xs[lo..hi] + xs[hi..]);
    FaultsConcat(xs[..lo], xs[lo..hi] + xs[hi..], faulty);
    FaultsConcat(xs[lo..hi], xs[hi..], faulty);
    k := HonestIn(xs[lo..hi], faulty);
    k := k + lo;
  }

  lemma PresentCons(xs: seq<Input>)
    requires |xs| > 0 && DistinctCollectors(xs)
    ensures Present(xs) == {xs[0].obs.collector} + Present(xs[1..]) && xs[0].obs.collector !in Present(xs[1..])
  {
    var rest := xs[1..];
    assert forall i :: 0 <= i < |rest| ==> rest[i] == xs[i + 1] && rest[i].obs.collector != xs[0].obs.collector;
    assert xs == [xs[0]] + rest;
  }

  lemma {:induction false} FaultsAreCollectors(xs: seq<Input>, faulty: set<Hash32>)
    requires DistinctCollectors(xs)
    ensures Faults(xs, faulty) == |faulty * Present(xs)| && |xs| == |Present(xs)|
  {
    if |xs| == 0 {
      assert faulty * Present(xs) == {};
    } else {
      FaultsAreCollectors(xs[1..], faulty);
      PresentCons(xs);
      OneMoreFaulty(faulty, Present(xs[1..]), xs[0].obs.collector);
    }
  }

  lemma OneMoreFaulty(faulty: set<Hash32>, rest: set<Hash32>, c: Hash32)
    requires c !in rest
    ensures |faulty * ({c} + rest)| == (if c in faulty then 1 else 0) + |faulty * rest|
    ensures |{c} + rest| == 1 + |rest|
  {
    if c in faulty {
      assert faulty * ({c} + rest) == {c} + faulty * rest;
    } else {
      assert faulty * ({c} + rest) == faulty * rest;
    }
  }

  // ----- robustness

  ghost predicate Minority(inputs: seq<Input>, faulty: set<Hash32>)
  {
    2 * |faulty * Present(inputs)| < |Present(inputs)|
  }

  /** Entries of honest collectors lie between `lo` and `hi`. */
  ghost predicate HonestWithin(xs: seq<Input>, faulty: set<Hash32>, lo: nat, hi: nat)
  {
    forall x :: x in xs && x.obs.collector !in faulty ==> lo <= x.obs.players <= hi
  }

  /** The middle positions of `n` sorted values. */
  function Low(n: nat): (i: nat)
    requires n > 0
    ensures n <= 2 * i + 2 && 2 * i + 1 <= n
  {
    (n - 1) / 2
  }

  function High(n: nat): (j: nat)
    requires n > 0
    ensures n <= 2 * j + 1 && 2 * j <= n
  {
    n / 2
  }

  /** With a faulty minority the middle of the sorted counts is honest-bounded. */
  lemma MiddleBounded(d: seq<Input>, faulty: set<Hash32>, lo: nat, hi: nat)
    requires 2 * Faults(d, faulty) < |d| && HonestWithin(d, faulty, lo, hi)
    ensures lo <= Sorted(Players(d))[Low(|d|)] && Sorted(Players(d))[High(|d|)] <= hi
  {
    var t := SortBy(TrimKey, d);
    FaultsOfPermutation(t, d, faulty);
    PlayersOfSorted(d);
    SortedNonDecreasing(Players(d));
    var s, i, j := Players(t), Low(|d|), High(|d|);
    var below := HonestBetween(t, faulty, 0, i + 1);
    var above := HonestBetween(t, faulty, j, |t|);
    assert t[below] in multiset(d) && t[above] in multiset(d);
    NonDecreasingAt(s, below, i);
    NonDecreasingAt(s, j, above);
  }

  lemma NonDecreasingAt(s: seq<nat>, i: nat, j: nat)
    requires NonDecreasing(s) && i <= j < |s|
    ensures s[i] <= s[j]
  {}

  lemma MedianBounded(d: seq<Input>, faulty: set<Hash32>, lo: nat, hi: nat)
    requires 2 * Faults(d, faulty) < |d| && HonestWithin(d, faulty, lo, hi)
    ensures lo <= MedianPlayers(d) <= hi <==> (|d| % 2 == 1 || lo < HALF)
  {
    MiddleBounded(d, faulty, lo, hi);
    SortedNonDecreasing(Players(d));
    SortedBelow(d);
    MiddleOfPair(Sorted(Players(d)), lo, hi);
  }

  /** The published median lies within the range selected for the honest
      collectors, however many inputs a faulty minority submits, exactly when the
      even case cannot saturate below the honest minimum. */
  lemma MedianRobust(inputs: seq<Input>, faulty: set<Hash32>, least: Input, hi: nat)
    requires Minority(inputs, faulty)
    requires least in Dedup(inputs) && least.obs.collector !in faulty
    requires HonestWithin(Dedup(inputs), faulty, least.obs.players, hi)
    ensures least.obs.players <= MedianPlayers(Trim(Dedup(inputs))) <= hi
            <==> (|Present(inputs)| % 2 == 1 || least.obs.players < HALF)
  {
    var d := Dedup(inputs);
    DedupDistinct(inputs);
    DedupPresent(inputs);
    FaultsAreCollectors(d, faulty);
    MedianBounded(d, faulty, least.obs.players, hi);
    TrimKeepsMedian(d);
  }

  /** Past the bound two honest collectors, both reporting one figure, have a
      median that is not it. */
  lemma EvenMedianMisses(a: Input, b: Input)
    requires a.obs.players == b.obs.players >= HALF
    ensures MedianPlayers([a, b]) != a.obs.players
  {
    var d := [a, b];
    assert Faults(d[1..], {}) == 0;
    MedianBounded(d, {}, a.obs.players, a.obs.players);
  }

  lemma SortedBelow(d: seq<Input>)
    ensures forall k :: 0 <= k < |d| ==> Sorted(Players(d))[k] < U64
  {
    PlayersOfSorted(d);
  }

  lemma MiddleOfPair(s: seq<nat>, lo: nat, hi: nat)
    requires |s| > 0 && NonDecreasing(s) && forall k :: 0 <= k < |s| ==> s[k] < U64
    requires lo <= s[Low(|s|)] && s[High(|s|)] <= hi
    ensures lo <= MiddleOf(s) <= hi <==> (|s| % 2 == 1 || lo < HALF)
  {
    if |s| % 2 == 0 {
      var a, b := s[Low(|s|)], s[High(|s|)];
      assert Low(|s|) == |s| / 2 - 1;
      assert a <= b;
      assert MiddleOf(s) == SatAdd(U64, a, b) / 2;
    }
  }
}
