/** A whole epoch: grouping by (slot, app), one published aggregate per group,
    and what of it does not depend on the order batches were read in. */
module EpochAggregation {
  import opened Machine
  import opened Records
  import opened Sorting
  import opened Aggregation
  import Borsh
  import Merkle

  // ----- facts published with the median

  /** The distinct source batches, as a Merkle root over ascending hashes. */
  function SourceRoot(sha: Merkle.Sha, xs: seq<Input>): Hash32
  {
    Merkle.Root(sha, Ordered(set x | x in xs :: x.batchHash))
  }

  function CountKind(os: seq<Observation>, k: SourceKind): nat
  {
    if |os| == 0 then 0
    else CountKind(os[..|os| - 1], k) + (if os[|os| - 1].source == k then 1 else 0)
  }

  predicate Outweighs(os: seq<Observation>, k: SourceKind, l: SourceKind)
  {
    CountKind(os, l) < CountKind(os, k) || (CountKind(os, l) == CountKind(os, k) && Borsh.Tag(l) <= Borsh.Tag(k))
  }

  const KINDS: seq<SourceKind> := [Steam, Epic, Ea, Gog, Community]

  method CountKinds(os: seq<Observation>) returns (counts: map<SourceKind, nat>)
    ensures forall k :: k in counts <==> CountKind(os, k) > 0
    ensures forall k :: k in counts ==> counts[k] == CountKind(os, k)
    ensures |os| > 0 ==> os[0].source in counts
  {
    counts := map[];
    for i := 0 to |os|
      invariant forall k :: k in counts <==> CountKind(os[..i], k) > 0
      invariant forall k :: k in counts ==> counts[k] == CountKind(os[..i], k)
      invariant i > 0 ==> os[0].source in counts
    {
      var k := os[i].source;
      assert os[..i + 1][..i] == os[..i];
      counts := counts[k := (if k in counts then counts[k] else 0) + 1];
    }
    assert os[..|os|] == os;
  }

  /** The most frequent source, ties to the later kind; `Steam` for no observations. */
  method DominantSourceKind(os: seq<Observation>) returns (kind: SourceKind)
    ensures |os| == 0 ==> kind == Steam
    ensures |os| > 0 ==> CountKind(os, kind) > 0 && forall l :: Outweighs(os, kind, l)
  {
    var counts := CountKinds(os);
    kind := Steam;
    var best := 0;
    for i := 0 to |KINDS|
      invariant best == 0 ==> kind == Steam
      invariant best > 0 ==> best == CountKind(os, kind)
      invariant forall j :: 0 <= j < i ==> CountKind(os, KINDS[j]) == 0 || (best > 0 && Outweighs(os, kind, KINDS[j]))
      invariant best > 0 ==> Borsh.Tag(kind) < i
    {
      var k := KINDS[i];
      if k in counts && counts[k] >= best {
        kind, best := k, counts[k];
      }
    }
    if |os| > 0 {
      assert KINDS[Borsh.Tag(os[0].source)] == os[0].source;
      forall l ensures Outweighs(os, kind, l) {
        assert KINDS[Borsh.Tag(l)] == l;
      }
    }
  }

  function TotalConfidence(os: seq<Observation>): nat
  {
    if |os| == 0 then 0 else os[0].confidencePpm + TotalConfidence(os[1..])
  }

  function AverageConfidence(os: seq<Observation>): nat
  {
    if |os| == 0 then 1_000_000 else TotalConfidence(os) / |os|
  }

  lemma OneMore(n: nat, x: nat)
    ensures (n + 1) * x == x + n * x
  {}

  lemma {:induction false} TotalBetween(os: seq<Observation>, lo: nat, hi: nat)
    requires forall o :: o in os ==> lo <= o.confidencePpm <= hi
    ensures |os| * lo <= TotalConfidence(os) <= |os| * hi
  {
    if |os| > 0 {
      TotalBetween(os[1..], lo, hi);
      assert os[0] in os;
      OneMore(|os[1..]|, lo);
      OneMore(|os[1..]|, hi);
    }
  }

  lemma AverageBetween(os: seq<Observation>, lo: nat, hi: nat)
    requires |os| > 0 && forall o :: o in os ==> lo <= o.confidencePpm <= hi
    ensures lo <= AverageConfidence(os) <= hi
  {
    TotalBetween(os, lo, hi);
    DivMono(|os| * lo, TotalConfidence(os), |os|);
    DivMono(TotalConfidence(os), |os| * hi, |os|);
    DivCancel(lo, |os|);
    DivCancel(hi, |os|);
  }

  // ----- order independence

  /** What a group publishes that never depends on input order. */
  datatype Facts = Facts(unique: nat, collectors: seq<Hash32>, median: nat, sourceRoot: Hash32)

  function Collectors(xs: seq<Input>): (cs: seq<Hash32>)
    ensures |cs| == |xs| && forall i :: 0 <= i < |xs| ==> cs[i] == xs[i].obs.collector
  {
    seq(|xs|, i requires 0 <= i < |xs| => xs[i].obs.collector)
  }

  function FactsOf(sha: Merkle.Sha, inputs: seq<Input>): Facts
  {
    var accepted := Trim(Dedup(inputs));
    Facts(|Dedup(inputs)|, Collectors(accepted), MedianPlayers(accepted), SourceRoot(sha, accepted))
  }

  lemma SelectedRanksAgree(a: seq<Input>, b: seq<Input>, c: Hash32)
    requires multiset(a) == multiset(b) && c in Select(a) && c in Select(b)
    ensures TrimKey(Select(a)[c]) == TrimKey(Select(b)[c])
    ensures Rank(Select(a)[c]) == Rank(Select(b)[c])
  {
    var x, y := Select(a)[c], Select(b)[c];
    SelectBest(a);
    SelectBest(b);
    assert Best(a, x) && Best(b, y);
    assert x in multiset(a) && y in multiset(b);
    assert x in b && y in a;
    LeqAntisymmetric(Rank(x), Rank(y));
    RankDetermines(x, y);
  }

  lemma PresentOfPermutation(a: seq<Input>, b: seq<Input>)
    requires multiset(a) == multiset(b)
    ensures Present(a) == Present(b)
  {
    forall x ensures x in a <==> x in b {
      assert x in a <==> x in multiset(a);
      assert x in b <==> x in multiset(b);
    }
  }

  lemma DedupKeysAgree(a: seq<Input>, b: seq<Input>)
    requires multiset(a) == multiset(b)
    ensures |Dedup(a)| == |Dedup(b)| && Keys(TrimKey, Dedup(a)) == Keys(TrimKey, Dedup(b))
  {
    SelectPresent(a);
    SelectPresent(b);
    PresentOfPermutation(a, b);
    var keys, ka, kb := Ordered(Select(a).Keys), Keys(TrimKey, Dedup(a)), Keys(TrimKey, Dedup(b));
    forall i | 0 <= i < |keys| ensures ka[i] == kb[i] {
      SelectedRanksAgree(a, b, keys[i]);
    }
  }

  lemma KeysInner(s: seq<Input>)
    requires |s| >= 2
    ensures Keys(TrimKey, s[1..|s| - 1]) == Keys(TrimKey, s)[1..|s| - 1]
  {}

  lemma TrimKeysAgree(a: seq<Input>, b: seq<Input>)
    requires |a| == |b| && Keys(TrimKey, a) == Keys(TrimKey, b)
    ensures |Trim(a)| == |Trim(b)| && Keys(TrimKey, Trim(a)) == Keys(TrimKey, Trim(b))
  {
    if |a| >= 5 {
      SameKeysSortAlike(TrimKey, a, b);
      KeysInner(SortBy(TrimKey, a));
      KeysInner(SortBy(TrimKey, b));
    }
  }

  /** Equal trim ranks, position by position, publish equal facts. */
  lemma SameKeysSameFacts(sha: Merkle.Sha, x: seq<Input>, y: seq<Input>)
    requires |x| == |y| && Keys(TrimKey, x) == Keys(TrimKey, y)
    ensures Collectors(x) == Collectors(y) && MedianPlayers(x) == MedianPlayers(y)
    ensures SourceRoot(sha, x) == SourceRoot(sha, y)
  {
    forall i | 0 <= i < |x|
      ensures x[i].obs.players == y[i].obs.players && x[i].obs.collector == y[i].obs.collector
      ensures x[i].batchHash == y[i].batchHash
    {
      assert Keys(TrimKey, x)[i] == Keys(TrimKey, y)[i];
      TrimKeyDetermines(x[i], y[i]);
    }
    assert Players(x) == Players(y);
    var hx, hy := set v | v in x :: v.batchHash, set v | v in y :: v.batchHash;
    forall h ensures h in hx <==> h in hy {
      if h in hx {
        var i :| 0 <= i < |x| && x[i].batchHash == h;
        assert y[i] in y;
      }
      if h in hy {
        var i :| 0 <= i < |y| && y[i].batchHash == h;
        assert x[i] in x;
      }
    }
    assert hx == hy;
  }

  lemma FactsOrderIndependent(sha: Merkle.Sha, a: seq<Input>, b: seq<Input>)
    requires multiset(a) == multiset(b)
    ensures FactsOf(sha, a) == FactsOf(sha, b)
  {
    DedupKeysAgree(a, b);
    TrimKeysAgree(Dedup(a), Dedup(b));
    SameKeysSameFacts(sha, Trim(Dedup(a)), Trim(Dedup(b)));
  }

  /** No collector has two different least-ranked inputs. */
  ghost predicate NoTies(inputs: seq<Input>)
  {
    forall x, y :: Best(inputs, x) && Best(inputs, y) && x.obs.collector == y.obs.collector ==> x == y
  }

  lemma NoTiesOrderIndependent(a: seq<Input>, b: seq<Input>)
    requires multiset(a) == multiset(b) && NoTies(a)
    ensures Dedup(a) == Dedup(b)
  {
    SelectPresent(a);
    SelectPresent(b);
    PresentOfPermutation(a, b);
    forall c | c in Select(a) ensures Select(a)[c] == Select(b)[c] {
      var x, y := Select(a)[c], Select(b)[c];
      SelectBest(a);
      SelectBest(b);
      BestOfPermutation(a, b, y);
      assert Best(a, x) && Best(a, y);
    }
    assert Select(a) == Select(b);
  }

  lemma BestOfPermutation(a: seq<Input>, b: seq<Input>, y: Input)
    requires multiset(a) == multiset(b) && Best(b, y)
    ensures Best(a, y)
  {
    assert y in multiset(a);
    forall x | x in a && x.obs.collector == y.obs.collector ensures Leq(Rank(y), Rank(x)) {
      assert x in multiset(b);
    }
  }

  /** Among tied inputs the first one read is kept. */
  lemma {:induction false} FirstBestKept(x: Input, rest: seq<Input>)
    requires Best([x] + rest, x)
    ensures x.obs.collector in Select([x] + rest) && Select([x] + rest)[x.obs.collector] == x
  {
    var all := [x] + rest;
    if |rest| == 0 {
      assert all[..0] == [];
    } else {
      var n := |rest| - 1;
      assert all[..n + 1] == [x] + rest[..n];
      forall y | y in [x] + rest[..n] && y.obs.collector == x.obs.collector ensures Leq(Rank(x), Rank(y)) {
        assert y in all;
      }
      FirstBestKept(x, rest[..n]);
      var last := rest[n];
      assert all[n + 1] == last && last in all;
      if last.obs.collector == x.obs.collector && Less(Rank(last), Rank(x)) {
        LeqAntisymmetric(Rank(last), Rank(x));
      }
    }
  }

  lemma MoveToFront(a: seq<Input>, i: nat) returns (rest: seq<Input>)
    requires i < |a|
    ensures multiset([a[i]] + rest) == multiset(a)
  {
    rest := a[..i] + a[i + 1..];
    DropCount(a, i);
    assert a[i] in multiset(a);
  }

  /** The kept inputs themselves are independent of order exactly when no
      collector's best rank is tied. */
  lemma OrderIndependentIffNoTies(a: seq<Input>)
    ensures NoTies(a) <==> forall b :: multiset(b) == multiset(a) ==> Dedup(b) == Dedup(a)
  {
    if NoTies(a) {
      forall b | multiset(b) == multiset(a) ensures Dedup(b) == Dedup(a) {
        NoTiesOrderIndependent(a, b);
      }
    } else {
      var x, y :| Best(a, x) && Best(a, y) && x.obs.collector == y.obs.collector && x != y;
      var b := FrontKept(a, x);
      var c := FrontKept(a, y);
      if Dedup(b) == Dedup(c) { ValuesIncluded(Select(b), Select(c), x.obs.collector); }
    }
  }

  lemma FrontKept(a: seq<Input>, x: Input) returns (b: seq<Input>)
    requires Best(a, x)
    ensures multiset(b) == multiset(a) && x.obs.collector in Select(b) && Select(b)[x.obs.collector] == x
  {
    var i :| 0 <= i < |a| && a[i] == x;
    var rest := MoveToFront(a, i);
    b := [x] + rest;
    BestOfPermutation(b, a, x);
    FirstBestKept(x, rest);
  }

  lemma ValuesIncluded(m: Selection, n: Selection, c: Hash32)
    requires Values(m) == Values(n) && c in m
    ensures c in n && n[c] == m[c]
  {
    var keys := Ordered(m.Keys);
    var i :| 0 <= i < |keys| && keys[i] == c;
    assert Values(m)[i] == m[c];
    assert Values(n)[i] == n[Ordered(n.Keys)[i]];
  }
}
