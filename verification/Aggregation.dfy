/** Aggregating one (slot, app) group: one observation per collector, extremes
    trimmed, then the median and the facts published with it. */
module Aggregation {
  import opened Machine
  import opened Records
  import opened Sorting

  datatype Input = Input(obs: Observation, batchHash: Hash32)

  // ----- ranks

  function Rank(x: Input): Key
  {
    [x.obs.observedAtMillis, x.obs.players] + x.obs.bodyHash + x.batchHash + x.obs.signature
  }

  function TrimKey(x: Input): Key
  {
    [x.obs.players] + x.obs.collector + [x.obs.observedAtMillis] + x.obs.bodyHash + x.batchHash
  }

  lemma RankDetermines(x: Input, y: Input)
    requires Rank(x) == Rank(y)
    ensures x.obs.observedAtMillis == y.obs.observedAtMillis && x.obs.players == y.obs.players
    ensures x.obs.bodyHash == y.obs.bodyHash && x.batchHash == y.batchHash && x.obs.signature == y.obs.signature
  {
    assert x.obs.bodyHash == Rank(x)[2..34] && x.batchHash == Rank(x)[34..66] && x.obs.signature == Rank(x)[66..];
    assert y.obs.bodyHash == Rank(y)[2..34] && y.batchHash == Rank(y)[34..66] && y.obs.signature == Rank(y)[66..];
    assert x.obs.observedAtMillis == Rank(x)[0] && x.obs.players == Rank(x)[1];
    assert y.obs.observedAtMillis == Rank(y)[0] && y.obs.players == Rank(y)[1];
  }

  lemma TrimKeyDetermines(x: Input, y: Input)
    requires TrimKey(x) == TrimKey(y)
    ensures x.obs.players == y.obs.players && x.obs.collector == y.obs.collector && x.batchHash == y.batchHash
  {
    assert x.obs.players == TrimKey(x)[0] && x.obs.collector == TrimKey(x)[1..33] && x.batchHash == TrimKey(x)[66..];
    assert y.obs.players == TrimKey(y)[0] && y.obs.collector == TrimKey(y)[1..33] && y.batchHash == TrimKey(y)[66..];
  }

  // ----- one observation per collector

  type Selection = m: map<Hash32, Input> | forall c :: c in m ==> m[c].obs.collector == c witness map[]

  function Keep(m: Selection, x: Input): Selection
  {
    if x.obs.collector in m && !Less(Rank(x), Rank(m[x.obs.collector])) then m
    else m[x.obs.collector := x]
  }

  function Select(inputs: seq<Input>): Selection
  {
    if |inputs| == 0 then map[]
    else Keep(Select(inputs[..|inputs| - 1]), inputs[|inputs| - 1])
  }

  /** `y` is a least-ranked input of its collector. */
  ghost predicate Best(inputs: seq<Input>, y: Input)
  {
    y in inputs && forall x :: x in inputs && x.obs.collector == y.obs.collector ==> Leq(Rank(y), Rank(x))
  }

  lemma {:induction false} SelectBest(inputs: seq<Input>)
    ensures forall x :: x in inputs ==> x.obs.collector in Select(inputs)
    ensures forall c :: c in Select(inputs) ==> Best(inputs, Select(inputs)[c])
  {
    if |inputs| > 0 {
      var n := |inputs| - 1;
      var front, x, m := inputs[..n], inputs[n], Select(inputs[..n]);
      SelectBest(front);
      assert inputs == front + [x];
      KeepAllBest(front, x, m);
    }
  }

  lemma KeepAllBest(front: seq<Input>, x: Input, m: Selection)
    requires forall y :: y in front ==> y.obs.collector in m
    requires forall c :: c in m ==> Best(front, m[c])
    ensures forall c :: c in Keep(m, x) ==> Best(front + [x], Keep(m, x)[c])
    ensures x.obs.collector in Keep(m, x) && forall c :: c in m ==> c in Keep(m, x)
  {
    forall c | c in Keep(m, x) ensures Best(front + [x], Keep(m, x)[c]) {
      if c == x.obs.collector { KeepBest(front, x, m); } else { OtherBest(front, x, m[c]); }
    }
  }

  lemma OtherBest(front: seq<Input>, x: Input, y: Input)
    requires Best(front, y) && y.obs.collector != x.obs.collector
    ensures Best(front + [x], y)
  {}

  lemma KeepBest(front: seq<Input>, x: Input, m: Selection)
    requires forall y :: y in front ==> y.obs.collector in m
    requires forall c :: c in m ==> Best(front, m[c])
    ensures Best(front + [x], Keep(m, x)[x.obs.collector])
  {
    var c := x.obs.collector;
    var kept := Keep(m, x)[c];
    LeqSelf(Rank(x));
    forall y | y in front + [x] && y.obs.collector == c ensures Leq(Rank(kept), Rank(y)) {
      if c in m {
        LeqTotal(Rank(x), Rank(m[c]));
        if y in front && kept == x { LeqTransitive(Rank(x), Rank(m[c]), Rank(y)); }
      }
    }
  }

  /** The hashes in ascending order. */
  function Ordered(hashes: set<Hash32>): (r: seq<Hash32>)
    ensures |r| == |hashes| && forall h :: h in r <==> h in hashes
  {
    var r := InOrder(hashes);
    assert forall i :: 0 <= i < |r| ==> r[i] in hashes;
    r
  }

  function Values(m: Selection): (r: seq<Input>)
    ensures |r| == |m| && forall i :: 0 <= i < |r| ==> Ordered(m.Keys)[i] in m && r[i] == m[Ordered(m.Keys)[i]]
  {
    var keys := Ordered(m.Keys);
    assert forall i :: 0 <= i < |keys| ==> keys[i] in m.Keys;
    Picked(m, keys)
  }

  function Picked(m: Selection, keys: seq<Hash32>): (r: seq<Input>)
    requires forall i :: 0 <= i < |keys| ==> keys[i] in m
    ensures |r| == |keys| && forall i :: 0 <= i < |keys| ==> r[i] == m[keys[i]]
  {
    seq(|keys|, i requires 0 <= i < |keys| => m[keys[i]])
  }

  /** The selected inputs, by ascending collector. */
  function Dedup(inputs: seq<Input>): seq<Input> { Values(Select(inputs)) }

  method DeduplicateByCollector(inputs: seq<Input>) returns (r: seq<Input>)
    ensures r == Dedup(inputs)
  {
    var selected: Selection := map[];
    for i := 0 to |inputs|
      invariant selected == Select(inputs[..i])
    {
      var input := inputs[i];
      SelectNext(inputs, i);
      if input.obs.collector in selected && !Less(Rank(input), Rank(selected[input.obs.collector])) {
      } else {
        selected := selected[input.obs.collector := input];
      }
    }
    assert inputs[..|inputs|] == inputs;
    r := Values(selected);
  }

  lemma SelectNext(inputs: seq<Input>, i: nat)
    requires i < |inputs|
    ensures Select(inputs[..i + 1]) == Keep(Select(inputs[..i]), inputs[i])
  {
    assert inputs[..i + 1][..i] == inputs[..i];
  }

  ghost predicate DistinctCollectors(xs: seq<Input>)
  {
    forall i, j :: 0 <= i < j < |xs| ==> xs[i].obs.collector != xs[j].obs.collector
  }

  lemma DedupDistinct(inputs: seq<Input>)
    ensures DistinctCollectors(Dedup(inputs))
  {
    var keys, d := Ordered(Select(inputs).Keys), Dedup(inputs);
    InOrderAscending(Select(inputs).Keys);
    forall i, j | 0 <= i < j < |d| ensures d[i].obs.collector != d[j].obs.collector {
      assert keys[i] != keys[j];
      assert d[i].obs.collector == keys[i] && d[j].obs.collector == keys[j];
    }
  }

  /** The distinct collectors of a group. */
  function Present(inputs: seq<Input>): set<Hash32> { set x | x in inputs :: x.obs.collector }

  lemma {:induction false} SelectPresent(inputs: seq<Input>)
    ensures Select(inputs).Keys == Present(inputs)
  {
    if |inputs| > 0 {
      var n := |inputs| - 1;
      SelectPresent(inputs[..n]);
      assert inputs == inputs[..n] + [inputs[n]];
      assert Present(inputs) == Present(inputs[..n]) + {inputs[n].obs.collector};
    }
  }

  lemma DedupPresent(inputs: seq<Input>)
    ensures Present(Dedup(inputs)) == Present(inputs)
  {
    SelectPresent(inputs);
    var keys, d := Ordered(Select(inputs).Keys), Dedup(inputs);
    forall c ensures c in Present(d) <==> c in keys {
      if c in keys {
        var i :| 0 <= i < |keys| && keys[i] == c;
        assert d[i] in d;
      }
    }
  }

  /** Each collector present keeps exactly one input, a least-ranked one. */
  lemma DedupBest(inputs: seq<Input>)
    ensures forall y :: y in Dedup(inputs) ==> Best(inputs, y)
    ensures forall x :: x in inputs ==> exists y :: y in Dedup(inputs) && y.obs.collector == x.obs.collector
  {
    SelectBest(inputs);
    var m, d := Select(inputs), Dedup(inputs);
    forall x | x in inputs ensures exists y :: y in d && y.obs.collector == x.obs.collector {
      var i :| 0 <= i < |d| && Ordered(m.Keys)[i] == x.obs.collector;
      assert d[i] in d && d[i].obs.collector == x.obs.collector;
    }
  }

  // ----- trimming and the median

  function Trim(xs: seq<Input>): seq<Input>
  {
    if |xs| < 5 then xs
    else var s := SortBy(TrimKey, xs); s[1..|s| - 1]
  }

  function Players(xs: seq<Input>): (ps: seq<nat>)
    ensures |ps| == |xs| && forall i :: 0 <= i < |xs| ==> ps[i] == xs[i].obs.players
  {
    seq(|xs|, i requires 0 <= i < |xs| => xs[i].obs.players)
  }

  function IntKey(n: nat): Key { [n] }

  function Sorted(ns: seq<nat>): seq<nat> { SortBy(IntKey, ns) }

  function MiddleOf(s: seq<nat>): nat
    requires |s| > 0
  {
    var middle := |s| / 2;
    if |s| % 2 == 1 then s[middle] else SatAdd(U64, s[middle - 1], s[middle]) / 2
  }

  function Median(ps: seq<nat>): nat
  {
    if |ps| == 0 then 0 else MiddleOf(Sorted(ps))
  }

  function MedianPlayers(xs: seq<Input>): nat { Median(Players(xs)) }

  predicate NonDecreasing(s: seq<nat>) { forall i, j :: 0 <= i < j < |s| ==> s[i] <= s[j] }

  lemma NonDecreasingUnique(a: seq<nat>, b: seq<nat>)
    requires NonDecreasing(a) && NonDecreasing(b) && multiset(a) == multiset(b)
    ensures a == b
  {
    KeysOfPermutation(IntKey, a, b);
    var ka, kb := Keys(IntKey, a), Keys(IntKey, b);
    AscendingUnique(ka, kb);
    assert |a| == |ka| == |b|;
    forall i | 0 <= i < |a| ensures a[i] == b[i] {
      assert ka[i] == kb[i];
    }
  }

  lemma SortedNonDecreasing(ps: seq<nat>)
    ensures NonDecreasing(Sorted(ps))
  {
    SortBySorted(IntKey, ps);
    var s := Sorted(ps);
    forall i, j | 0 <= i < j < |s| ensures s[i] <= s[j] {
      assert Leq(IntKey(s[i]), IntKey(s[j]));
    }
  }

  /** Sorting inputs by trim rank sorts their player counts. */
  lemma PlayersOfSorted(xs: seq<Input>)
    ensures Sorted(Players(xs)) == Players(SortBy(TrimKey, xs))
  {
    var s := SortBy(TrimKey, xs);
    SortBySorted(TrimKey, xs);
    var ps := Players(s);
    forall i, j | 0 <= i < j < |ps| ensures ps[i] <= ps[j] {
      assert Leq(TrimKey(s[i]), TrimKey(s[j]));
    }
    SortedNonDecreasing(Players(xs));
    PlayersOfPermutation(s, xs);
    NonDecreasingUnique(Sorted(Players(xs)), ps);
  }

  lemma {:induction false} PlayersOfPermutation(a: seq<Input>, b: seq<Input>)
    requires multiset(a) == multiset(b)
    ensures multiset(Players(a)) == multiset(Players(b))
  {
    if a == [] {
      assert |b| == |multiset(b)| == 0;
    } else {
      assert a[0] in multiset(b);
      var i :| 0 <= i < |b| && b[i] == a[0];
      var a', b' := a[1..], b[..i] + b[i + 1..];
      PlayersDrop(b, i, b');
      PlayersDrop(a, 0, a');
      PlayersOfPermutation(a', b');
    }
  }

  lemma PlayersDrop(b: seq<Input>, i: nat, rest: seq<Input>)
    requires i < |b| && rest == b[..i] + b[i + 1..]
    ensures multiset(Players(b)) == multiset(Players(rest)) + multiset{b[i].obs.players as nat}
    ensures multiset(rest) == multiset(b) - multiset{b[i]}
  {
    var ps := Players(b);
    DropCount(b, i);
    DropCount(ps, i);
    assert ps[..i] + ps[i + 1..] == Players(rest);
    assert ps[i] in multiset(ps);
  }

  /** Trimming drops nothing or the two ends, and never moves the median. */
  lemma TrimKeepsMedian(xs: seq<Input>)
    ensures MedianPlayers(Trim(xs)) == MedianPlayers(xs)
    ensures |Trim(xs)| == |xs| || |Trim(xs)| == |xs| - 2
    ensures |Trim(xs)| == |xs| <==> |xs| < 5
  {
    if |xs| >= 5 {
      var ps := Sorted(Players(xs));
      SortedNonDecreasing(Players(xs));
      TrimPlayers(xs, ps);
      MedianOfInner(ps);
    }
  }

  lemma TrimPlayers(xs: seq<Input>, ps: seq<nat>)
    requires |xs| >= 5 && ps == Sorted(Players(xs))
    ensures |ps| == |xs| && Players(Trim(xs)) == ps[1..|ps| - 1]
  {
    PlayersOfSorted(xs);
  }

  lemma MedianOfInner(ps: seq<nat>)
    requires NonDecreasing(ps) && |ps| >= 3
    ensures Median(ps[1..|ps| - 1]) == MiddleOf(ps)
  {
    var inner := ps[1..|ps| - 1];
    SortedNonDecreasing(inner);
    NonDecreasingUnique(Sorted(inner), inner);
    MiddleOfInner(ps);
  }

  lemma MiddleOfInner(ps: seq<nat>)
    requires |ps| >= 3
    ensures MiddleOf(ps[1..|ps| - 1]) == MiddleOf(ps)
  {
    assert (|ps| - 2) / 2 == |ps| / 2 - 1 && (|ps| - 2) % 2 == |ps| % 2;
  }
}
