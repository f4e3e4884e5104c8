/** Multi-source cross-validation: samples that disagree strongly with the
    strongest sample of their app lose confidence, in place. */
module CrossValidation {
  import opened Machine
  import opened Records
  import opened Sorting

  datatype Sample = Sample(app: u32, players: u64, observedAtMillis: u64, source: SourceKind, confidencePpm: u32,
                           body: Bytes)

  const THRESHOLD_PPM: nat := 250_000
  const DOWNSCALE_PPM: nat := 500_000

  // ----- the per-sample specification

  function Strongest(s: seq<Sample>, app: u32): (v: nat)
    ensures v >= 1
  {
    if |s| == 0 then 1
    else
      var last := s[|s| - 1];
      var before := Strongest(s[..|s| - 1], app);
      if last.app == app then Max(last.players, before) else before
  }

  function Sources(s: seq<Sample>, app: u32): nat
  {
    if |s| == 0 then 0
    else Sources(s[..|s| - 1], app) + (if s[|s| - 1].app == app then 1 else 0)
  }

  /** Below about three quarters of the strongest reading. */
  predicate TooLow(players: nat, strongest: nat) { 1_000_000 * players <= 749_999 * strongest }

  predicate Outlier(s: seq<Sample>, x: Sample)
  {
    Sources(s, x.app) >= 2 && TooLow(x.players, Strongest(s, x.app))
  }

  function Downscaled(x: Sample): Sample
  {
    x.(confidencePpm := Max(x.confidencePpm * DOWNSCALE_PPM / 1_000_000, 100_000))
  }

  /** A sample after validation depends on itself and its app's summary only. */
  function Validated(s: seq<Sample>, x: Sample): Sample
  {
    if Outlier(s, x) then Downscaled(x) else x
  }

  // ----- what the specification says

  lemma {:induction false} StrongestBounds(s: seq<Sample>, app: u32)
    ensures forall i :: 0 <= i < |s| && s[i].app == app ==> s[i].players <= Strongest(s, app)
    ensures Strongest(s, app) == 1 || exists i :: 0 <= i < |s| && s[i].app == app && s[i].players == Strongest(s, app)
  {
    if |s| > 0 { StrongestBounds(s[..|s| - 1], app); }
  }

  lemma StrongestUnique(s: seq<Sample>, app: u32, v: nat)
    requires v >= 1 && forall i :: 0 <= i < |s| && s[i].app == app ==> s[i].players <= v
    requires v == 1 || exists i :: 0 <= i < |s| && s[i].app == app && s[i].players == v
    ensures v == Strongest(s, app)
  {
    StrongestBounds(s, app);
  }

  // The code's own test: relative difference to the strongest, in ppm, rounded down.
  function AbsDiff(a: nat, b: nat): nat { if a <= b then b - a else a - b }

  function DifferencePpm(players: nat, strongest: nat): nat
    requires strongest > 0
  {
    AbsDiff(players, strongest) * 1_000_000 / strongest
  }

  /** A difference above 25% is exactly a reading that is too low. */
  lemma DifferenceIff(players: nat, strongest: nat)
    requires 0 < strongest && players <= strongest
    ensures DifferencePpm(players, strongest) > THRESHOLD_PPM <==> TooLow(players, strongest)
  {
    var d := (strongest - players) * 1_000_000;
    var q, r := d / strongest, d % strongest;
    assert d == strongest * q + r;
    if q >= 250_001 {
      MulLeft(250_001, q, strongest);
    } else {
      MulLeft(q, 250_000, strongest);
    }
  }

  lemma OtherSource(s: seq<Sample>, i: nat)
    requires i < |s|
    ensures Sources(s, s[i].app) >= 2 <==> exists j :: 0 <= j < |s| && j != i && s[j].app == s[i].app
  {
    var at := Positions(s, [s[i].app]);
    PositionsCount(s, s[i].app);
    PositionsExact(s, [s[i].app]);
    assert forall j :: 0 <= j < |s| && s[j].app == s[i].app ==> AppKey(s[j]) == [s[i].app] && j in at;
    if |at| >= 2 {
      var j := if at[0] == i then at[1] else at[0];
      assert j in at;
    }
    if j :| 0 <= j < |s| && j != i && s[j].app == s[i].app {
      var a :| 0 <= a < |at| && at[a] == i;
      var b :| 0 <= b < |at| && at[b] == j;
    }
  }

  /** Sample `j` of the app shows that sample `i` is too low. */
  predicate Outdone(s: seq<Sample>, i: nat, j: nat)
    requires i < |s| && j < |s|
  {
    j != i && s[j].app == s[i].app && 1_000_000 * s[i].players <= 749_999 * Max(s[j].players, 1)
  }

  /** A sample loses confidence exactly when another one of its app outdoes it. */
  lemma OutlierIff(s: seq<Sample>, i: nat)
    requires i < |s|
    ensures Outlier(s, s[i]) <==> exists j :: 0 <= j < |s| && Outdone(s, i, j)
  {
    var app := s[i].app;
    StrongestBounds(s, app);
    OtherSource(s, i);
    if Outlier(s, s[i]) {
      if Strongest(s, app) == 1 {
        var j :| 0 <= j < |s| && j != i && s[j].app == app;
        assert Outdone(s, i, j);
      } else {
        var j :| 0 <= j < |s| && s[j].app == app && s[j].players == Strongest(s, app);
        assert Outdone(s, i, j);
      }
    }
  }

  /** The strongest sample of an app, and an app's only sample, are untouched. */
  lemma StrongestUntouched(s: seq<Sample>, x: Sample)
    requires x in s && (x.players == Strongest(s, x.app) || Sources(s, x.app) < 2)
    ensures Validated(s, x) == x
  {}

  /** An outlier's confidence is halved but never below 100,000, so it is
      lowered exactly when it was above that floor. */
  lemma DownscaledConfidence(x: Sample)
    ensures Downscaled(x).confidencePpm == Max(x.confidencePpm / 2, 100_000)
    ensures Downscaled(x) == x.(confidencePpm := Downscaled(x).confidencePpm)
    ensures Downscaled(x).confidencePpm < x.confidencePpm <==> x.confidencePpm > 100_000
    ensures Downscaled(x).confidencePpm > x.confidencePpm <==> x.confidencePpm < 100_000
  {}

  // ----- the grouped pass

  /** Positions of an app's samples, ascending. */
  function Positions(s: seq<Sample>, k: Key): seq<nat>
  {
    if |s| == 0 then []
    else Positions(s[..|s| - 1], k) + (if AppKey(s[|s| - 1]) == k then [|s| - 1] else [])
  }

  function AppKey(x: Sample): Key { [x.app] }

  lemma {:induction false} PositionsExact(s: seq<Sample>, k: Key)
    ensures forall i: nat :: i in Positions(s, k) <==> i < |s| && AppKey(s[i]) == k
    ensures forall a, b :: 0 <= a < b < |Positions(s, k)| ==> Positions(s, k)[a] < Positions(s, k)[b]
  {
    if |s| > 0 {
      var front := Positions(s[..|s| - 1], k);
      PositionsExact(s[..|s| - 1], k);
      assert forall a :: 0 <= a < |front| ==> front[a] in front;
    }
  }

  lemma {:induction false} PositionsCount(s: seq<Sample>, app: u32)
    ensures |Positions(s, [app])| == Sources(s, app)
  {
    if |s| > 0 { PositionsCount(s[..|s| - 1], app); }
  }

  ghost predicate Indexed(table: map<Key, seq<nat>>, s: seq<Sample>)
  {
    (forall i :: 0 <= i < |s| ==> AppKey(s[i]) in table)
    && forall k :: k in table ==> table[k] == Positions(s, k) && |table[k]| > 0
  }

  lemma IndexedStep(table: map<Key, seq<nat>>, s: seq<Sample>, i: nat)
    requires i < |s| && Indexed(table, s[..i])
    ensures var k := AppKey(s[i]);
            Indexed(table[k := (if k in table then table[k] else []) + [i]], s[..i + 1])
  {
    assert s[..i + 1] == s[..i] + [s[i]];
    IndexedSnoc(table, s[..i], s[i]);
  }

  lemma IndexedSnoc(table: map<Key, seq<nat>>, front: seq<Sample>, x: Sample)
    requires Indexed(table, front)
    ensures var k := AppKey(x);
            Indexed(table[k := (if k in table then table[k] else []) + [|front|]], front + [x])
  {
    var k := AppKey(x);
    if k !in table { NoPositions(front, k); }
    forall j ensures Positions(front + [x], j) == Positions(front, j) + (if j == k then [|front|] else []) {
      PositionsSnoc(front, x, j);
    }
  }

  lemma PositionsSnoc(front: seq<Sample>, x: Sample, k: Key)
    ensures Positions(front + [x], k) == Positions(front, k) + (if AppKey(x) == k then [|front|] else [])
  {
    assert (front + [x])[..|front|] == front;
  }

  lemma {:induction false} NoPositions(s: seq<Sample>, k: Key)
    requires forall i :: 0 <= i < |s| ==> AppKey(s[i]) != k
    ensures Positions(s, k) == []
  {
    if |s| > 0 { NoPositions(s[..|s| - 1], k); }
  }

  method IndexByApp(samples: array<Sample>) returns (table: map<Key, seq<nat>>)
    ensures Indexed(table, samples[..])
  {
    table := map[];
    for i := 0 to samples.Length
      invariant Indexed(table, samples[..i])
    {
      IndexedStep(table, samples[..], i);
      assert samples[..][..i] == samples[..i] && samples[..][..i + 1] == samples[..i + 1];
      var k := AppKey(samples[i]);
      table := table[k := (if k in table then table[k] else []) + [i]];
    }
    assert samples[..samples.Length] == samples[..];
  }

  /** Confidences may differ from the original, nothing else. */
  ghost predicate SameReadings(now: seq<Sample>, s: seq<Sample>)
  {
    |now| == |s| && forall i :: 0 <= i < |s| ==> now[i].players == s[i].players && now[i].app == s[i].app
  }

  method StrongestAt(samples: array<Sample>, at: seq<nat>, app: u32, ghost s: seq<Sample>) returns (strongest: nat)
    requires SameReadings(samples[..], s) && at == Positions(s, [app])
    ensures strongest == Strongest(s, app)
  {
    PositionsExact(s, [app]);
    strongest := 1;
    for j := 0 to |at|
      invariant strongest >= 1 && forall i :: 0 <= i < j ==> at[i] < |s| && s[at[i]].players <= strongest
      invariant strongest == 1 || exists i :: 0 <= i < |s| && s[i].app == app && s[i].players == strongest
    {
      assert at[j] in at;
      assert samples[..][at[j]].players == s[at[j]].players;
      strongest := Max(strongest, samples[at[j]].players);
    }
    forall i | 0 <= i < |s| && s[i].app == app ensures s[i].players <= strongest {
      assert i in at;
    }
    StrongestUnique(s, app, strongest);
  }

  /** The samples when exactly the positions in `done` have been validated. */
  function Partly(s: seq<Sample>, done: set<nat>): (now: seq<Sample>)
    ensures |now| == |s| && forall i: nat :: i < |s| ==> now[i] == if i in done then Validated(s, s[i]) else s[i]
  {
    seq(|s|, i requires 0 <= i < |s| => if i in done then Validated(s, s[i]) else s[i])
  }

  lemma PartlyReadings(s: seq<Sample>, done: set<nat>)
    ensures SameReadings(Partly(s, done), s)
  {}

  ghost function Hits(s: seq<Sample>, done: set<nat>): set<nat>
  {
    set i | i in done && i < |s| && Outlier(s, s[i])
  }

  ghost function CountHits(s: seq<Sample>, done: set<nat>): nat { |Hits(s, done)| }

  lemma HitsGrow(s: seq<Sample>, done: set<nat>, i: nat)
    requires i < |s| && i !in done
    ensures CountHits(s, done + {i}) == CountHits(s, done) + if Outlier(s, s[i]) then 1 else 0
  {
    if Outlier(s, s[i]) {
      assert Hits(s, done + {i}) == Hits(s, done) + {i};
    } else {
      assert Hits(s, done + {i}) == Hits(s, done);
    }
  }

  lemma PartlyGrow(s: seq<Sample>, done: set<nat>, i: nat)
    requires i < |s|
    ensures Partly(s, done + {i}) == Partly(s, done)[i := Validated(s, s[i])]
  {}

  method IsOutlier(x: Sample, strongest: nat, ghost s: seq<Sample>) returns (hit: bool)
    requires x in s && strongest == Strongest(s, x.app) && Sources(s, x.app) >= 2
    ensures hit == Outlier(s, x)
  {
    StrongestBounds(s, x.app);
    DifferenceIff(x.players, strongest);
    hit := DifferencePpm(x.players, strongest) > THRESHOLD_PPM;
  }

  /** `now` has exactly the positions in `done` validated, `count` of them outliers. */
  ghost predicate Stage(now: seq<Sample>, s: seq<Sample>, done: set<nat>, count: nat)
  {
    now == Partly(s, done) && count == CountHits(s, done)
  }

  /** One sample against its app's strongest. */
  method ValidateOne(samples: array<Sample>, i: nat, strongest: nat, count: nat, ghost s: seq<Sample>,
                     ghost done: set<nat>)
    returns (count': nat)
    requires i < |s| && i !in done && Stage(samples[..], s, done, count)
    requires strongest == Strongest(s, s[i].app) && Sources(s, s[i].app) >= 2
    modifies samples
    ensures Stage(samples[..], s, done + {i}, count')
  {
    HitsGrow(s, done, i);
    PartlyGrow(s, done, i);
    assert samples[i] == samples[..][i] == s[i];
    count' := count;
    var hit := IsOutlier(samples[i], strongest, s);
    if hit {
      samples[i] := Downscaled(samples[i]);
      count' := count + 1;
    }
  }

  ghost function OfApp(s: seq<Sample>, app: u32): set<nat> { set i: nat | i < |s| && s[i].app == app }

  lemma SingleUntouched(s: seq<Sample>, done: set<nat>, app: u32)
    requires Sources(s, app) < 2
    ensures var more := done + OfApp(s, app);
            Partly(s, more) == Partly(s, done) && CountHits(s, more) == CountHits(s, done)
  {
    assert Hits(s, done + OfApp(s, app)) == Hits(s, done);
  }

  lemma PositionsOfApp(s: seq<Sample>, app: u32)
    ensures Members(Positions(s, [app])) == OfApp(s, app)
    ensures |Positions(s, [app])| == Sources(s, app)
    ensures Distinct(Positions(s, [app]))
    ensures forall i :: i in Positions(s, [app]) ==> i < |s| && s[i].app == app
  {
    PositionsExact(s, [app]);
    PositionsCount(s, app);
    var at := Positions(s, [app]);
    forall i: nat | i < |s| ensures i in at <==> s[i].app == app {
      assert AppKey(s[i])[0] == s[i].app;
    }
  }

  method ValidateEach(samples: array<Sample>, at: seq<nat>, strongest: nat, count: nat,
                      ghost app: u32, ghost s: seq<Sample>, ghost done: set<nat>)
    returns (count': nat)
    requires Stage(samples[..], s, done, count) && strongest == Strongest(s, app) && Sources(s, app) >= 2
    requires Distinct(at) && forall i :: i in at ==> i !in done && i < |s| && s[i].app == app
    modifies samples
    ensures Stage(samples[..], s, done + Members(at), count')
  {
    count' := count;
    assert done + Members(at[..0]) == done;
    for j := 0 to |at|
      invariant Stage(samples[..], s, done + Members(at[..j]), count')
    {
      NotRepeated(at, j);
      assert at[j] in at;
      MembersSnoc(done, at, j);
      count' := ValidateOne(samples, at[j], strongest, count', s, done + Members(at[..j]));
    }
    assert at[..|at|] == at;
  }

  function Members(at: seq<nat>): set<nat> { set i | i in at }

  lemma MembersSnoc(done: set<nat>, at: seq<nat>, j: nat)
    requires j < |at| && at[j] !in at[..j] && at[j] !in done
    ensures done + Members(at[..j + 1]) == done + Members(at[..j]) + {at[j]}
    ensures at[j] !in done + Members(at[..j])
  {
    assert at[..j + 1] == at[..j] + [at[j]];
  }

  /** One app's samples are validated; the rest stay. */
  method ValidateApp(samples: array<Sample>, at: seq<nat>, app: u32, count: nat, ghost s: seq<Sample>,
                     ghost done: set<nat>)
    returns (count': nat)
    requires Stage(samples[..], s, done, count) && at == Positions(s, [app]) && done !! OfApp(s, app)
    modifies samples
    ensures Stage(samples[..], s, done + OfApp(s, app), count')
  {
    PositionsOfApp(s, app);
    if |at| < 2 {
      SingleUntouched(s, done, app);
      return count;
    }
    PartlyReadings(s, done);
    var strongest := StrongestAt(samples, at, app, s);
    count' := ValidateEach(samples, at, strongest, count, app, s, done);
  }

  lemma KeyOfGroup(s: seq<Sample>, at: seq<nat>, k: Key)
    requires at == Positions(s, k) && |at| > 0
    ensures at[0] < |s| && k == [s[at[0]].app]
  {
    PositionsExact(s, k);
    assert at[0] in at;
  }

  /** Positions of the samples whose app is among `keys`. */
  ghost function Covered(s: seq<Sample>, keys: seq<Key>): set<nat>
  {
    set i: nat | i < |s| && AppKey(s[i]) in keys
  }

  lemma CoveredSnoc(s: seq<Sample>, keys: seq<Key>, n: nat, app: u32)
    requires n < |keys| && keys[n] == [app] && keys[n] !in keys[..n]
    ensures Covered(s, keys[..n + 1]) == Covered(s, keys[..n]) + OfApp(s, app)
    ensures Covered(s, keys[..n]) !! OfApp(s, app)
  {
    assert keys[..n + 1] == keys[..n] + [keys[n]];
    forall i: nat | i < |s| ensures AppKey(s[i]) == keys[n] <==> s[i].app == app {
      assert AppKey(s[i])[0] == s[i].app && keys[n][0] == app;
    }
  }

  method ValidateKey(samples: array<Sample>, at: seq<nat>, keys: seq<Key>, n: nat, count: nat, ghost s: seq<Sample>)
    returns (count': nat)
    requires n < |keys| && keys[n] !in keys[..n] && at == Positions(s, keys[n]) && |at| > 0
    requires Stage(samples[..], s, Covered(s, keys[..n]), count)
    modifies samples
    ensures Stage(samples[..], s, Covered(s, keys[..n + 1]), count')
  {
    KeyOfGroup(s, at, keys[n]);
    PartlyReadings(s, Covered(s, keys[..n]));
    assert samples[at[0]] == samples[..][at[0]];
    var app := samples[at[0]].app;
    CoveredSnoc(s, keys, n, app);
    count' := ValidateApp(samples, at, app, count, s, Covered(s, keys[..n]));
  }

  ghost function Outliers(s: seq<Sample>): set<nat> { set i: nat | i < |s| && Outlier(s, s[i]) }

  lemma AllCovered(s: seq<Sample>, keys: seq<Key>)
    requires forall i :: 0 <= i < |s| ==> AppKey(s[i]) in keys
    ensures Hits(s, Covered(s, keys)) == Outliers(s)
    ensures forall i :: 0 <= i < |s| ==> Partly(s, Covered(s, keys))[i] == Validated(s, s[i])
  {}

  lemma NoneCovered(s: seq<Sample>)
    ensures Partly(s, Covered(s, [])) == s && Hits(s, Covered(s, [])) == {}
  {}

  /** The positions of each key's samples, in key order. */
  ghost predicate Listed(lists: seq<seq<nat>>, keys: seq<Key>, s: seq<Sample>)
  {
    |lists| == |keys| && forall n :: 0 <= n < |keys| ==> lists[n] == Positions(s, keys[n]) && |lists[n]| > 0
  }

  method ListPositions(table: map<Key, seq<nat>>, keys: seq<Key>, ghost s: seq<Sample>) returns (lists: seq<seq<nat>>)
    requires Indexed(table, s) && forall k :: k in keys ==> k in table
    ensures Listed(lists, keys, s)
  {
    assert forall n :: 0 <= n < |keys| ==> keys[n] in keys;
    lists := seq(|keys|, n requires 0 <= n < |keys| => table[keys[n]]);
  }

  method ValidateKeys(samples: array<Sample>, lists: seq<seq<nat>>, keys: seq<Key>, ghost s: seq<Sample>)
    returns (count: nat)
    requires Stage(samples[..], s, Covered(s, []), 0) && Listed(lists, keys, s) && Distinct(keys)
    modifies samples
    ensures Stage(samples[..], s, Covered(s, keys), count)
  {
    count := 0;
    assert keys[..0] == [];
    for n := 0 to |keys|
      invariant Stage(samples[..], s, Covered(s, keys[..n]), count)
    {
      NotRepeated(keys, n);
      count := ValidateKey(samples, lists[n], keys, n, count, s);
    }
    assert keys[..|keys|] == keys;
  }

  /** The grouped in-place pass computes the per-sample specification, and
      counts exactly the outliers. */
  method CrossValidateSamples(samples: array<Sample>) returns (adjusted: nat)
    modifies samples
    ensures forall i :: 0 <= i < samples.Length ==> samples[i] == Validated(old(samples[..]), old(samples[i]))
    ensures adjusted == |Outliers(old(samples[..]))|
  {
    ghost var s := samples[..];
    var table := IndexByApp(samples);
    var keys := InOrder(table.Keys);
    InOrderAscending(table.Keys);
    NoneCovered(s);
    var lists := ListPositions(table, keys, s);
    adjusted := ValidateKeys(samples, lists, keys, s);
    AllCovered(s, keys);
    assert forall i :: 0 <= i < samples.Length ==> samples[i] == samples[..][i];
  }
}
