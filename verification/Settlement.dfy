/** Automatic settlement of completed epochs, and its streaming summary.

    Settling an epoch may succeed or fail arbitrarily; success is what creates
    its artifact file. Epochs may also be settled between ticks by other means. */
module Settlement {
  import opened Machine
  import opened Sorting
  import Progress

  /** What a tick meets: the cursor's next epoch, the epochs settled by other
      means since the last tick, and which settlements would succeed. */
  datatype Tick = Tick(next: nat, outside: set<nat>, succeeds: nat -> bool)

  /** The epochs pending when the tick settles, those it settled, and the epoch
      it failed on. */
  datatype Report = Report(pending: seq<nat>, settled: seq<nat>, error: Option<nat>)

  datatype Summary = Summary(pending: seq<nat>, settledCount: nat, lastSettled: Option<nat>, lastError: Option<nat>)

  function EmptySummary(): Summary { Summary([], 0, None, None) }

  // ----- ascending lists

  function Elements(s: seq<nat>): set<nat> { set e | e in s }

  lemma RisingSnoc(s: seq<nat>, e: nat)
    requires Rising(s) && forall x :: x in s ==> x < e
    ensures Rising(s + [e])
  {
    forall i, j | 0 <= i < j < |s + [e]| ensures (s + [e])[i] < (s + [e])[j] {
      assert s[i] in s;
    }
  }

  /** An ascending list is determined by its elements. */
  lemma {:induction false} RisingUnique(a: seq<nat>, b: seq<nat>)
    requires Rising(a) && Rising(b) && Elements(a) == Elements(b)
    ensures a == b
  {
    NoElements(a);
    NoElements(b);
    if |a| > 0 {
      SameLast(a, b);
      SameLast(b, a);
      WithoutLast(a);
      WithoutLast(b);
      RisingUnique(a[..|a| - 1], b[..|b| - 1]);
      assert a == a[..|a| - 1] + [a[|a| - 1]] && b == b[..|b| - 1] + [b[|b| - 1]];
    }
  }

  lemma NoElements(a: seq<nat>)
    ensures Elements(a) == {} <==> a == []
  {
    assert |a| > 0 ==> a[0] in Elements(a);
  }

  lemma SameLast(a: seq<nat>, b: seq<nat>)
    requires Rising(a) && Rising(b) && Elements(a) == Elements(b) && |a| > 0 && |b| > 0
    ensures a[|a| - 1] <= b[|b| - 1]
  {
    var last := a[|a| - 1];
    assert last in Elements(b);
    var i :| 0 <= i < |b| && b[i] == last;
  }

  lemma WithoutLast(a: seq<nat>)
    requires Rising(a) && |a| > 0
    ensures Rising(a[..|a| - 1]) && Elements(a[..|a| - 1]) == Elements(a) - {a[|a| - 1]}
  {
    var n := |a| - 1;
    forall e ensures e in Elements(a[..n]) <==> e in Elements(a) && e != a[n] {
      if e in a && e != a[n] {
        var i :| 0 <= i < |a| && a[i] == e;
        assert a[..n][i] == e;
      }
    }
  }

  lemma {:induction false} MaxExists(s: set<nat>) returns (m: nat)
    requires s != {}
    ensures m in s && forall x :: x in s ==> x <= m
    decreases |s|
  {
    m :| m in s;
    if s != {m} {
      var rest := s - {m};
      assert s == rest + {m};
      var r := MaxExists(rest);
      if m < r { m := r; }
    }
  }

  function MaxOf(s: set<nat>): (m: nat)
    requires s != {}
    ensures m in s && forall x :: x in s ==> x <= m
  {
    assert exists m :: m in s && forall x :: x in s ==> x <= m by { var m := MaxExists(s); }
    var m :| m in s && forall x :: x in s ==> x <= m;
    m
  }

  /** The elements of a set in the iteration order of `BTreeSet`. */
  function Listed(s: set<nat>): (list: seq<nat>)
    ensures Rising(list) && Elements(list) == s
    decreases |s|
  {
    if s == {} then []
    else
      var m := MaxOf(s);
      var rest := Listed(s - {m});
      assert forall x :: x in rest ==> x in Elements(rest);
      RisingSnoc(rest, m);
      assert forall x :: x in s ==> x in Elements(rest) || x == m;
      assert forall x :: x in Elements(rest) ==> x in s;
      rest + [m]
  }

  // ----- what one tick settles

  /** The epochs of a range that have no artifact. */
  function Missing(first: nat, end: nat, files: set<nat>): (list: seq<nat>)
    ensures Rising(list)
    ensures forall e :: e in list <==> first <= e < end && e !in files
  {
    if end <= first then []
    else
      var rest := Missing(first, end - 1, files);
      if end - 1 in files then rest
      else
        RisingSnoc(rest, end - 1);
        rest + [end - 1]
  }

  /** One past the last completed epoch, as the node computes it. */
  function CompletedEnd(next: nat): nat { SatSub(next, 1) + 1 }

  function Pending(first: nat, next: nat, files: set<nat>): seq<nat> { Missing(first, CompletedEnd(next), files) }

  /** Only completed epochs are pending, unless epoch zero is the default and
      has not been completed. */
  lemma PendingCompletedIff(first: nat, next: nat)
    ensures (forall files, e :: e in Pending(first, next, files) ==> e < next) <==> first >= 1 || next >= 1
  {
    if first == 0 && next == 0 { assert 0 in Pending(0, 0, {}); }
  }

  /** Settlements stop at the first failure. */
  function SettledNow(epochs: seq<nat>, succeeds: nat -> bool): (n: nat)
    ensures n <= |epochs|
  {
    if |epochs| == 0 || !succeeds(epochs[0]) then 0 else 1 + SettledNow(epochs[1..], succeeds)
  }

  /** The settled epochs are the longest prefix that succeeds. */
  lemma {:induction false} SettledPrefix(epochs: seq<nat>, succeeds: nat -> bool)
    ensures var n := SettledNow(epochs, succeeds);
            && (forall i :: 0 <= i < n ==> succeeds(epochs[i]))
            && (n < |epochs| ==> !succeeds(epochs[n]))
  {
    if |epochs| > 0 && succeeds(epochs[0]) { SettledPrefix(epochs[1..], succeeds); }
  }

  lemma {:induction false} PrefixUnique(epochs: seq<nat>, succeeds: nat -> bool, n: nat)
    requires n <= |epochs| && forall i :: 0 <= i < n ==> succeeds(epochs[i])
    requires n < |epochs| ==> !succeeds(epochs[n])
    ensures SettledNow(epochs, succeeds) == n
  {
    SettledPrefix(epochs, succeeds);
  }

  function TickReport(first: nat, enabled: bool, files: set<nat>, t: Tick): Report
  {
    var pending := Pending(first, t.next, files);
    var n := if enabled then SettledNow(pending, t.succeeds) else 0;
    Report(pending, pending[..n], if enabled && n < |pending| then Some(pending[n]) else None)
  }

  /** The epoch is completed, from the default one on, and has no artifact; an
      epoch zero counts as completed. */
  predicate Due(first: nat, next: nat, files: set<nat>, e: nat) { first <= e < Max(next, 1) && e !in files }

  /** Every due epoch before it would be settled. */
  ghost predicate Reached(first: nat, files: set<nat>, t: Tick, e: nat)
  {
    forall x: nat :: x < e && Due(first, t.next, files, x) ==> t.succeeds(x)
  }

  /** What a tick settles, and where it fails: due epochs are taken in order, those
      before the first failure are settled, and it is the error. */
  lemma TickSettlesIff(first: nat, enabled: bool, files: set<nat>, t: Tick, e: nat)
    ensures var r := TickReport(first, enabled, files, t);
            && (e in r.pending <==> Due(first, t.next, files, e))
            && (e in r.settled <==>
                  enabled && Due(first, t.next, files, e) && t.succeeds(e) && Reached(first, files, t, e))
            && (r.error == Some(e) <==>
                  enabled && Due(first, t.next, files, e) && !t.succeeds(e) && Reached(first, files, t, e))
  {
    var pending := Pending(first, t.next, files);
    var n := SettledNow(pending, t.succeeds);
    SettledPrefix(pending, t.succeeds);
    if e in pending {
      var i :| 0 <= i < |pending| && pending[i] == e;
      assert Reached(first, files, t, e) <==> i <= n by { ReachedIff(first, files, t, pending, i, n); }
      assert e in pending[..n] <==> i < n;
    }
  }

  lemma ReachedIff(first: nat, files: set<nat>, t: Tick, pending: seq<nat>, i: nat, n: nat)
    requires pending == Pending(first, t.next, files) && i < |pending| && n <= |pending|
    requires forall k :: 0 <= k < n ==> t.succeeds(pending[k])
    requires n < |pending| ==> !t.succeeds(pending[n])
    ensures Reached(first, files, t, pending[i]) <==> i <= n
  {
    if i <= n {
      forall x: nat | x < pending[i] && Due(first, t.next, files, x) ensures t.succeeds(x) {
        assert x in pending;
        var k :| 0 <= k < |pending| && pending[k] == x;
      }
    } else {
      assert pending[n] in pending;
      assert Due(first, t.next, files, pending[n]) && pending[n] < pending[i];
    }
  }

  /** `unresolved_auto_settlement_epochs`. */
  function Unresolved(pending: seq<nat>, settled: seq<nat>): (list: seq<nat>)
    ensures forall e :: e in list <==> e in pending && e !in settled
  {
    if |pending| == 0 then []
    else
      var last := pending[|pending| - 1];
      Unresolved(pending[..|pending| - 1], settled) + (if last in settled then [] else [last])
  }

  lemma {:induction false} UnresolvedRising(pending: seq<nat>, settled: seq<nat>)
    requires Rising(pending)
    ensures Rising(Unresolved(pending, settled))
  {
    if |pending| > 0 {
      var n := |pending| - 1;
      UnresolvedRising(pending[..n], settled);
      if pending[n] !in settled { RisingSnoc(Unresolved(pending[..n], settled), pending[n]); }
    }
  }

  function Open(r: Report): seq<nat> { Unresolved(r.pending, r.settled) }

  function LastOr(s: seq<nat>, otherwise: Option<nat>): Option<nat>
  {
    if |s| == 0 then otherwise else Some(s[|s| - 1])
  }

  /** `update_auto_settlement_summary`. */
  function Updated(s: Summary, r: Report): Summary
  {
    Summary(Listed(Elements(s.pending) + Elements(r.pending) - Elements(r.settled)),
            s.settledCount + |r.settled|,
            LastOr(r.settled, s.lastSettled),
            if |r.settled| > 0 then None else if r.error.Some? then r.error else s.lastError)
  }

  // ----- the object

  class AutoSettlement {
    const first: nat
    const enabled: bool
    /** The epochs whose settlement artifact exists. */
    var files: set<nat>
    var summary: Summary

    constructor (first: nat, enabled: bool)
      ensures this.first == first && this.enabled == enabled && files == {} && summary == EmptySummary()
    {
      this.first, this.enabled, files, summary := first, enabled, {}, EmptySummary();
    }

    method PendingEpochs(next: nat) returns (pending: seq<nat>)
      ensures pending == Pending(first, next, files)
    {
      var latest := SatSub(next, 1);
      pending := [];
      if latest < first { return; }
      var epoch := first;
      while epoch <= latest
        invariant first <= epoch <= latest + 1
        invariant pending == Missing(first, epoch, files)
      {
        if epoch !in files { pending := pending + [epoch]; }
        epoch := epoch + 1;
      }
    }

    method SettlePending(epochs: seq<nat>, succeeds: nat -> bool) returns (settled: seq<nat>, error: Option<nat>)
      modifies this`files
      ensures var n := SettledNow(epochs, succeeds);
              settled == epochs[..n] && error == if n < |epochs| then Some(epochs[n]) else None
      ensures files == old(files) + Elements(settled)
    {
      settled := [];
      var i := 0;
      while i < |epochs|
        invariant i <= |epochs| && settled == epochs[..i]
        invariant forall k :: 0 <= k < i ==> succeeds(epochs[k])
        invariant files == old(files) + Elements(settled)
      {
        if !succeeds(epochs[i]) {
          PrefixUnique(epochs, succeeds, i);
          return settled, Some(epochs[i]);
        }
        files := files + {epochs[i]};
        settled := settled + [epochs[i]];
        i := i + 1;
      }
      PrefixUnique(epochs, succeeds, i);
      error := None;
    }

    method UpdateSummary(r: Report)
      modifies this`summary
      ensures summary == Updated(old(summary), r)
    {
      var pending := Elements(summary.pending) + Elements(r.pending);
      var lastSettled := summary.lastSettled;
      var lastError := if r.error.Some? then r.error else summary.lastError;
      var i := 0;
      while i < |r.settled|
        invariant i <= |r.settled|
        invariant pending == Elements(summary.pending) + Elements(r.pending) - Elements(r.settled[..i])
        invariant lastSettled == LastOr(r.settled[..i], summary.lastSettled)
        invariant lastError == if i > 0 then None else if r.error.Some? then r.error else summary.lastError
      {
        assert r.settled[..i + 1] == r.settled[..i] + [r.settled[i]];
        pending := pending - {r.settled[i]};
        lastSettled, lastError := Some(r.settled[i]), None;
        i := i + 1;
      }
      assert r.settled[..i] == r.settled;
      summary := Summary(Listed(pending), summary.settledCount + |r.settled|, lastSettled, lastError);
    }

    /** The settlement part of one tick. */
    method RunTick(t: Tick) returns (report: Report)
      modifies this
      ensures report == TickReport(first, enabled, old(files) + t.outside, t)
      ensures files == old(files) + t.outside + Elements(report.settled)
      ensures summary == Updated(old(summary), report)
    {
      files := files + t.outside;
      var pending := PendingEpochs(t.next);
      var settled, error := [], None;
      if enabled { settled, error := SettlePending(pending, t.succeeds); }
      report := Report(pending, settled, error);
      UpdateSummary(report);
    }
  }

  // ----- runs

  datatype World = World(files: set<nat>, summary: Summary, last: Report)

  function Step(first: nat, enabled: bool, w: World, t: Tick): World
  {
    var r := TickReport(first, enabled, w.files + t.outside, t);
    World(w.files + t.outside + Elements(r.settled), Updated(w.summary, r), r)
  }

  function Start(): World { World({}, EmptySummary(), Report([], [], None)) }

  function Run(first: nat, enabled: bool, ticks: seq<Tick>): World
  {
    if |ticks| == 0 then Start()
    else Step(first, enabled, Run(first, enabled, ticks[..|ticks| - 1]), ticks[|ticks| - 1])
  }

  /** The cursor's next epoch never falls. */
  ghost predicate Forward(ticks: seq<Tick>)
  {
    forall i, j :: 0 <= i <= j < |ticks| ==> ticks[i].next <= ticks[j].next
  }

  /** The progress cursor runs forward, whatever the configuration. */
  lemma {:induction false} CursorForward(epoch: nat, slot: nat, slotsPerEpoch: nat, m: nat, n: nat)
    requires m <= n
    ensures Progress.AfterTicks(epoch, slot, slotsPerEpoch, m).0 <= Progress.AfterTicks(epoch, slot, slotsPerEpoch, n).0
    decreases n - m
  {
    if m < n { CursorForward(epoch, slot, slotsPerEpoch, m, n - 1); }
  }

  function LastNext(ticks: seq<Tick>): nat { if |ticks| == 0 then 0 else ticks[|ticks| - 1].next }

  // ----- settled epochs form a prefix

  /** The set holds exactly the epochs from `first` up to `end`. */
  ghost predicate Spans(files: set<nat>, first: nat, end: nat)
  {
    forall e: nat :: e in files <==> first <= e < end
  }

  function Upward(mid: nat, n: nat): (list: seq<nat>)
    ensures |list| == n && forall i :: 0 <= i < n ==> list[i] == mid + i
  {
    if n == 0 then [] else Upward(mid, n - 1) + [mid + n - 1]
  }

  /** If the settled epochs span up to `mid`, the pending ones run on from it. */
  lemma MissingInterval(first: nat, mid: nat, end: nat, files: set<nat>)
    requires first <= mid < end && Spans(files, first, mid)
    ensures Missing(first, end, files) == Upward(mid, end - mid)
  {
    var list, up := Missing(first, end, files), Upward(mid, end - mid);
    forall e: nat ensures e in Elements(list) <==> e in Elements(up) {
      if mid <= e < end { assert up[e - mid] == e; }
    }
    RisingUnique(list, up);
  }

  lemma SettledInterval(first: nat, mid: nat, end: nat, files: set<nat>, settled: seq<nat>)
    requires first <= mid && Spans(files, first, mid)
    requires settled <= Missing(first, end, files) && |settled| > 0
    ensures Spans(Elements(settled), mid, mid + |settled|) && mid + |settled| <= end
    ensures settled[|settled| - 1] == mid + |settled| - 1
  {
    assert settled[0] in Missing(first, end, files);
    MissingInterval(first, mid, end, files);
    forall e: nat ensures e in Elements(settled) <==> mid <= e < mid + |settled| {
      if mid <= e < mid + |settled| { assert settled[e - mid] == e; }
    }
  }

  /** One tick extends the settled interval. */
  lemma StepInterval(first: nat, enabled: bool, w: World, t: Tick, mid: nat)
    requires Spans(w.files, first, mid) && first <= mid && t.outside == {}
    ensures var w' := Step(first, enabled, w, t); var n := |w'.last.settled|;
            && Spans(w'.files, first, mid + n)
            && (n > 0 ==> mid + n <= CompletedEnd(t.next))
            && w'.summary.settledCount == w.summary.settledCount + n
  {
    var files := w.files + t.outside;
    assert files == w.files;
    var r := TickReport(first, enabled, files, t);
    if |r.settled| > 0 { SettledInterval(first, mid, CompletedEnd(t.next), files, r.settled); }
    assert |r.settled| == 0 ==> Elements(r.settled) == {};
  }

  /** The settled epochs are exactly those from the default epoch up to some end,
      as many as the summary counts, all of them completed. */
  ghost predicate GapFree(first: nat, w: World, next: nat)
  {
    var n := w.summary.settledCount;
    Spans(w.files, first, first + n) && (n > 0 ==> first + n <= next)
  }

  /** So it is over every run. */
  lemma {:induction false} SettledGapFree(first: nat, enabled: bool, ticks: seq<Tick>)
    requires first >= 1 && Forward(ticks) && forall t :: t in ticks ==> t.outside == {}
    ensures GapFree(first, Run(first, enabled, ticks), LastNext(ticks))
  {
    if |ticks| > 0 {
      var before, t := ticks[..|ticks| - 1], ticks[|ticks| - 1];
      SettledGapFree(first, enabled, before);
      LastForward(ticks);
      var w := Run(first, enabled, before);
      StepInterval(first, enabled, w, t, first + w.summary.settledCount);
    }
  }

  lemma StepLast(first: nat, enabled: bool, w: World, t: Tick)
    requires NamesLast(first, w.summary) && Spans(w.files, first, first + w.summary.settledCount) && t.outside == {}
    ensures NamesLast(first, Step(first, enabled, w, t).summary)
  {
    var mid := first + w.summary.settledCount;
    var files := w.files + t.outside;
    assert files == w.files;
    var r := TickReport(first, enabled, files, t);
    if |r.settled| > 0 { SettledInterval(first, mid, CompletedEnd(t.next), files, r.settled); }
  }

  /** The summary names the last epoch of that range. */
  lemma {:induction false} LastSettledNamed(first: nat, enabled: bool, ticks: seq<Tick>)
    requires first >= 1 && Forward(ticks) && forall t :: t in ticks ==> t.outside == {}
    ensures NamesLast(first, Run(first, enabled, ticks).summary)
  {
    if |ticks| > 0 {
      LastForward(ticks);
      LastSettledNamed(first, enabled, ticks[..|ticks| - 1]);
      SettledGapFree(first, enabled, ticks[..|ticks| - 1]);
      StepLast(first, enabled, Run(first, enabled, ticks[..|ticks| - 1]), ticks[|ticks| - 1]);
    }
  }

  ghost predicate NamesLast(first: nat, s: Summary)
  {
    s.lastSettled == if s.settledCount > 0 then Some(first + s.settledCount - 1) else None
  }

  /** All epochs settled by other means during a run. */
  function Elsewhere(ticks: seq<Tick>): set<nat>
  {
    if |ticks| == 0 then {} else Elsewhere(ticks[..|ticks| - 1]) + ticks[|ticks| - 1].outside
  }

  /** Everything from the default epoch to the last one settled here is settled,
      and beyond that only what was settled by other means. */
  ghost predicate SettledUpTo(first: nat, w: World, elsewhere: set<nat>)
  {
    var last := w.summary.lastSettled;
    forall e: nat :: e in w.files <==> e in elsewhere || (last.Some? && first <= e <= last.value)
  }

  /** Over every run, epochs settled by other means or not, settlement leaves no
      gap behind it. */
  lemma {:induction false} NoGapBehind(first: nat, enabled: bool, ticks: seq<Tick>)
    ensures SettledUpTo(first, Run(first, enabled, ticks), Elsewhere(ticks))
  {
    if |ticks| > 0 {
      NoGapBehind(first, enabled, ticks[..|ticks| - 1]);
      StepNoGap(first, enabled, Run(first, enabled, ticks[..|ticks| - 1]), ticks[|ticks| - 1],
                Elsewhere(ticks[..|ticks| - 1]));
    }
  }

  lemma StepNoGap(first: nat, enabled: bool, w: World, t: Tick, elsewhere: set<nat>)
    requires SettledUpTo(first, w, elsewhere)
    ensures SettledUpTo(first, Step(first, enabled, w, t), elsewhere + t.outside)
  {
    var files := w.files + t.outside;
    var r := TickReport(first, enabled, files, t);
    var n := |r.settled|;
    if n > 0 {
      var last := r.settled[n - 1];
      assert last in r.pending;
      forall e: nat | first <= e <= last ensures e in files || e in Elements(r.settled) {
        PrefixReaches(r.pending, n, e);
      }
      forall e | e in r.settled ensures first <= e <= last {
        var i :| 0 <= i < n && r.settled[i] == e;
        assert e in r.pending;
      }
      assert w.summary.lastSettled.Some? ==> w.summary.lastSettled.value < last || last < first;
    }
  }

  /** A pending epoch up to the last of a prefix is in the prefix. */
  lemma PrefixReaches(pending: seq<nat>, n: nat, e: nat)
    requires Rising(pending) && 0 < n <= |pending| && e <= pending[n - 1]
    ensures e in pending ==> e in pending[..n]
  {
    if e in pending {
      var i :| 0 <= i < |pending| && pending[i] == e;
      assert i < n;
      assert pending[..n][i] == e;
    }
  }

  lemma LastForward(ticks: seq<Tick>)
    requires Forward(ticks) && |ticks| > 0
    ensures Forward(ticks[..|ticks| - 1]) && LastNext(ticks[..|ticks| - 1]) <= LastNext(ticks)
  {
    var n := |ticks| - 1;
    assert n > 0 ==> ticks[..n][n - 1] == ticks[n - 1];
  }

  /** A tick on which every settlement succeeds leaves no completed epoch open. */
  lemma AllSucceed(first: nat, w: World, t: Tick)
    requires forall e :: t.succeeds(e)
    ensures var w' := Step(first, true, w, t);
            Open(w'.last) == [] && forall e :: first <= e < t.next ==> e in w'.files
  {
    var files := w.files + t.outside;
    var r := TickReport(first, true, files, t);
    SettledPrefix(r.pending, t.succeeds);
    assert r.settled == r.pending;
    assert Elements(Open(r)) == {};
    NoElements(Open(r));
    forall e | first <= e < t.next ensures e in files || e in Elements(r.settled) {}
  }

  // ----- the streaming summary

  /** Epochs a tick left open that were settled by other means before the next. */
  function Stale(first: nat, enabled: bool, ticks: seq<Tick>): set<nat>
  {
    if |ticks| == 0 then {}
    else
      var before := ticks[..|ticks| - 1];
      Stale(first, enabled, before) + Elements(Open(Run(first, enabled, before).last)) * ticks[|ticks| - 1].outside
  }

  /** Sets only: what the update leaves in the summary. */
  lemma SummarySets(listed: set<nat>, stale: set<nat>, open: set<nat>, outside: set<nat>, pending: set<nat>,
                    settled: set<nat>)
    requires listed == stale + open
    requires stale !! pending && outside !! pending && settled <= pending && open - outside <= pending
    ensures listed + pending - settled == (stale + open * outside) + (pending - settled)
  {}

  /** What holds of the summary after every run. */
  ghost predicate Tracks(first: nat, enabled: bool, ticks: seq<Tick>)
  {
    var w := Run(first, enabled, ticks);
    && Elements(w.summary.pending) == Stale(first, enabled, ticks) + Elements(Open(w.last))
    && Stale(first, enabled, ticks) <= w.files
    && w.files !! Elements(Open(w.last))
    && (forall e :: e in Open(w.last) ==> first <= e < CompletedEnd(LastNext(ticks)))
    && Rising(w.summary.pending) && Rising(Open(w.last))
  }

  lemma {:induction false} SummaryTracks(first: nat, enabled: bool, ticks: seq<Tick>)
    requires Forward(ticks)
    ensures Tracks(first, enabled, ticks)
  {
    if |ticks| > 0 {
      var n, before := |ticks| - 1, ticks[..|ticks| - 1];
      SummaryTracks(first, enabled, before);
      LastForward(ticks);
      StepTracks(first, enabled, Run(first, enabled, before), ticks[n], Stale(first, enabled, before),
                 LastNext(before));
    }
  }

  lemma StepTracks(first: nat, enabled: bool, w: World, t: Tick, stale: set<nat>, next: nat)
    requires Elements(w.summary.pending) == stale + Elements(Open(w.last))
    requires stale <= w.files
    requires forall e :: e in Open(w.last) ==> e !in w.files && first <= e < CompletedEnd(next)
    requires next <= t.next
    ensures var w' := Step(first, enabled, w, t); var open := Elements(Open(w.last));
            && Elements(w'.summary.pending) == stale + open * t.outside + Elements(Open(w'.last))
            && stale + open * t.outside <= w'.files
            && w'.files !! Elements(Open(w'.last))
            && (forall e :: e in Open(w'.last) ==> first <= e < CompletedEnd(t.next))
            && Rising(w'.summary.pending) && Rising(Open(w'.last))
  {
    var files := w.files + t.outside;
    var r := TickReport(first, enabled, files, t);
    SummarySets(Elements(w.summary.pending), stale, Elements(Open(w.last)), t.outside, Elements(r.pending),
                Elements(r.settled));
    assert Elements(Open(r)) == Elements(r.pending) - Elements(r.settled);
    UnresolvedRising(r.pending, r.settled);
  }

  /** Over every run the summary lists the last tick's unresolved epochs and, for
      ever, those settled by other means while unresolved; so it equals the
      last tick's list exactly when there are none of the latter. */
  lemma SummaryExactIff(first: nat, enabled: bool, ticks: seq<Tick>)
    requires Forward(ticks)
    ensures var w := Run(first, enabled, ticks);
            && w.summary.pending == Listed(Stale(first, enabled, ticks) + Elements(Open(w.last)))
            && (w.summary.pending == Open(w.last) <==> Stale(first, enabled, ticks) == {})
  {
    SummaryTracks(first, enabled, ticks);
    var w := Run(first, enabled, ticks);
    RisingUnique(w.summary.pending, Listed(Stale(first, enabled, ticks) + Elements(Open(w.last))));
    if Stale(first, enabled, ticks) == {} { RisingUnique(w.summary.pending, Open(w.last)); }
    else {
      var e :| e in Stale(first, enabled, ticks);
      assert e in Elements(w.summary.pending) && e !in Elements(Open(w.last));
    }
  }

  /** The summary lists the epoch though it is not unresolved. */
  ghost predicate ListsStale(epoch: nat, w: World)
  {
    w.summary.pending != Open(w.last) && epoch in Elements(w.summary.pending) && epoch !in Open(w.last)
  }

  /** An epoch that could not be settled, then is by other means: the summary goes
      on listing it when nothing is unresolved. */
  lemma SettledElsewhereStays(first: nat, ticks: seq<Tick>)
    requires first >= 1 && |ticks| == 2 && ticks[0].next == ticks[1].next == first + 1
    requires ticks[0].outside == {} && !ticks[0].succeeds(first) && ticks[1].outside == {first}
    ensures ListsStale(first, Run(first, true, ticks))
  {
    assert ticks[..|ticks| - 1] == [ticks[0]];
    FirstTickFails(first, ticks[0]);
    BecomesStale(first, ticks);
    StaleListed(first, ticks);
  }

  lemma BecomesStale(first: nat, ticks: seq<Tick>)
    requires |ticks| > 0 && first in ticks[|ticks| - 1].outside
    requires first in Elements(Open(Run(first, true, ticks[..|ticks| - 1]).last))
    ensures first in Stale(first, true, ticks)
  {}

  lemma StaleListed(first: nat, ticks: seq<Tick>)
    requires Forward(ticks) && first in Stale(first, true, ticks)
    ensures ListsStale(first, Run(first, true, ticks))
  {
    SummaryTracks(first, true, ticks);
    var w := Run(first, true, ticks);
    assert first !in Elements(Open(w.last));
  }

  lemma FirstTickFails(first: nat, t: Tick)
    requires first >= 1 && t.next == first + 1 && t.outside == {} && !t.succeeds(first)
    ensures first in Elements(Open(Run(first, true, [t]).last))
  {
    assert [t][..0] == [];
    var r := TickReport(first, true, {} + {}, t);
    assert first in r.pending;
    assert r.pending[0] in r.pending;
    assert r.settled == [];
    assert Start().files + t.outside == {};
  }

  /** With nothing settled from outside the two lists are always equal. */
  lemma {:induction false} SummaryIsUnresolved(first: nat, enabled: bool, ticks: seq<Tick>)
    requires Forward(ticks) && forall t :: t in ticks ==> t.outside == {}
    ensures Run(first, enabled, ticks).summary.pending == Open(Run(first, enabled, ticks).last)
  {
    NothingStale(first, enabled, ticks);
    SummaryExactIff(first, enabled, ticks);
  }

  lemma {:induction false} NothingStale(first: nat, enabled: bool, ticks: seq<Tick>)
    requires forall t :: t in ticks ==> t.outside == {}
    ensures Stale(first, enabled, ticks) == {}
  {
    if |ticks| > 0 { NothingStale(first, enabled, ticks[..|ticks| - 1]); }
  }

  /** A failure is forgotten by the summary exactly when the same tick settled
      an earlier epoch. */
  lemma FailureShownIff(first: nat, enabled: bool, w: World, t: Tick)
    requires Step(first, enabled, w, t).last.error.Some?
    ensures var w' := Step(first, enabled, w, t); var pending := Pending(first, t.next, w.files + t.outside);
            |pending| > 0 && (w'.summary.lastError == w'.last.error <==> !t.succeeds(pending[0]))
  {
    SettledPrefix(Pending(first, t.next, w.files + t.outside), t.succeeds);
  }

  // ----- the error shown

  /** The reports of a run's ticks. */
  function Reports(first: nat, enabled: bool, ticks: seq<Tick>): seq<Report>
  {
    if |ticks| == 0 then []
    else Reports(first, enabled, ticks[..|ticks| - 1]) + [Run(first, enabled, ticks).last]
  }

  predicate Quiet(r: Report) { r.settled == [] && r.error.None? }

  /** The tick failed on the epoch and settled nothing, and no tick since has
      settled or failed. */
  ghost predicate FailedLast(reports: seq<Report>, i: nat, e: nat)
  {
    && i < |reports| && reports[i].error == Some(e) && reports[i].settled == []
    && forall j :: i < j < |reports| ==> Quiet(reports[j])
  }

  ghost predicate SomeFailedLast(reports: seq<Report>, e: nat) { exists i: nat :: FailedLast(reports, i, e) }

  lemma FailedLastSnoc(before: seq<Report>, r: Report, e: nat)
    ensures SomeFailedLast(before + [r], e)
            <==> (r.error == Some(e) && r.settled == []) || (Quiet(r) && SomeFailedLast(before, e))
  {
    var n, all := |before|, before + [r];
    assert all[n] == r;
    if r.error == Some(e) && r.settled == [] { assert FailedLast(all, n, e); }
    forall i: nat | i < n ensures FailedLast(all, i, e) <==> Quiet(r) && FailedLast(before, i, e) {
      FailedBefore(before, r, i, e);
    }
    if Quiet(r) && SomeFailedLast(before, e) {
      var i: nat :| FailedLast(before, i, e);
      assert FailedLast(all, i, e);
    }
  }

  lemma FailedBefore(before: seq<Report>, r: Report, i: nat, e: nat)
    requires i < |before|
    ensures FailedLast(before + [r], i, e) <==> Quiet(r) && FailedLast(before, i, e)
  {
    var all := before + [r];
    assert all[|before|] == r && forall j :: 0 <= j < |before| ==> all[j] == before[j];
  }

  /** Over every run the error shown is that of the last tick which settled or
      failed, if that tick settled nothing. */
  lemma {:induction false} ErrorShownIff(first: nat, enabled: bool, ticks: seq<Tick>, e: nat)
    ensures Run(first, enabled, ticks).summary.lastError == Some(e)
            <==> SomeFailedLast(Reports(first, enabled, ticks), e)
  {
    if |ticks| > 0 {
      var n := |ticks| - 1;
      ErrorShownIff(first, enabled, ticks[..n], e);
      FailedLastSnoc(Reports(first, enabled, ticks[..n]), Run(first, enabled, ticks).last, e);
    }
  }
}
