/** Reward blocks: how a tick's seconds, network weight and play time fill the
    pending block and the blocks it completes, and what whole runs conserve. */
module RewardBlocks {
  import opened Machine
  import opened Sorting
  import opened Progress
  import opened Rolling
  import Apportionment

  /** What a tick works with. `weightOf` is the network weight of a duration. */
  datatype Context = Context(blockSecs: nat, reward: nat, cycle: nat, game: Option<Game>, weightOf: nat -> nat)

  /** A completed block; one record is written for each entry. */
  datatype Done = Done(weight: nat, reward: nat, cycle: nat, entries: seq<Entry>)

  // ----- network weight

  datatype Sample = Sample(app: nat, players: nat, coefficientPpm: nat)

  function SampleWeight(x: Sample, secs: nat): nat
  {
    SatMul(U128, SatMul(U128, x.players, secs), x.coefficientPpm)
  }

  function NetworkWeight(samples: seq<Sample>, secs: nat): nat
  {
    if |samples| == 0 then 0
    else NetworkWeight(samples[..|samples| - 1], secs) + SampleWeight(samples[|samples| - 1], secs)
  }

  function WeightPerSecond(samples: seq<Sample>): nat
  {
    if |samples| == 0 then 0
    else
      var last := samples[|samples| - 1];
      WeightPerSecond(samples[..|samples| - 1]) + last.players * last.coefficientPpm
  }

  /** Unless a product saturates, network weight is proportional to duration. */
  lemma {:induction false} NetworkWeightLinear(samples: seq<Sample>, secs: nat)
    requires WeightPerSecond(samples) * secs < U128
    ensures NetworkWeight(samples, secs) == WeightPerSecond(samples) * secs
  {
    if |samples| > 0 {
      var before, x := samples[..|samples| - 1], samples[|samples| - 1];
      RateSplit(WeightPerSecond(before), x.players * x.coefficientPpm, secs);
      NetworkWeightLinear(before, secs);
      SampleWeightLinear(x, secs);
    }
  }

  lemma RateSplit(a: nat, b: nat, secs: nat)
    ensures (a + b) * secs == a * secs + b * secs && a * secs <= (a + b) * secs && b * secs <= (a + b) * secs
  {}

  lemma SampleWeightLinear(x: Sample, secs: nat)
    requires x.players * x.coefficientPpm * secs < U128
    ensures SampleWeight(x, secs) == x.players * x.coefficientPpm * secs
  {
    var a, c := x.players * secs, x.coefficientPpm;
    assert a * c == x.players * c * secs;
    if c > 0 { MulLeft(1, c, a); }
  }

  lemma NetworkWeightAdditive(samples: seq<Sample>, bound: nat)
    requires WeightPerSecond(samples) * bound < U128
    ensures Additive((secs: nat) => NetworkWeight(samples, secs), bound)
  {
    var rate := WeightPerSecond(samples);
    forall a: nat | a <= bound ensures NetworkWeight(samples, a) == rate * a {
      MulLeft(a, bound, rate);
      NetworkWeightLinear(samples, a);
    }
    forall a: nat, b: nat | a + b <= bound ensures rate * (a + b) == rate * a + rate * b {
      Apportionment.Spread(rate, a, b);
    }
  }

  // ----- play time within a block

  /** The play time entries credit to one game. */
  function SecsFor(game: Game): Entry -> nat { (e: Entry) => if e.game == game then e.secs else 0 }
  function PlaySecs(game: Game, entries: seq<Entry>): nat { SumBy(SecsFor(game), entries) }

  /** Add play time to the first entry of the game, or open one. */
  function Credit(entries: seq<Entry>, game: Game, secs: nat): seq<Entry>
  {
    if |entries| == 0 then [Entry(game, secs)]
    else if entries[0].game == game then [Entry(game, entries[0].secs + secs)] + entries[1..]
    else [entries[0]] + Credit(entries[1..], game, secs)
  }

  lemma {:induction false} CreditTwice(entries: seq<Entry>, game: Game, a: nat, b: nat)
    ensures Credit(Credit(entries, game, a), game, b) == Credit(entries, game, a + b)
  {
    if |entries| > 0 && entries[0].game != game { CreditTwice(entries[1..], game, a, b); }
  }

  /** Crediting a game adds to that game and to no other. */
  lemma {:induction false} CreditSecs(entries: seq<Entry>, game: Game, secs: nat, any: Game)
    ensures PlaySecs(any, Credit(entries, game, secs)) == PlaySecs(any, entries) + (if any == game then secs else 0)
  {
    var f := SecsFor(any);
    if |entries| == 0 {
      SumByCons(f, Entry(game, secs), []);
      assert [Entry(game, secs)] + [] == [Entry(game, secs)];
    } else {
      var head, rest := entries[0], entries[1..];
      SumByCons(f, head, rest);
      assert entries == [head] + rest;
      if head.game == game {
        SumByCons(f, Entry(game, head.secs + secs), rest);
      } else {
        CreditSecs(rest, game, secs, any);
        SumByCons(f, head, Credit(rest, game, secs));
      }
    }
  }

  /** Entries are recorded by process name, then app, then coefficient. */
  function Shifted(s: seq<nat>): seq<nat> { if |s| == 0 then [] else [s[0] + 1] + Shifted(s[1..]) }
  function EntryKey(e: Entry): Key { Shifted(e.game.process) + [0, e.game.app, e.game.coefficientPpm] }

  lemma {:induction false} ShiftedOrder(a: Key, b: Key, c: Key, d: Key)
    ensures Leq(Shifted(a) + ([0] + c), Shifted(b) + ([0] + d)) <==> if a == b then Leq(c, d) else Leq(a, b)
  {
    var x, y := [0] + c, [0] + d;
    if |a| == 0 || |b| == 0 {
      LeqFirst(if |a| == 0 then 0 else a[0] + 1, if |b| == 0 then 0 else b[0] + 1,
               if |a| == 0 then c else Shifted(a[1..]) + x, if |b| == 0 then d else Shifted(b[1..]) + y);
      assert Shifted(a) + x == if |a| == 0 then [0] + c else [a[0] + 1] + (Shifted(a[1..]) + x);
      assert Shifted(b) + y == if |b| == 0 then [0] + d else [b[0] + 1] + (Shifted(b[1..]) + y);
    } else {
      ShiftedOrder(a[1..], b[1..], c, d);
      LeqFirst(a[0] + 1, b[0] + 1, Shifted(a[1..]) + x, Shifted(b[1..]) + y);
      LeqFirst(a[0], b[0], a[1..], b[1..]);
      assert a == [a[0]] + a[1..] && b == [b[0]] + b[1..];
      assert Shifted(a) + x == [a[0] + 1] + (Shifted(a[1..]) + x);
      assert Shifted(b) + y == [b[0] + 1] + (Shifted(b[1..]) + y);
    }
  }

  lemma EntryOrder(e: Entry, f: Entry)
    ensures Leq(EntryKey(e), EntryKey(f))
            <==> if e.game.process != f.game.process then Leq(e.game.process, f.game.process)
                 else e.game.app < f.game.app
                      || (e.game.app == f.game.app && e.game.coefficientPpm <= f.game.coefficientPpm)
  {
    var c, d := [e.game.coefficientPpm], [f.game.coefficientPpm];
    ShiftedOrder(e.game.process, f.game.process, [e.game.app] + c, [f.game.app] + d);
    LeqFirst(e.game.app, f.game.app, c, d);
    LeqFirst(e.game.coefficientPpm, f.game.coefficientPpm, [], []);
    assert c + [] == c && d + [] == d;
    assert EntryKey(e) == Shifted(e.game.process) + ([0] + ([e.game.app] + c));
    assert EntryKey(f) == Shifted(f.game.process) + ([0] + ([f.game.app] + d));
  }

  // ----- one tick

  function Default(): PendingBlock { PendingBlock(0, Both(0), Both(0), Both(0), []) }
  function Fresh(ctx: Context): PendingBlock { PendingBlock(0, Both(0), Both(ctx.reward), Both(ctx.cycle), []) }

  /** The pending block a tick starts from. */
  function Opened(ctx: Context, pending: Option<PendingBlock>): PendingBlock
  {
    var p := MendPending(if pending.Some? then pending.value else Default());
    if p.reward.legacy == 0 || p.secs == 0 then p.(reward := Both(ctx.reward), cycle := Both(ctx.cycle)) else p
  }

  function Grown(ctx: Context, p: PendingBlock, chunk: nat): PendingBlock
  {
    p.(secs := p.secs + chunk,
       weight := Both(SatAdd(U128, p.weight.legacy, ctx.weightOf(chunk))),
       entries := if ctx.game.Some? then Credit(p.entries, ctx.game.value, chunk) else p.entries)
  }

  function DoneOf(p: PendingBlock): Done
  {
    Done(p.weight.legacy, p.reward.legacy, p.cycle.legacy, SortBy(EntryKey, p.entries))
  }

  function BlockRule(ctx: Context): Rule<PendingBlock, Done>
  {
    Rule(ctx.blockSecs, (p: PendingBlock) => p.secs, (p: PendingBlock, x: nat) => Grown(ctx, p, x),
         (p: PendingBlock) => DoneOf(p), Fresh(ctx), Default())
  }

  function Kept(p: PendingBlock): Option<PendingBlock> { if p.secs > 0 then Some(p) else None }

  function TickOutcome(ctx: Context, pending: Option<PendingBlock>, interval: nat): Outcome<PendingBlock, Done>
  {
    Rolled(BlockRule(ctx), Opened(ctx, pending), Max(interval, 1))
  }

  /** `record_player_reward_tick`. */
  method RecordTick(ctx: Context, pending: Option<PendingBlock>, interval: nat)
    returns (done: seq<Done>, left: Option<PendingBlock>)
    ensures done == TickOutcome(ctx, pending, interval).done
    ensures left == Kept(TickOutcome(ctx, pending, interval).pending)
  {
    var block;
    done, block := Roll(BlockRule(ctx), Opened(ctx, pending), Max(interval, 1));
    left := Kept(block);
  }

  // ----- what a tick conserves

  ghost predicate Startable(ctx: Context, pending: Option<PendingBlock>)
  {
    ctx.blockSecs >= 1 && (pending.Some? ==> pending.value.secs < ctx.blockSecs)
  }

  /** What a stored block holds: a field's cycle value, or in an old file its
      legacy one; nothing if there is no block. */
  function Stored(d: Dual): nat { if d.cycle > 0 then d.cycle else d.legacy }
  function PendingSecs(pending: Option<PendingBlock>): nat { if pending.Some? then pending.value.secs else 0 }
  function PendingWeight(pending: Option<PendingBlock>): nat
  {
    if pending.Some? then Stored(pending.value.weight) else 0
  }
  function PendingEntries(pending: Option<PendingBlock>): seq<Entry>
  {
    if pending.Some? then pending.value.entries else []
  }

  /** A block that has seconds and a reward goes on under its own terms. */
  predicate Underway(pending: Option<PendingBlock>)
  {
    pending.Some? && pending.value.secs > 0 && Stored(pending.value.reward) > 0
  }

  /** What a tick takes over from the pending block. */
  lemma OpenedTakesOver(ctx: Context, pending: Option<PendingBlock>)
    ensures var p := Opened(ctx, pending);
            && p.secs == PendingSecs(pending) && Weight(p) == PendingWeight(pending)
            && p.entries == PendingEntries(pending)
            && TermsOf(p) == (if Underway(pending) then
                                Terms(Stored(pending.value.reward), Stored(pending.value.cycle))
                              else Terms(ctx.reward, ctx.cycle))
  {}

  /** A tick completes as many blocks as its seconds and the pending ones fill,
      and leaves the rest pending. */
  lemma TickSeconds(ctx: Context, pending: Option<PendingBlock>, interval: nat)
    requires Startable(ctx, pending)
    ensures var r := TickOutcome(ctx, pending, interval);
            && r.pending.secs < ctx.blockSecs
            && ctx.blockSecs * |r.done| + r.pending.secs == PendingSecs(pending) + Max(interval, 1)
  {
    SecondsConserved(BlockRule(ctx), Opened(ctx, pending), Max(interval, 1));
  }

  /** The paired fields of the block left pending agree; without seconds it is
      no block at all. */
  lemma TickAgrees(ctx: Context, pending: Option<PendingBlock>, interval: nat)
    ensures var p := TickOutcome(ctx, pending, interval).pending;
            PendingAgrees(p) && (p.secs > 0 || p == Default())
  {
    PendingKeeps(BlockRule(ctx), PendingAgrees, Opened(ctx, pending), Max(interval, 1));
    PendingOrEmpty(BlockRule(ctx), Opened(ctx, pending), Max(interval, 1));
  }

  function Weight(p: PendingBlock): nat { p.weight.legacy }
  function DoneWeight(d: Done): nat { d.weight }
  function TotalWeight(done: seq<Done>): nat { SumBy(DoneWeight, done) }

  /** Unless its total saturates, all network weight of the tick is in a completed
      block or in the pending one. */
  lemma TickWeight(ctx: Context, pending: Option<PendingBlock>, interval: nat)
    requires Additive(ctx.weightOf, Max(interval, 1))
    requires PendingWeight(pending) + ctx.weightOf(Max(interval, 1)) < U128
    ensures var r := TickOutcome(ctx, pending, interval);
            TotalWeight(r.done) + Weight(r.pending) == PendingWeight(pending) + ctx.weightOf(Max(interval, 1))
  {
    OpenedTakesOver(ctx, pending);
    MeasureConserved(BlockRule(ctx), Weight, DoneWeight, ctx.weightOf, U128, Opened(ctx, pending), Max(interval, 1));
  }

  function Play(game: Game): PendingBlock -> nat { (p: PendingBlock) => PlaySecs(game, p.entries) }
  function DonePlay(game: Game): Done -> nat { (d: Done) => PlaySecs(game, d.entries) }
  function Played(ctx: Context,
                  game: Game): nat -> nat { if ctx.game == Some(game) then (x: nat) => x else (x: nat) => 0 }

  /** Every second of a tick is credited once to the active game, and no other
      game's play time changes. */
  lemma TickPlay(ctx: Context, pending: Option<PendingBlock>, interval: nat, game: Game)
    ensures var r := TickOutcome(ctx, pending, interval);
            SumBy(DonePlay(game), r.done) + PlaySecs(game, r.pending.entries)
            == PlaySecs(game, PendingEntries(pending)) + (if ctx.game == Some(game) then Max(interval, 1) else 0)
  {
    var p := Opened(ctx, pending);
    OpenedTakesOver(ctx, pending);
    var cap := PlaySecs(game, p.entries) + Max(interval, 1) + 1;
    PlayMeasured(ctx, game, cap);
    MeasureConserved(BlockRule(ctx), Play(game), DonePlay(game), Played(ctx, game), cap, p, Max(interval, 1));
  }

  lemma PlayMeasured(ctx: Context, game: Game, cap: nat)
    ensures Measured(BlockRule(ctx), Play(game), DonePlay(game), Played(ctx, game), cap)
  {
    forall p: PendingBlock ensures DonePlay(game)(DoneOf(p)) == Play(game)(p) {
      SumByPermuted(SecsFor(game), SortBy(EntryKey, p.entries), p.entries);
    }
    forall p: PendingBlock, x: nat ensures Play(game)(Grown(ctx, p, x)) == Play(game)(p) + Played(ctx, game)(x) {
      if ctx.game.Some? { CreditSecs(p.entries, ctx.game.value, x, game); }
    }
  }

  /** The reward and cycle of a block are fixed when it opens. If the pending block
      is under way the first block completed, or the one left pending when none
      is, has its terms, whatever the tick's; every other block has the tick's. */
  lemma TickRewards(ctx: Context, pending: Option<PendingBlock>, interval: nat)
    ensures var r := TickOutcome(ctx, pending, interval); var ticks := Terms(ctx.reward, ctx.cycle);
            var first := if Underway(pending) then Terms(Stored(pending.value.reward), Stored(pending.value.cycle))
                         else ticks;
            && (|r.done| > 0 ==> DoneTerms(r.done[0]) == first)
            && (forall i :: 1 <= i < |r.done| ==> DoneTerms(r.done[i]) == ticks)
            && (|r.done| == 0 ==> TermsOf(r.pending) == first)
            && (|r.done| > 0 && r.pending.secs > 0 ==> TermsOf(r.pending) == ticks)
  {
    OpenedTakesOver(ctx, pending);
    MarksKept(BlockRule(ctx), TermsOf, DoneTerms, Opened(ctx, pending), Max(interval, 1));
    PendingMark(BlockRule(ctx), TermsOf, DoneTerms, Opened(ctx, pending), Max(interval, 1));
  }

  datatype Terms = Terms(reward: nat, cycle: nat)
  function TermsOf(p: PendingBlock): Terms { Terms(p.reward.legacy, p.cycle.legacy) }
  function DoneTerms(d: Done): Terms { Terms(d.reward, d.cycle) }

  predicate InEntryOrder(d: Done) { SortedBy(EntryKey, d.entries) }

  /** The entries of a completed block, and so its records, are in that order. */
  lemma TickEntryOrder(ctx: Context, pending: Option<PendingBlock>, interval: nat)
    ensures var done := TickOutcome(ctx, pending, interval).done;
            forall i :: 0 <= i < |done| ==> InEntryOrder(done[i])
  {
    forall p: PendingBlock, x: nat ensures InEntryOrder(DoneOf(Grown(ctx, p, x))) {
      SortBySorted(EntryKey, Grown(ctx, p, x).entries);
    }
    ClosedGrown(BlockRule(ctx), InEntryOrder, Opened(ctx, pending), Max(interval, 1));
  }

  // ----- ticks may be split

  lemma GrownTwice(ctx: Context, p: PendingBlock, a: nat, b: nat)
    requires ctx.weightOf(a + b) == ctx.weightOf(a) + ctx.weightOf(b)
    ensures Grown(ctx, Grown(ctx, p, a), b) == Grown(ctx, p, a + b)
  {
    if ctx.game.Some? { CreditTwice(p.entries, ctx.game.value, a, b); }
  }

  /** A pending block that the next tick takes up as it is. */
  predicate Settled(p: PendingBlock) { PendingAgrees(p) && p.reward.legacy > 0 }

  /** One long tick and two shorter ones with the same context complete the same
      blocks and leave the same block pending. */
  lemma LongTickIsTwo(ctx: Context, pending: Option<PendingBlock>, a: nat, b: nat)
    requires Startable(ctx, pending) && Additive(ctx.weightOf, a + b) && ctx.reward > 0 && a > 0 && b > 0
    ensures var first := TickOutcome(ctx, pending, a); var second := TickOutcome(ctx, Kept(first.pending), b);
            TickOutcome(ctx, pending, a + b) == Outcome(first.done + second.done, second.pending)
  {
    BlockSmooth(ctx, a + b);
    TicksCompose(BlockRule(ctx), Settled, Resumer(ctx), Opened(ctx, pending), a, b);
  }

  function Resumer(ctx: Context): PendingBlock -> PendingBlock { (p: PendingBlock) => Opened(ctx, Kept(p)) }

  lemma BlockSmooth(ctx: Context, bound: nat)
    requires Additive(ctx.weightOf, bound)
    ensures Smooth(BlockRule(ctx), bound)
  {
    forall p: PendingBlock, x: nat, y: nat | x + y <= bound
      ensures GrowsAlike(BlockRule(ctx), p, x, y)
    {
      SmoothAt(ctx, bound, p, x, y);
    }
  }

  lemma SmoothAt(ctx: Context, bound: nat, p: PendingBlock, x: nat, y: nat)
    requires Additive(ctx.weightOf, bound) && x + y <= bound
    ensures GrowsAlike(BlockRule(ctx), p, x, y)
  {
    assert ctx.weightOf(x + y) == ctx.weightOf(x) + ctx.weightOf(y);
    GrownTwice(ctx, p, x, y);
    GrowIs(ctx, p, x);
    GrowIs(ctx, p, x + y);
    GrowIs(ctx, Grown(ctx, p, x), y);
  }

  lemma GrowIs(ctx: Context, p: PendingBlock, x: nat)
    ensures BlockRule(ctx).grow(p, x) == Grown(ctx, p, x)
  {}

  // ----- the weight reported to the cycle

  /** A record of a completed block: its index in the tick and its weight. */
  datatype Record = Record(index: nat, weight: nat)

  function Repeated(r: Record, n: nat): seq<Record> { if n == 0 then [] else Repeated(r, n - 1) + [r] }

  /** One record per entry, block by block. */
  function Records(done: seq<Done>): seq<Record>
  {
    if |done| == 0 then []
    else
      var n := |done| - 1;
      Records(done[..n]) + Repeated(Record(n, done[n].weight), |done[n].entries|)
  }

  /** What is reported: a block without entries has no record to report it. */
  function ReportedWeight(done: seq<Done>): nat
  {
    if |done| == 0 then 0
    else
      var n := |done| - 1;
      ReportedWeight(done[..n]) + (if |done[n].entries| > 0 then done[n].weight else 0)
  }

  function IdleWeight(done: seq<Done>): nat
  {
    if |done| == 0 then 0
    else
      var n := |done| - 1;
      IdleWeight(done[..n]) + (if |done[n].entries| > 0 then 0 else done[n].weight)
  }

  /** The weight counted when each block index is taken at its first record. */
  function FirstPerIndex(records: seq<Record>): nat
  {
    if |records| == 0 then 0
    else
      var n := |records| - 1;
      FirstPerIndex(records[..n]) + (if records[n].index in Indices(records[..n]) then 0 else records[n].weight)
  }

  function Indices(records: seq<Record>): set<nat>
  {
    if |records| == 0 then {} else Indices(records[..|records| - 1]) + {records[|records| - 1].index}
  }

  method CompletedCycleWeight(records: seq<Record>) returns (weight: nat)
    ensures weight == FirstPerIndex(records)
  {
    weight := 0;
    var seen: set<nat> := {};
    for i := 0 to |records|
      invariant seen == Indices(records[..i]) && weight == FirstPerIndex(records[..i])
    {
      assert records[..i + 1][..i] == records[..i];
      if records[i].index !in seen { weight := weight + records[i].weight; }
      seen := seen + {records[i].index};
    }
    assert records[..|records|] == records;
  }

  lemma {:induction false} RepeatedOnce(before: seq<Record>, r: Record, n: nat)
    requires r.index !in Indices(before)
    ensures var all := before + Repeated(r, n);
            && FirstPerIndex(all) == FirstPerIndex(before) + (if n > 0 then r.weight else 0)
            && Indices(all) == Indices(before) + (if n > 0 then {r.index} else {})
  {
    if n == 0 {
      assert before + [] == before;
    } else {
      RepeatedOnce(before, r, n - 1);
      var shorter, all := before + Repeated(r, n - 1), before + Repeated(r, n);
      assert all == shorter + [r] && all[..|all| - 1] == shorter;
    }
  }

  /** Counting first records reports exactly the blocks that have entries. */
  lemma {:induction false} ReportCounts(done: seq<Done>)
    ensures FirstPerIndex(Records(done)) == ReportedWeight(done)
    ensures BelowAll(Indices(Records(done)), |done|)
  {
    if |done| > 0 {
      var n := |done| - 1;
      ReportCounts(done[..n]);
      ReportStep(Records(done[..n]), n, done[n].weight, |done[n].entries|);
    }
  }

  lemma ReportStep(before: seq<Record>, n: nat, weight: nat, entries: nat)
    requires BelowAll(Indices(before), n)
    ensures var all := before + Repeated(Record(n, weight), entries);
            && FirstPerIndex(all) == FirstPerIndex(before) + (if entries > 0 then weight else 0)
            && BelowAll(Indices(all), n + 1)
  {
    assert n !in Indices(before);
    RepeatedOnce(before, Record(n, weight), entries);
  }

  ghost predicate BelowAll(indices: set<nat>, n: nat) { forall i :: i in indices ==> i < n }

  /** The report is complete exactly when every block without play has no weight. */
  lemma {:induction false} ReportedAllIff(done: seq<Done>)
    ensures TotalWeight(done) == ReportedWeight(done) + IdleWeight(done)
    ensures ReportedWeight(done) == TotalWeight(done) <==> forall d :: d in done && d.entries == [] ==> d.weight == 0
  {
    if |done| > 0 {
      var n := |done| - 1;
      ReportedAllIff(done[..n]);
      assert done == done[..n] + [done[n]];
    }
  }

  /** A block completed without play weighs something that is not reported. */
  predicate Silent(d: Done) { d.entries == [] && d.weight > 0 }

  /** The block the tick starts from, if it is filled without play. */
  predicate StartSilent(ctx: Context, p: PendingBlock)
    requires p.secs <= ctx.blockSecs
  {
    p.entries == [] && (p.weight.legacy > 0 || ctx.weightOf(ctx.blockSecs - p.secs) > 0)
  }

  /** What a tick completes is reported in full if and only if a game is active; or
      nothing is completed; or the block it starts from had play or weighs
      nothing, and no other block is completed that weighs something. */
  lemma TickReportsAllIff(ctx: Context, pending: Option<PendingBlock>, interval: nat)
    requires Startable(ctx, pending)
    ensures var done := TickOutcome(ctx, pending, interval).done;
            var needed, seconds: nat := ctx.blockSecs - PendingSecs(pending), Max(interval, 1);
            ReportedWeight(done) == TotalWeight(done)
            <==> || ctx.game.Some?
                 || seconds < needed
                 || ((PendingEntries(pending) != [] || (PendingWeight(pending) == 0 && ctx.weightOf(needed) == 0))
                     && (seconds < needed + ctx.blockSecs || ctx.weightOf(ctx.blockSecs) == 0))
  {
    var done := TickOutcome(ctx, pending, interval).done;
    OpenedTakesOver(ctx, pending);
    ReportedAllIff(done);
    if ctx.game.Some? {
      ActiveTickReports(ctx, pending, interval);
    } else {
      IdleTickBlocks(ctx, Opened(ctx, pending), Max(interval, 1));
      SilentUnreported(done);
    }
  }

  lemma SilentUnreported(done: seq<Done>)
    ensures ReportedWeight(done) == TotalWeight(done) <==> forall i :: 0 <= i < |done| ==> !Silent(done[i])
  {
    ReportedAllIff(done);
    if forall i :: 0 <= i < |done| ==> !Silent(done[i]) {
      forall d | d in done && d.entries == [] ensures d.weight == 0 {
        var i :| 0 <= i < |done| && done[i] == d;
        assert !Silent(done[i]);
      }
    }
  }

  /** The blocks of a tick without a game: the one it starts from, then fresh ones. */
  lemma IdleTickBlocks(ctx: Context, p: PendingBlock, seconds: nat)
    requires ctx.game.None? && p.secs < ctx.blockSecs && seconds > 0
    ensures var done := Rolled(BlockRule(ctx), p, seconds).done; var needed := ctx.blockSecs - p.secs;
            && (|done| > 0 <==> seconds >= needed)
            && (|done| > 0 ==> (Silent(done[0]) <==> StartSilent(ctx, p)))
            && (|done| > 1 <==> seconds >= needed + ctx.blockSecs)
            && forall i :: 1 <= i < |done| ==> (Silent(done[i]) <==> ctx.weightOf(ctx.blockSecs) > 0)
  {
    BlockTimed(ctx);
    Completed(BlockRule(ctx), p, seconds);
    FilledSilent(ctx, p, ctx.blockSecs - p.secs);
    FilledSilent(ctx, Fresh(ctx), ctx.blockSecs);
  }

  lemma BlockTimed(ctx: Context)
    ensures Timed(BlockRule(ctx))
  {}

  lemma FilledSilent(ctx: Context, p: PendingBlock, x: nat)
    requires ctx.game.None?
    ensures var rule := BlockRule(ctx);
            Silent(rule.close(rule.grow(p, x))) <==> p.entries == [] && (p.weight.legacy > 0 || ctx.weightOf(x) > 0)
  {
    GrowIs(ctx, p, x);
    SortedEmpty(p.entries);
  }

  lemma SortedEmpty(entries: seq<Entry>)
    ensures SortBy(EntryKey, entries) == [] <==> entries == []
  {}

  /** A block nobody plays in: its whole weight goes unreported. */
  lemma IdleBlockUnreported(ctx: Context)
    requires ctx.game.None? && ctx.blockSecs >= 1 && ctx.weightOf(ctx.blockSecs) > 0
    ensures var done := TickOutcome(ctx, None, ctx.blockSecs).done;
            ReportedWeight(done) == 0 < TotalWeight(done)
  {
    var rule := BlockRule(ctx);
    WholeBlock(ctx);
    GrowIs(ctx, Fresh(ctx), ctx.blockSecs);
    var d := DoneOf(Grown(ctx, Fresh(ctx), ctx.blockSecs));
    assert [d][..0] == [];
    SumBySnoc(DoneWeight, [], d);
    assert [] + [d] == [d];
  }

  /** A tick of one block's length, with nothing pending, completes that block. */
  lemma WholeBlock(ctx: Context)
    requires ctx.blockSecs >= 1
    ensures TickOutcome(ctx, None, ctx.blockSecs)
            == Outcome([DoneOf(Grown(ctx, Fresh(ctx), ctx.blockSecs))], Default())
  {
    var rule := BlockRule(ctx);
    assert Rolled(rule, Next(rule, 0), 0) == Outcome([], Default());
    FillFirst(rule, Fresh(ctx), ctx.blockSecs, rule.grow(Fresh(ctx), ctx.blockSecs), Rolled(rule, Next(rule, 0), 0));
    GrowIs(ctx, Fresh(ctx), ctx.blockSecs);
    assert [rule.close(rule.grow(Fresh(ctx), ctx.blockSecs))] + [] == [DoneOf(Grown(ctx, Fresh(ctx), ctx.blockSecs))];
  }

  predicate HasEntries(d: Done) { |d.entries| > 0 }

  /** A tick with an active game reports all that it completes. */
  lemma ActiveTickReports(ctx: Context, pending: Option<PendingBlock>, interval: nat)
    requires ctx.game.Some?
    ensures IdleWeight(TickOutcome(ctx, pending, interval).done) == 0
  {
    forall p: PendingBlock, x: nat ensures HasEntries(DoneOf(Grown(ctx, p, x))) {
      CreditSome(p.entries, ctx.game.value, x);
    }
    ClosedGrown(BlockRule(ctx), HasEntries, Opened(ctx, pending), Max(interval, 1));
    NoneIdle(TickOutcome(ctx, pending, interval).done);
  }

  lemma CreditSome(entries: seq<Entry>, game: Game, secs: nat)
    ensures |Credit(entries, game, secs)| > 0
  {}

  lemma {:induction false} NoneIdle(done: seq<Done>)
    requires forall i :: 0 <= i < |done| ==> HasEntries(done[i])
    ensures IdleWeight(done) == 0
  {
    if |done| > 0 { NoneIdle(done[..|done| - 1]); }
  }

  // ----- payment of a block

  function PlayerWeight(e: Entry): nat { SatMul(U128, e.secs, e.game.coefficientPpm) }

  function PlayerWeights(entries: seq<Entry>): (ws: seq<nat>)
    ensures |ws| == |entries| && forall i :: 0 <= i < |ws| ==> ws[i] == PlayerWeight(entries[i])
  {
    if |entries| == 0 then [] else PlayerWeights(entries[..|entries| - 1]) + [PlayerWeight(entries[|entries| - 1])]
  }

  /** The rewards of a block's records: the fixed reward times the player's part
      of the network weight. */
  function Rewards(d: Done): seq<nat>
  {
    if d.weight == 0 then Apportionment.Zeros(|d.entries|)
    else Apportionment.Shares(d.reward, d.weight, PlayerWeights(d.entries))
  }

  /** Each entry is paid the fixed reward times its part of the network weight,
      rounded down; a block without network weight pays nothing. */
  lemma RewardsExact(d: Done, i: nat)
    requires i < |d.entries|
    ensures |Rewards(d)| == |d.entries|
    ensures var e := d.entries[i];
            var due := Min(d.reward * Min(e.secs * e.game.coefficientPpm, U128 - 1), U128 - 1);
            if d.weight == 0 then Rewards(d)[i] == 0
            else d.weight * Rewards(d)[i] <= due < d.weight * (Rewards(d)[i] + 1)
  {
    if d.weight > 0 {
      var ws := PlayerWeights(d.entries);
      Apportionment.SharesAt(d.reward, d.weight, ws, i);
      FloorLaw(Apportionment.Product(d.reward, ws[i]), d.weight);
    }
  }

  /** A block never pays out more than its fixed reward while the player's own
      weight is within the network's. */
  lemma BlockPaysAtMost(d: Done)
    requires Apportionment.Sum(PlayerWeights(d.entries)) <= d.weight
    ensures Apportionment.Sum(Rewards(d)) <= d.reward
  {
    if d.weight == 0 {
      ZerosSum(|d.entries|);
    } else {
      var ws := PlayerWeights(d.entries);
      Apportionment.SharesBelow(d.reward, d.weight, ws);
      MulLeft(Apportionment.Sum(ws), d.weight, d.reward);
      Apportionment.CancelLeft(d.weight, Apportionment.Sum(Rewards(d)), d.reward);
    }
  }

  /** A block of one entry pays at most its fixed reward exactly when the player's
      weight exceeds the network's by less than one part in the reward. */
  lemma OneEntryPaysIff(d: Done)
    requires |d.entries| == 1 && d.weight > 0 && d.reward * PlayerWeight(d.entries[0]) < U128
    ensures Apportionment.Sum(Rewards(d)) <= d.reward
            <==> d.reward * PlayerWeight(d.entries[0]) < (d.reward + 1) * d.weight
  {
    OneEntryPay(d);
    PayBound(d.reward, d.weight, PlayerWeight(d.entries[0]));
  }

  lemma OneEntryPay(d: Done)
    requires |d.entries| == 1 && d.weight > 0
    ensures Apportionment.Sum(Rewards(d)) == Apportionment.Share(d.reward, d.weight, PlayerWeight(d.entries[0]))
  {
    var w := PlayerWeight(d.entries[0]);
    assert PlayerWeights(d.entries) == [w];
    Apportionment.SharesOfOne(d.reward, d.weight, w);
  }

  lemma PayBound(pool: nat, total: nat, w: nat)
    requires total > 0 && pool * w < U128
    ensures Apportionment.Share(pool, total, w) <= pool <==> pool * w < (pool + 1) * total
  {
    QuotientBound(pool * w, total, pool);
  }

  /** The context of a tick that observes the samples and plays the game. */
  function Playing(blockSecs: nat, reward: nat, cycle: nat, game: Game, samples: seq<Sample>): Context
  {
    Context(blockSecs, reward, cycle, Some(game), (secs: nat) => NetworkWeight(samples, secs))
  }

  /** A tick that plays one game for the length of a block completes one block,
      with the observed weight and the game as its only entry. */
  lemma PlayedBlock(blockSecs: nat, reward: nat, cycle: nat, game: Game, samples: seq<Sample>)
    requires blockSecs >= 1 && WeightPerSecond(samples) * blockSecs < U128
    ensures TickOutcome(Playing(blockSecs, reward, cycle, game, samples), None, blockSecs).done
            == [Done(WeightPerSecond(samples) * blockSecs, reward, cycle, [Entry(game, blockSecs)])]
  {
    var ctx := Playing(blockSecs, reward, cycle, game, samples);
    WholeBlock(ctx);
    NetworkWeightLinear(samples, blockSecs);
    assert SortBy(EntryKey, [Entry(game, blockSecs)]) == [Entry(game, blockSecs)];
  }

  lemma ScaledQuotient(a: nat, b: nat, k: nat)
    requires b > 0 && k > 0
    ensures (a * k) / (b * k) == a / b
  {
    var q, m := a / b, a % b;
    assert a == b * q + m;
    assert a * k == b * k * q + m * k by { assert (b * q + m) * k == b * k * q + m * k; }
    MulMono(m + 1, b, k, k);
    assert (m + 1) * k == m * k + k;
    assert b * k > 0 by { MulMono(1, b, 1, k); }
    DivUnique(a * k, b * k, q, m * k);
  }

  /** What such a tick pays: the reward times the game's coefficient over the
      observed weight per second, whether or not the game is among the samples;
      it is within the reward if and only if that weight is nearly reached. */
  lemma PlayedBlockPays(blockSecs: nat, reward: nat, cycle: nat, game: Game, samples: seq<Sample>)
    requires blockSecs >= 1 && 0 < WeightPerSecond(samples) && WeightPerSecond(samples) * blockSecs < U128
    requires reward * (blockSecs * game.coefficientPpm) < U128 && blockSecs * game.coefficientPpm < U128
    ensures var done := TickOutcome(Playing(blockSecs, reward, cycle, game, samples), None, blockSecs).done;
            var rate := WeightPerSecond(samples);
            && |done| == 1 && Apportionment.Sum(Rewards(done[0])) == reward * game.coefficientPpm / rate
            && (Apportionment.Sum(Rewards(done[0])) <= reward <==> reward * game.coefficientPpm < (reward + 1) * rate)
  {
    PlayedBlock(blockSecs, reward, cycle, game, samples);
    var rate, coefficient := WeightPerSecond(samples), game.coefficientPpm;
    var d := Done(rate * blockSecs, reward, cycle, [Entry(game, blockSecs)]);
    MulMono(1, rate, 1, blockSecs);
    OneEntryPay(d);
    PayPerSecond(reward, coefficient, rate, blockSecs);
    QuotientBound(reward * coefficient, rate, reward);
  }

  lemma PayPerSecond(reward: nat, coefficient: nat, rate: nat, secs: nat)
    requires rate > 0 && secs > 0 && rate * secs > 0
    requires secs * coefficient < U128 && reward * (secs * coefficient) < U128
    ensures Apportionment.Share(reward, rate * secs, SatMul(U128, secs, coefficient)) == reward * coefficient / rate
  {
    assert reward * (secs * coefficient) == (reward * coefficient) * secs;
    ScaledQuotient(reward * coefficient, rate, secs);
  }

  /** A game missing from the samples: with one player seen in another app, of a
      tenth of its coefficient, it is paid ten times the fixed reward. */
  lemma UnsampledGameOverpays(blockSecs: nat, reward: nat, cycle: nat, game: Game, other: nat)
    requires 1 <= blockSecs && game.coefficientPpm == 1_000_000 && other != game.app
    requires blockSecs * 1_000_000 < U128 && reward * (blockSecs * 1_000_000) < U128
    ensures var samples := [Sample(other, 1, 100_000)];
            var done := TickOutcome(Playing(blockSecs, reward, cycle, game, samples), None, blockSecs).done;
            (forall x :: x in samples ==> x.app != game.app)
            && |done| == 1 && Apportionment.Sum(Rewards(done[0])) == 10 * reward
  {
    var samples := [Sample(other, 1, 100_000)];
    assert samples[..0] == [];
    assert WeightPerSecond(samples) == 100_000;
    MulMono(100_000, 1_000_000, blockSecs, blockSecs);
    PlayedBlockPays(blockSecs, reward, cycle, game, samples);
    DivCancel(10 * reward, 100_000);
  }

  lemma {:induction false} ZerosSum(n: nat)
    ensures Apportionment.Sum(Apportionment.Zeros(n)) == 0
  {
    if n > 0 {
      ZerosSum(n - 1);
      Apportionment.SumSnoc(Apportionment.Zeros(n - 1), 0);
    }
  }
}
