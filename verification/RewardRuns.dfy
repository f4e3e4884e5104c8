/** Whole runs of reward ticks: the block loop feeding the cycle machine. */
module RewardRuns {
  import opened Machine
  import opened Progress
  import opened RewardBlocks
  import Rolling
  import Cycles = RewardCycles

  /** What a tick meets: its length, the active game and the samples. */
  datatype Input = Input(interval: nat, game: Option<Game>, samples: seq<Sample>)

  function Secs(x: Input): nat { Max(x.interval, 1) }

  function ContextOf(c: Config, blockSecs: nat, s: State, x: Input): Context
  {
    Context(blockSecs, Cycles.RewardUsed(c, s), Cycles.CycleOf(c, s), x.game,
            (secs: nat) => NetworkWeight(x.samples, secs))
  }

  function Blocks(c: Config, blockSecs: nat, s: State, x: Input): Rolling.Outcome<PendingBlock, Done>
  {
    TickOutcome(ContextOf(c, blockSecs, s, x), s.pending, x.interval)
  }

  function OutcomeOf(c: Config, blockSecs: nat, s: State, x: Input): Cycles.Outcome
  {
    var r := Blocks(c, blockSecs, s, x);
    Cycles.Outcome(|r.done|, ReportedWeight(r.done), Kept(r.pending))
  }

  /** The tick outcomes of a run, and the state it ends in. */
  function Outs(c: Config, blockSecs: nat, xs: seq<Input>): seq<Cycles.Outcome>
  {
    if |xs| == 0 then []
    else
      var before := Outs(c, blockSecs, xs[..|xs| - 1]);
      before + [OutcomeOf(c, blockSecs, Cycles.Run(c, before), xs[|xs| - 1])]
  }

  function Final(c: Config, blockSecs: nat, xs: seq<Input>): State { Cycles.Run(c, Outs(c, blockSecs, xs)) }

  lemma FinalStep(c: Config, blockSecs: nat, xs: seq<Input>)
    requires |xs| > 0
    ensures var s, x := Final(c, blockSecs, xs[..|xs| - 1]), xs[|xs| - 1];
            && Final(c, blockSecs, xs) == Cycles.Ticked(c, s, OutcomeOf(c, blockSecs, s, x))
            && Outs(c, blockSecs, xs) == Outs(c, blockSecs, xs[..|xs| - 1]) + [OutcomeOf(c, blockSecs, s, x)]
  {
    var before, all := Outs(c, blockSecs, xs[..|xs| - 1]), Outs(c, blockSecs, xs);
    assert all[..|all| - 1] == before;
  }

  // ----- reachable states are saved and loaded unchanged

  lemma {:induction false} PendingOutsAgree(c: Config, blockSecs: nat, xs: seq<Input>)
    ensures forall o :: o in Outs(c, blockSecs, xs) && o.pending.Some? ==> PendingAgrees(o.pending.value)
  {
    if |xs| > 0 {
      PendingOutsAgree(c, blockSecs, xs[..|xs| - 1]);
      var s, x := Final(c, blockSecs, xs[..|xs| - 1]), xs[|xs| - 1];
      TickAgrees(ContextOf(c, blockSecs, s, x), s.pending, x.interval);
      FinalStep(c, blockSecs, xs);
    }
  }

  /** In every state that ticks reach from the initial one the legacy and cycle
      fields agree, and saving then loading it is the identity. */
  lemma ReachableUnchanged(c: Config, blockSecs: nat, xs: seq<Input>)
    ensures AllAgree(Final(c, blockSecs, xs)) && Loaded(Saved(Final(c, blockSecs, xs))) == Final(c, blockSecs, xs)
  {
    PendingOutsAgree(c, blockSecs, xs);
    Cycles.ReachableSaves(c, Outs(c, blockSecs, xs));
  }

  // ----- seconds

  function TotalSecs(xs: seq<Input>): nat
  {
    if |xs| == 0 then 0 else TotalSecs(xs[..|xs| - 1]) + Secs(xs[|xs| - 1])
  }

  ghost predicate SecondsAdd(blockSecs: nat, s: State, total: nat)
  {
    PendingSecs(s.pending) < blockSecs && blockSecs * s.blocks + PendingSecs(s.pending) == total
  }

  /** Over every run, completed blocks and the pending one hold every second. */
  lemma {:induction false} RunSeconds(c: Config, blockSecs: nat, xs: seq<Input>)
    requires blockSecs >= 1 && TotalSecs(xs) < U64
    ensures SecondsAdd(blockSecs, Final(c, blockSecs, xs), TotalSecs(xs))
  {
    if |xs| > 0 {
      RunSeconds(c, blockSecs, xs[..|xs| - 1]);
      FinalStep(c, blockSecs, xs);
      StepSeconds(c, blockSecs, Final(c, blockSecs, xs[..|xs| - 1]), xs[|xs| - 1], TotalSecs(xs[..|xs| - 1]));
    }
  }

  lemma StepSeconds(c: Config, blockSecs: nat, s: State, x: Input, total: nat)
    requires blockSecs >= 1 && total + Secs(x) < U64 && SecondsAdd(blockSecs, s, total)
    ensures SecondsAdd(blockSecs, Cycles.Ticked(c, s, OutcomeOf(c, blockSecs, s, x)), total + Secs(x))
  {
    TickSeconds(ContextOf(c, blockSecs, s, x), s.pending, x.interval);
    var r := Blocks(c, blockSecs, s, x);
    TickBlocks(c, blockSecs, s, x);
    AddBlocks(blockSecs, s.blocks, |r.done|, PendingSecs(s.pending), r.pending.secs, total, Secs(x));
  }

  lemma TickBlocks(c: Config, blockSecs: nat, s: State, x: Input)
    ensures var r, t := Blocks(c, blockSecs, s, x), Cycles.Ticked(c, s, OutcomeOf(c, blockSecs, s, x));
            t.blocks == SatAdd(U64, s.blocks, |r.done|) && PendingSecs(t.pending) == r.pending.secs
  {
    Cycles.TickShape(c, s, OutcomeOf(c, blockSecs, s, x));
  }

  lemma AddBlocks(b: nat, n: nat, k: nat, p: nat, q: nat, total: nat, secs: nat)
    requires b >= 1 && b * n + p == total && b * k + q == p + secs && total + secs < U64
    ensures SatAdd(U64, n, k) == n + k && b * (n + k) + q == total + secs
  {
    assert b * (n + k) == b * n + b * k;
    MulLeft(1, b, n + k);
    assert (n + k) * b == b * (n + k);
  }

  // ----- weight

  function Observed(x: Input): nat { NetworkWeight(x.samples, Secs(x)) }

  function TotalObserved(xs: seq<Input>): nat
  {
    if |xs| == 0 then 0 else TotalObserved(xs[..|xs| - 1]) + Observed(xs[|xs| - 1])
  }

  /** The weight of completed blocks in which nothing was played. */
  function Unreported(c: Config, blockSecs: nat, xs: seq<Input>): nat
  {
    if |xs| == 0 then 0
    else
      var before := xs[..|xs| - 1];
      Unreported(c, blockSecs,
                 before) + IdleWeight(Blocks(c, blockSecs, Final(c, blockSecs, before), xs[|xs| - 1]).done)
  }

  /** What one tick does to the weights. */
  lemma StepWeight(c: Config, blockSecs: nat, s: State, x: Input)
    requires AllAgree(s) && WeightPerSecond(x.samples) * Secs(x) < U128 && PendingWeight(s.pending) + Observed(x) < U128
    ensures var o := OutcomeOf(c, blockSecs, s, x);
            o.weight + IdleWeight(Blocks(c, blockSecs, s, x).done) + PendingWeight(Cycles.Ticked(c, s, o).pending)
            == PendingWeight(s.pending) + Observed(x)
  {
    var ctx := ContextOf(c, blockSecs, s, x);
    NetworkWeightAdditive(x.samples, Secs(x));
    TickWeight(ctx, s.pending, x.interval);
    TickAgrees(ctx, s.pending, x.interval);
    ReportedAllIff(Blocks(c, blockSecs, s, x).done);
    Cycles.TickShape(c, s, OutcomeOf(c, blockSecs, s, x));
  }

  lemma {:induction false} ObservedAccounted(c: Config, blockSecs: nat, xs: seq<Input>)
    requires TotalObserved(xs) < U128 && forall x :: x in xs ==> WeightPerSecond(x.samples) * Secs(x) < U128
    ensures TotalObserved(xs)
            == Cycles.TotalWeight(Outs(c, blockSecs, xs)) + Unreported(c, blockSecs, xs)
               + PendingWeight(Final(c, blockSecs, xs).pending)
  {
    if |xs| > 0 {
      var before, x := xs[..|xs| - 1], xs[|xs| - 1];
      ObservedAccounted(c, blockSecs, before);
      FinalStep(c, blockSecs, xs);
      ReachableUnchanged(c, blockSecs, before);
      StepWeight(c, blockSecs, Final(c, blockSecs, before), x);
      TotalSnoc(Outs(c, blockSecs, before), OutcomeOf(c, blockSecs, Final(c, blockSecs, before), x));
    }
  }

  /** With a game active on every tick nothing goes unreported. */
  lemma {:induction false} ActiveRunReports(c: Config, blockSecs: nat, xs: seq<Input>)
    requires forall i :: 0 <= i < |xs| ==> xs[i].game.Some?
    ensures Unreported(c, blockSecs, xs) == 0
  {
    if |xs| > 0 {
      var before, x := xs[..|xs| - 1], xs[|xs| - 1];
      ActiveRunReports(c, blockSecs, before);
      var s := Final(c, blockSecs, before);
      ActiveTickReports(ContextOf(c, blockSecs, s, x), s.pending, x.interval);
    }
  }

  lemma TotalSnoc(outs: seq<Cycles.Outcome>, o: Cycles.Outcome)
    ensures Cycles.TotalWeight(outs + [o]) == Cycles.TotalWeight(outs) + o.weight
  {
    assert (outs + [o])[..|outs|] == outs;
  }

  /** Over every run in which nothing saturates, the observed network weight is in
      the totals of closed cycles, the current total, the pending block, or the
      completed blocks without play, which no total records. */
  lemma RunWeight(c: Config, blockSecs: nat, xs: seq<Input>)
    requires TotalObserved(xs) < U128 && forall x :: x in xs ==> WeightPerSecond(x.samples) * Secs(x) < U128
    ensures var s := Final(c, blockSecs, xs);
            TotalObserved(xs) == Cycles.ClosedWeight(c, Outs(c, blockSecs, xs)) + s.currentTotal.cycle
                                 + PendingWeight(s.pending) + Unreported(c, blockSecs, xs)
  {
    ObservedAccounted(c, blockSecs, xs);
    Cycles.WeightConserved(c, Outs(c, blockSecs, xs));
  }
}
