/** The terms of reward blocks over whole runs: which tick's reward and cycle a
    completed block carries. */
module RewardTerms {
  import opened Machine
  import opened Progress
  import opened RewardBlocks
  import opened RewardRuns
  import Cycles = RewardCycles

  // ----- the seconds of a run

  /** The first second of block `k`, counted from the start of the run. */
  function Start(blockSecs: nat, k: nat): nat { blockSecs * k }

  lemma StartStep(blockSecs: nat, k: nat, n: nat)
    requires k < n
    ensures Start(blockSecs, k) + blockSecs <= Start(blockSecs, n)
  {
    MulLeft(k + 1, n, blockSecs);
    assert blockSecs * (k + 1) == blockSecs * k + blockSecs;
  }

  /** Tick `i` holds the second. */
  predicate Holds(xs: seq<Input>, i: nat, sec: nat)
    requires i < |xs|
  {
    TotalSecs(xs[..i]) <= sec < TotalSecs(xs[..i + 1])
  }

  lemma {:induction false} TotalSecsMono(xs: seq<Input>, i: nat, j: nat)
    requires i <= j <= |xs|
    ensures TotalSecs(xs[..i]) <= TotalSecs(xs[..j])
  {
    if i < j {
      TotalSecsMono(xs, i, j - 1);
      assert xs[..j][..j - 1] == xs[..j - 1];
    }
  }

  lemma {:induction false} TickHolding(xs: seq<Input>, sec: nat) returns (i: nat)
    requires sec < TotalSecs(xs)
    ensures i < |xs| && Holds(xs, i, sec)
  {
    var n := |xs| - 1;
    assert xs[..n + 1] == xs;
    if sec < TotalSecs(xs[..n]) {
      i := TickHolding(xs[..n], sec);
      assert xs[..n][..i] == xs[..i] && xs[..n][..i + 1] == xs[..i + 1];
    } else {
      i := n;
    }
  }

  // ----- terms in force, whatever they are

  /** The terms are those of the tick that holds the second. */
  ghost predicate InForce(xs: seq<Input>, terms: seq<Terms>, sec: nat, t: Terms)
    requires |terms| == |xs|
  {
    forall i :: 0 <= i < |xs| && Holds(xs, i, sec) ==> t == terms[i]
  }

  lemma {:induction false} InForceEarlier(xs: seq<Input>, terms: seq<Terms>, n: nat, sec: nat, t: Terms)
    requires |terms| == |xs| == n + 1 && sec < TotalSecs(xs[..n]) && InForce(xs[..n], terms[..n], sec, t)
    ensures InForce(xs, terms, sec, t)
  {
    forall i | 0 <= i < |xs| && Holds(xs, i, sec) ensures t == terms[i] {
      assert i != n;
      assert xs[..n][..i] == xs[..i] && xs[..n][..i + 1] == xs[..i + 1];
      assert Holds(xs[..n], i, sec);
    }
  }

  lemma {:induction false} InForceNow(xs: seq<Input>, terms: seq<Terms>, n: nat, sec: nat)
    requires |terms| == |xs| == n + 1 && sec >= TotalSecs(xs[..n])
    ensures InForce(xs, terms, sec, terms[n])
  {
    forall i | 0 <= i < |xs| && Holds(xs, i, sec) ensures terms[n] == terms[i] {
      if i < n { TotalSecsMono(xs, i + 1, n); }
    }
  }

  /** A block not yet complete: its seconds and its terms. */
  datatype Open = Open(secs: nat, terms: Terms)

  /** Every block has the terms in force at its first second. */
  ghost predicate TermsKept(blockSecs: nat, xs: seq<Input>, terms: seq<Terms>, done: seq<Done>, o: Open)
    requires |terms| == |xs|
  {
    && (forall k :: 0 <= k < |done| ==> InForce(xs, terms, Start(blockSecs, k), DoneTerms(done[k])))
    && (o.secs > 0 ==> InForce(xs, terms, Start(blockSecs, |done|), o.terms))
  }

  ghost predicate Accounted(blockSecs: nat, blocks: nat, secs: nat, total: nat)
  {
    secs < blockSecs && Start(blockSecs, blocks) + secs == total
  }

  /** What a tick with terms `now` does to an open block. */
  ghost predicate Carries(o: Open, now: Terms, r: seq<Done>, next: Open)
  {
    && (|r| > 0 ==> DoneTerms(r[0]) == if o.secs > 0 then o.terms else now)
    && (|r| == 0 ==> next.terms == if o.secs > 0 then o.terms else now)
    && (forall i :: 1 <= i < |r| ==> DoneTerms(r[i]) == now)
    && (|r| > 0 && next.secs > 0 ==> next.terms == now)
  }

  lemma {:induction false} TermsStep(
    blockSecs: nat, xs: seq<Input>, terms: seq<Terms>, n: nat, done: seq<Done>, o: Open, r: seq<Done>, next: Open)
    requires |terms| == |xs| == n + 1 && TermsKept(blockSecs, xs[..n], terms[..n], done, o)
    requires Accounted(blockSecs, |done|, o.secs, TotalSecs(xs[..n])) && Carries(o, terms[n], r, next)
    ensures TermsKept(blockSecs, xs, terms, done + r, next)
  {
    var all, first := done + r, if o.secs > 0 then o.terms else terms[n];
    assert InForce(xs, terms, Start(blockSecs, |done|), first) by {
      FirstInForce(blockSecs, xs, terms, n, |done|, o);
    }
    forall k | 0 <= k < |all| ensures InForce(xs, terms, Start(blockSecs, k), DoneTerms(all[k])) {
      if k < |done| {
        StartStep(blockSecs, k, |done|);
        InForceEarlier(xs, terms, n, Start(blockSecs, k), DoneTerms(done[k]));
      } else if k > |done| {
        StartStep(blockSecs, |done|, k);
        InForceNow(xs, terms, n, Start(blockSecs, k));
      }
    }
    if |r| > 0 {
      StartStep(blockSecs, |done|, |all|);
      InForceNow(xs, terms, n, Start(blockSecs, |all|));
    }
  }

  lemma {:induction false} FirstInForce(blockSecs: nat, xs: seq<Input>, terms: seq<Terms>, n: nat, blocks: nat, o: Open)
    requires |terms| == |xs| == n + 1 && Accounted(blockSecs, blocks, o.secs, TotalSecs(xs[..n]))
    requires o.secs > 0 ==> InForce(xs[..n], terms[..n], Start(blockSecs, blocks), o.terms)
    ensures InForce(xs, terms, Start(blockSecs, blocks), if o.secs > 0 then o.terms else terms[n])
  {
    if o.secs > 0 {
      InForceEarlier(xs, terms, n, Start(blockSecs, blocks), o.terms);
    } else {
      InForceNow(xs, terms, n, Start(blockSecs, blocks));
    }
  }

  // ----- the node's runs

  /** The reward and cycle in force in a state. */
  function TermsIn(c: Config, s: State): Terms { Terms(Cycles.RewardUsed(c, s), Cycles.CycleOf(c, s)) }

  function TermsAfter(c: Config, blockSecs: nat): seq<Input> -> Terms
  {
    (before: seq<Input>) => TermsIn(c, Final(c, blockSecs, before))
  }

  /** What each tick of a run meets, as a function of the ticks before it. */
  function Along<T>(f: seq<Input> -> T, xs: seq<Input>): (r: seq<T>)
    ensures |r| == |xs|
  {
    if |xs| == 0 then [] else Along(f, xs[..|xs| - 1]) + [f(xs[..|xs| - 1])]
  }

  lemma {:induction false} AlongAt<T>(f: seq<Input> -> T, xs: seq<Input>, i: nat)
    requires i < |xs|
    ensures Along(f, xs)[i] == f(xs[..i])
  {
    var n := |xs| - 1;
    if i < n {
      AlongAt(f, xs[..n], i);
      assert xs[..n][..i] == xs[..i];
    }
  }

  /** All blocks completed, oldest first. */
  function AllDone(c: Config, blockSecs: nat, xs: seq<Input>): seq<Done>
  {
    if |xs| == 0 then []
    else
      var before := xs[..|xs| - 1];
      AllDone(c, blockSecs, before) + Blocks(c, blockSecs, Final(c, blockSecs, before), xs[|xs| - 1]).done
  }

  function OpenOf(pending: Option<PendingBlock>): Open
  {
    if pending.Some? then Open(pending.value.secs, TermsOf(pending.value)) else Open(0, Terms(0, 0))
  }

  /** A block with seconds has a reward. */
  ghost predicate Rewarded(pending: Option<PendingBlock>)
  {
    pending.Some? ==> PendingAgrees(pending.value) && pending.value.secs > 0 && pending.value.reward.legacy > 0
  }

  lemma TickCarries(ctx: Context, pending: Option<PendingBlock>, interval: nat)
    requires Rewarded(pending) && ctx.reward > 0
    ensures var r := TickOutcome(ctx, pending, interval);
            && Rewarded(Kept(r.pending))
            && Carries(OpenOf(pending), Terms(ctx.reward, ctx.cycle), r.done, OpenOf(Kept(r.pending)))
  {
    TickRewards(ctx, pending, interval);
    TickAgrees(ctx, pending, interval);
  }

  ghost predicate RunKept(blockSecs: nat, xs: seq<Input>, terms: seq<Terms>, done: seq<Done>, s: State)
    requires |terms| == |xs|
  {
    && |done| == s.blocks && Rewarded(s.pending)
    && TermsKept(blockSecs, xs, terms, done, OpenOf(s.pending))
  }

  lemma {:induction false} RunTerms(c: Config, blockSecs: nat, xs: seq<Input>)
    requires blockSecs >= 1 && TotalSecs(xs) < U64
    ensures RunKept(blockSecs, xs, Along(TermsAfter(c, blockSecs), xs), AllDone(c, blockSecs, xs),
                    Final(c, blockSecs, xs))
  {
    if |xs| > 0 {
      var n := |xs| - 1;
      var before, terms := xs[..n], Along(TermsAfter(c, blockSecs), xs);
      assert terms[..n] == Along(TermsAfter(c, blockSecs), before);
      RunTerms(c, blockSecs, before);
      RunSeconds(c, blockSecs, before);
      FinalStep(c, blockSecs, xs);
      RunStep(c, blockSecs, xs, terms, n, AllDone(c, blockSecs, before), Final(c, blockSecs, before));
    }
  }

  lemma {:induction false} RunStep(
    c: Config, blockSecs: nat, xs: seq<Input>, terms: seq<Terms>, n: nat, done: seq<Done>, s: State)
    requires blockSecs >= 1 && TotalSecs(xs) < U64 && |xs| == |terms| == n + 1 && terms[n] == TermsIn(c, s)
    requires RunKept(blockSecs, xs[..n], terms[..n], done, s) && SecondsAdd(blockSecs, s, TotalSecs(xs[..n]))
    ensures RunKept(blockSecs, xs, terms, done + Blocks(c, blockSecs, s, xs[n]).done,
                    Cycles.Ticked(c, s, OutcomeOf(c, blockSecs, s, xs[n])))
  {
    var r := Blocks(c, blockSecs, s, xs[n]);
    BlocksCarry(c, blockSecs, s, xs[n], TotalSecs(xs[..n]));
    TermsStep(blockSecs, xs, terms, n, done, OpenOf(s.pending), r.done, OpenOf(Kept(r.pending)));
  }

  lemma {:induction false} BlocksCarry(c: Config, blockSecs: nat, s: State, x: Input, total: nat)
    requires blockSecs >= 1 && total + Secs(x) < U64 && SecondsAdd(blockSecs, s, total) && Rewarded(s.pending)
    ensures var r, t := Blocks(c, blockSecs, s, x), Cycles.Ticked(c, s, OutcomeOf(c, blockSecs, s, x));
            && t.blocks == s.blocks + |r.done| && t.pending == Kept(r.pending) && Rewarded(t.pending)
            && Carries(OpenOf(s.pending), TermsIn(c, s), r.done, OpenOf(Kept(r.pending)))
  {
    var r := Blocks(c, blockSecs, s, x);
    TickCarries(ContextOf(c, blockSecs, s, x), s.pending, x.interval);
    TickSeconds(ContextOf(c, blockSecs, s, x), s.pending, x.interval);
    Cycles.TickShape(c, s, OutcomeOf(c, blockSecs, s, x));
    AddBlocks(blockSecs, s.blocks, |r.done|, PendingSecs(s.pending), r.pending.secs, total, Secs(x));
  }

  /** Over every run block `k` carries the reward and cycle in force at the tick in
      which its first second fell. */
  lemma {:induction false} BlockTerms(c: Config, blockSecs: nat, xs: seq<Input>, k: nat) returns (i: nat)
    requires blockSecs >= 1 && TotalSecs(xs) < U64 && k < |AllDone(c, blockSecs, xs)|
    ensures i < |xs| && Holds(xs, i, Start(blockSecs, k))
    ensures DoneTerms(AllDone(c, blockSecs, xs)[k]) == TermsIn(c, Final(c, blockSecs, xs[..i]))
  {
    RunTerms(c, blockSecs, xs);
    RunSeconds(c, blockSecs, xs);
    StartStep(blockSecs, k, |AllDone(c, blockSecs, xs)|);
    i := TickHolding(xs, Start(blockSecs, k));
    AlongAt(TermsAfter(c, blockSecs), xs, i);
  }

  /** That cycle counts the blocks full before the tick, by cycles. */
  lemma {:induction false} CycleInForce(c: Config, blockSecs: nat, xs: seq<Input>)
    requires blockSecs >= 1 && TotalSecs(xs) < U64
    ensures TermsIn(c, Final(c, blockSecs, xs)).cycle == TotalSecs(xs) / blockSecs / Max(c.blocksPerCycle, 1)
  {
    RunSeconds(c, blockSecs, xs);
    var s := Final(c, blockSecs, xs);
    DivUnique(TotalSecs(xs), blockSecs, s.blocks, PendingSecs(s.pending));
  }
}
