/** The block loop of a reward tick: seconds fill the pending block chunk by
    chunk, and full blocks are closed. What a block holds and how it grows is a
    parameter; `RewardBlocks` supplies it. */
module Rolling {
  import opened Machine
  import opened Sorting

  datatype Rule<!P, !D> = Rule(
    blockSecs: nat, secs: P -> nat, grow: (P, nat) -> P, close: P -> D, reopened: P, empty: P)

  /** The blocks completed, and the block left pending. */
  datatype Outcome<P, D> = Outcome(done: seq<D>, pending: P)

  /** As many seconds as the block still takes, at least one. */
  function Chunk<P, D>(rule: Rule<P, D>, p: P, remaining: nat): (n: nat)
    ensures n <= remaining && (remaining > 0 ==> n > 0)
  {
    Min(remaining, Max(SatSub(rule.blockSecs, rule.secs(p)), 1))
  }

  /** After a full block: a fresh one if seconds remain, else none. */
  function Next<P, D>(rule: Rule<P, D>, left: nat): P { if left > 0 then rule.reopened else rule.empty }

  function Rolled<P, D>(rule: Rule<P, D>, p: P, remaining: nat): Outcome<P, D>
    decreases remaining
  {
    if remaining == 0 then Outcome([], p)
    else
      var chunk := Chunk(rule, p, remaining);
      var g := rule.grow(p, chunk);
      if rule.secs(g) < rule.blockSecs then Rolled(rule, g, remaining - chunk)
      else
        var rest := Rolled(rule, Next(rule, remaining - chunk), remaining - chunk);
        Outcome([rule.close(g)] + rest.done, rest.pending)
  }

  method Roll<P, D>(rule: Rule<P, D>, start: P, interval: nat) returns (done: seq<D>, block: P)
    ensures Outcome(done, block) == Rolled(rule, start, interval)
  {
    done, block := [], start;
    var remaining := interval;
    while remaining > 0
      invariant done + Rolled(rule, block, remaining).done == Rolled(rule, start, interval).done
      invariant Rolled(rule, block, remaining).pending == Rolled(rule, start, interval).pending
    {
      var chunk := Chunk(rule, block, remaining);
      block := rule.grow(block, chunk);
      remaining := remaining - chunk;
      if rule.secs(block) < rule.blockSecs { continue; }
      done := done + [rule.close(block)];
      block := Next(rule, remaining);
    }
  }

  // ----- conservation

  /** Growing by a chunk adds its seconds; new blocks have none. */
  ghost predicate Timed<P(!new), D>(rule: Rule<P, D>)
  {
    && rule.secs(rule.reopened) == 0 && rule.secs(rule.empty) == 0
    && forall p, x :: rule.secs(rule.grow(p, x)) == rule.secs(p) + x
  }

  /** Whole blocks and the pending rest make up the seconds that went in. */
  lemma {:induction false} SecondsConserved<P(!new), D>(rule: Rule<P, D>, p: P, remaining: nat)
    requires Timed(rule) && rule.secs(p) < rule.blockSecs
    ensures var r := Rolled(rule, p, remaining);
            && rule.secs(r.pending) < rule.blockSecs
            && rule.blockSecs * |r.done| + rule.secs(r.pending) == rule.secs(p) + remaining
    decreases remaining
  {
    if remaining > 0 {
      var chunk := Chunk(rule, p, remaining);
      var g, next := rule.grow(p, chunk), Next(rule, remaining - chunk);
      if rule.secs(g) < rule.blockSecs {
        SecondsConserved(rule, g, remaining - chunk);
      } else {
        SecondsConserved(rule, next, remaining - chunk);
        OneMore(rule.blockSecs, |Rolled(rule, next, remaining - chunk).done|);
      }
    }
  }

  lemma OneMore(a: nat, n: nat)
    ensures a * (n + 1) == a * n + a
  {}

  /** A quantity of durations up to `bound` that adds up. */
  ghost predicate Additive(rate: nat -> nat, bound: nat)
  {
    rate(0) == 0 && forall a: nat, b: nat :: a + b <= bound ==> rate(a + b) == rate(a) + rate(b)
  }

  /** A quantity that blocks hold: growing by a chunk adds the chunk's rate while
      it stays below `cap`, closing keeps it, and new blocks have none. */
  ghost predicate Measured<P(!new), D>(rule: Rule<P, D>, m: P -> nat, closed: D -> nat, rate: nat -> nat, cap: nat)
  {
    && m(rule.reopened) == 0 && m(rule.empty) == 0
    && (forall p :: closed(rule.close(p)) == m(p))
    && (forall p, x :: m(p) + rate(x) < cap ==> m(rule.grow(p, x)) == m(p) + rate(x))
  }

  /** Completed and pending blocks together hold all that went in. */
  lemma {:induction false} MeasureConserved<P(!new), D>(
    rule: Rule<P, D>, m: P -> nat, closed: D -> nat, rate: nat -> nat, cap: nat, p: P, remaining: nat)
    requires Measured(rule, m, closed, rate, cap) && Additive(rate, remaining) && m(p) + rate(remaining) < cap
    ensures var r := Rolled(rule, p, remaining);
            SumBy(closed, r.done) + m(r.pending) == m(p) + rate(remaining)
    decreases remaining
  {
    if remaining > 0 {
      var chunk := Chunk(rule, p, remaining);
      var left := remaining - chunk;
      assert rate(chunk + left) == rate(chunk) + rate(left);
      var g := rule.grow(p, chunk);
      if rule.secs(g) < rule.blockSecs {
        MeasureConserved(rule, m, closed, rate, cap, g, left);
      } else {
        MeasureConserved(rule, m, closed, rate, cap, Next(rule, left), left);
        SumByCons(closed, rule.close(g), Rolled(rule, Next(rule, left), left).done);
      }
    }
  }

  lemma SumByCons<D>(f: D -> nat, d: D, rest: seq<D>)
    ensures SumBy(f, [d] + rest) == f(d) + SumBy(f, rest)
  {
    SumByDrop(f, [d] + rest, 0);
    assert ([d] + rest)[..0] + ([d] + rest)[1..] == rest;
  }

  /** A mark that blocks carry from opening to closing. */
  ghost predicate Marked<P(!new), D, T>(rule: Rule<P, D>, mark: P -> T, closed: D -> T)
  {
    && (forall p, x :: mark(rule.grow(p, x)) == mark(p))
    && (forall p :: closed(rule.close(p)) == mark(p))
  }

  /** The first completed block has the starting block's mark, all others that of
      a block opened in this tick. */
  lemma {:induction false} MarksKept<P(!new), D, T>(
    rule: Rule<P, D>, mark: P -> T, closed: D -> T, p: P, remaining: nat)
    requires Marked(rule, mark, closed)
    ensures var done := Rolled(rule, p, remaining).done;
            && (|done| > 0 ==> closed(done[0]) == mark(p))
            && forall i :: 1 <= i < |done| ==> closed(done[i]) == mark(rule.reopened)
    decreases remaining
  {
    if remaining > 0 {
      var chunk := Chunk(rule, p, remaining);
      var g, left := rule.grow(p, chunk), remaining - chunk;
      assert mark(g) == mark(p) && closed(rule.close(g)) == mark(g);
      if rule.secs(g) < rule.blockSecs {
        MarksKept(rule, mark, closed, g, left);
      } else {
        if left > 0 { MarksKept(rule, mark, closed, rule.reopened, left); }
        var rest := Rolled(rule, Next(rule, left), left).done;
        var done := Rolled(rule, p, remaining).done;
        assert done == [rule.close(g)] + rest;
        forall i | 1 <= i < |done| ensures closed(done[i]) == mark(rule.reopened) {
          assert done[i] == rest[i - 1];
        }
      }
    }
  }

  /** The block left pending has the starting block's mark if none was completed,
      else that of a block opened in this tick. */
  lemma {:induction false} PendingMark<P(!new), D, T>(
    rule: Rule<P, D>, mark: P -> T, closed: D -> T, p: P, remaining: nat)
    requires Marked(rule, mark, closed) && rule.secs(rule.empty) == 0
    ensures var r := Rolled(rule, p, remaining);
            && (r.done == [] ==> mark(r.pending) == mark(p))
            && (r.done != [] && rule.secs(r.pending) > 0 ==> mark(r.pending) == mark(rule.reopened))
    decreases remaining
  {
    if remaining > 0 {
      var chunk := Chunk(rule, p, remaining);
      var g, left := rule.grow(p, chunk), remaining - chunk;
      assert mark(g) == mark(p);
      if rule.secs(g) < rule.blockSecs {
        PendingMark(rule, mark, closed, g, left);
      } else if left > 0 {
        PendingMark(rule, mark, closed, rule.reopened, left);
      }
    }
  }

  /** What holds of every block that has just grown holds of all completed ones. */
  lemma {:induction false} ClosedGrown<P(!new), D>(rule: Rule<P, D>, ok: D -> bool, p: P, remaining: nat)
    requires forall q, x :: ok(rule.close(rule.grow(q, x)))
    ensures forall i :: 0 <= i < |Rolled(rule, p, remaining).done| ==> ok(Rolled(rule, p, remaining).done[i])
    decreases remaining
  {
    if remaining > 0 {
      var chunk := Chunk(rule, p, remaining);
      var g := rule.grow(p, chunk);
      if rule.secs(g) < rule.blockSecs {
        ClosedGrown(rule, ok, g, remaining - chunk);
      } else {
        ClosedGrown(rule, ok, Next(rule, remaining - chunk), remaining - chunk);
      }
    }
  }

  /** What growing keeps and new blocks have, the pending block has. */
  ghost predicate Inductive<P(!new), D>(rule: Rule<P, D>, ok: P -> bool)
  {
    ok(rule.reopened) && ok(rule.empty) && forall p, x :: ok(p) ==> ok(rule.grow(p, x))
  }

  lemma {:induction false} PendingKeeps<P(!new), D>(rule: Rule<P, D>, ok: P -> bool, p: P, remaining: nat)
    requires Inductive(rule, ok) && ok(p)
    ensures ok(Rolled(rule, p, remaining).pending)
    decreases remaining
  {
    if remaining > 0 {
      var chunk := Chunk(rule, p, remaining);
      var g := rule.grow(p, chunk);
      if rule.secs(g) < rule.blockSecs {
        PendingKeeps(rule, ok, g, remaining - chunk);
      } else {
        PendingKeeps(rule, ok, Next(rule, remaining - chunk), remaining - chunk);
      }
    }
  }

  /** A tick leaves seconds pending or no block at all. */
  lemma {:induction false} PendingOrEmpty<P(!new), D>(rule: Rule<P, D>, p: P, remaining: nat)
    requires Timed(rule) && (remaining > 0 || rule.secs(p) > 0 || p == rule.empty)
    ensures var r := Rolled(rule, p, remaining).pending; rule.secs(r) > 0 || r == rule.empty
    decreases remaining
  {
    if remaining > 0 {
      var chunk := Chunk(rule, p, remaining);
      var g := rule.grow(p, chunk);
      if rule.secs(g) < rule.blockSecs {
        PendingOrEmpty(rule, g, remaining - chunk);
      } else {
        PendingOrEmpty(rule, Next(rule, remaining - chunk), remaining - chunk);
      }
    }
  }

  // ----- blocks opened and filled within one tick

  /** They are all alike, and there is one exactly when the seconds fill one. */
  lemma {:induction false} FilledAlike<P(!new), D>(rule: Rule<P, D>, seconds: nat)
    requires Timed(rule) && rule.blockSecs > 0
    ensures var done := Rolled(rule, Next(rule, seconds), seconds).done;
            && (|done| > 0 <==> seconds >= rule.blockSecs)
            && forall i :: 0 <= i < |done| ==> done[i] == rule.close(rule.grow(rule.reopened, rule.blockSecs))
  {
    if seconds >= rule.blockSecs {
      var left := seconds - rule.blockSecs;
      FilledAlike(rule, left);
      FillFirst(rule, rule.reopened, seconds, rule.grow(rule.reopened, rule.blockSecs),
                Rolled(rule, Next(rule, left), left));
    } else if seconds > 0 {
      PartOnly(rule, rule.reopened, seconds);
    }
  }

  /** Too few seconds to fill the block complete nothing. */
  lemma PartOnly<P(!new), D>(rule: Rule<P, D>, p: P, seconds: nat)
    requires Timed(rule) && rule.secs(p) + seconds < rule.blockSecs
    ensures Rolled(rule, p, seconds).done == []
  {
    if seconds > 0 {
      assert Chunk(rule, p, seconds) == seconds;
      assert Rolled(rule, rule.grow(p, seconds), 0).done == [];
    }
  }

  /** What a tick completes: the block it starts from, then blocks all alike. */
  lemma Completed<P(!new), D>(rule: Rule<P, D>, p: P, seconds: nat)
    requires Timed(rule) && rule.secs(p) < rule.blockSecs && seconds > 0
    ensures var done := Rolled(rule, p, seconds).done; var needed := rule.blockSecs - rule.secs(p);
            && (|done| > 0 <==> seconds >= needed)
            && (|done| > 0 ==> done[0] == rule.close(rule.grow(p, needed)))
            && (|done| > 1 <==> seconds >= needed + rule.blockSecs)
            && forall i :: 1 <= i < |done| ==> done[i] == rule.close(rule.grow(rule.reopened, rule.blockSecs))
  {
    var needed := rule.blockSecs - rule.secs(p);
    if seconds < needed {
      PartOnly(rule, p, seconds);
    } else {
      var left := seconds - needed;
      var rest := Rolled(rule, Next(rule, left), left);
      FillFirst(rule, p, seconds, rule.grow(p, needed), rest);
      FilledAlike(rule, left);
      var done := Rolled(rule, p, seconds).done;
      assert done == [rule.close(rule.grow(p, needed))] + rest.done;
      assert forall i :: 1 <= i < |done| ==> done[i] == rest.done[i - 1];
    }
  }

  // ----- ticks may be split

  /** Growing twice is growing once, up to `bound` seconds. */
  ghost predicate Smooth<P(!new), D>(rule: Rule<P, D>, bound: nat)
  {
    forall p, a: nat, b: nat :: a + b <= bound ==> GrowsAlike(rule, p, a, b)
  }

  ghost predicate GrowsAlike<P, D>(rule: Rule<P, D>, p: P, a: nat, b: nat)
  {
    rule.grow(rule.grow(p, a), b) == rule.grow(p, a + b)
  }

  /** `resume` carries a block over to the next tick unchanged, and opens a fresh
      one if there is none. */
  ghost predicate Resumes<P(!new), D>(rule: Rule<P, D>, ok: P -> bool, resume: P -> P)
  {
    resume(rule.empty) == rule.reopened && forall p :: ok(p) && rule.secs(p) > 0 ==> resume(p) == p
  }

  function Then<P, D>(rule: Rule<P, D>, resume: P -> P, first: Outcome<P, D>, b: nat): Outcome<P, D>
  {
    var second := Rolled(rule, resume(first.pending), b);
    Outcome(first.done + second.done, second.pending)
  }

  /** A tick of `a + b` seconds does what one of `a` and then one of `b` do. */
  lemma {:induction false} TicksCompose<P(!new), D>(
    rule: Rule<P, D>, ok: P -> bool, resume: P -> P, p: P, a: nat, b: nat)
    requires Timed(rule) && Smooth(rule, a + b) && ok(p) && ok(rule.reopened) && Resumes(rule, ok, resume)
    requires forall q, x :: ok(q) ==> ok(rule.grow(q, x))
    requires rule.secs(p) < rule.blockSecs && a > 0 && b > 0
    ensures Rolled(rule, p, a + b) == Then(rule, resume, Rolled(rule, p, a), b)
    decreases a
  {
    var needed := rule.blockSecs - rule.secs(p);
    if a < needed {
      WithinBlock(rule, ok, resume, p, a, b);
    } else {
      if a > needed { TicksCompose(rule, ok, resume, rule.reopened, a - needed, b); }
      AcrossBlocks(rule, resume, p, a, b);
    }
  }

  /** The tick boundary falls after the block is full. */
  lemma AcrossBlocks<P(!new), D>(rule: Rule<P, D>, resume: P -> P, p: P, a: nat, b: nat)
    requires Timed(rule) && resume(rule.empty) == rule.reopened && b > 0
    requires rule.secs(p) < rule.blockSecs <= rule.secs(p) + a
    requires var left := a - (rule.blockSecs - rule.secs(p));
             left > 0 ==>
               Rolled(rule, rule.reopened, left + b) == Then(rule, resume, Rolled(rule, rule.reopened, left), b)
    ensures Rolled(rule, p, a + b) == Then(rule, resume, Rolled(rule, p, a), b)
  {
    var needed := rule.blockSecs - rule.secs(p);
    var g, left := rule.grow(p, needed), a - needed;
    var first, all := Rolled(rule, Next(rule, left), left), Rolled(rule, rule.reopened, left + b);
    if left == 0 { EmptyFirst(rule, resume, b); }
    assert all == Then(rule, resume, first, b);
    FillFirst(rule, p, a, g, first);
    assert a + b - needed == left + b && Next(rule, left + b) == rule.reopened;
    FillFirst(rule, p, a + b, g, all);
    ThenAfter(rule, resume, rule.close(g), first, b);
  }

  lemma EmptyFirst<P, D>(rule: Rule<P, D>, resume: P -> P, b: nat)
    requires resume(rule.empty) == rule.reopened
    ensures Then(rule, resume, Rolled(rule, rule.empty, 0), b) == Rolled(rule, rule.reopened, b)
  {
    assert [] + Rolled(rule, rule.reopened, b).done == Rolled(rule, rule.reopened, b).done;
  }

  /** Enough seconds to fill the block fill it first. */
  lemma FillFirst<P(!new), D>(rule: Rule<P, D>, p: P, seconds: nat, g: P, rest: Outcome<P, D>)
    requires Timed(rule) && rule.secs(p) < rule.blockSecs <= rule.secs(p) + seconds
    requires var needed := rule.blockSecs - rule.secs(p);
             g == rule.grow(p, needed) && rest == Rolled(rule, Next(rule, seconds - needed), seconds - needed)
    ensures Rolled(rule, p, seconds) == Outcome([rule.close(g)] + rest.done, rest.pending)
  {
    assert Chunk(rule, p, seconds) == rule.blockSecs - rule.secs(p);
  }

  lemma ThenAfter<P, D>(rule: Rule<P, D>, resume: P -> P, d: D, first: Outcome<P, D>, b: nat)
    ensures Then(rule, resume, Outcome([d] + first.done, first.pending), b)
            == Outcome([d] + Then(rule, resume, first, b).done, Then(rule, resume, first, b).pending)
  {
    var second := Rolled(rule, resume(first.pending), b);
    assert ([d] + first.done) + second.done == [d] + (first.done + second.done);
  }

  lemma WithinBlock<P(!new), D>(rule: Rule<P, D>, ok: P -> bool, resume: P -> P, p: P, a: nat, b: nat)
    requires Timed(rule) && Smooth(rule, a + b) && ok(p) && Resumes(rule, ok, resume)
    requires forall q, x :: ok(q) ==> ok(rule.grow(q, x))
    requires rule.secs(p) + a < rule.blockSecs && a > 0 && b > 0
    ensures Rolled(rule, p, a + b) == Then(rule, resume, Rolled(rule, p, a), b)
  {
    var h := rule.grow(p, a);
    assert Rolled(rule, h, 0) == Outcome([], h);
    assert Rolled(rule, p, a) == Outcome([], h);
    var chunk := Chunk(rule, h, b);
    assert Chunk(rule, p, a + b) == a + chunk;
    assert GrowsAlike(rule, p, a, chunk);
    assert a + b - (a + chunk) == b - chunk;
    assert Rolled(rule, p, a + b) == Rolled(rule, h, b);
    assert [] + Rolled(rule, h, b).done == Rolled(rule, h, b).done;
  }
}
