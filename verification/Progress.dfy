/** The collector's persistent progress: the slot cursor and the paired legacy
    and cycle fields of the reward adjustment. */
module Progress {
  import opened Machine

  /** A legacy field and the cycle field that replaced it. */
  datatype Dual = Dual(legacy: nat, cycle: nat)

  function Both(v: nat): Dual { Dual(v, v) }

  /** Fill the cycle field from the legacy one if it is zero. */
  function Filled(d: Dual): Dual { if d.cycle == 0 then d.(cycle := d.legacy) else d }

  /** Fill, then copy back. */
  function Mend(d: Dual): Dual { Both(Filled(d).cycle) }

  predicate Agrees(d: Dual) { d.legacy == d.cycle }

  /** Play time credited within a block, by game. */
  datatype Game = Game(process: seq<nat>, app: nat, coefficientPpm: nat)
  datatype Entry = Entry(game: Game, secs: nat)

  datatype PendingBlock = PendingBlock(secs: nat, weight: Dual, reward: Dual, cycle: Dual, entries: seq<Entry>)

  function MendPending(b: PendingBlock): PendingBlock
  {
    b.(weight := Mend(b.weight), reward := Mend(b.reward), cycle := Mend(b.cycle))
  }

  predicate PendingAgrees(b: PendingBlock) { Agrees(b.weight) && Agrees(b.reward) && Agrees(b.cycle) }

  /** `adjusted` gives the reward for a cycle of the given network weight, unless
      its computation `panics`. */
  datatype Config = Config(
    firstEpoch: nat,
    firstSlot: nat,
    slotsPerEpoch: nat,
    blocksPerCycle: nat,
    baseReward: nat,
    adjusted: nat -> nat,
    panics: nat -> bool)

  datatype State = State(
    epoch: nat,
    slot: nat,
    ticks: nat,
    blocks: nat,
    cycleIndex: Dual,
    reward: Dual,
    basisCycle: Dual,
    basisWeight: Dual,
    previousTotal: Dual,
    currentTotal: Dual,
    pending: Option<PendingBlock>)

  // ----- specification

  function Initial(c: Config): State
  {
    State(c.firstEpoch, c.firstSlot, 0, 0, Both(0), Both(c.baseReward), Both(0), Both(0), Both(0), Both(0), None)
  }

  function Advanced(s: State, slotsPerEpoch: nat): State
  {
    if s.slot >= slotsPerEpoch then s.(ticks := s.ticks + 1, epoch := s.epoch + 1, slot := 1)
    else s.(ticks := s.ticks + 1, slot := s.slot + 1)
  }

  function Normalized(s: State): State
  {
    s.(cycleIndex := Mend(s.cycleIndex), reward := Mend(s.reward), basisCycle := Mend(s.basisCycle),
       basisWeight := Mend(s.basisWeight), previousTotal := Mend(s.previousTotal), currentTotal := Mend(s.currentTotal),
       pending := if s.pending.Some? then Some(MendPending(s.pending.value)) else None)
  }

  predicate AllAgree(s: State)
  {
    && Agrees(s.cycleIndex) && Agrees(s.reward) && Agrees(s.basisCycle) && Agrees(s.basisWeight)
    && Agrees(s.previousTotal) && Agrees(s.currentTotal)
    && (s.pending.Some? ==> PendingAgrees(s.pending.value))
  }

  /** Normalization restores agreement, changes nothing that agrees already, and
      so repeats without effect. Saving then loading normalizes twice. */
  lemma NormalizeFixes(s: State)
    ensures AllAgree(Normalized(s))
    ensures AllAgree(s) <==> Normalized(s) == s
    ensures Normalized(Normalized(s)) == Normalized(s)
  {}

  /** What becomes of a pair: a cycle value stands, and only where there is none the
      legacy value is taken over. */
  predicate TakenOver(before: Dual, after: Dual)
  {
    && (before.cycle > 0 ==> after == Dual(before.cycle, before.cycle))
    && (before.cycle == 0 ==> after == Dual(before.legacy, before.legacy))
  }

  /** Loading loses nothing: every pair, those of the pending block included, is
      taken over, and the rest of the file stands. */
  lemma LoadTakesOver(file: State)
    ensures var s := Loaded(file);
            && s.epoch == file.epoch && s.slot == file.slot && s.ticks == file.ticks && s.blocks == file.blocks
            && TakenOver(file.cycleIndex, s.cycleIndex) && TakenOver(file.reward, s.reward)
            && TakenOver(file.basisCycle, s.basisCycle) && TakenOver(file.basisWeight, s.basisWeight)
            && TakenOver(file.previousTotal, s.previousTotal) && TakenOver(file.currentTotal, s.currentTotal)
            && (s.pending.Some? <==> file.pending.Some?)
            && (file.pending.Some? ==> BlockTakenOver(file.pending.value, s.pending.value))
  {}

  predicate BlockTakenOver(before: PendingBlock, after: PendingBlock)
  {
    && after.secs == before.secs && after.entries == before.entries
    && TakenOver(before.weight, after.weight) && TakenOver(before.reward, after.reward)
    && TakenOver(before.cycle, after.cycle)
  }

  /** Saving writes the normalized state, loading normalizes what was read: on a
      state whose fields agree the round trip is the identity. */
  function Saved(s: State): State { Normalized(s) }
  function Loaded(file: State): State { Normalized(file) }

  lemma SaveLoadRoundTrip(s: State)
    ensures Loaded(Saved(s)) == s <==> AllAgree(s)
  {
    NormalizeFixes(s);
  }

  // ----- the object

  class LocalNodeProgress {
    var nextEpoch: nat
    var nextSlot: nat
    var ticksCompleted: nat
    var blocksCompleted: nat
    var cycleIndex: Dual
    var reward: Dual
    var basisCycle: Dual
    var basisWeight: Dual
    var previousTotal: Dual
    var currentTotal: Dual
    var pending: Option<PendingBlock>

    ghost function Now(): State
      reads this
    {
      State(nextEpoch, nextSlot, ticksCompleted, blocksCompleted, cycleIndex, reward, basisCycle, basisWeight,
            previousTotal, currentTotal, pending)
    }

    constructor (c: Config)
      ensures Now() == Initial(c) && AllAgree(Now())
    {
      nextEpoch, nextSlot, ticksCompleted, blocksCompleted := c.firstEpoch, c.firstSlot, 0, 0;
      cycleIndex, reward, basisCycle := Both(0), Both(c.baseReward), Both(0);
      basisWeight, previousTotal, currentTotal := Both(0), Both(0), Both(0);
      pending := None;
      new;
      NormalizeFixes(Now());
      Normalize();
    }

    method Advance(slotsPerEpoch: nat)
      modifies this
      ensures Now() == Advanced(old(Now()), slotsPerEpoch)
    {
      ticksCompleted := ticksCompleted + 1;
      if nextSlot >= slotsPerEpoch {
        nextEpoch := nextEpoch + 1;
        nextSlot := 1;
      } else {
        nextSlot := nextSlot + 1;
      }
    }

    method Normalize()
      modifies this
      ensures Now() == Normalized(old(Now()))
    {
      cycleIndex, reward, basisCycle := Filled(cycleIndex), Filled(reward), Filled(basisCycle);
      basisWeight, previousTotal, currentTotal := Filled(basisWeight), Filled(previousTotal), Filled(currentTotal);
      if pending.Some? { pending := Some(MendPending(pending.value)); }
      SyncLegacy();
    }

    method SyncLegacy()
      modifies this
      ensures Now() == var s := old(Now());
                       s.(cycleIndex := Both(s.cycleIndex.cycle), reward := Both(s.reward.cycle),
                          basisCycle := Both(s.basisCycle.cycle), basisWeight := Both(s.basisWeight.cycle),
                          previousTotal := Both(s.previousTotal.cycle), currentTotal := Both(s.currentTotal.cycle))
    {
      cycleIndex := cycleIndex.(legacy := cycleIndex.cycle);
      reward := reward.(legacy := reward.cycle);
      basisCycle := basisCycle.(legacy := basisCycle.cycle);
      basisWeight := basisWeight.(legacy := basisWeight.cycle);
      previousTotal := previousTotal.(legacy := previousTotal.cycle);
      currentTotal := currentTotal.(legacy := currentTotal.cycle);
    }
  }

  // ----- the cursor over runs

  function AfterTicks(epoch: nat, slot: nat, slotsPerEpoch: nat, n: nat): (nat, nat)
  {
    if n == 0 then (epoch, slot)
    else
      var p := AfterTicks(epoch, slot, slotsPerEpoch, n - 1);
      if p.1 >= slotsPerEpoch then (p.0 + 1, 1) else (p.0, p.1 + 1)
  }

  /** The cursor counts ticks in base `slotsPerEpoch`. */
  lemma {:induction false} CursorCountsTicks(epoch: nat, slot: nat, slotsPerEpoch: nat, n: nat)
    requires 1 <= slot <= slotsPerEpoch
    ensures var p := AfterTicks(epoch, slot, slotsPerEpoch, n);
            && 1 <= p.1 <= slotsPerEpoch && p.0 >= epoch
            && (p.0 - epoch) * slotsPerEpoch + p.1 == slot + n
  {
    if n > 0 {
      CursorCountsTicks(epoch, slot, slotsPerEpoch, n - 1);
      var p := AfterTicks(epoch, slot, slotsPerEpoch, n - 1);
      assert (p.0 + 1 - epoch) * slotsPerEpoch == (p.0 - epoch) * slotsPerEpoch + slotsPerEpoch;
    }
  }

  /** `latest_local_epoch`: nothing before the first tick, else the epoch inferred
      from the cursor. */
  function LatestLocalEpoch(s: State): Option<nat>
  {
    if s.ticks == 0 then None
    else if s.slot == 1 then Some(SatSub(s.epoch, 1))
    else Some(s.epoch)
  }

  function StateAfter(epoch: nat, slot: nat, slotsPerEpoch: nat, n: nat): State
  {
    var p := AfterTicks(epoch, slot, slotsPerEpoch, n);
    State(p.0, p.1, n, 0, Both(0), Both(0), Both(0), Both(0), Both(0), Both(0), None)
  }

  /** The inferred epoch is that of the last executed tick. */
  ghost predicate LatestCorrect(epoch: nat, slot: nat, slotsPerEpoch: nat)
  {
    forall n: nat :: n >= 1 ==> LatestAfter(epoch, slot, slotsPerEpoch, n)
  }

  predicate LatestAfter(epoch: nat, slot: nat, slotsPerEpoch: nat, n: nat)
    requires n >= 1
  {
    LatestLocalEpoch(StateAfter(epoch, slot, slotsPerEpoch, n)) == Some(AfterTicks(epoch, slot, slotsPerEpoch, n - 1).0)
  }

  /** It is, on every run, exactly when slots are numbered from one, or there is
      no earlier epoch to confuse it with, or every tick is an epoch. */
  lemma LatestCorrectIff(epoch: nat, slot: nat, slotsPerEpoch: nat)
    ensures LatestCorrect(epoch, slot, slotsPerEpoch) <==> slot >= 1 || epoch == 0 || slotsPerEpoch == 0
  {
    if slot >= 1 || epoch == 0 || slotsPerEpoch == 0 {
      forall n: nat | n >= 1 ensures LatestAfter(epoch, slot, slotsPerEpoch, n) {
        PositiveSlot(epoch, slot, slotsPerEpoch, n - 1);
      }
    } else {
      assert AfterTicks(epoch, slot, slotsPerEpoch, 0) == (epoch, 0);
      assert !LatestAfter(epoch, slot, slotsPerEpoch, 1);
    }
  }

  lemma {:induction false} PositiveSlot(epoch: nat, slot: nat, slotsPerEpoch: nat, n: nat)
    ensures var p := AfterTicks(epoch, slot, slotsPerEpoch, n);
            (slot >= 1 || n >= 1 ==> p.1 >= 1) && (n == 0 ==> p == (epoch, slot))
  {
    if n > 0 { PositiveSlot(epoch, slot, slotsPerEpoch, n - 1); }
  }
}
