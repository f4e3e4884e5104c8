/** The fixed player reward: the square-root adjustment to network weight, and
    how cycles open and close over every run of ticks. */
module RewardCycles {
  import opened Machine
  import opened Progress

  // ----- integer square root

  ghost predicate IsSqrt(r: nat, n: nat) { r * r <= n < (r + 1) * (r + 1) }

  lemma SqrtUnique(a: nat, b: nat, m: nat, n: nat)
    requires IsSqrt(a, m) && IsSqrt(b, n) && m <= n
    ensures a <= b
  {
    if b + 1 <= a { MulMono(b + 1, a, b + 1, a); }
  }

  function Newton(n: nat, x: nat): nat
    requires x >= 1
  {
    (x + n / x) / 2
  }

  /** Newton's step never falls below the root ... */
  lemma NewtonAbove(n: nat, x: nat)
    requires x >= 1
    ensures Above(n, Newton(n, x))
  {
    var q := n / x;
    assert n < x * (q + 1) by { assert n == x * q + n % x; assert x * (q + 1) == x * q + x; }
    AmGm(x, q + 1, Newton(n, x) + 1);
  }

  /** ... and once it no longer descends it is there. */
  lemma NewtonStops(n: nat, x: nat)
    requires x >= 1 && x <= Newton(n, x)
    ensures x * x <= n
  {
    var q := n / x;
    assert x <= q;
    MulLeft(x, q, x);
    assert x * q <= n;
  }

  ghost predicate Above(n: nat, x: nat) { n < (x + 1) * (x + 1) }

  lemma AmGm(a: nat, b: nat, z: nat)
    requires a + b <= 2 * z
    ensures a * b <= z * z
  {
    var s := a + b;
    assert s * s == (a - b) * (a - b) + 4 * (a * b);
    Square(a - b);
    MulMono(s, 2 * z, s, 2 * z);
    assert (2 * z) * (2 * z) == 4 * (z * z);
  }

  lemma Square(d: int)
    ensures d * d >= 0
  {}

  lemma NotZero(n: nat, x: nat)
    requires n >= 1 && Above(n, x)
    ensures x >= 1
  {}

  lemma SelfAbove(n: nat)
    ensures Above(n, n)
  {
    MulMono(1, n + 1, n + 1, n + 1);
  }

  /** Below the largest value no sum of the iteration overflows. */
  lemma SumFits(n: nat, x: nat)
    requires 1 <= x <= n < U128 - 1
    ensures x + n / x < U128
  {
    var q := n / x;
    assert q >= 1 by { DivMono(x, n, x); DivCancel(1, x); }
    assert x * q <= n;
    assert (x - 1) * (q - 1) == x * q - x - q + 1;
    MulMono(0, x - 1, 0, q - 1);
  }

  datatype Overflow = Overflow

  /** `integer_sqrt`: the root, or an overflow of the 128-bit sum, which stops the
      node; only the largest value has one. */
  method IntegerSqrt(value: nat) returns (r: Result<nat, Overflow>)
    requires value < U128
    ensures r.Ok? <==> value < U128 - 1
    ensures r.Ok? ==> IsSqrt(r.value, value)
  {
    if value < 2 { return Ok(value); }
    var x0 := value;
    SelfAbove(value);
    assert value / x0 == 1 by { DivCancel(1, value); }
    if x0 + value / x0 >= U128 { return Err(Overflow); }
    var x1 := Newton(value, x0);
    while x1 < x0
      invariant 1 <= x0 <= value < U128 - 1 && Above(value, x0) && x1 == Newton(value, x0)
      decreases x0
    {
      NewtonAbove(value, x0);
      NotZero(value, x1);
      x0 := x1;
      SumFits(value, x0);
      x1 := Newton(value, x0);
    }
    NewtonStops(value, x0);
    r := Ok(x0);
  }

  /** The root as a value. */
  function Sqrt(n: nat): (r: nat)
    ensures IsSqrt(r, n)
  {
    if n == 0 then 0
    else
      var r := Sqrt(n - 1);
      if (r + 1) * (r + 1) <= n then
        assert (r + 2) * (r + 2) == (r + 1) * (r + 1) + 2 * (r + 1) + 1;
        r + 1
      else r
  }

  lemma SqrtMonotone(m: nat, n: nat)
    requires m <= n
    ensures Sqrt(m) <= Sqrt(n)
  {
    SqrtUnique(Sqrt(m), Sqrt(n), m, n);
  }

  // ----- the adjusted reward

  function Clamp(x: nat, lo: nat, hi: nat): nat { if x < lo then lo else if x > hi then hi else x }

  function LowerBound(base: nat, capBps: nat): nat { SatMul(U128, base, 10_000 - Min(capBps, 10_000)) / 10_000 }
  function UpperBound(base: nat, capBps: nat): nat { SatMul(U128, base, 10_000 + Min(capBps, 10_000)) / 10_000 }

  function Scaled(base: nat, target: nat, weight: nat): nat
    requires weight > 0
  {
    SatMul(U128, base, Sqrt(SatMul(U128, target, 1_000_000_000_000) / weight)) / 1_000_000
  }

  /** `adjusted_player_block_reward`: base times the root of target over weight. */
  function AdjustedReward(base: nat, target: nat, weight: nat, capBps: nat): nat
  {
    if base == 0 then 0
    else if target == 0 || weight == 0 then base
    else Max(Clamp(Scaled(base, target, weight), LowerBound(base, capBps), UpperBound(base, capBps)), 1)
  }

  lemma BoundsOrdered(base: nat, capBps: nat)
    ensures LowerBound(base, capBps) <= UpperBound(base, capBps)
    ensures base * 20_000 < U128 ==> LowerBound(base, capBps) <= base <= UpperBound(base, capBps)
  {
    var cap := Min(capBps, 10_000);
    MulMono(base, base, 10_000 - cap, 10_000 + cap);
    DivMono(SatMul(U128, base, 10_000 - cap), SatMul(U128, base, 10_000 + cap), 10_000);
    if base * 20_000 < U128 {
      MulMono(base, base, 10_000 - cap, 10_000);
      MulMono(base, base, 10_000, 10_000 + cap);
      MulMono(base, base, 10_000 + cap, 20_000);
      DivMono(base * (10_000 - cap), base * 10_000, 10_000);
      DivMono(base * 10_000, base * (10_000 + cap), 10_000);
    }
  }

  /** Whether the reward can be computed: the root is never taken of the largest
      128-bit value. */
  predicate Computes(base: nat, target: nat, weight: nat)
  {
    base == 0 || target == 0 || weight != 1 || target * 1_000_000_000_000 < U128 - 1
  }

  function AdjustedResult(base: nat, target: nat, weight: nat, capBps: nat): Option<nat>
  {
    if Computes(base, target, weight) then Some(AdjustedReward(base, target, weight, capBps)) else None
  }

  lemma LargestRatio(t: nat, weight: nat)
    requires 0 < weight && t < U128
    ensures t / weight < U128 && (t / weight == U128 - 1 <==> weight == 1 && t == U128 - 1)
  {
    var q := t / weight;
    assert weight * q <= t;
    if weight >= 2 { MulMono(2, weight, q, q); } else { DivCancel(t, 1); }
  }

  lemma RootIs(a: nat, n: nat)
    requires IsSqrt(a, n)
    ensures a == Sqrt(n)
  {
    SqrtUnique(a, Sqrt(n), n, n);
    SqrtUnique(Sqrt(n), a, n, n);
  }

  /** `adjusted_player_block_reward`, step by step: it succeeds exactly when the
      root can be taken, with the specified reward. */
  method AdjustedPlayerBlockReward(base: nat, target: nat, weight: nat, capBps: nat) returns (r: Result<nat, Overflow>)
    requires target < U128
    ensures r.Ok? <==> Computes(base, target, weight)
    ensures r.Ok? ==> r.value == AdjustedReward(base, target, weight, capBps)
  {
    if base == 0 { return Ok(0); }
    if target == 0 || weight == 0 { return Ok(base); }
    var scaled := SatMul(U128, target, 1_000_000_000_000);
    LargestRatio(scaled, weight);
    var root := IntegerSqrt(scaled / weight);
    if root.Err? { return Err(Overflow); }
    RootIs(root.value, scaled / weight);
    var adjusted := SatMul(U128, base, root.value) / 1_000_000;
    r := Ok(Max(Clamp(adjusted, LowerBound(base, capBps), UpperBound(base, capBps)), 1));
  }

  /** Wherever it can be computed the adjusted reward stays within the cap around
      the base. */
  lemma AdjustedWithinCap(base: nat, target: nat, weight: nat, capBps: nat)
    requires 1 <= base && base * 20_000 < U128
    ensures var r := AdjustedResult(base, target, weight, capBps);
            && (r.None? <==> weight == 1 && target > 0 && target * 1_000_000_000_000 >= U128 - 1)
            && (r.Some? ==> Max(LowerBound(base, capBps), 1) <= r.value <= UpperBound(base, capBps))
  {
    BoundsOrdered(base, capBps);
  }

  /** A heavier network never earns a larger fixed reward. */
  lemma AdjustedAntitone(base: nat, target: nat, light: nat, heavy: nat, capBps: nat)
    requires 0 < light <= heavy && base * 20_000 < U128
    ensures var more, less := AdjustedResult(base, target, light, capBps), AdjustedResult(base, target, heavy, capBps);
            more.Some? ==> less.Some? && less.value <= more.value
  {
    if base > 0 && target > 0 {
      var t := SatMul(U128, target, 1_000_000_000_000);
      DivAntitone(t, light, heavy);
      SqrtMonotone(t / heavy, t / light);
      MulLeft(Sqrt(t / heavy), Sqrt(t / light), base);
      DivMono(SatMul(U128, base, Sqrt(t / heavy)), SatMul(U128, base, Sqrt(t / light)), 1_000_000);
      BoundsOrdered(base, capBps);
    }
  }

  /** At the target weight the reward is the base; a lighter network earns at
      least that and a heavier one at most. */
  lemma AdjustedAroundTarget(base: nat, target: nat, weight: nat, capBps: nat)
    requires 1 <= base && base * 1_000_000 < U128 && 1 <= target && target * 1_000_000_000_000 < U128 && weight >= 1
    ensures var r := AdjustedResult(base, target, weight, capBps);
            && r.Some?
            && (weight == target ==> r.value == base)
            && (weight <= target ==> r.value >= base)
            && (weight >= target ==> r.value <= base)
  {
    NotLargest(target);
    MulLeft(20_000, 1_000_000, base);
    AtTarget(base, target, capBps);
    if weight <= target { AdjustedAntitone(base, target, weight, target, capBps); }
    if weight >= target { AdjustedAntitone(base, target, target, weight, capBps); }
  }

  lemma NotLargest(target: nat)
    requires target * 1_000_000_000_000 < U128
    ensures target * 1_000_000_000_000 < U128 - 1
  {
    assert target * 1_000_000_000_000 == 2 * (target * 500_000_000_000);
  }

  lemma AtTarget(base: nat, target: nat, capBps: nat)
    requires 1 <= base && base * 20_000 <= base * 1_000_000 < U128 && 1 <= target && target * 1_000_000_000_000 < U128
    ensures AdjustedReward(base, target, target, capBps) == base
  {
    ScaledAtTarget(base, target);
    BoundsOrdered(base, capBps);
  }

  lemma ScaledAtTarget(base: nat, target: nat)
    requires base * 1_000_000 < U128 && 1 <= target && target * 1_000_000_000_000 < U128
    ensures Scaled(base, target, target) == base
  {
    DivCancel(1_000_000_000_000, target);
    RootOfScale();
    DivCancel(base, 1_000_000);
  }

  lemma RootOfScale()
    ensures Sqrt(1_000_000_000_000) == 1_000_000
  {
    var n, r := 1_000_000_000_000, 1_000_000;
    SqrtUnique(Sqrt(n), r, n, n);
    SqrtUnique(r, Sqrt(n), n, n);
  }

  lemma DivAntitone(x: nat, a: nat, b: nat)
    requires 0 < a <= b
    ensures x / b <= x / a
  {
    var q := x / b;
    assert q * b <= x;
    MulLeft(a, b, q);
    DivMono(a * q, x, a);
    DivCancel(q, a);
  }

  // ----- one tick of the cycle machine

  /** What one tick contributes: blocks completed, their weight, and the pending block. */
  datatype Outcome = Outcome(blocks: nat, weight: nat, pending: Option<PendingBlock>)

  function Base(c: Config): nat { Max(c.baseReward, 1) }

  /** The node's configuration: rewards follow the capped square-root rule. */
  function Standard(firstEpoch: nat, firstSlot: nat, slotsPerEpoch: nat, blocksPerCycle: nat, base: nat, target: nat,
                    capBps: nat): Config
  {
    Config(firstEpoch, firstSlot, slotsPerEpoch, blocksPerCycle, base,
           (weight: nat) => AdjustedReward(Max(base, 1), target, weight, capBps),
           (weight: nat) => !Computes(Max(base, 1), target, weight))
  }

  /** The reward a basis weight calls for. */
  function RewardFor(c: Config, weight: nat): nat
  {
    Max(if weight == 0 then Base(c) else c.adjusted(weight), 1)
  }

  function CycleOf(c: Config, s: State): nat { s.blocks / Max(c.blocksPerCycle, 1) }

  /** `current_fixed_block_reward`: the state it leaves. */
  function Fixed(c: Config, s: State): State
  {
    var index := CycleOf(c, s);
    var s1 := if s.reward.cycle == 0 then s.(reward := Both(Base(c))) else s;
    if s1.blocks == 0 then
      s1.(cycleIndex := Both(index), reward := Both(Base(c)), basisCycle := Both(index), basisWeight := Both(0))
    else if index != s1.cycleIndex.cycle then
      var weight := s1.currentTotal.cycle;
      s1.(previousTotal := Both(weight), currentTotal := Both(0), cycleIndex := Both(index),
          reward := Both(RewardFor(c, weight)), basisCycle := Both(s1.cycleIndex.cycle), basisWeight := Both(weight))
    else s1
  }

  /** ... and the reward it returns. */
  function RewardUsed(c: Config, s: State): nat { Max(Fixed(c, s).reward.cycle, 1) }

  function Ticked(c: Config, s: State, o: Outcome): State
  {
    var f := Fixed(c, s);
    Advanced(f.(currentTotal := Both(SatAdd(U128, f.currentTotal.cycle, o.weight)),
                blocks := SatAdd(U64, f.blocks, o.blocks), pending := o.pending),
             c.slotsPerEpoch)
  }

  /** Whether the next tick closes the current cycle. */
  predicate Closes(c: Config, s: State) { s.blocks > 0 && CycleOf(c, s) != s.cycleIndex.cycle }

  /** Closing a cycle takes the reward of its weight, which may stop the node. */
  predicate Panics(c: Config, s: State)
  {
    Closes(c, s) && s.currentTotal.cycle != 0 && c.panics(s.currentTotal.cycle)
  }

  method CurrentFixedBlockReward(c: Config, p: LocalNodeProgress) returns (reward: Option<nat>)
    modifies p
    ensures reward.None? <==> Panics(c, old(p.Now()))
    ensures reward.Some? ==> p.Now() == Fixed(c, old(p.Now())) && reward.value == RewardUsed(c, old(p.Now()))
  {
    var index := p.blocksCompleted / Max(c.blocksPerCycle, 1);
    var base := Max(c.baseReward, 1);
    if p.reward.cycle == 0 { p.reward := Both(base); }
    if p.blocksCompleted == 0 {
      p.cycleIndex := Both(index);
      p.reward := Both(base);
      p.basisCycle, p.basisWeight := Both(index), Both(0);
      return Some(base);
    }
    if index != p.cycleIndex.cycle {
      var weight, previous := p.currentTotal.cycle, p.cycleIndex.cycle;
      if weight != 0 && c.panics(weight) { return None; }
      var fixed := if weight == 0 then base else c.adjusted(weight);
      p.previousTotal := Both(weight);
      p.currentTotal := Both(0);
      p.cycleIndex := Both(index);
      p.reward := Both(Max(fixed, 1));
      p.basisCycle, p.basisWeight := Both(previous), Both(weight);
      return Some(p.reward.cycle);
    }
    return Some(Max(p.reward.cycle, 1));
  }

  // ----- runs

  function Run(c: Config, outs: seq<Outcome>): State
  {
    if |outs| == 0 then Initial(c) else Ticked(c, Run(c, outs[..|outs| - 1]), outs[|outs| - 1])
  }

  ghost predicate DualsAgree(s: State)
  {
    && Agrees(s.cycleIndex) && Agrees(s.reward) && Agrees(s.basisCycle) && Agrees(s.basisWeight)
    && Agrees(s.previousTotal) && Agrees(s.currentTotal)
  }

  /** What holds after every tick. */
  ghost predicate Invariant(c: Config, s: State)
  {
    && DualsAgree(s)
    && (s.ticks > 0 ==> s.reward.cycle == RewardFor(c, s.basisWeight.cycle))
    && s.cycleIndex.cycle <= CycleOf(c, s) && s.blocks < U64
    && (s.blocks == 0 ==> s.cycleIndex.cycle == 0)
    && (s.ticks == 0 ==> s.blocks == 0)
  }

  lemma InitialInvariant(c: Config)
    ensures Invariant(c, Initial(c))
  {}

  lemma FixedInvariant(c: Config, s: State)
    requires Invariant(c, s)
    ensures var f := Fixed(c, s);
            && DualsAgree(f)
            && f.reward.cycle == RewardFor(c, f.basisWeight.cycle) == RewardUsed(c, s)
            && f.cycleIndex.cycle == CycleOf(c, s)
            && f.blocks == s.blocks && f.ticks == s.ticks
  {
    if s.blocks == 0 { DivUnique(0, Max(c.blocksPerCycle, 1), 0, 0); }
  }

  lemma TickShape(c: Config, s: State, o: Outcome)
    ensures var f, t := Fixed(c, s), Ticked(c, s, o);
            && t.cycleIndex == f.cycleIndex && t.reward == f.reward && t.basisWeight == f.basisWeight
            && t.basisCycle == f.basisCycle && t.previousTotal == f.previousTotal
            && t.currentTotal == Both(SatAdd(U128, f.currentTotal.cycle, o.weight))
            && t.blocks == SatAdd(U64, s.blocks, o.blocks) && t.ticks == s.ticks + 1 && t.pending == o.pending
  {}

  /** Every tick keeps the invariant, and the cycle index never decreases. */
  lemma TickInvariant(c: Config, s: State, o: Outcome)
    requires Invariant(c, s)
    ensures Invariant(c, Ticked(c, s, o))
    ensures Ticked(c, s, o).cycleIndex.cycle == CycleOf(c, s) >= s.cycleIndex.cycle
    ensures Ticked(c, s, o).reward.cycle == RewardUsed(c, s)
  {
    FixedInvariant(c, s);
    TickShape(c, s, o);
    DivMono(s.blocks, Ticked(c, s, o).blocks, Max(c.blocksPerCycle, 1));
  }

  lemma {:induction false} RunInvariant(c: Config, outs: seq<Outcome>)
    ensures Invariant(c, Run(c, outs)) && Run(c, outs).ticks == |outs|
  {
    if |outs| == 0 {
      InitialInvariant(c);
    } else {
      RunInvariant(c, outs[..|outs| - 1]);
      TickInvariant(c, Run(c, outs[..|outs| - 1]), outs[|outs| - 1]);
      TickShape(c, Run(c, outs[..|outs| - 1]), outs[|outs| - 1]);
    }
  }

  /** In every reachable state the legacy and cycle fields agree if each block
      left pending agrees, so saving and loading it is the identity. */
  lemma {:induction false} ReachableSaves(c: Config, outs: seq<Outcome>)
    requires forall o :: o in outs && o.pending.Some? ==> PendingAgrees(o.pending.value)
    ensures AllAgree(Run(c, outs)) && Loaded(Saved(Run(c, outs))) == Run(c, outs)
  {
    RunInvariant(c, outs);
    if |outs| > 0 { TickShape(c, Run(c, outs[..|outs| - 1]), outs[|outs| - 1]); }
    SaveLoadRoundTrip(Run(c, outs));
  }

  /** The cursor of a run of ticks is the one counted in `Progress`. */
  lemma {:induction false} RunCursor(c: Config, outs: seq<Outcome>)
    ensures (Run(c, outs).epoch, Run(c, outs).slot) == AfterTicks(c.firstEpoch, c.firstSlot, c.slotsPerEpoch, |outs|)
  {
    if |outs| > 0 {
      RunCursor(c, outs[..|outs| - 1]);
      CursorStep(c, Run(c, outs[..|outs| - 1]), outs[|outs| - 1]);
    }
  }

  lemma CursorStep(c: Config, s: State, o: Outcome)
    ensures var t := Ticked(c, s, o);
            if s.slot >= c.slotsPerEpoch then t.epoch == s.epoch + 1 && t.slot == 1
            else t.epoch == s.epoch && t.slot == s.slot + 1
  {}

  /** The state after the first `n` ticks of a run, and the reward of tick `n`. */
  function After(c: Config, outs: seq<Outcome>, n: nat): State
    requires n <= |outs|
  {
    Run(c, outs[..n])
  }

  function RewardOfTick(c: Config, outs: seq<Outcome>, n: nat): nat
    requires n < |outs|
  {
    RewardUsed(c, After(c, outs, n))
  }

  lemma AfterStep(c: Config, outs: seq<Outcome>, n: nat)
    requires n < |outs|
    ensures After(c, outs, n + 1) == Ticked(c, After(c, outs, n), outs[n])
  {
    assert outs[..n + 1][..n] == outs[..n];
  }

  /** Over every run the cycle index never decreases. */
  lemma {:induction false} CycleMonotone(c: Config, outs: seq<Outcome>, m: nat, n: nat)
    requires m <= n <= |outs|
    ensures After(c, outs, m).cycleIndex.cycle <= After(c, outs, n).cycleIndex.cycle
    decreases n - m
  {
    if m < n {
      CycleMonotone(c, outs, m, n - 1);
      RunInvariant(c, outs[..n - 1]);
      AfterStep(c, outs, n - 1);
      TickInvariant(c, After(c, outs, n - 1), outs[n - 1]);
    }
  }

  /** One tick within a cycle keeps the reward. */
  lemma SameCycleSameReward(c: Config, s: State)
    requires Invariant(c, s) && s.ticks > 0 && CycleOf(c, s) == s.cycleIndex.cycle
    ensures RewardUsed(c, s) == if s.blocks == 0 then Base(c) else s.reward.cycle
  {}

  /** Until a block completes the basis is zero and the reward is the base. */
  lemma {:induction false} NoBlocksBaseReward(c: Config, outs: seq<Outcome>)
    requires Run(c, outs).blocks == 0 && |outs| > 0
    ensures Run(c, outs).reward.cycle == Base(c)
  {
    var s := Run(c, outs[..|outs| - 1]);
    TickShape(c, s, outs[|outs| - 1]);
  }

  /** The reward is constant within a cycle: two ticks whose states report the
      same cycle index use the same reward, which is the one its basis weight
      calls for. */
  lemma {:induction false} RewardConstantInCycle(c: Config, outs: seq<Outcome>, m: nat, n: nat)
    requires m <= n < |outs|
    requires After(c, outs, m + 1).cycleIndex.cycle == After(c, outs, n + 1).cycleIndex.cycle
    ensures RewardOfTick(c, outs, m) == RewardOfTick(c, outs, n)
    ensures RewardOfTick(c, outs, n) == RewardFor(c, After(c, outs, n + 1).basisWeight.cycle)
    decreases n - m
  {
    RunInvariant(c, outs[..n]);
    AfterStep(c, outs, n);
    var s := After(c, outs, n);
    FixedInvariant(c, s);
    TickShape(c, s, outs[n]);
    TickInvariant(c, s, outs[n]);
    if m < n {
      CycleMonotone(c, outs, m + 1, n);
      CycleMonotone(c, outs, n, n + 1);
      RewardConstantInCycle(c, outs, m, n - 1);
      SameCycleSameReward(c, s);
      AfterStep(c, outs, n - 1);
      RunInvariant(c, outs[..n - 1]);
      TickInvariant(c, After(c, outs, n - 1), outs[n - 1]);
      if s.blocks == 0 { NoBlocksBaseReward(c, outs[..n]); }
    }
  }

  /** No tick up to the `n`-th stops the node. */
  ghost predicate Survives(c: Config, outs: seq<Outcome>, n: nat)
    requires n < |outs|
  {
    forall k: nat :: k <= n ==> !Panics(c, After(c, outs, k))
  }

  /** Over every run of the node's configuration a tick stops the node exactly when
      it closes a cycle of weight one and the scaled target is the largest
      128-bit value or more; each tick the node lives to see has a reward
      within the cap around the base. */
  lemma RunRewardWithinCap(
    firstEpoch: nat, firstSlot: nat, slotsPerEpoch: nat, blocksPerCycle: nat, base: nat, target: nat, capBps: nat,
    outs: seq<Outcome>, n: nat)
    requires 1 <= base && base * 20_000 < U128 && n < |outs|
    ensures var c := Standard(firstEpoch, firstSlot, slotsPerEpoch, blocksPerCycle, base, target, capBps);
            var s := After(c, outs, n);
            && (Panics(c, s) <==> Closes(c, s) && s.currentTotal.cycle == 1
                                  && target > 0 && target * 1_000_000_000_000 >= U128 - 1)
            && (Survives(c, outs, n) ==>
                  Max(LowerBound(base, capBps), 1) <= RewardOfTick(c, outs, n) <= UpperBound(base, capBps))
  {
    var c := Standard(firstEpoch, firstSlot, slotsPerEpoch, blocksPerCycle, base, target, capBps);
    RunInvariant(c, outs[..n]);
    FixedInvariant(c, After(c, outs, n));
    var weight := Fixed(c, After(c, outs, n)).basisWeight.cycle;
    BoundsOrdered(base, capBps);
    assert c.adjusted(weight) == AdjustedReward(base, target, weight, capBps);
  }

  ghost predicate AlwaysSurvives(c: Config)
  {
    forall outs, n: nat :: n < |outs| ==> Survives(c, outs, n)
  }

  /** No run stops the node if and only if the scaled target stays below the
      largest 128-bit value. */
  lemma AlwaysSurvivesIff(
    firstEpoch: nat, firstSlot: nat, slotsPerEpoch: nat, blocksPerCycle: nat, base: nat, target: nat, capBps: nat)
    requires blocksPerCycle < U64
    ensures AlwaysSurvives(Standard(firstEpoch, firstSlot, slotsPerEpoch, blocksPerCycle, base, target, capBps))
            <==> target * 1_000_000_000_000 < U128 - 1
  {
    var c := Standard(firstEpoch, firstSlot, slotsPerEpoch, blocksPerCycle, base, target, capBps);
    if target * 1_000_000_000_000 >= U128 - 1 {
      var o := Outcome(Max(blocksPerCycle, 1), 1, None);
      var outs := [o, o];
      WeightOneCloses(c, o, outs);
      assert !Survives(c, outs, 1);
    }
  }

  lemma WeightOneCloses(c: Config, o: Outcome, outs: seq<Outcome>)
    requires o.blocks == Max(c.blocksPerCycle, 1) < U64 && o.weight == 1 && outs == [o, o]
    ensures Closes(c, After(c, outs, 1)) && After(c, outs, 1).currentTotal.cycle == 1
  {
    AfterStep(c, outs, 0);
    InitialInvariant(c);
    assert After(c, outs, 0) == Initial(c);
    TickInvariant(c, Initial(c), o);
    TickShape(c, Initial(c), o);
    DivUnique(0, o.blocks, 0, 0);
    DivCancel(1, o.blocks);
  }

  // ----- conservation of weight

  function TotalWeight(outs: seq<Outcome>): nat
  {
    if |outs| == 0 then 0 else TotalWeight(outs[..|outs| - 1]) + outs[|outs| - 1].weight
  }

  /** The totals recorded for the cycles closed so far. */
  function ClosedWeight(c: Config, outs: seq<Outcome>): nat
  {
    if |outs| == 0 then 0
    else
      var s := Run(c, outs[..|outs| - 1]);
      ClosedWeight(c, outs[..|outs| - 1]) + (if Closes(c, s) then Fixed(c, s).previousTotal.cycle else 0)
  }

  /** Unless the 128-bit total saturates, all completed weight is in a closed
      cycle's total or in the current one. */
  lemma {:induction false} WeightConserved(c: Config, outs: seq<Outcome>)
    requires TotalWeight(outs) < U128
    ensures TotalWeight(outs) == ClosedWeight(c, outs) + Run(c, outs).currentTotal.cycle
  {
    if |outs| > 0 {
      var n := |outs| - 1;
      WeightConserved(c, outs[..n]);
      TickShape(c, Run(c, outs[..n]), outs[n]);
    }
  }
}
