/** What the fixed reward comes to: the square root bracketed on the result
    itself, and the weight each cycle's reward is taken from. */
module RewardLaws {
  import opened Machine
  import opened Progress
  import opened RewardCycles

  // ----- the adjusted reward

  /** `k` is the root of the ratio in millionths: the largest with k²·weight within
      the scaled target. */
  ghost predicate RatioRoot(target: nat, weight: nat, k: nat)
  {
    k * k * weight <= Min(target * 1_000_000_000_000, U128 - 1) < (k + 1) * (k + 1) * weight
  }

  /** `q` is the base times `k` millionths, rounded down. */
  ghost predicate Millionths(base: nat, k: nat, q: nat)
  {
    1_000_000 * q <= Min(base * k, U128 - 1) < 1_000_000 * (q + 1)
  }

  /** `b` is the base times `bps` ten-thousandths, rounded down. */
  ghost predicate BasisPoints(base: nat, bps: nat, b: nat)
  {
    10_000 * b <= Min(base * bps, U128 - 1) < 10_000 * (b + 1)
  }

  lemma RootBracket(t: nat, weight: nat, k: nat)
    requires weight > 0 && IsSqrt(k, t / weight)
    ensures k * k * weight <= t < (k + 1) * (k + 1) * weight
  {
    var q := t / weight;
    FloorLaw(t, weight);
    MulMono(k * k, q, weight, weight);
    MulMono(q + 1, (k + 1) * (k + 1), weight, weight);
    assert weight * q == q * weight && weight * (q + 1) == (q + 1) * weight;
  }

  /** The reward is base·√(target/weight), kept within the cap and at least one,
      with each rounding as stated; saturated products stand at their bound. */
  lemma AdjustedLaw(base: nat, target: nat, weight: nat, capBps: nat) returns (k: nat, q: nat, lo: nat, hi: nat)
    requires base > 0 && target > 0 && weight > 0
    ensures RatioRoot(target, weight, k) && Millionths(base, k, q)
    ensures BasisPoints(base, 10_000 - Min(capBps, 10_000), lo) && BasisPoints(base, 10_000 + Min(capBps, 10_000), hi)
    ensures AdjustedReward(base, target, weight, capBps) == Max(if q < lo then lo else if q > hi then hi else q, 1)
  {
    var t := SatMul(U128, target, 1_000_000_000_000);
    k := Sqrt(t / weight);
    RootBracket(t, weight, k);
    q, lo, hi := Scaled(base, target, weight), LowerBound(base, capBps), UpperBound(base, capBps);
    FloorLaw(SatMul(U128, base, k), 1_000_000);
    FloorLaw(SatMul(U128, base, 10_000 - Min(capBps, 10_000)), 10_000);
    FloorLaw(SatMul(U128, base, 10_000 + Min(capBps, 10_000)), 10_000);
  }

  /** No base earns nothing; without a target or a weight the base stands. */
  lemma AdjustedDegenerate(base: nat, target: nat, weight: nat, capBps: nat)
    ensures AdjustedReward(0, target, weight, capBps) == 0
    ensures AdjustedReward(base, 0, weight, capBps) == base && AdjustedReward(base, target, 0, capBps) == base
  {}

  lemma SquareGap(a: nat, b: nat, weight: nat, t: nat)
    requires a * a * weight <= t < b * b * weight
    ensures a < b
  {
    if b <= a {
      MulMono(b, a, b, a);
      MulMono(b * b, a * a, weight, weight);
    }
  }

  lemma DoubledSquare(a: nat, weight: nat)
    ensures a * a * (4 * weight) == (2 * a) * (2 * a) * weight
  {
    assert (2 * a) * (2 * a) == 4 * (a * a);
    assert (a * a) * (4 * weight) == 4 * (a * a) * weight;
  }

  /** A fourfold weight has half the root. */
  lemma RootHalves(target: nat, weight: nat, k: nat, half: nat)
    requires RatioRoot(target, weight, k) && RatioRoot(target, 4 * weight, half)
    ensures 2 * half <= k <= 2 * half + 1
  {
    var t := Min(target * 1_000_000_000_000, U128 - 1);
    DoubledSquare(half, weight);
    DoubledSquare(half + 1, weight);
    assert 2 * half + 2 == 2 * (half + 1);
    SquareGap(2 * half, k + 1, weight, t);
    SquareGap(k, 2 * half + 2, weight, t);
  }

  lemma BoundIs(base: nat, bps: nat, b: nat, exact: nat)
    requires BasisPoints(base, bps, b) && base * bps == 10_000 * exact < U128
    ensures b == exact
  {}

  /** With the cap open, and the lighter network's reward below the cap, a fourfold
      weight halves the reward up to rounding. */
  lemma FourfoldHalves(base: nat, target: nat, weight: nat, capBps: nat)
    requires base > 0 && target > 0 && weight > 0 && base * 2_000_000 < U128 && capBps >= 10_000
    requires AdjustedReward(base, target, weight, capBps) < 2 * base
    ensures var more, less := AdjustedReward(base, target, weight, capBps),
                              AdjustedReward(base, target, 4 * weight, capBps);
            2 * less - 1 <= more && 1_000_000 * (more - 2 * less - 2) < base
  {
    var k, q, lo, hi := AdjustedLaw(base, target, weight, capBps);
    var k', q', lo', hi' := AdjustedLaw(base, target, 4 * weight, capBps);
    RootHalves(target, weight, k, k');
    BoundIs(base, 0, lo, 0);
    BoundIs(base, 0, lo', 0);
    BoundIs(base, 20_000, hi, 2 * base);
    BoundIs(base, 20_000, hi', 2 * base);
    HalvedFloor(base, k, k', q, q');
  }

  lemma HalvedFloor(base: nat, k: nat, half: nat, q: nat, q': nat)
    requires Millionths(base, k, q) && Millionths(base, half, q') && 2 * half <= k <= 2 * half + 1
    requires base * 2_000_000 < U128 && q < 2 * base
    ensures 2 * q' <= q && 1_000_000 * (q - 2 * q' - 2) < base
  {
    DoubledProduct(base, k, half);
    FloorOfDouble(base, base * k, base * half, q, q');
  }

  lemma DoubledProduct(base: nat, k: nat, half: nat)
    requires 2 * half <= k <= 2 * half + 1
    ensures 2 * (base * half) <= base * k <= 2 * (base * half) + base
  {
    MulLeft(2 * half, k, base);
    MulLeft(k, 2 * half + 1, base);
  }

  lemma FloorOfDouble(base: nat, x: nat, y: nat, q: nat, q': nat)
    requires 2 * y <= x <= 2 * y + base && base * 2_000_000 < U128 && q < 2 * base
    requires 1_000_000 * q <= Min(x, U128 - 1) < 1_000_000 * (q + 1)
    requires 1_000_000 * q' <= Min(y, U128 - 1) < 1_000_000 * (q' + 1)
    ensures 2 * q' <= q && 1_000_000 * (q - 2 * q' - 2) < base
  {
    assert x < U128;
  }

  // ----- the weight behind a cycle's reward

  /** The weight reported by the ticks that ran in a cycle. */
  function WeightIn(c: Config, outs: seq<Outcome>, cycle: nat): nat
  {
    if |outs| == 0 then 0
    else
      var n := |outs| - 1;
      WeightIn(c, outs[..n], cycle) + (if CycleOf(c, Run(c, outs[..n])) == cycle then outs[n].weight else 0)
  }

  lemma {:induction false} NoneLater(c: Config, outs: seq<Outcome>, cycle: nat)
    requires Run(c, outs).cycleIndex.cycle < cycle
    ensures WeightIn(c, outs, cycle) == 0
  {
    if |outs| > 0 {
      var n := |outs| - 1;
      RunInvariant(c, outs[..n]);
      TickInvariant(c, Run(c, outs[..n]), outs[n]);
      NoneLater(c, outs[..n], cycle);
    }
  }

  /** The current total is the weight of the current cycle; past the first cycle
      the basis is the weight of the last cycle that ran before it. */
  ghost predicate Based(c: Config, outs: seq<Outcome>, s: State)
  {
    && s.currentTotal.cycle == WeightIn(c, outs, s.cycleIndex.cycle)
    && (s.cycleIndex.cycle == 0 ==> s.basisWeight.cycle == 0)
    && (s.cycleIndex.cycle > 0 ==> BasisIs(c, outs, s, s.basisCycle.cycle))
  }

  ghost predicate BasisIs(c: Config, outs: seq<Outcome>, s: State, basis: nat)
  {
    && basis < s.cycleIndex.cycle
    && s.basisWeight.cycle == WeightIn(c, outs, basis) == s.previousTotal.cycle
    && forall n: nat :: n < |outs| ==> CycleOf(c, After(c, outs, n)) <= basis || RanIn(c, outs, n, s.cycleIndex.cycle)
  }

  predicate RanIn(c: Config, outs: seq<Outcome>, n: nat, cycle: nat)
    requires n < |outs|
  {
    CycleOf(c, After(c, outs, n)) == cycle
  }

  /** Over every run whose total does not saturate: the reward in use is the one
      called for by the weight reported in the last cycle that ran before the
      current one, or the base in the first. */
  lemma {:induction false} RunBased(c: Config, outs: seq<Outcome>)
    requires TotalWeight(outs) < U128
    ensures Based(c, outs, Run(c, outs))
    ensures var s := Run(c, outs);
            |outs| > 0 ==> s.reward.cycle == RewardFor(c, if s.cycleIndex.cycle == 0 then 0 else s.basisWeight.cycle)
  {
    RunInvariant(c, outs);
    if |outs| > 0 {
      var n := |outs| - 1;
      RunBased(c, outs[..n]);
      CurrentWithin(c, outs[..n]);
      BasedStep(c, outs, Run(c, outs[..n]));
    }
  }

  lemma CurrentWithin(c: Config, outs: seq<Outcome>)
    requires TotalWeight(outs) < U128
    ensures Run(c, outs).currentTotal.cycle <= TotalWeight(outs)
  {
    WeightConserved(c, outs);
  }

  lemma BasedStep(c: Config, outs: seq<Outcome>, s: State)
    requires |outs| > 0 && s == Run(c, outs[..|outs| - 1]) && Based(c, outs[..|outs| - 1], s)
    requires s.currentTotal.cycle + outs[|outs| - 1].weight < U128
    ensures Based(c, outs, Ticked(c, s, outs[|outs| - 1]))
  {
    var n := |outs| - 1;
    var before, o, index := outs[..n], outs[n], CycleOf(c, s);
    var t := Ticked(c, s, o);
    RunInvariant(c, before);
    TickInvariant(c, s, o);
    TickShape(c, s, o);
    if s.blocks > 0 && index != s.cycleIndex.cycle {
      NoneLater(c, before, index);
      forall k: nat | k < |outs|
        ensures CycleOf(c, After(c, outs, k)) <= s.cycleIndex.cycle || RanIn(c, outs, k, index)
      {
        if k < n { RanBefore(c, before, k); }
        assert outs[..k] == if k < n then before[..k] else before;
      }
    } else {
      forall k: nat | k < |outs| && index > 0
        ensures CycleOf(c, After(c, outs, k)) <= s.basisCycle.cycle || RanIn(c, outs, k, index)
      {
        assert outs[..k] == if k < n then before[..k] else before;
        assert k < n ==> CycleOf(c, After(c, before, k)) <= s.basisCycle.cycle || RanIn(c, before, k, index);
      }
    }
  }

  /** No tick ran in a later cycle than the current one. */
  lemma RanBefore(c: Config, outs: seq<Outcome>, n: nat)
    requires n < |outs|
    ensures CycleOf(c, After(c, outs, n)) <= Run(c, outs).cycleIndex.cycle
  {
    RunInvariant(c, outs[..n]);
    AfterStep(c, outs, n);
    TickInvariant(c, After(c, outs, n), outs[n]);
    CycleMonotone(c, outs, n + 1, |outs|);
    assert outs[..|outs|] == outs;
  }
}
