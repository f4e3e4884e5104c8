/** The game-value score of one (slot, app) group: a base of a million units per
    median player, scaled by tier weight, time decay and coverage bonus in parts
    per million. 32- and 64-bit operations wrap as in a release build. */
module Gvs {
  import opened Machine

  datatype Tier = Tier1 | Tier2 | Tier3

  datatype TierParams = TierParams(tier1: u32, tier2Min: u32, tier2Max: u32, tier3Min: u32, tier3Max: u32)

  const PPM: nat := 1_000_000
  const PPM_CUBED: nat := 1_000_000_000_000_000_000

  /** Used when no parameters have been activated. */
  const DEFAULT_TIERS := TierParams(1_000_000, 300_000, 600_000, 50_000, 150_000)

  predicate Ordered(p: TierParams)
  {
    p.tier3Min <= p.tier3Max <= p.tier2Min <= p.tier2Max <= p.tier1 <= PPM
  }

  function Wrap32(x: nat): nat { x % U32 }

  function ClassifyTier(p: TierParams, collectors: u32, median: u64): (Tier, nat)
  {
    if collectors >= 3 && median >= 1_000 then (Tier1, p.tier1)
    else if collectors >= 3 then
      var collectorBonus := Wrap32(SatSub(collectors, 3) * 50_000);
      var playerBonus := Min(median / 500, 3) * 50_000;
      (Tier2, Min(Wrap32(Wrap32(p.tier2Min + collectorBonus) + playerBonus), p.tier2Max))
    else
      var collectorBonus := Wrap32(SatSub(collectors, 1) * 25_000);
      var playerBonus := Min(median / 500, 2) * 25_000;
      (Tier3, Min(Wrap32(Wrap32(p.tier3Min + collectorBonus) + playerBonus), p.tier3Max))
  }

  function TimeDecayPpm(slotsPerEpoch: u64, slot: u64): nat
  {
    var slots := Max(slotsPerEpoch, 1);
    if slots <= 1 then PPM
    else
      Decay(RampOf(Min(SatSub(slot, 1), slots - 1), slots - 1))
  }

  function RampOf(index: nat, span: nat): nat
    requires span > 0
  {
    (index * 150_000 % U64) / span
  }

  function Decay(ramp: nat): nat { Min(Wrap32(850_000 + ramp % U32), PPM) }

  function CoverageBonusPpm(collectors: u32): nat
  {
    Min(Wrap32(PPM + SatMul(U32, SatSub(collectors, 1), 50_000)), 1_250_000)
  }

  function BaseGlv(median: u64): nat { SatMul(U64, median, PPM) }

  function Score(base: nat, weight: nat, decay: nat, coverage: nat): nat
  {
    var weighted := SatMul(U128, SatMul(U128, SatMul(U128, base, weight), decay), coverage);
    Min(weighted / PPM_CUBED, U64 - 1)
  }

  function GroupScore(p: TierParams, slotsPerEpoch: u64, slot: u64, collectors: u32, median: u64): nat
  {
    Score(BaseGlv(median), ClassifyTier(p, collectors, median).1,
          TimeDecayPpm(slotsPerEpoch, slot), CoverageBonusPpm(collectors))
  }

  /** What is published of a score. */
  datatype Factors = Factors(base: nat, tier: Tier, weightPpm: nat, decayPpm: nat, coveragePpm: nat, score: nat)

  function FactorsOf(p: TierParams, slotsPerEpoch: u64, slot: u64, collectors: u32, median: u64): Factors
  {
    var tier := ClassifyTier(p, collectors, median);
    Factors(BaseGlv(median), tier.0, tier.1, TimeDecayPpm(slotsPerEpoch, slot), CoverageBonusPpm(collectors),
            GroupScore(p, slotsPerEpoch, slot, collectors, median))
  }

  /** With ordered tiers a published score is the exact product of the published
      factors, however many collectors there are; the base is a million units a
      player, and the tier is decided by three collectors and a thousand players. */
  lemma FactorsExact(p: TierParams, slotsPerEpoch: u64, slot: u64, collectors: u32, median: u64)
    requires Ordered(p)
    ensures var f := FactorsOf(p, slotsPerEpoch, slot, collectors, median);
            && f.weightPpm <= PPM && f.decayPpm <= PPM && f.coveragePpm <= 1_250_000
            && f.score == Min(Product(f.base, f.weightPpm, f.decayPpm, f.coveragePpm) / PPM_CUBED, U64 - 1)
            && 4 * f.score <= 5 * f.base && f.base == Min(1_000_000 * median, 0xFFFF_FFFF_FFFF_FFFF)
            && (f.tier == Tier1 <==> collectors >= 3 && median >= 1_000)
            && (f.tier == Tier2 <==> collectors >= 3 && median < 1_000)
            && (f.tier == Tier3 <==> collectors < 3)
  {
    var f := FactorsOf(p, slotsPerEpoch, slot, collectors, median);
    ScoreExact(f.base, f.weightPpm, f.decayPpm, f.coveragePpm);
  }

  // ----- the coverage bonus

  const MAX_COVERED: nat := 85_880

  /** The bonus is at least 1.0 exactly while the 32-bit sum does not wrap. */
  lemma CoverageExact(collectors: u32)
    ensures CoverageBonusPpm(collectors) >= PPM <==> collectors <= MAX_COVERED
    ensures collectors <= MAX_COVERED ==>
              CoverageBonusPpm(collectors) == Min(PPM + SatSub(collectors, 1) * 50_000, 1_250_000)
  {
    var extra := SatSub(collectors, 1);
    var sum := PPM + SatMul(U32, extra, 50_000);
    if collectors <= MAX_COVERED {
      FitsU32(sum);
    } else {
      assert U32 <= sum < U32 + PPM;
      Wrapped(sum);
    }
  }

  lemma Wrapped(x: nat)
    requires U32 <= x < 2 * U32
    ensures x % U32 == x - U32
  {}

  lemma CoverageMonotone(a: u32, b: u32)
    requires a <= b <= MAX_COVERED
    ensures CoverageBonusPpm(a) <= CoverageBonusPpm(b) <= 1_250_000
  {
    CoverageExact(a);
    CoverageExact(b);
  }

  // ----- the tier weight

  /** Past this many collectors the 32-bit sum of the second tier may wrap. */
  const MAX_WEIGHED: nat := 85_881

  lemma TierWeightExact(p: TierParams, collectors: u32, median: u64)
    requires Ordered(p) && collectors <= MAX_WEIGHED
    ensures var w := ClassifyTier(p, collectors, median).1;
            && w <= p.tier1
            && (collectors >= 3 && median >= 1_000 ==> w == p.tier1)
            && (collectors >= 3 && median < 1_000 ==>
                  w == Min(p.tier2Min + (collectors - 3) * 50_000 + median / 500 * 50_000, p.tier2Max))
            && (collectors < 3 ==>
                  w == Min(p.tier3Min + SatSub(collectors, 1) * 25_000 + Min(median / 500, 2) * 25_000, p.tier3Max))
  {
    if collectors >= 3 && median < 1_000 {
      assert median / 500 <= 1;
      FitsU32((collectors - 3) * 50_000);
      FitsU32(p.tier2Min + (collectors - 3) * 50_000);
      FitsU32(p.tier2Min + (collectors - 3) * 50_000 + median / 500 * 50_000);
    } else if collectors < 3 {
      FitsU32(SatSub(collectors, 1) * 25_000);
      FitsU32(p.tier3Min + SatSub(collectors, 1) * 25_000);
      FitsU32(p.tier3Min + SatSub(collectors, 1) * 25_000 + Min(median / 500, 2) * 25_000);
    }
  }

  lemma TierWeightMonotone(p: TierParams, a: u32, b: u32, m: u64, n: u64)
    requires Ordered(p) && a <= b <= MAX_WEIGHED && m <= n
    ensures ClassifyTier(p, a, m).1 <= ClassifyTier(p, b, n).1 <= PPM
  {
    TierWeightExact(p, a, m);
    TierWeightExact(p, b, n);
    DivMono(m, n, 500);
  }

  // ----- the time decay

  lemma RampBound(index: nat, span: nat)
    requires index <= span && span > 0
    ensures index * 150_000 / span <= 150_000
  {
    MulMono(index, span, 150_000, 150_000);
    DivMono(index * 150_000, span * 150_000, span);
    assert span * 150_000 / span == 150_000 by { DivCancel(150_000, span); }
  }

  function Ramp(slots: nat, slot: nat): nat
    requires slots > 1
  {
    Min(SatSub(slot, 1), slots - 1) * 150_000 / (slots - 1)
  }

  lemma RampMonotone(slots: nat, s: nat, t: nat)
    requires slots > 1 && s <= t
    ensures Ramp(slots, s) <= Ramp(slots, t)
  {
    var i, j := Min(SatSub(s, 1), slots - 1), Min(SatSub(t, 1), slots - 1);
    MulMono(i, j, 150_000, 150_000);
    DivMono(i * 150_000, j * 150_000, slots - 1);
  }

  /** The ramp's product fits 64 bits. */
  predicate RampFits(slotsPerEpoch: u64) { SatSub(slotsPerEpoch, 1) * 150_000 < U64 }

  lemma TimeDecayMonotone(slotsPerEpoch: u64, s: u64, t: u64)
    requires s <= t && RampFits(slotsPerEpoch)
    ensures 850_000 <= TimeDecayPpm(slotsPerEpoch, s) <= TimeDecayPpm(slotsPerEpoch, t) <= PPM
  {
    if slotsPerEpoch > 1 {
      RampMonotone(slotsPerEpoch, s, t);
      DecayExact(slotsPerEpoch, s);
      DecayExact(slotsPerEpoch, t);
    }
  }

  lemma DecayExact(slotsPerEpoch: u64, slot: u64)
    requires 1 < slotsPerEpoch && RampFits(slotsPerEpoch)
    ensures TimeDecayPpm(slotsPerEpoch, slot) == 850_000 + Ramp(slotsPerEpoch, slot) <= PPM
  {
    var span := slotsPerEpoch - 1;
    var index := Min(SatSub(slot, 1), span);
    RampOfExact(index, span);
    SmallRamp(RampOf(index, span));
  }

  /** The decay rises from 850,000 ppm at the first slot to 1,000,000 at the last,
      in proportion, rounded down; an epoch of one slot has no decay. */
  lemma DecayBracket(slotsPerEpoch: u64, slot: u64)
    requires RampFits(slotsPerEpoch)
    ensures var d := TimeDecayPpm(slotsPerEpoch, slot); var span := slotsPerEpoch - 1;
            && (slotsPerEpoch <= 1 ==> d == 1_000_000)
            && (slotsPerEpoch > 1 && slot <= 1 ==> d == 850_000)
            && (slotsPerEpoch > 1 && slot >= slotsPerEpoch ==> d == 1_000_000)
            && (1 <= slot <= slotsPerEpoch && slotsPerEpoch > 1 ==>
                  d >= 850_000 && span * (d - 850_000) <= 150_000 * (slot - 1) < span * (d - 850_000 + 1))
  {
    if slotsPerEpoch > 1 {
      var span := slotsPerEpoch - 1;
      DecayExact(slotsPerEpoch, slot);
      FloorLaw(Min(SatSub(slot, 1), span) * 150_000, span);
      DivUnique(0, span, 0, 0);
      DivCancel(150_000, span);
    }
  }

  lemma RampOfExact(index: nat, span: nat)
    requires index <= span && 0 < span && span * 150_000 < U64
    ensures RampOf(index, span) == index * 150_000 / span <= 150_000
  {
    RampBound(index, span);
    IndexFits(index, span);
  }

  lemma IndexFits(index: nat, span: nat)
    requires index <= span && span * 150_000 < U64
    ensures index * 150_000 % U64 == index * 150_000
  {
    MulMono(index, span, 150_000, 150_000);
    FitsU64(index * 150_000);
  }

  lemma SmallRamp(ramp: nat)
    requires ramp <= 150_000
    ensures Decay(ramp) == 850_000 + ramp
  {
    FitsU32(ramp);
    FitsU32(850_000 + ramp);
  }

  // ----- the decay when the product wraps

  ghost predicate DecayRises(slotsPerEpoch: u64)
  {
    forall s: u64, t: u64 :: s <= t ==> TimeDecayPpm(slotsPerEpoch, s) <= TimeDecayPpm(slotsPerEpoch, t)
  }

  /** The last index before the product first wraps, and one at which it wraps to
      just below 2^64: 150,000 is sixteen times an odd number. */
  const LAST_FIT: nat := 122_978_293_824_730
  const PEAK: nat := 64_686_582_551_808_161

  /** The decay never falls with the slot if and only if the product fits, or the
      epoch is so long that every quotient is zero. */
  lemma DecayRisesIff(slotsPerEpoch: u64)
    ensures DecayRises(slotsPerEpoch) <==> RampFits(slotsPerEpoch) || slotsPerEpoch >= U64 - 14
  {
    if RampFits(slotsPerEpoch) {
      forall s: u64, t: u64 | s <= t ensures TimeDecayPpm(slotsPerEpoch, s) <= TimeDecayPpm(slotsPerEpoch, t) {
        TimeDecayMonotone(slotsPerEpoch, s, t);
      }
    } else if slotsPerEpoch >= U64 - 14 {
      forall s: u64 ensures TimeDecayPpm(slotsPerEpoch, s) == 850_000 { LongEpochFlat(slotsPerEpoch, s); }
    } else if slotsPerEpoch - 1 <= PEAK {
      DecayFalls(slotsPerEpoch, LAST_FIT, 18_446_744_073_709_500_000, 98_384);
    } else {
      DecayFalls(slotsPerEpoch, PEAK, U64 - 16, 149_984);
    }
  }

  lemma DecayFalls(slotsPerEpoch: u64, index: nat, high: nat, low: nat)
    requires index < slotsPerEpoch - 1 && 150_000 < slotsPerEpoch - 1 <= high < U64 && low < 150_000
    requires index * 150_000 % U64 == high && (index + 1) * 150_000 % U64 == low
    requires high / (slotsPerEpoch - 1) <= 150_000
    ensures !DecayRises(slotsPerEpoch)
  {
    RampDrops(index, slotsPerEpoch - 1, high, low);
    SmallRamp(RampOf(index, slotsPerEpoch - 1));
    SmallRamp(0);
    var s: u64, t: u64 := index + 1, index + 2;
    assert TimeDecayPpm(slotsPerEpoch, t) < TimeDecayPpm(slotsPerEpoch, s);
  }

  lemma RampDrops(index: nat, span: nat, high: nat, low: nat)
    requires 0 < span <= high && low < span && high / span <= 150_000
    requires index * 150_000 % U64 == high && (index + 1) * 150_000 % U64 == low
    ensures 1 <= RampOf(index, span) <= 150_000 && RampOf(index + 1, span) == 0
  {
    DivMono(span, high, span);
    DivCancel(1, span);
    DivUnique(low, span, 0, low);
  }

  lemma LongEpochFlat(slotsPerEpoch: u64, slot: u64)
    requires slotsPerEpoch >= U64 - 14
    ensures TimeDecayPpm(slotsPerEpoch, slot) == 850_000
  {
    var span := slotsPerEpoch - 1;
    var index := Min(SatSub(slot, 1), span);
    var x := index * 150_000 % U64;
    SixteenfoldBelow(index * 9_375, x);
    DivUnique(x, span, 0, x);
  }

  lemma SixteenfoldBelow(n: nat, x: nat)
    requires x == 16 * n % U64
    ensures x <= U64 - 16
  {
    var q := 16 * n / U64;
    assert 16 * n == U64 * q + x;
    assert x == 16 * (n - 0x1000_0000_0000_0000 * q);
  }

  lemma FitsU64(x: nat)
    requires x < U64
    ensures x % U64 == x
  {}

  // ----- the score

  function Product(base: nat, weight: nat, decay: nat, coverage: nat): nat
  {
    base * weight * decay * coverage
  }

  lemma ProductMonotone(b: nat, w: nat, d: nat, c: nat, b': nat, w': nat, d': nat, c': nat)
    requires b <= b' && w <= w' && d <= d' && c <= c'
    ensures Product(b, w, d, c) <= Product(b', w', d', c')
  {
    MulMono(b, b', w, w');
    MulMono(b * w, b' * w', d, d');
    MulMono(b * w * d, b' * w' * d', c, c');
  }

  /** The 128-bit products never saturate: the score is the exact floor of the
      four-factor product, clamped to 64 bits, and at most 1.25 times the base. */
  lemma ScoreExact(base: nat, weight: nat, decay: nat, coverage: nat)
    requires base < U64 && weight <= PPM && decay <= PPM && coverage <= 1_250_000
    ensures Score(base, weight, decay, coverage) == Min(Product(base, weight, decay, coverage) / PPM_CUBED, U64 - 1)
    ensures 4 * Score(base, weight, decay, coverage) <= 5 * base
  {
    MulMono(base, U64, weight, PPM);
    MulMono(base * weight, U64 * PPM, decay, PPM);
    MulMono(base * weight * decay, U64 * PPM * PPM, coverage, 1_250_000);
    ProductMonotone(base, weight, decay, coverage, base, PPM, PPM, 1_250_000);
    assert Product(base, PPM, PPM, 1_250_000) == base * 1_250_000_000_000_000_000;
    var q := Product(base, weight, decay, coverage) / PPM_CUBED;
    assert q * PPM_CUBED <= base * 1_250_000_000_000_000_000;
  }

  lemma ScoreMonotone(b: nat, w: nat, d: nat, c: nat, b': nat, w': nat, d': nat, c': nat)
    requires b <= b' < U64 && w <= w' <= PPM && d <= d' <= PPM && c <= c' <= 1_250_000
    ensures Score(b, w, d, c) <= Score(b', w', d', c')
  {
    ScoreExact(b, w, d, c);
    ScoreExact(b', w', d', c');
    ProductMonotone(b, w, d, c, b', w', d', c');
    DivMono(Product(b, w, d, c), Product(b', w', d', c'), PPM_CUBED);
  }

  /** The decay never falls with the slot, as `DecayRisesIff` shows. */
  predicate Steady(slotsPerEpoch: u64) { RampFits(slotsPerEpoch) || slotsPerEpoch >= U64 - 14 }

  /** More collectors, more players or a later slot never lower the score, while
      the coverage bonus and the decay do not wrap. */
  lemma GroupScoreMonotone(p: TierParams, slotsPerEpoch: u64, s: u64, t: u64, a: u32, b: u32, m: u64, n: u64)
    requires Ordered(p) && Steady(slotsPerEpoch)
    requires s <= t && a <= b <= MAX_COVERED && m <= n
    ensures GroupScore(p, slotsPerEpoch, s, a, m) <= GroupScore(p, slotsPerEpoch, t, b, n)
    ensures 4 * GroupScore(p, slotsPerEpoch, t, b, n) <= 5 * BaseGlv(n)
  {
    TierWeightMonotone(p, a, b, m, n);
    DecayRisesIff(slotsPerEpoch);
    CoverageMonotone(a, b);
    MulMono(m, n, PPM, PPM);
    var w, w' := ClassifyTier(p, a, m).1, ClassifyTier(p, b, n).1;
    var d, d' := TimeDecayPpm(slotsPerEpoch, s), TimeDecayPpm(slotsPerEpoch, t);
    ScoreMonotone(BaseGlv(m), w, d, CoverageBonusPpm(a), BaseGlv(n), w', d', CoverageBonusPpm(b));
    ScoreExact(BaseGlv(n), w', d', CoverageBonusPpm(b));
  }

  lemma FirstSlotDecay(slotsPerEpoch: u64)
    ensures TimeDecayPpm(slotsPerEpoch, 1) == if slotsPerEpoch > 1 then 850_000 else PPM
  {
    if slotsPerEpoch > 1 {
      DivUnique(0, slotsPerEpoch - 1, 0, 0);
      SmallRamp(0);
    }
  }

  /** One collector past the bound the score of an otherwise identical group falls,
      however long the epoch. */
  lemma GroupScoreFallsPastBound(slotsPerEpoch: u64)
    ensures GroupScore(DEFAULT_TIERS, slotsPerEpoch, 1, MAX_COVERED + 1, 1_000)
          < GroupScore(DEFAULT_TIERS, slotsPerEpoch, 1, 3, 1_000)
  {
    FirstSlotDecay(slotsPerEpoch);
    CoverageExact(3);
    assert CoverageBonusPpm(MAX_COVERED + 1) == 32_704 by { Wrapped(PPM + MAX_COVERED * 50_000); }
    LessCoverageLessScore(850_000);
    LessCoverageLessScore(PPM);
  }

  lemma LessCoverageLessScore(decay: nat)
    requires decay == 850_000 || decay == PPM
    ensures Score(1_000_000_000, PPM, decay, 32_704) < Score(1_000_000_000, PPM, decay, 1_100_000)
  {
    ScoreExact(1_000_000_000, PPM, decay, 1_100_000);
    ScoreExact(1_000_000_000, PPM, decay, 32_704);
    assert Product(1_000_000_000, PPM, 850_000, 1_100_000) / PPM_CUBED == 935_000_000;
    assert Product(1_000_000_000, PPM, 850_000, 32_704) / PPM_CUBED == 27_798_400;
    assert Product(1_000_000_000, PPM, PPM, 1_100_000) / PPM_CUBED == 1_100_000_000;
    assert Product(1_000_000_000, PPM, PPM, 32_704) / PPM_CUBED == 32_704_000;
  }

  /** All tiers weigh the same. */
  const FLAT_TIERS := TierParams(1_000_000, 1_000_000, 1_000_000, 1_000_000, 1_000_000)

  /** With flat tiers and nobody collecting, the score follows the decay. */
  lemma FlatScore(slotsPerEpoch: u64, slot: u64)
    ensures GroupScore(FLAT_TIERS, slotsPerEpoch, slot, 0, 1_000_000) == 1_000_000 * TimeDecayPpm(slotsPerEpoch, slot)
  {
    var d := TimeDecayPpm(slotsPerEpoch, slot);
    TierWeightExact(FLAT_TIERS, 0, 1_000_000);
    CoverageExact(0);
    ScoreExact(1_000_000_000_000, PPM, d, PPM);
    assert Product(1_000_000_000_000, PPM, d, PPM) == PPM_CUBED * (1_000_000 * d);
    DivCancel(1_000_000 * d, PPM_CUBED);
  }

  /** For all ordered tiers, up to a number of collectors. */
  ghost predicate MonotoneUpTo(slotsPerEpoch: u64, collectors: u32)
  {
    forall p, s: u64, t: u64, a: u32, b: u32, m: u64, n: u64 ::
      Ordered(p) && s <= t && a <= b <= collectors && m <= n ==>
        GroupScore(p, slotsPerEpoch, s, a, m) <= GroupScore(p, slotsPerEpoch, t, b, n)
  }

  /** The score is monotone in collectors, players and slot exactly up to 85,880
      collectors, in epochs of exactly the lengths at which the decay is. */
  lemma MonotoneUpToIff(slotsPerEpoch: u64, collectors: u32)
    ensures MonotoneUpTo(slotsPerEpoch, collectors) <==> collectors <= MAX_COVERED && Steady(slotsPerEpoch)
  {
    if collectors > MAX_COVERED {
      GroupScoreFallsPastBound(slotsPerEpoch);
    } else if Steady(slotsPerEpoch) {
      forall p, s: u64, t: u64, a: u32, b: u32, m: u64, n: u64
        | Ordered(p) && s <= t && a <= b <= collectors && m <= n
        ensures GroupScore(p, slotsPerEpoch, s, a, m) <= GroupScore(p, slotsPerEpoch, t, b, n)
      {
        GroupScoreMonotone(p, slotsPerEpoch, s, t, a, b, m, n);
      }
    } else {
      DecayRisesIff(slotsPerEpoch);
      var s: u64, t: u64 :| s <= t && TimeDecayPpm(slotsPerEpoch, t) < TimeDecayPpm(slotsPerEpoch, s);
      FlatScore(slotsPerEpoch, s);
      FlatScore(slotsPerEpoch, t);
      assert GroupScore(FLAT_TIERS, slotsPerEpoch, t, 0, 1_000_000)
           < GroupScore(FLAT_TIERS, slotsPerEpoch, s, 0, 1_000_000);
    }
  }
}
