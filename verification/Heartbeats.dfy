/** Where a slot falls in its reward block, and which heartbeat bucket it proves. */
module Heartbeats {
  import opened Machine

  datatype Lengths = Lengths(block: nat, bucket: nat, tick: nat)

  predicate Positive(l: Lengths) { l.block >= 1 && l.bucket >= 1 && l.tick >= 1 && l.block < U64 }

  function SlotsPerBlock(l: Lengths): (n: nat)
    ensures n >= 1
  {
    Max(l.block / Max(l.tick, 1), 1)
  }

  function BlockOf(l: Lengths, slot: nat): nat { SatSub(slot, 1) / SlotsPerBlock(l) }

  function OffsetOf(l: Lengths, slot: nat): (o: nat)
    ensures o < SlotsPerBlock(l)
  {
    SatSub(slot, 1) % SlotsPerBlock(l)
  }

  function BucketAt(l: Lengths, offset: nat): nat
  {
    SatMul(U64, offset, l.tick) / Max(l.bucket, 1)
  }

  /** `heartbeat_bucket_for_slot` */
  function BucketForSlot(l: Lengths, slot: nat): (nat, nat)
  {
    (BlockOf(l, slot), BucketAt(l, OffsetOf(l, slot)))
  }

  /** Buckets in a block: the length over the bucket, rounded up. */
  function Buckets(l: Lengths): nat
    requires l.bucket >= 1
  {
    (l.block + l.bucket - 1) / l.bucket
  }

  /** Every offset in a block lies within the block. */
  lemma ElapsedWithin(l: Lengths, offset: nat)
    requires Positive(l) && offset < SlotsPerBlock(l)
    ensures offset * l.tick < l.block
    ensures BucketAt(l, offset) == offset * l.tick / l.bucket
  {
    if offset > 0 {
      var n := l.block / l.tick;
      MulMono(offset + 1, n, l.tick, l.tick);
      assert n * l.tick <= l.block;
      assert (offset + 1) * l.tick == offset * l.tick + l.tick;
    }
  }

  lemma CeilDiv(x: nat, d: nat)
    requires d >= 1 && x >= 1
    ensures (x + d - 1) / d == (x - 1) / d + 1
  {
    var q, r := (x - 1) / d, (x - 1) % d;
    assert x - 1 == d * q + r;
    assert d * (q + 1) == d * q + d;
    DivUnique(x + d - 1, d, q + 1, r);
  }

  /** A block has as many slots as ticks fit it, at least one. */
  lemma SlotsFit(l: Lengths)
    requires Positive(l)
    ensures var n := SlotsPerBlock(l); (l.block < l.tick && n == 1) || n * l.tick <= l.block < (n + 1) * l.tick
  {
    FloorLaw(l.block, l.tick);
    if l.block < l.tick { DivUnique(l.block, l.tick, 0, l.block); }
    if l.block >= l.tick { DivMono(l.tick, l.block, l.tick); DivCancel(1, l.tick); }
  }

  /** Where a slot falls: slots are numbered from one, block after block, and the
      bucket is the one in which the slot's first second lies. */
  lemma BucketLaw(l: Lengths, slot: nat) returns (offset: nat)
    requires Positive(l)
    ensures var n := SlotsPerBlock(l); var block, bucket := BucketForSlot(l, slot).0, BucketForSlot(l, slot).1;
            && offset < n && SatSub(slot, 1) == n * block + offset
            && l.bucket * bucket <= offset * l.tick < l.bucket * (bucket + 1)
  {
    offset := OffsetOf(l, slot);
    ElapsedWithin(l, offset);
    FloorLaw(offset * l.tick, l.bucket);
    QuotientAndRest(SatSub(slot, 1), SlotsPerBlock(l));
  }

  lemma QuotientAndRest(x: nat, d: nat)
    requires d > 0
    ensures x == d * (x / d) + x % d
  {}

  /** Every bucket is one of the block's buckets. */
  lemma BucketBelow(l: Lengths, offset: nat)
    requires Positive(l) && offset < SlotsPerBlock(l)
    ensures BucketAt(l, offset) < Buckets(l)
  {
    ElapsedWithin(l, offset);
    CeilDiv(l.block, l.bucket);
    DivMono(offset * l.tick, l.block - 1, l.bucket);
  }

  lemma NextBucket(l: Lengths, a: nat, b: nat)
    requires Positive(l) && a < b < SlotsPerBlock(l) && l.bucket <= l.tick
    ensures BucketAt(l, a) < BucketAt(l, b)
  {
    ElapsedWithin(l, a);
    ElapsedWithin(l, b);
    MulMono(a + 1, b, l.tick, l.tick);
    assert (a + 1) * l.tick == a * l.tick + l.tick;
    NextQuotient(a * l.tick, l.bucket);
    DivMono(a * l.tick + l.bucket, b * l.tick, l.bucket);
  }

  lemma NextQuotient(x: nat, d: nat)
    requires d >= 1
    ensures (x + d) / d == x / d + 1
  {
    var q, r := x / d, x % d;
    assert x == d * q + r;
    assert d * (q + 1) == d * q + d;
    DivUnique(x + d, d, q + 1, r);
  }

  ghost predicate DistinctBuckets(l: Lengths)
  {
    forall a, b :: 0 <= a < b < SlotsPerBlock(l) ==> BucketAt(l, a) != BucketAt(l, b)
  }

  /** Slots of one block get distinct buckets exactly when a bucket is no longer
      than a tick, or the block has a single slot. */
  lemma DistinctBucketsIff(l: Lengths)
    requires Positive(l)
    ensures DistinctBuckets(l) <==> l.bucket <= l.tick || SlotsPerBlock(l) == 1
  {
    if l.bucket <= l.tick {
      forall a, b | 0 <= a < b < SlotsPerBlock(l) ensures BucketAt(l, a) != BucketAt(l, b) {
        NextBucket(l, a, b);
      }
    } else if SlotsPerBlock(l) > 1 {
      ElapsedWithin(l, 0);
      ElapsedWithin(l, 1);
      DivUnique(0, l.bucket, 0, 0);
      DivUnique(l.tick, l.bucket, 0, l.tick);
      assert BucketAt(l, 0) == BucketAt(l, 1);
    }
  }

  /** When the tick divides both lengths, every bucket has its slot. */
  lemma SlotForBucket(l: Lengths, ticksPerBucket: nat, ticksPerBlock: nat, k: nat) returns (offset: nat)
    requires Positive(l) && l.bucket == ticksPerBucket * l.tick && l.block == ticksPerBlock * l.tick
    requires k < Buckets(l)
    ensures offset < SlotsPerBlock(l) && BucketAt(l, offset) == k
  {
    offset := k * ticksPerBucket;
    assert offset * l.tick == l.bucket * k by { MulAssoc(k, ticksPerBucket, l.tick); }
    assert offset < SlotsPerBlock(l) by {
      BucketStarts(l, k);
      OffsetInside(l, ticksPerBlock, offset);
    }
    StartOfBucket(l, k, offset);
  }

  lemma StartOfBucket(l: Lengths, k: nat, offset: nat)
    requires Positive(l) && offset < SlotsPerBlock(l) && offset * l.tick == l.bucket * k
    ensures BucketAt(l, offset) == k
  {
    ElapsedWithin(l, offset);
    DivCancel(k, l.bucket);
  }

  /** Every bucket starts within the block. */
  lemma BucketStarts(l: Lengths, k: nat)
    requires Positive(l) && k < Buckets(l)
    ensures l.bucket * k < l.block
  {
    CeilDiv(l.block, l.bucket);
    var q := (l.block - 1) / l.bucket;
    MulLeft(k, q, l.bucket);
    assert l.bucket * q <= l.block - 1;
  }

  lemma OffsetInside(l: Lengths, ticksPerBlock: nat, offset: nat)
    requires Positive(l) && l.block == ticksPerBlock * l.tick && offset * l.tick < l.block
    ensures offset < SlotsPerBlock(l)
  {
    DivCancel(ticksPerBlock, l.tick);
    if offset >= ticksPerBlock { MulMono(ticksPerBlock, offset, l.tick, l.tick); }
  }

  lemma MulAssoc(a: nat, b: nat, c: nat)
    ensures a * b * c == a * (b * c)
  {}

  /** Slots, blocks and offsets: a slot is its block's start plus its offset. */
  lemma SlotOfOffset(l: Lengths, block: nat, offset: nat)
    requires offset < SlotsPerBlock(l)
    ensures var slot := block * SlotsPerBlock(l) + offset + 1;
            BlockOf(l, slot) == block && OffsetOf(l, slot) == offset
  {
    var n := SlotsPerBlock(l);
    DivUnique(n * block + offset, n, block, offset);
  }
}
