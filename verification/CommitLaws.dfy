/** What the roots, content ids and seeds of batches and epochs cover: stated on the
    bytes hashed and on the positions of observations, not on how they are folded. */
module CommitLaws {
  import opened Machine
  import opened Records
  import opened Sorting
  import opened Borsh
  import opened Batches
  import opened WireLaws
  import Merkle

  // ----- the tree, in bytes

  /** The Merkle tree hash of section 2.1 of RFC 6962, for a full tree. */
  function TreeHash(sha: Merkle.Sha, records: seq<Bytes>, h: nat): Hash32
    requires |records| == Merkle.Pow2(h)
  {
    if h == 0 then sha([0x00] + records[0])
    else
      var half := Merkle.Pow2(h - 1);
      sha([0x01] + TreeHash(sha, records[..half], h - 1) + TreeHash(sha, records[half..], h - 1))
  }

  lemma {:induction false} HeightOfFull(h: nat)
    ensures Merkle.Pow2(h) >= 1 && Merkle.Height(Merkle.Pow2(h)) == h
  {
    if h > 0 {
      HeightOfFull(h - 1);
      Merkle.HeightStep(Merkle.Pow2(h), Merkle.Pow2(h - 1));
    }
  }

  lemma {:induction false} SubtreeIsTreeHash(sha: Merkle.Sha, records: seq<Bytes>, h: nat)
    requires 0 < |records| == Merkle.Pow2(h)
    ensures Merkle.Subtree(sha, Merkle.Leaves(sha, records), h) == TreeHash(sha, records, h)
    decreases h
  {
    if h > 0 {
      var l, r := Halves(sha, records, h);
      SubtreeIsTreeHash(sha, l, h - 1);
      SubtreeIsTreeHash(sha, r, h - 1);
      Merkle.SubtreeStep(sha, Merkle.Leaves(sha, records), h);
    }
  }

  lemma Halves(sha: Merkle.Sha, records: seq<Bytes>, h: nat) returns (l: seq<Bytes>, r: seq<Bytes>)
    requires h > 0 && 0 < |records| == Merkle.Pow2(h)
    ensures 0 < |l| == |r| == Merkle.Pow2(h - 1)
    ensures Merkle.LeftOf(Merkle.Leaves(sha, records), h) == Merkle.Leaves(sha, l)
    ensures Merkle.RightOf(Merkle.Leaves(sha, records), h) == Merkle.Leaves(sha, r)
    ensures TreeHash(sha, records, h) == Merkle.Parent(sha, TreeHash(sha, l, h - 1), TreeHash(sha, r, h - 1))
  {
    var half := Merkle.Pow2(h - 1);
    HeightOfFull(h - 1);
    Merkle.LeavesHalves(sha, records, h);
    l, r := records[..half], records[half..];
  }

  /** On a power of two records the root is exactly that of the RFC. */
  lemma RootIsTreeHash(sha: Merkle.Sha, records: seq<Bytes>, h: nat)
    requires |records| == Merkle.Pow2(h)
    ensures Merkle.RecordRoot(sha, records) == TreeHash(sha, records, h)
  {
    HeightOfFull(h);
    Merkle.RootIsTopDown(sha, Merkle.Leaves(sha, records), h);
    SubtreeIsTreeHash(sha, records, h);
  }

  /** A third record stands beside itself; no records give 32 zero bytes. */
  lemma RootOfThree(sha: Merkle.Sha, a: Bytes, b: Bytes, c: Bytes)
    ensures var x, y, z := sha([0x00] + a), sha([0x00] + b), sha([0x00] + c);
            Merkle.RecordRoot(sha, [a, b, c]) == sha([0x01] + sha([0x01] + x + y) + sha([0x01] + z + z))
    ensures Merkle.RecordRoot(sha, []) == Merkle.Zero() && forall i :: 0 <= i < 32 ==> Merkle.Zero()[i] == 0
  {
    var leaves := Merkle.Leaves(sha, [a, b, c]);
    var x, y, z := leaves[0], leaves[1], leaves[2];
    assert leaves == [x, y, z];
    var l, r := Merkle.Parent(sha, x, y), Merkle.Parent(sha, z, z);
    assert leaves[2..] == [z];
    assert Merkle.NextLevel(sha, [z]) == [r];
    assert Merkle.NextLevel(sha, leaves) == [l, r];
    assert [l, r][2..] == [];
    assert Merkle.NextLevel(sha, [l, r]) == [Merkle.Parent(sha, l, r)];
    Merkle.RootStep(sha, leaves);
    Merkle.RootStep(sha, [l, r]);
    assert Merkle.Root(sha, leaves) == Merkle.Parent(sha, l, r);
  }

  // ----- the order of a batch

  /** By slot, then app, then time of observation. */
  lemma BatchOrder(x: Observation, y: Observation)
    ensures Leq(BatchKey(x), BatchKey(y))
            <==> || x.slot < y.slot
                 || (x.slot == y.slot && x.app < y.app)
                 || (x.slot == y.slot && x.app == y.app && x.observedAtMillis <= y.observedAtMillis)
  {
    var tx, ty := [x.observedAtMillis], [y.observedAtMillis];
    LeqFirst(x.observedAtMillis, y.observedAtMillis, [], []);
    LeqFirst(x.app, y.app, tx, ty);
    LeqFirst(x.slot, y.slot, [x.app] + tx, [y.app] + ty);
    assert tx + [] == tx && ty + [] == ty;
    assert BatchKey(x) == [x.slot] + ([x.app] + tx) && BatchKey(y) == [y.slot] + ([y.app] + ty);
  }

  // ----- content ids

  lemma HexDigitInjective(m: nat, n: nat)
    requires m < 16 && n < 16 && HexDigit(m) == HexDigit(n)
    ensures m == n
  {}

  /** A byte is two digits, the high one first, of `0` to `9` and `a` to `f`. */
  lemma {:induction false} HexAt(bytes: Bytes, i: nat)
    requires i < |bytes|
    ensures Hex(bytes)[2 * i] == "0123456789abcdef"[bytes[i] / 16] as int
    ensures Hex(bytes)[2 * i + 1] == "0123456789abcdef"[bytes[i] % 16] as int
  {
    if i > 0 { HexAt(bytes[1..], i - 1); }
  }

  lemma {:induction false} HexInjective(a: Bytes, b: Bytes)
    requires |a| == |b| && Hex(a) == Hex(b)
    ensures a == b
  {
    if |a| > 0 {
      HexAt(a, 0);
      HexAt(b, 0);
      assert Hex(a)[0] == HexDigit(a[0] / 16) && Hex(b)[0] == HexDigit(b[0] / 16);
      assert Hex(a)[1] == HexDigit(a[0] % 16) && Hex(b)[1] == HexDigit(b[0] % 16);
      HexDigitInjective(a[0] / 16, b[0] / 16);
      HexDigitInjective(a[0] % 16, b[0] % 16);
      assert Hex(a[1..]) == Hex(a)[2..] && Hex(b[1..]) == Hex(b)[2..];
      HexInjective(a[1..], b[1..]);
      assert a == [a[0]] + a[1..] && b == [b[0]] + b[1..];
    }
  }

  /** Different payload hashes have different content ids, all beginning alike. */
  lemma PayloadCidInjective(a: Hash32, b: Hash32)
    ensures PayloadCid(a) == PayloadCid(b) ==> a == b
    ensures forall i :: 0 <= i < 20 ==> PayloadCid(a)[i] == "cid://batch-payload/"[i] as int
  {
    assert PayloadCid(a)[20..] == Hex(a) && PayloadCid(b)[20..] == Hex(b);
    if PayloadCid(a) == PayloadCid(b) { HexInjective(a, b); }
  }

  // ----- the epoch commit

  function SizeOf(b: AssembledBatch): nat { |b.observations| }

  /** The number of observations in the first `i` batches. */
  function Before(batches: seq<AssembledBatch>, i: nat): nat
    requires i <= |batches|
  {
    SumBy(SizeOf, batches[..i])
  }

  /** The records are the encodings of all observations, batch after batch. */
  ghost predicate Enumerates(batches: seq<AssembledBatch>, records: seq<Bytes>)
  {
    && |records| == Before(batches, |batches|)
    && forall i, j :: 0 <= i < |batches| && 0 <= j < |batches[i].observations| ==>
         RecordAt(batches, records, i, j)
  }

  predicate RecordAt(batches: seq<AssembledBatch>, records: seq<Bytes>, i: nat, j: nat)
    requires i < |batches| && j < |batches[i].observations|
  {
    Before(batches, i) + j < |records| && records[Before(batches, i) + j] == Encode(batches[i].observations[j])
  }

  lemma {:induction false} FlattenAt(batches: seq<AssembledBatch>, i: nat, j: nat)
    requires i < |batches| && j < |batches[i].observations|
    ensures Before(batches, i) + j < |Flatten(batches)|
    ensures Flatten(batches)[Before(batches, i) + j] == batches[i].observations[j]
  {
    if i > 0 {
      FlattenAt(batches[1..], i - 1, j);
      BeforeTail(batches, i);
    }
  }

  lemma BeforeTail(batches: seq<AssembledBatch>, i: nat)
    requires 0 < i <= |batches|
    ensures Before(batches, i) == |batches[0].observations| + Before(batches[1..], i - 1)
  {
    SumByDrop(SizeOf, batches[..i], 0);
    assert batches[..i][..0] + batches[..i][1..] == batches[1..][..i - 1];
  }

  lemma {:induction false} FlattenSize(batches: seq<AssembledBatch>)
    ensures |Flatten(batches)| == Before(batches, |batches|)
  {
    if |batches| > 0 {
      FlattenSize(batches[1..]);
      BeforeTail(batches, |batches|);
    }
  }

  /** There is such a list of records ... */
  lemma EncodingsEnumerate(batches: seq<AssembledBatch>)
    ensures Enumerates(batches, Encodings(Flatten(batches)))
  {
    FlattenSize(batches);
    forall i, j | 0 <= i < |batches| && 0 <= j < |batches[i].observations|
      ensures RecordAt(batches, Encodings(Flatten(batches)), i, j)
    {
      FlattenAt(batches, i, j);
    }
  }

  /** ... and only one: every position belongs to an observation. */
  lemma EnumerationUnique(batches: seq<AssembledBatch>, a: seq<Bytes>, b: seq<Bytes>)
    requires Enumerates(batches, a) && Enumerates(batches, b)
    ensures a == b
  {
    forall k | 0 <= k < |a| ensures a[k] == b[k] {
      var i, j := Position(batches, k);
      assert RecordAt(batches, a, i, j) && RecordAt(batches, b, i, j);
    }
  }

  lemma {:induction false} Position(batches: seq<AssembledBatch>, k: nat) returns (i: nat, j: nat)
    requires k < Before(batches, |batches|)
    ensures i < |batches| && j < |batches[i].observations| && k == Before(batches, i) + j
  {
    assert batches[..|batches|] == batches;
    if |batches| > 0 {
      BeforeTail(batches, |batches|);
      if k < |batches[0].observations| {
        i, j := 0, k;
      } else {
        i, j := Position(batches[1..], k - |batches[0].observations|);
        i := i + 1;
        BeforeTail(batches, i);
      }
    }
  }

  /** The observations commitment opens at every observation: it is the root over
      the encodings of all of them, each batch's following those before it,
      with their number as its count; the batches commitment likewise. */
  lemma CommitOpens(env: Hashing, epoch: u64, batches: seq<AssembledBatch>, records: seq<Bytes>, commits: seq<Bytes>)
    requires |batches| > 0 && Enumerates(batches, records)
    requires |commits| == |batches| && forall i :: 0 <= i < |batches| ==> commits[i] == EncodeCommit(batches[i].commit)
    ensures var r := BuildEpochCommit(env, true, epoch, batches);
            && r.Ok? && r.value.epoch == epoch
            && r.value.observations == MerkleCommitment(Merkle.RecordRoot(env.sha, records), |records| % U32)
            && r.value.acceptedBatches == MerkleCommitment(Merkle.RecordRoot(env.sha, commits), |batches| % U32)
            && r.value.randomnessSeed
               == env.stable(LittleEndian(epoch, 8) + r.value.acceptedBatches.root + r.value.observations.root)
  {
    EncodingsEnumerate(batches);
    EnumerationUnique(batches, records, Encodings(Flatten(batches)));
    assert |Flatten(batches)| == |records|;
    assert commits == CommitEncodings(batches);
    var accepted, observed := Merkle.RecordRoot(env.sha, commits), Merkle.RecordRoot(env.sha, records);
    SeedLayout(epoch, accepted, observed);
  }

  lemma SeedLayout(epoch: u64, accepted: Hash32, observed: Hash32)
    ensures SeedBytes(epoch, accepted, observed) == LittleEndian(epoch, 8) + accepted + observed
  {
    WriteIntIs(epoch, 8, accepted + observed);
    assert LittleEndian(epoch, 8) + (accepted + observed) == LittleEndian(epoch, 8) + accepted + observed;
  }

  /** It fails without the capability, and then on an empty list. */
  lemma CommitFails(env: Hashing, canPropose: bool, epoch: u64, batches: seq<AssembledBatch>)
    ensures var r := BuildEpochCommit(env, canPropose, epoch, batches);
            && (r.Ok? <==> canPropose && |batches| > 0)
            && (r.Err? ==> r.error == if canPropose then EmptyBatchSet else MissingPropose)
  {}

  /** Binding by the observations commitment alone: two lists of batches, however
      divided, have the same observation at every flattened position. */
  lemma ObservationsBind(env: Hashing, epoch: u64, a: seq<AssembledBatch>, b: seq<AssembledBatch>,
                         i: nat, j: nat, k: nat, l: nat)
    requires |a| > 0 && |b| > 0 && Before(a, |a|) < U32 && Before(b, |b|) < U32
    requires BuildEpochCommit(env, true, epoch, a).value.observations
          == BuildEpochCommit(env, true, epoch, b).value.observations
    requires Merkle.CollisionFree(env.sha, Merkle.TreeInputs(env.sha, Encodings(Flatten(a)))
                                         + Merkle.TreeInputs(env.sha, Encodings(Flatten(b))))
    requires i < |a| && j < |a[i].observations| && Encodable(a[i].observations[j])
    requires k < |b| && l < |b[k].observations| && Encodable(b[k].observations[l])
    requires Before(a, i) + j == Before(b, k) + l
    ensures Before(a, |a|) == Before(b, |b|) && a[i].observations[j] == b[k].observations[l]
  {
    var xs, ys, at := Flatten(a), Flatten(b), Before(a, i) + j;
    assert SameCommitment(env.sha, xs, ys) by {
      ObservationsOf(env, epoch, a, xs);
      ObservationsOf(env, epoch, b, ys);
    }
    assert |xs| == Before(a, |a|) && |ys| == Before(b, |b|) by {
      FlattenSize(a);
      FlattenSize(b);
    }
    var x, y := a[i].observations[j], b[k].observations[l];
    assert at < |xs| && xs[at] == x by { FlattenAt(a, i, j); }
    assert at < |ys| && ys[at] == y by { FlattenAt(b, k, l); }
    ListsBind(env.sha, xs, ys, at);
  }

  lemma ObservationsOf(env: Hashing, epoch: u64, batches: seq<AssembledBatch>, os: seq<Observation>)
    requires |batches| > 0 && os == Flatten(batches)
    ensures var r := BuildEpochCommit(env, true, epoch, batches);
            r.Ok? && r.value.observations == MerkleCommitment(Merkle.RecordRoot(env.sha, Encodings(os)), |os| % U32)
  {}

  ghost predicate SameCommitment(sha: Merkle.Sha, a: seq<Observation>, b: seq<Observation>)
  {
    && |a| % U32 == |b| % U32 && Merkle.RecordRoot(sha, Encodings(a)) == Merkle.RecordRoot(sha, Encodings(b))
    && Merkle.CollisionFree(sha, Merkle.TreeInputs(sha, Encodings(a)) + Merkle.TreeInputs(sha, Encodings(b)))
  }

  lemma ListsBind(sha: Merkle.Sha, a: seq<Observation>, b: seq<Observation>, at: nat)
    requires |a| < U32 && |b| < U32 && SameCommitment(sha, a, b)
    requires at < |a| && at < |b| && Encodable(a[at]) && Encodable(b[at])
    ensures |a| == |b| && a[at] == b[at]
  {
    FitsU32(|a|);
    FitsU32(|b|);
    Merkle.CommitmentBinds(sha, Encodings(a), Encodings(b));
    EncodeInjective(a[at], b[at]);
  }

  /** The seed tells apart epochs and either root, if the hash does its input. */
  lemma SeedBinds(env: Hashing, e: u64, accepted: Hash32, observed: Hash32,
                  e': u64, accepted': Hash32, observed': Hash32)
    requires var s, t := SeedBytes(e, accepted, observed), SeedBytes(e', accepted', observed');
             env.stable(s) == env.stable(t) ==> s == t
    requires env.stable(SeedBytes(e, accepted, observed)) == env.stable(SeedBytes(e', accepted', observed'))
    ensures e == e' && accepted == accepted' && observed == observed'
  {
    Widths();
    IntPrefix(e, e', 8, accepted + observed, accepted' + observed');
    HashPrefix(accepted, accepted', observed, observed');
  }
}
