/** Batch assembly and epoch commits: what the collector publishes and what the
    proposer commits to. `stable_hash32` is any function; nothing is assumed of it. */
module Batches {
  import opened Machine
  import opened Records
  import opened Sorting
  import opened Borsh
  import Merkle

  datatype Hashing = Hashing(sha: Merkle.Sha, stable: Bytes -> Hash32)

  datatype AssembledBatch = AssembledBatch(
    commit: BatchCommit,
    payloadHash: Hash32,
    payloadCid: Bytes,
    payload: Bytes,
    observations: seq<Observation>)

  datatype PipelineError =
    | MismatchedEpoch(expected: u64, actual: u64)
    | MismatchedCollector(wanted: Hash32, found: Hash32)
    | EmptyBatch

  // ----- content ids: `cid://batch-payload/` and the hash in hexadecimal

  function HexDigit(n: nat): Byte
    requires n < 16
  {
    if n < 10 then 48 + n else 87 + n
  }

  function Hex(bytes: Bytes): (text: Bytes)
    ensures |text| == 2 * |bytes|
  {
    if |bytes| == 0 then []
    else [HexDigit(bytes[0] / 16), HexDigit(bytes[0] % 16)] + Hex(bytes[1..])
  }

  function PayloadCid(hash: Hash32): (cid: Bytes)
    ensures |cid| == 84
  {
    [99, 105, 100, 58, 47, 47, 98, 97, 116, 99, 104, 45, 112, 97, 121, 108, 111, 97, 100, 47] + Hex(hash)
  }

  // ----- observations as Merkle leaves

  function Encodings(os: seq<Observation>): (bs: seq<Bytes>)
    ensures |bs| == |os| && forall i :: 0 <= i < |os| ==> bs[i] == Encode(os[i])
  {
    seq(|os|, i requires 0 <= i < |os| => Encode(os[i]))
  }

  lemma EncodingsInjective(a: seq<Observation>, b: seq<Observation>)
    requires EncodableList(a) && EncodableList(b) && Encodings(a) == Encodings(b)
    ensures a == b
  {
    assert |a| == |Encodings(a)| == |b|;
    forall i | 0 <= i < |a| ensures a[i] == b[i] {
      assert Encodings(a)[i] == Encodings(b)[i];
      EncodeInjective(a[i], b[i]);
    }
  }

  /** Every derived field of a batch agrees with its observations. The content id
      may be any: peers' batches are accepted under ids of their choosing. */
  predicate Consistent(env: Hashing, b: AssembledBatch)
  {
    && |b.observations| > 0 && EncodableList(b.observations)
    && b.payload == EncodeList(b.observations)
    && b.payloadHash == env.stable(b.payload)
    && b.payloadCid == b.commit.payloadCid && |b.payloadCid| < U32
    && b.commit.batch == MerkleCommitment(Merkle.RecordRoot(env.sha, Encodings(b.observations)), |b.observations|)
    && b.commit.obsCount == |b.observations|
    && forall o :: o in b.observations ==> o.epoch == b.commit.epoch && o.collector == b.commit.collector
  }

  function BatchKey(o: Observation): Key { [o.slot, o.app, o.observedAtMillis] }

  lemma SortedSlots(os: seq<Observation>)
    requires |os| > 0 && SortedBy(BatchKey, os)
    ensures forall o :: o in os ==> os[0].slot <= o.slot <= os[|os| - 1].slot
  {
    forall i | 0 <= i < |os| ensures os[0].slot <= os[i].slot <= os[|os| - 1].slot {
      if i > 0 { assert Leq(BatchKey(os[0]), BatchKey(os[i])); }
      if i < |os| - 1 { assert Leq(BatchKey(os[i]), BatchKey(os[|os| - 1])); }
    }
  }

  class BatchBuilder {
    const epoch: u64
    const collector: Hash32
    var observations: seq<Observation>

    ghost predicate Valid()
      reads this
    {
      forall o :: o in observations ==> o.epoch == epoch && o.collector == collector
    }

    constructor (epoch: u64, collector: Hash32)
      ensures Valid() && this.epoch == epoch && this.collector == collector && observations == []
    {
      this.epoch, this.collector, observations := epoch, collector, [];
    }

    method Push(o: Observation) returns (r: Result<(), PipelineError>)
      requires Valid()
      modifies this
      ensures Valid()
      ensures r.Ok? <==> o.epoch == epoch && o.collector == collector
      ensures r.Err? ==> r.error == if o.epoch != epoch then MismatchedEpoch(epoch, o.epoch)
                                    else MismatchedCollector(collector, o.collector)
      ensures observations == if r.Ok? then old(observations) + [o] else old(observations)
    {
      if o.epoch != epoch { return Err(MismatchedEpoch(epoch, o.epoch)); }
      if o.collector != collector { return Err(MismatchedCollector(collector, o.collector)); }
      observations := observations + [o];
      return Ok(());
    }

    /** The list must fit borsh's 32-bit lengths, or the encoder panics. */
    method Finalize(env: Hashing, height: u64) returns (r: Result<AssembledBatch, PipelineError>)
      requires Valid() && EncodableList(observations)
      ensures r.Err? <==> observations == []
      ensures r.Err? ==> r.error == EmptyBatch
      ensures r.Ok? ==>
        var b := r.value;
        && Consistent(env, b) && b.payloadCid == PayloadCid(b.payloadHash)
        && b.commit.epoch == epoch && b.commit.collector == collector && b.commit.submittedAtHeight == height
        && multiset(b.observations) == multiset(observations)
        && SortedBy(BatchKey, b.observations)
        && (forall k :: WithKey(BatchKey, k, b.observations) == WithKey(BatchKey, k, observations))
        && (forall o :: o in observations ==> b.commit.slotStart <= o.slot <= b.commit.slotEnd)
        && (exists o :: o in observations && o.slot == b.commit.slotStart)
        && (exists o :: o in observations && o.slot == b.commit.slotEnd)
    {
      if observations == [] { return Err(EmptyBatch); }
      var sorted := SortBy(BatchKey, observations);
      SortBySorted(BatchKey, observations);
      forall k ensures WithKey(BatchKey, k, sorted) == WithKey(BatchKey, k, observations) {
        SortByStable(BatchKey, k, observations);
      }
      SameMembers(sorted, observations);
      SortedSlots(sorted);
      var payload := EncodeList(sorted);
      var payloadHash := env.stable(payload);
      var cid := PayloadCid(payloadHash);
      var root := Merkle.ComputeRoot(env.sha, Merkle.Leaves(env.sha, Encodings(sorted)));
      var commit := BatchCommit(epoch, collector, sorted[0].slot, sorted[|sorted| - 1].slot,
                                MerkleCommitment(root, |sorted|), cid, |sorted|, height);
      r := Ok(AssembledBatch(commit, payloadHash, cid, payload, sorted));
      assert sorted[0] in observations && sorted[|sorted| - 1] in observations;
    }
  }

  lemma SameMembers<T>(a: seq<T>, b: seq<T>)
    requires multiset(a) == multiset(b)
    ensures forall x :: x in a <==> x in b
  {
    forall x ensures x in a <==> x in b {
      assert x in a <==> x in multiset(a);
      assert x in b <==> x in multiset(b);
    }
  }

  // ----- epoch commits

  datatype EpochCommit = EpochCommit(
    epoch: u64,
    acceptedBatches: MerkleCommitment,
    observations: MerkleCommitment,
    randomnessSeed: Hash32)

  datatype RuntimeError = MissingPropose | EmptyBatchSet

  function CommitEncodings(batches: seq<AssembledBatch>): (bs: seq<Bytes>)
    ensures |bs| == |batches| && forall i :: 0 <= i < |batches| ==> bs[i] == EncodeCommit(batches[i].commit)
  {
    seq(|batches|, i requires 0 <= i < |batches| => EncodeCommit(batches[i].commit))
  }

  function Flatten(batches: seq<AssembledBatch>): seq<Observation>
  {
    if |batches| == 0 then [] else batches[0].observations + Flatten(batches[1..])
  }

  function SeedBytes(epoch: u64, batchesRoot: Hash32, observationsRoot: Hash32): Bytes
  {
    WriteInt(epoch, 8, batchesRoot + observationsRoot)
  }

  function BuildEpochCommit(env: Hashing, canPropose: bool, epoch: u64,
                            batches: seq<AssembledBatch>): Result<EpochCommit, RuntimeError>
  {
    if !canPropose then Err(MissingPropose)
    else if |batches| == 0 then Err(EmptyBatchSet)
    else
      var accepted := Merkle.RecordRoot(env.sha, CommitEncodings(batches));
      var observed := Merkle.RecordRoot(env.sha, Encodings(Flatten(batches)));
      Ok(EpochCommit(epoch,
                     MerkleCommitment(accepted, |batches| % U32),
                     MerkleCommitment(observed, |Flatten(batches)| % U32),
                     env.stable(SeedBytes(epoch, accepted, observed))))
  }

  /** The inputs hashed for one batch list: its batch trees and the tree over them. */
  ghost function CommitInputs(env: Hashing, batches: seq<AssembledBatch>): set<Bytes>
  {
    Merkle.TreeInputs(env.sha, CommitEncodings(batches)) + BatchInputs(env, batches)
  }

  ghost function BatchInputs(env: Hashing, batches: seq<AssembledBatch>): set<Bytes>
  {
    set i, x | 0 <= i < |batches| && x in Merkle.TreeInputs(env.sha, Encodings(batches[i].observations)) :: x
  }

  lemma CollisionFreeSubset(sha: Merkle.Sha, small: set<Bytes>, large: set<Bytes>)
    requires small <= large && Merkle.CollisionFree(sha, large)
    ensures Merkle.CollisionFree(sha, small)
  {}

  /** One batch: its commit determines everything else in it. */
  lemma CommitDeterminesBatch(env: Hashing, a: AssembledBatch, b: AssembledBatch)
    requires Consistent(env, a) && Consistent(env, b) && a.commit == b.commit
    requires Merkle.CollisionFree(env.sha, Merkle.TreeInputs(env.sha, Encodings(a.observations))
                                         + Merkle.TreeInputs(env.sha, Encodings(b.observations)))
    ensures a == b
  {
    Merkle.CommitmentBinds(env.sha, Encodings(a.observations), Encodings(b.observations));
    EncodingsInjective(a.observations, b.observations);
  }

  /** Two-level binding: the accepted-batches commitment alone determines the
      whole batch list, hence the observations root and the randomness seed. */
  lemma EpochCommitBinds(env: Hashing, epoch: u64, a: seq<AssembledBatch>, b: seq<AssembledBatch>)
    requires 0 < |a| < U32 && 0 < |b| < U32
    requires forall x :: x in a ==> Consistent(env, x)
    requires forall x :: x in b ==> Consistent(env, x)
    requires Merkle.CollisionFree(env.sha, CommitInputs(env, a) + CommitInputs(env, b))
    requires BuildEpochCommit(env, true, epoch, a).value.acceptedBatches
          == BuildEpochCommit(env, true, epoch, b).value.acceptedBatches
    ensures a == b
    ensures Flatten(a) == Flatten(b)
    ensures BuildEpochCommit(env, true, epoch, a) == BuildEpochCommit(env, true, epoch, b)
  {
    var ea, eb := CommitEncodings(a), CommitEncodings(b);
    FitsU32(|a|);
    FitsU32(|b|);
    CollisionFreeSubset(env.sha, Merkle.TreeInputs(env.sha, ea) + Merkle.TreeInputs(env.sha, eb),
                        CommitInputs(env, a) + CommitInputs(env, b));
    Merkle.CommitmentBinds(env.sha, ea, eb);
    forall i | 0 <= i < |a| ensures a[i] == b[i] {
      assert a[i] in a && b[i] in b;
      assert ea[i] == eb[i];
      LeafDeterminesBatch(env, a, b, i);
    }
    assert a == b;
  }

  lemma LeafDeterminesBatch(env: Hashing, a: seq<AssembledBatch>, b: seq<AssembledBatch>, i: nat)
    requires i < |a| && i < |b| && Consistent(env, a[i]) && Consistent(env, b[i])
    requires EncodeCommit(a[i].commit) == EncodeCommit(b[i].commit)
    requires Merkle.CollisionFree(env.sha, CommitInputs(env, a) + CommitInputs(env, b))
    ensures a[i] == b[i]
  {
    EncodeCommitInjective(a[i].commit, b[i].commit);
    var ia := Merkle.TreeInputs(env.sha, Encodings(a[i].observations));
    var ib := Merkle.TreeInputs(env.sha, Encodings(b[i].observations));
    assert ia <= BatchInputs(env, a) && ib <= BatchInputs(env, b);
    CollisionFreeSubset(env.sha, ia + ib, CommitInputs(env, a) + CommitInputs(env, b));
    CommitDeterminesBatch(env, a[i], b[i]);
  }
}
