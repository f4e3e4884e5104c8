/** Receiving peers' batches: the checks a payload must pass against its
    announcement, and the retention ledger it is charged to. */
module Ingestion {
  import opened Machine
  import opened Records
  import opened Sorting
  import opened Borsh
  import opened Batches
  import Merkle

  datatype Announcement = Announcement(
    epoch: u64,
    collector: Hash32,
    payloadCid: Bytes,
    payloadHash: Hash32,
    payloadSize: nat,
    batchRoot: Hash32,
    obsCount: u32)

  datatype Response = Response(payloadCid: Bytes, payloadHash: Hash32, payload: Bytes)

  function Announce(b: AssembledBatch): Announcement
  {
    Announcement(b.commit.epoch, b.commit.collector, b.payloadCid, b.payloadHash, |b.payload|,
                 b.commit.batch.root, b.commit.obsCount)
  }

  function Serve(b: AssembledBatch): Response { Response(b.payloadCid, b.payloadHash, b.payload) }

  /** The observations of an acceptable payload, or nothing. */
  function Accept(env: Hashing, ann: Announcement, resp: Response): Option<seq<Observation>>
  {
    if resp.payloadCid != ann.payloadCid || resp.payloadHash != ann.payloadHash
       || env.stable(resp.payload) != ann.payloadHash || |resp.payload| != ann.payloadSize
    then None
    else match DecodeList(resp.payload)
      case None => None
      case Some(os) =>
        if |os| == 0 || |os| % U32 != ann.obsCount
           || !(forall o :: o in os ==> o.collector == ann.collector)
           || !(forall o :: o in os ==> o.epoch == ann.epoch)
           || Merkle.RecordRoot(env.sha, Encodings(os)) != ann.batchRoot
        then None
        else Some(os)
  }

  /** A batch announced and served unchanged is accepted, with its observations. */
  lemma ProducerAccepted(env: Hashing, b: AssembledBatch)
    requires Consistent(env, b)
    ensures Accept(env, Announce(b), Serve(b)) == Some(b.observations)
  {
    DecodeInvertsEncode(b.observations);
    FitsU32(|b.observations|);
  }

  /** Nothing else is: a list is accepted if and only if it is not empty, of one
      collector and epoch, and announcement and response are exactly those of
      its encoding, under whatever content id the announcement has. */
  lemma AcceptIff(env: Hashing, ann: Announcement, resp: Response, os: seq<Observation>)
    ensures Accept(env, ann, resp) == Some(os)
            <==> && EncodableList(os) && |os| > 0
                 && (forall o :: o in os ==> o.collector == ann.collector && o.epoch == ann.epoch)
                 && resp == Response(ann.payloadCid, ann.payloadHash, EncodeList(os))
                 && ann.payloadHash == env.stable(EncodeList(os)) && ann.payloadSize == |EncodeList(os)|
                 && ann.batchRoot == Merkle.RecordRoot(env.sha, Encodings(os)) && ann.obsCount == |os| % U32
  {
    if DecodeList(resp.payload).Some? { EncodeInvertsDecode(resp.payload); }
    if EncodableList(os) { DecodeInvertsEncode(os); }
  }

  /** Whatever is accepted under an honest batch's root and count is that
      batch's payload, byte for byte. */
  lemma AcceptedIsProduced(env: Hashing, b: AssembledBatch, ann: Announcement, resp: Response)
    requires Consistent(env, b)
    requires ann.batchRoot == b.commit.batch.root && ann.obsCount == b.commit.obsCount
    requires Accept(env, ann, resp).Some?
    requires Merkle.CollisionFree(env.sha, Merkle.TreeInputs(env.sha, Encodings(b.observations))
               + Merkle.TreeInputs(env.sha, Encodings(Accept(env, ann, resp).value)))
    ensures Accept(env, ann, resp) == Some(b.observations)
    ensures resp.payload == b.payload && ann.payloadHash == b.payloadHash
    ensures ann.epoch == b.commit.epoch && ann.collector == b.commit.collector
  {
    var os := Accept(env, ann, resp).value;
    EncodeInvertsDecode(resp.payload);
    FitsU32(|os|);
    Merkle.CommitmentBinds(env.sha, Encodings(b.observations), Encodings(os));
    EncodingsInjective(b.observations, os);
    assert os[0] in os;
  }

  // ----- the retention ledger

  datatype StoredPayload = StoredPayload(epoch: nat, cid: Bytes, hash: Hash32, size: nat, until: nat)

  type Ledger = map<Bytes, StoredPayload>

  ghost function TotalSize(m: Ledger): nat
    decreases |m|
  {
    if m == map[] then 0 else
    var k :| k in m;
    m[k].size + TotalSize(m - {k})
  }

  lemma {:induction false} TotalWithout(m: Ledger, k: Bytes)
    requires k in m
    ensures TotalSize(m) == m[k].size + TotalSize(m - {k})
    decreases |m|
  {
    var j :| j in m && TotalSize(m) == m[j].size + TotalSize(m - {j});
    if j != k {
      TotalWithout(m - {j}, k);
      TotalWithout(m - {k}, j);
      assert m - {j} - {k} == m - {k} - {j};
    }
  }

  function Expired(m: Ledger, epoch: nat): set<Bytes> { set k | k in m && epoch > m[k].until }

  function ExpiredInOrder(m: Ledger, epoch: nat): (r: seq<Bytes>)
    ensures Distinct(r) && forall k :: k in r <==> k in Expired(m, epoch)
  {
    InOrderAscending(Expired(m, epoch));
    var r := InOrder(Expired(m, epoch));
    assert forall i :: 0 <= i < |r| ==> r[i] in Expired(m, epoch);
    r
  }

  /** The records are those under the keys, in order. */
  predicate Lists(m: Ledger, keys: seq<Bytes>, records: seq<StoredPayload>)
  {
    |records| == |keys| && forall i :: 0 <= i < |keys| ==> keys[i] in m && records[i] == m[keys[i]]
  }

  class RetentionBook {
    const quota: nat
    var used: nat
    var payloads: Ledger

    ghost predicate Valid()
      reads this
    {
      used == TotalSize(payloads) && used <= quota < U64 - 1
    }

    constructor (quotaGb: u32)
      ensures Valid() && payloads == map[] && quota == quotaGb * 0x4000_0000
    {
      quota, used, payloads := quotaGb * 0x4000_0000, 0, map[];
    }

    method RecordPayload(epoch: nat, retentionEpochs: nat, cid: Bytes, hash: Hash32, size: nat)
      returns (r: Option<StoredPayload>)
      requires Valid()
      modifies this
      ensures Valid()
      ensures r.None? <==> cid !in old(payloads) && old(used) + size > quota
      ensures r.None? ==> payloads == old(payloads)
      ensures r.Some? && cid in old(payloads) ==> r.value == old(payloads)[cid] && payloads == old(payloads)
      ensures r.Some? && cid !in old(payloads) ==>
                r.value == StoredPayload(epoch, cid, hash, size, epoch + retentionEpochs)
                && payloads == old(payloads)[cid := r.value] && used == old(used) + size
      ensures payloads == old(payloads) ==> used == old(used)
    {
      if cid in payloads { return Some(payloads[cid]); }
      if SatAdd(U64, used, size) > quota { return None; }
      var record := StoredPayload(epoch, cid, hash, size, epoch + retentionEpochs);
      var grown := payloads[cid := record];
      TotalWithout(grown, cid);
      assert grown - {cid} == payloads;
      payloads, used := grown, used + size;
      r := Some(record);
    }

    method Remove(cid: Bytes)
      requires Valid() && cid in payloads
      modifies this
      ensures Valid() && payloads == old(payloads) - {cid}
    {
      TotalWithout(payloads, cid);
      used := SatSub(used, payloads[cid].size);
      payloads := payloads - {cid};
    }

    method PruneExpired(epoch: nat) returns (removed: seq<StoredPayload>)
      requires Valid()
      modifies this
      ensures Valid()
      ensures payloads == old(payloads) - Expired(old(payloads), epoch)
      ensures Lists(old(payloads), ExpiredInOrder(old(payloads), epoch), removed)
    {
      var keys := ExpiredInOrder(payloads, epoch);
      removed := [];
      ghost var gone: set<Bytes> := {};
      for i := 0 to |keys|
        invariant Valid() && payloads == old(payloads) - gone
        invariant gone == Prefix(keys, i)
        invariant Lists(old(payloads), keys[..i], removed)
      {
        NotRepeated(keys, i);
        PrefixSnoc(keys, i);
        assert keys[..i + 1] == keys[..i] + [keys[i]];
        removed := removed + [payloads[keys[i]]];
        Remove(keys[i]);
        gone := gone + {keys[i]};
      }
      assert keys[..|keys|] == keys;
      assert gone == Expired(old(payloads), epoch);
    }
  }

  ghost function Prefix(keys: seq<Bytes>, n: nat): set<Bytes>
    requires n <= |keys|
  {
    set i | 0 <= i < n :: keys[i]
  }

  lemma PrefixSnoc(keys: seq<Bytes>, n: nat)
    requires n < |keys| && keys[n] !in keys[..n]
    ensures Prefix(keys, n + 1) == Prefix(keys, n) + {keys[n]} && keys[n] !in Prefix(keys, n) && keys[n] in keys
  {
    forall i | 0 <= i < n ensures keys[i] != keys[n] { assert keys[i] in keys[..n]; }
  }
}
