/** Records the node hashes, stores and exchanges. Text fields are byte strings. */
module Records {
  import opened Machine

  type Bytes = seq<Byte>
  type Hash32 = h: Bytes | |h| == 32 witness seq(32, _ => 0)

  datatype SourceKind = Steam | Epic | Ea | Gog | Community

  datatype Observation = Observation(
    epoch: u64,
    slot: u64,
    app: u32,
    source: SourceKind,
    confidencePpm: u32,
    players: u64,
    observedAtMillis: u64,
    collector: Hash32,
    bodyCid: Bytes,
    bodyHash: Hash32,
    signature: Bytes)

  datatype MerkleCommitment = MerkleCommitment(root: Hash32, leafCount: u32)

  datatype BatchCommit = BatchCommit(
    epoch: u64,
    collector: Hash32,
    slotStart: u64,
    slotEnd: u64,
    batch: MerkleCommitment,
    payloadCid: Bytes,
    obsCount: u32,
    submittedAtHeight: u64)

  /** Byte strings carry a 32-bit length on the wire. */
  predicate Encodable(o: Observation) { |o.bodyCid| < U32 && |o.signature| < U32 }

  predicate EncodableCommit(c: BatchCommit) { |c.payloadCid| < U32 }

  predicate EncodableList(os: seq<Observation>)
  {
    |os| < U32 && forall i :: 0 <= i < |os| ==> Encodable(os[i])
  }
}
