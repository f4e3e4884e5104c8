/** The borsh wire format of observations and batch commits: little-endian
    integers, one-byte enum tags, raw 32-byte arrays, and 32-bit length prefixes
    on byte strings and lists. Writers prepend to the bytes that follow, readers
    return what they leave, so the two compose field by field. */
module Borsh {
  import opened Machine
  import opened Records

  datatype Read<+T> = Bad | Got(value: T, rest: Bytes)

  // ----- integers

  function Pow256(n: nat): nat { if n == 0 then 1 else 256 * Pow256(n - 1) }

  lemma Widths()
    ensures Pow256(4) == U32 && Pow256(8) == U64
  {
    assert Pow256(1) == 256 && Pow256(2) == 65536 && Pow256(3) == 16777216;
    assert Pow256(4) == 4294967296 && Pow256(5) == 1099511627776;
    assert Pow256(6) == 281474976710656 && Pow256(7) == 72057594037927936;
  }

  function WriteInt(x: nat, n: nat, tail: Bytes): Bytes
  {
    if n == 0 then tail else [x % 256] + WriteInt(x / 256, n - 1, tail)
  }

  function ReadInt(n: nat, s: Bytes): Read<nat>
  {
    if n == 0 then Got(0, s)
    else if |s| == 0 then Bad
    else match ReadInt(n - 1, s[1..])
      case Bad => Bad
      case Got(high, rest) => Got(s[0] + 256 * high, rest)
  }

  lemma {:induction false} IntRoundTrip(x: nat, n: nat, tail: Bytes)
    requires x < Pow256(n)
    ensures ReadInt(n, WriteInt(x, n, tail)) == Got(x, tail)
  {
    if n > 0 {
      var w := WriteInt(x, n, tail);
      assert w[1..] == WriteInt(x / 256, n - 1, tail);
      IntRoundTrip(x / 256, n - 1, tail);
    }
  }

  lemma {:induction false} IntCanonical(n: nat, s: Bytes)
    ensures ReadInt(n, s).Got? ==>
              && ReadInt(n, s).value < Pow256(n)
              && s == WriteInt(ReadInt(n, s).value, n, ReadInt(n, s).rest)
  {
    if n > 0 && |s| > 0 {
      IntCanonical(n - 1, s[1..]);
      assert s == [s[0]] + s[1..];
    }
  }

  // ----- fixed arrays, tags, byte strings

  function ReadHash(s: Bytes): Read<Hash32>
  {
    if |s| < 32 then Bad else Got(s[..32], s[32..])
  }

  lemma HashRoundTrip(h: Hash32, tail: Bytes)
    ensures ReadHash(h + tail) == Got(h, tail)
  {
    assert (h + tail)[..32] == h && (h + tail)[32..] == tail;
  }

  function Tag(k: SourceKind): Byte
  {
    match k case Steam => 0 case Epic => 1 case Ea => 2 case Gog => 3 case Community => 4
  }

  function ReadKind(s: Bytes): Read<SourceKind>
  {
    if |s| == 0 || s[0] > 4 then Bad
    else Got([Steam, Epic, Ea, Gog, Community][s[0]], s[1..])
  }

  lemma KindRoundTrip(k: SourceKind, tail: Bytes)
    ensures ReadKind([Tag(k)] + tail) == Got(k, tail)
  {
    assert ([Tag(k)] + tail)[1..] == tail;
  }

  lemma KindCanonical(s: Bytes)
    ensures ReadKind(s).Got? ==> s == [Tag(ReadKind(s).value)] + ReadKind(s).rest
  {
    if |s| > 0 { assert s == [s[0]] + s[1..]; }
  }

  function WriteBytes(b: Bytes, tail: Bytes): Bytes
  {
    WriteInt(|b|, 4, b + tail)
  }

  function ReadBytes(s: Bytes): Read<Bytes>
  {
    match ReadInt(4, s)
    case Bad => Bad
    case Got(n, rest) => if |rest| < n then Bad else Got(rest[..n], rest[n..])
  }

  lemma BytesRoundTrip(b: Bytes, tail: Bytes)
    requires |b| < U32
    ensures ReadBytes(WriteBytes(b, tail)) == Got(b, tail)
  {
    Widths();
    IntRoundTrip(|b|, 4, b + tail);
    assert (b + tail)[..|b|] == b && (b + tail)[|b|..] == tail;
  }

  lemma BytesCanonical(s: Bytes)
    ensures ReadBytes(s).Got? ==>
              && |ReadBytes(s).value| < U32
              && s == WriteBytes(ReadBytes(s).value, ReadBytes(s).rest)
  {
    Widths();
    IntCanonical(4, s);
    var r := ReadInt(4, s);
    if r.Got? && r.value <= |r.rest| { assert r.rest == r.rest[..r.value] + r.rest[r.value..]; }
  }

  // ----- observations

  /** The fields up to the timestamp, and those from the collector on. */
  datatype Front = Front(epoch: u64, slot: u64, app: u32, source: SourceKind, confidencePpm: u32, players: u64,
                         millis: u64)
  datatype Back = Back(collector: Hash32, bodyCid: Bytes, bodyHash: Hash32, signature: Bytes)

  function WriteFront(f: Front, tail: Bytes): Bytes
  {
    WriteInt(f.epoch, 8, WriteInt(f.slot, 8, WriteInt(f.app, 4, [Tag(f.source)] +
      WriteInt(f.confidencePpm, 4, WriteInt(f.players, 8, WriteInt(f.millis, 8, tail))))))
  }

  function ReadFront(s: Bytes): Read<Front>
  {
    IntCanonical(8, s); Widths();
    var a := ReadInt(8, s); if a.Bad? then Bad else
    IntCanonical(8, a.rest);
    var b := ReadInt(8, a.rest); if b.Bad? then Bad else
    IntCanonical(4, b.rest);
    var c := ReadInt(4, b.rest); if c.Bad? then Bad else
    var d := ReadKind(c.rest); if d.Bad? then Bad else
    IntCanonical(4, d.rest);
    var e := ReadInt(4, d.rest); if e.Bad? then Bad else
    IntCanonical(8, e.rest);
    var f := ReadInt(8, e.rest); if f.Bad? then Bad else
    IntCanonical(8, f.rest);
    var g := ReadInt(8, f.rest); if g.Bad? then Bad else
    Got(Front(a.value, b.value, c.value, d.value, e.value, f.value, g.value), g.rest)
  }

  lemma FrontRoundTrip(f: Front, tail: Bytes)
    ensures ReadFront(WriteFront(f, tail)) == Got(f, tail)
  {
    Widths();
    IntRoundTrip(f.millis, 8, tail);
    var t1 := WriteInt(f.millis, 8, tail);
    IntRoundTrip(f.players, 8, t1);
    var t2 := WriteInt(f.players, 8, t1);
    IntRoundTrip(f.confidencePpm, 4, t2);
    var t3 := WriteInt(f.confidencePpm, 4, t2);
    KindRoundTrip(f.source, t3);
    var t4 := [Tag(f.source)] + t3;
    IntRoundTrip(f.app, 4, t4);
    var t5 := WriteInt(f.app, 4, t4);
    IntRoundTrip(f.slot, 8, t5);
    IntRoundTrip(f.epoch, 8, WriteInt(f.slot, 8, t5));
  }

  lemma FrontCanonical(s: Bytes)
    ensures ReadFront(s).Got? ==> s == WriteFront(ReadFront(s).value, ReadFront(s).rest)
  {
    var a := ReadInt(8, s); IntCanonical(8, s); if a.Bad? { return; }
    var b := ReadInt(8, a.rest); IntCanonical(8, a.rest); if b.Bad? { return; }
    var c := ReadInt(4, b.rest); IntCanonical(4, b.rest); if c.Bad? { return; }
    var d := ReadKind(c.rest); KindCanonical(c.rest); if d.Bad? { return; }
    var e := ReadInt(4, d.rest); IntCanonical(4, d.rest); if e.Bad? { return; }
    var f := ReadInt(8, e.rest); IntCanonical(8, e.rest); if f.Bad? { return; }
    var g := ReadInt(8, f.rest); IntCanonical(8, f.rest);
  }

  function WriteBack(b: Back, tail: Bytes): Bytes
  {
    b.collector + WriteBytes(b.bodyCid, b.bodyHash + WriteBytes(b.signature, tail))
  }

  function ReadBack(s: Bytes): Read<Back>
  {
    var a := ReadHash(s); if a.Bad? then Bad else
    var b := ReadBytes(a.rest); if b.Bad? then Bad else
    var c := ReadHash(b.rest); if c.Bad? then Bad else
    var d := ReadBytes(c.rest); if d.Bad? then Bad else
    Got(Back(a.value, b.value, c.value, d.value), d.rest)
  }

  lemma BackRoundTrip(b: Back, tail: Bytes)
    requires |b.bodyCid| < U32 && |b.signature| < U32
    ensures ReadBack(WriteBack(b, tail)) == Got(b, tail)
  {
    BytesRoundTrip(b.signature, tail);
    var t1 := WriteBytes(b.signature, tail);
    HashRoundTrip(b.bodyHash, t1);
    BytesRoundTrip(b.bodyCid, b.bodyHash + t1);
    HashRoundTrip(b.collector, WriteBytes(b.bodyCid, b.bodyHash + t1));
  }

  lemma BackCanonical(s: Bytes)
    ensures ReadBack(s).Got? ==>
              && s == WriteBack(ReadBack(s).value, ReadBack(s).rest)
              && |ReadBack(s).value.bodyCid| < U32 && |ReadBack(s).value.signature| < U32
  {
    var a := ReadHash(s); if a.Bad? { return; }
    assert s == a.value + a.rest;
    var b := ReadBytes(a.rest); BytesCanonical(a.rest); if b.Bad? { return; }
    var c := ReadHash(b.rest); if c.Bad? { return; }
    assert b.rest == c.value + c.rest;
    BytesCanonical(c.rest);
  }

  function FrontOf(o: Observation): Front
  {
    Front(o.epoch, o.slot, o.app, o.source, o.confidencePpm, o.players, o.observedAtMillis)
  }

  function BackOf(o: Observation): Back { Back(o.collector, o.bodyCid, o.bodyHash, o.signature) }

  function WriteObservation(o: Observation, tail: Bytes): Bytes
  {
    WriteFront(FrontOf(o), WriteBack(BackOf(o), tail))
  }

  function ReadObservation(s: Bytes): Read<Observation>
  {
    var f := ReadFront(s); if f.Bad? then Bad else
    var b := ReadBack(f.rest); if b.Bad? then Bad else
    var (x, y) := (f.value, b.value);
    Got(Observation(x.epoch, x.slot, x.app, x.source, x.confidencePpm, x.players, x.millis,
                    y.collector, y.bodyCid, y.bodyHash, y.signature), b.rest)
  }

  lemma ObservationRoundTrip(o: Observation, tail: Bytes)
    requires Encodable(o)
    ensures ReadObservation(WriteObservation(o, tail)) == Got(o, tail)
  {
    BackRoundTrip(BackOf(o), tail);
    FrontRoundTrip(FrontOf(o), WriteBack(BackOf(o), tail));
  }

  lemma ObservationCanonical(s: Bytes)
    ensures ReadObservation(s).Got? ==>
              && Encodable(ReadObservation(s).value)
              && s == WriteObservation(ReadObservation(s).value, ReadObservation(s).rest)
  {
    FrontCanonical(s);
    var f := ReadFront(s);
    if f.Got? { BackCanonical(f.rest); }
  }

  function Encode(o: Observation): Bytes { WriteObservation(o, []) }

  lemma EncodeInjective(a: Observation, b: Observation)
    requires Encodable(a) && Encodable(b) && Encode(a) == Encode(b)
    ensures a == b
  {
    ObservationRoundTrip(a, []);
    ObservationRoundTrip(b, []);
  }

  // ----- lists of observations

  function WriteItems(os: seq<Observation>, tail: Bytes): Bytes
  {
    if |os| == 0 then tail else WriteObservation(os[0], WriteItems(os[1..], tail))
  }

  function ReadItems(n: nat, s: Bytes): Read<seq<Observation>>
  {
    if n == 0 then Got([], s) else
    var head := ReadObservation(s); if head.Bad? then Bad else
    var rest := ReadItems(n - 1, head.rest); if rest.Bad? then Bad else
    Got([head.value] + rest.value, rest.rest)
  }

  lemma {:induction false} ItemsRoundTrip(os: seq<Observation>, tail: Bytes)
    requires forall i :: 0 <= i < |os| ==> Encodable(os[i])
    ensures ReadItems(|os|, WriteItems(os, tail)) == Got(os, tail)
  {
    if |os| > 0 {
      ItemsRoundTrip(os[1..], tail);
      ObservationRoundTrip(os[0], WriteItems(os[1..], tail));
      assert os == [os[0]] + os[1..];
    }
  }

  lemma {:induction false} ItemsCanonical(n: nat, s: Bytes)
    ensures ReadItems(n, s).Got? ==>
              && |ReadItems(n, s).value| == n
              && (forall i :: 0 <= i < n ==> Encodable(ReadItems(n, s).value[i]))
              && s == WriteItems(ReadItems(n, s).value, ReadItems(n, s).rest)
  {
    if n > 0 {
      ObservationCanonical(s);
      var head := ReadObservation(s);
      if head.Got? {
        ItemsCanonical(n - 1, head.rest);
        var rest := ReadItems(n - 1, head.rest);
        if rest.Got? {
          assert ([head.value] + rest.value)[1..] == rest.value;
        }
      }
    }
  }

  /** `borsh::to_vec` of a list; it fails past the 32-bit length limits. */
  function EncodeList(os: seq<Observation>): Bytes
    requires EncodableList(os)
  {
    WriteInt(|os|, 4, WriteItems(os, []))
  }

  /** `borsh::from_slice`: every byte must be consumed. */
  function DecodeList(s: Bytes): Option<seq<Observation>>
  {
    match ReadInt(4, s)
    case Bad => None
    case Got(n, rest) =>
      match ReadItems(n, rest)
      case Bad => None
      case Got(os, left) => if left == [] then Some(os) else None
  }

  /** Decoding inverts encoding, and nothing else decodes: the bytes a list
      decodes from are exactly its encoding. */
  lemma DecodeInvertsEncode(os: seq<Observation>)
    requires EncodableList(os)
    ensures DecodeList(EncodeList(os)) == Some(os)
  {
    Widths();
    IntRoundTrip(|os|, 4, WriteItems(os, []));
    ItemsRoundTrip(os, []);
  }

  lemma EncodeInvertsDecode(s: Bytes)
    requires DecodeList(s).Some?
    ensures EncodableList(DecodeList(s).value)
    ensures EncodeList(DecodeList(s).value) == s
  {
    Widths();
    IntCanonical(4, s);
    var n := ReadInt(4, s);
    ItemsCanonical(n.value, n.rest);
  }

  // ----- batch commits

  function EncodeCommit(c: BatchCommit): Bytes
  {
    WriteInt(c.epoch, 8, c.collector + WriteInt(c.slotStart, 8, WriteInt(c.slotEnd, 8, CommitTail(c))))
  }

  function CommitTail(c: BatchCommit): Bytes
  {
    c.batch.root + WriteInt(c.batch.leafCount, 4, WriteBytes(c.payloadCid,
      WriteInt(c.obsCount, 4, WriteInt(c.submittedAtHeight, 8, []))))
  }

  lemma IntPrefix(x: nat, y: nat, n: nat, s: Bytes, t: Bytes)
    requires x < Pow256(n) && y < Pow256(n) && WriteInt(x, n, s) == WriteInt(y, n, t)
    ensures x == y && s == t
  {
    IntRoundTrip(x, n, s);
    IntRoundTrip(y, n, t);
  }

  lemma HashPrefix(g: Hash32, h: Hash32, s: Bytes, t: Bytes)
    requires g + s == h + t
    ensures g == h && s == t
  {
    HashRoundTrip(g, s);
    HashRoundTrip(h, t);
  }

  lemma CommitTailInjective(a: BatchCommit, b: BatchCommit)
    requires EncodableCommit(a) && EncodableCommit(b) && CommitTail(a) == CommitTail(b)
    ensures a.batch == b.batch && a.payloadCid == b.payloadCid
    ensures a.obsCount == b.obsCount && a.submittedAtHeight == b.submittedAtHeight
  {
    Widths();
    var (a1, b1) := (WriteInt(a.submittedAtHeight, 8, []), WriteInt(b.submittedAtHeight, 8, []));
    var (a2, b2) := (WriteInt(a.obsCount, 4, a1), WriteInt(b.obsCount, 4, b1));
    var (a3, b3) := (WriteBytes(a.payloadCid, a2), WriteBytes(b.payloadCid, b2));
    HashPrefix(a.batch.root, b.batch.root, WriteInt(a.batch.leafCount, 4, a3), WriteInt(b.batch.leafCount, 4, b3));
    IntPrefix(a.batch.leafCount, b.batch.leafCount, 4, a3, b3);
    BytesRoundTrip(a.payloadCid, a2);
    BytesRoundTrip(b.payloadCid, b2);
    IntPrefix(a.obsCount, b.obsCount, 4, a1, b1);
    IntPrefix(a.submittedAtHeight, b.submittedAtHeight, 8, [], []);
  }

  lemma EncodeCommitInjective(a: BatchCommit, b: BatchCommit)
    requires EncodableCommit(a) && EncodableCommit(b) && EncodeCommit(a) == EncodeCommit(b)
    ensures a == b
  {
    Widths();
    var (a1, b1) := (WriteInt(a.slotEnd, 8, CommitTail(a)), WriteInt(b.slotEnd, 8, CommitTail(b)));
    var (a2, b2) := (WriteInt(a.slotStart, 8, a1), WriteInt(b.slotStart, 8, b1));
    IntPrefix(a.epoch, b.epoch, 8, a.collector + a2, b.collector + b2);
    HashPrefix(a.collector, b.collector, a2, b2);
    IntPrefix(a.slotStart, b.slotStart, 8, a1, b1);
    IntPrefix(a.slotEnd, b.slotEnd, 8, CommitTail(a), CommitTail(b));
    CommitTailInjective(a, b);
  }
}
