/** The wire format byte by byte, as the borsh specification lays it out: what the
    writers of `Borsh` produce, without their recursion. */
module WireLaws {
  import opened Machine
  import opened Records
  import opened Borsh

  /** Byte `i` counts the 256^i. */
  function LittleEndian(x: nat, n: nat): (bytes: Bytes)
    ensures |bytes| == n
  {
    seq(n, i requires 0 <= i < n => Digit(x, i))
  }

  function Digit(x: nat, i: nat): Byte { x / Power(i) % 256 }

  function Power(i: nat): (p: nat)
    ensures p > 0
  {
    if i == 0 then 1 else 256 * Power(i - 1)
  }

  lemma Nested(x: nat, a: nat, b: nat, q: nat, r: nat, q': nat, r': nat)
    requires x == a * q + r && q == b * q' + r'
    ensures x == (a * b) * q' + (a * r' + r)
  {
    assert a * (b * q' + r') == (a * b) * q' + a * r';
  }

  lemma DivDiv(x: nat, a: nat, b: nat)
    requires a > 0 && b > 0
    ensures a * b > 0 && x / (a * b) == x / a / b
  {
    var q, r := x / a, x % a;
    var q', r' := q / b, q % b;
    Nested(x, a, b, q, r, q', r');
    MulLeft(r' + 1, b, a);
    assert a * (r' + 1) == a * r' + a;
    MulMono(1, a, 1, b);
    DivUnique(x, a * b, q', a * r' + r);
  }

  lemma DigitStep(x: nat, i: nat)
    ensures Digit(x / 256, i) == Digit(x, i + 1) && Digit(x, 0) == x % 256
  {
    DivDiv(x, 256, Power(i));
    assert x / 1 == x;
  }

  lemma LittleEndianStep(x: nat, n: nat)
    requires n > 0
    ensures LittleEndian(x, n) == [x % 256] + LittleEndian(x / 256, n - 1)
  {
    var all, rest := LittleEndian(x, n), LittleEndian(x / 256, n - 1);
    forall i | 0 <= i < n ensures all[i] == ([x % 256] + rest)[i] {
      DigitStep(x, if i == 0 then 0 else i - 1);
    }
  }

  lemma {:induction false} WriteIntIs(x: nat, n: nat, tail: Bytes)
    ensures WriteInt(x, n, tail) == LittleEndian(x, n) + tail
  {
    if n == 0 {
      assert LittleEndian(x, 0) + tail == tail;
    } else {
      WriteIntIs(x / 256, n - 1, tail);
      LittleEndianStep(x, n);
      assert [x % 256] + (LittleEndian(x / 256, n - 1) + tail)
          == ([x % 256] + LittleEndian(x / 256, n - 1)) + tail;
    }
  }

  /** A byte string goes behind its length in four bytes. */
  function Counted(b: Bytes): Bytes { LittleEndian(|b|, 4) + b }

  lemma WriteBytesIs(b: Bytes, tail: Bytes)
    ensures WriteBytes(b, tail) == Counted(b) + tail
  {
    WriteIntIs(|b|, 4, b + tail);
    assert LittleEndian(|b|, 4) + (b + tail) == (LittleEndian(|b|, 4) + b) + tail;
  }

  /** The fields one after another. */
  function Joined(parts: seq<Bytes>): Bytes { if |parts| == 0 then [] else parts[0] + Joined(parts[1..]) }

  /** One more field in front of those written. */
  lemma InFront(first: Bytes, rest: seq<Bytes>, written: Bytes, tail: Bytes)
    requires written == Joined(rest) + tail
    ensures first + written == Joined([first] + rest) + tail
  {
    assert ([first] + rest)[1..] == rest;
    assert first + (Joined(rest) + tail) == (first + Joined(rest)) + tail;
  }

  lemma IntInFront(x: nat, n: nat, rest: seq<Bytes>, written: Bytes, tail: Bytes)
    requires written == Joined(rest) + tail
    ensures WriteInt(x, n, written) == Joined([LittleEndian(x, n)] + rest) + tail
  {
    WriteIntIs(x, n, written);
    InFront(LittleEndian(x, n), rest, written, tail);
  }

  lemma BytesInFront(b: Bytes, rest: seq<Bytes>, written: Bytes, tail: Bytes)
    requires written == Joined(rest) + tail
    ensures WriteBytes(b, written) == Joined([Counted(b)] + rest) + tail
  {
    WriteBytesIs(b, written);
    InFront(Counted(b), rest, written, tail);
  }

  /** The tags of the source kinds, in the order of their declaration. */
  function KindTag(k: SourceKind): Byte
  {
    if k == Steam then 0 else if k == Epic then 1 else if k == Ea then 2 else if k == Gog then 3 else 4
  }

  /** An observation: its eleven fields, in the order of the record. */
  function Fields(o: Observation): seq<Bytes>
  {
    [LittleEndian(o.epoch, 8)] + ([LittleEndian(o.slot, 8)] + ([LittleEndian(o.app, 4)] + ([[KindTag(o.source)]] +
      ([LittleEndian(o.confidencePpm, 4)] + ([LittleEndian(o.players, 8)] + ([LittleEndian(o.observedAtMillis, 8)] +
        BackFields(o)))))))
  }

  function BackFields(o: Observation): seq<Bytes>
  {
    [o.collector] + ([Counted(o.bodyCid)] + ([o.bodyHash] + ([Counted(o.signature)] + [])))
  }

  lemma BackLayout(o: Observation, tail: Bytes)
    ensures WriteBack(BackOf(o), tail) == Joined(BackFields(o)) + tail
  {
    assert tail == Joined([]) + tail;
    BytesInFront(o.signature, [], tail, tail);
    var t1, f1 := WriteBytes(o.signature, tail), [Counted(o.signature)] + [];
    InFront(o.bodyHash, f1, t1, tail);
    BytesInFront(o.bodyCid, [o.bodyHash] + f1, o.bodyHash + t1, tail);
    InFront(o.collector, [Counted(o.bodyCid)] + ([o.bodyHash] + f1), WriteBytes(o.bodyCid, o.bodyHash + t1), tail);
  }

  lemma ObservationLayout(o: Observation, tail: Bytes)
    ensures WriteObservation(o, tail) == Joined(Fields(o)) + tail
  {
    BackLayout(o, tail);
    var t1, f1 := WriteBack(BackOf(o), tail), BackFields(o);
    IntInFront(o.observedAtMillis, 8, f1, t1, tail);
    var t2, f2 := WriteInt(o.observedAtMillis, 8, t1), [LittleEndian(o.observedAtMillis, 8)] + f1;
    IntInFront(o.players, 8, f2, t2, tail);
    var t3, f3 := WriteInt(o.players, 8, t2), [LittleEndian(o.players, 8)] + f2;
    IntInFront(o.confidencePpm, 4, f3, t3, tail);
    var t4, f4 := WriteInt(o.confidencePpm, 4, t3), [LittleEndian(o.confidencePpm, 4)] + f3;
    InFront([KindTag(o.source)], f4, t4, tail);
    var t5, f5 := [Tag(o.source)] + t4, [[KindTag(o.source)]] + f4;
    IntInFront(o.app, 4, f5, t5, tail);
    var t6, f6 := WriteInt(o.app, 4, t5), [LittleEndian(o.app, 4)] + f5;
    IntInFront(o.slot, 8, f6, t6, tail);
    var t7, f7 := WriteInt(o.slot, 8, t6), [LittleEndian(o.slot, 8)] + f6;
    IntInFront(o.epoch, 8, f7, t7, tail);
  }

  /** The leaf of an observation is its fields, and nothing else. */
  lemma EncodeLayout(o: Observation)
    ensures Encode(o) == Joined(Fields(o))
  {
    ObservationLayout(o, []);
    assert Joined(Fields(o)) + [] == Joined(Fields(o));
  }

  function Each(os: seq<Observation>): (parts: seq<Bytes>)
    ensures |parts| == |os| && forall i :: 0 <= i < |os| ==> parts[i] == Encode(os[i])
  {
    seq(|os|, i requires 0 <= i < |os| => Encode(os[i]))
  }

  lemma {:induction false} ItemsLayout(os: seq<Observation>)
    ensures WriteItems(os, []) == Joined(Each(os))
  {
    if |os| > 0 {
      ItemsLayout(os[1..]);
      var written := WriteItems(os[1..], []);
      ObservationLayout(os[0], written);
      EncodeLayout(os[0]);
      assert Each(os)[1..] == Each(os[1..]);
    }
  }

  /** A payload is the number of observations and each of them in turn. */
  lemma ListLayout(os: seq<Observation>)
    requires EncodableList(os)
    ensures EncodeList(os) == LittleEndian(|os|, 4) + Joined(Each(os))
  {
    ItemsLayout(os);
    WriteIntIs(|os|, 4, WriteItems(os, []));
  }

  /** A batch commit: its fields, the commitment's two among them. */
  function CommitFields(c: BatchCommit): seq<Bytes>
  {
    [LittleEndian(c.epoch, 8)] + ([c.collector] + ([LittleEndian(c.slotStart, 8)] + ([LittleEndian(c.slotEnd, 8)] +
      CommitTailFields(c))))
  }

  function CommitTailFields(c: BatchCommit): seq<Bytes>
  {
    [c.batch.root] + ([LittleEndian(c.batch.leafCount, 4)] + ([Counted(c.payloadCid)] +
      ([LittleEndian(c.obsCount, 4)] + ([LittleEndian(c.submittedAtHeight, 8)] + []))))
  }

  lemma CommitTailLayout(c: BatchCommit)
    ensures CommitTail(c) == Joined(CommitTailFields(c)) + []
  {
    IntInFront(c.submittedAtHeight, 8, [], [], []);
    var t1, f1 := WriteInt(c.submittedAtHeight, 8, []), [LittleEndian(c.submittedAtHeight, 8)] + [];
    IntInFront(c.obsCount, 4, f1, t1, []);
    var t2, f2 := WriteInt(c.obsCount, 4, t1), [LittleEndian(c.obsCount, 4)] + f1;
    BytesInFront(c.payloadCid, f2, t2, []);
    var t3, f3 := WriteBytes(c.payloadCid, t2), [Counted(c.payloadCid)] + f2;
    IntInFront(c.batch.leafCount, 4, f3, t3, []);
    InFront(c.batch.root, [LittleEndian(c.batch.leafCount, 4)] + f3, WriteInt(c.batch.leafCount, 4, t3), []);
  }

  lemma CommitLayout(c: BatchCommit)
    ensures EncodeCommit(c) == Joined(CommitFields(c))
  {
    CommitTailLayout(c);
    var t1, f1 := CommitTail(c), CommitTailFields(c);
    IntInFront(c.slotEnd, 8, f1, t1, []);
    var t2, f2 := WriteInt(c.slotEnd, 8, t1), [LittleEndian(c.slotEnd, 8)] + f1;
    IntInFront(c.slotStart, 8, f2, t2, []);
    var t3, f3 := WriteInt(c.slotStart, 8, t2), [LittleEndian(c.slotStart, 8)] + f2;
    InFront(c.collector, f3, t3, []);
    IntInFront(c.epoch, 8, [c.collector] + f3, c.collector + t3, []);
    assert Joined(CommitFields(c)) + [] == Joined(CommitFields(c));
  }
}
