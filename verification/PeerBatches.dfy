/** The inbox of peers' batches. A batch is kept in two files: its payload, named
    after the content id, and an artifact, named after epoch, first slot and
    content id, from which the batch is later read back through the payload. */
module PeerBatches {
  import opened Machine
  import opened Records
  import opened Borsh
  import opened Batches
  import opened Ingestion
  import Merkle

  datatype Envelope = Envelope(announcement: Announcement, response: Option<Response>)

  datatype ArtifactKey = ArtifactKey(epoch: u64, slot: u64, name: Bytes)

  /** How a payload file is named after its content id, and an artifact after the
      payload file. Nothing ties a content id to its payload. */
  datatype Naming = Naming(payload: Bytes -> Bytes, artifact: Bytes -> Bytes)

  datatype Post = Post(env: Hashing, names: Naming, local: Hash32, retentionEpochs: nat, quota: nat)

  datatype Shelf = Shelf(artifacts: map<ArtifactKey, Announcement>, files: map<Bytes, Bytes>)

  /** The files, and the retention ledger. */
  datatype Depot = Depot(shelf: Shelf, payloads: Ledger, used: nat)

  function EmptyDepot(): Depot { Depot(Shelf(map[], map[]), map[], 0) }

  function FileOf(p: Post, ann: Announcement): Bytes { p.names.payload(ann.payloadCid) }

  // ----- what a stored batch stands for

  /** The key under which a list of observations in a payload file belongs. */
  function KeyOf(p: Post, file: Bytes, os: seq<Observation>): ArtifactKey
    requires |os| > 0
  {
    ArtifactKey(os[0].epoch, os[0].slot, p.names.artifact(file))
  }

  function KeyAt(p: Post, file: Bytes, payload: Bytes): Option<ArtifactKey>
  {
    var os := DecodeList(payload);
    if os.Some? && |os.value| > 0 then Some(KeyOf(p, file, os.value)) else None
  }

  /** The payload reproduces everything the announcement says. */
  predicate Genuine(p: Post, key: ArtifactKey, ann: Announcement, payload: Bytes)
  {
    && KeyAt(p, FileOf(p, ann), payload) == Some(key)
    && |payload| == ann.payloadSize && p.env.stable(payload) == ann.payloadHash
    && var os := DecodeList(payload).value;
       && |os| == ann.obsCount && Merkle.RecordRoot(p.env.sha, Encodings(os)) == ann.batchRoot
       && forall o :: o in os ==> o.epoch == ann.epoch && o.collector == ann.collector
  }

  /** The stored artifact, read back through its payload file, is still genuine. */
  predicate Reproduced(p: Post, shelf: Shelf, key: ArtifactKey)
    requires key in shelf.artifacts
  {
    var ann := shelf.artifacts[key];
    FileOf(p, ann) in shelf.files && Genuine(p, key, ann, shelf.files[FileOf(p, ann)])
  }

  ghost predicate Intact(p: Post, shelf: Shelf)
  {
    forall key :: key in shelf.artifacts ==> Reproduced(p, shelf, key)
  }

  // ----- one announcement

  datatype Verdict = Own | Rejected | Candidate(key: ArtifactKey, announcement: Announcement, payload: Bytes)

  lemma AcceptedGenuine(p: Post, ann: Announcement, resp: Response)
    requires Accept(p.env, ann, resp).Some?
    ensures var os := Accept(p.env, ann, resp).value;
            |os| > 0 && Genuine(p, KeyOf(p, FileOf(p, ann), os), ann, resp.payload)
  {
    EncodeInvertsDecode(resp.payload);
    FitsU32(|Accept(p.env, ann, resp).value|);
  }

  /** The fate of one announcement as far as its payload alone decides it. */
  function Judge(p: Post, envelope: Envelope): (v: Verdict)
    ensures v.Candidate? ==> Genuine(p, v.key, v.announcement, v.payload) && v.announcement.collector != p.local
  {
    var ann := envelope.announcement;
    if ann.collector == p.local then Own
    else if envelope.response.None? then Rejected
    else match Accept(p.env, ann, envelope.response.value)
      case None => Rejected
      case Some(os) =>
        AcceptedGenuine(p, ann, envelope.response.value);
        Candidate(KeyOf(p, FileOf(p, ann), os), ann, envelope.response.value.payload)
  }

  datatype Fate = Ours | Stored | Refused | Duplicate

  /** A candidate is stored unless it is already there or exceeds the quota. */
  function FateOf(p: Post, d: Depot, v: Verdict): Fate
  {
    match v
    case Own => Ours
    case Rejected => Refused
    case Candidate(key, ann, payload) =>
      if key in d.shelf.artifacts then Duplicate
      else if ann.payloadCid in d.payloads || d.used + |payload| <= p.quota then Stored
      else Refused
  }

  /** The payload is written before the ledger is asked, the artifact after. */
  function Placed(p: Post, shelf: Shelf, v: Verdict, fate: Fate): Shelf
  {
    if !v.Candidate? || fate == Duplicate then shelf
    else Shelf(if fate == Stored then shelf.artifacts[v.key := v.announcement] else shelf.artifacts,
               shelf.files[FileOf(p, v.announcement) := v.payload])
  }

  function Charged(p: Post, d: Depot, v: Verdict, fate: Fate): Depot
  {
    if v.Candidate? && fate == Stored && v.announcement.payloadCid !in d.payloads then
      var ann := v.announcement;
      var record := StoredPayload(ann.epoch, ann.payloadCid, ann.payloadHash, |v.payload|,
                                  ann.epoch + p.retentionEpochs);
      d.(payloads := d.payloads[ann.payloadCid := record], used := d.used + |v.payload|)
    else d
  }

  function Settled(p: Post, d: Depot, v: Verdict): Depot
  {
    var fate := FateOf(p, d, v);
    Charged(p, d, v, fate).(shelf := Placed(p, d.shelf, v, fate))
  }

  function Received(p: Post, d: Depot, envelope: Envelope): Depot { Settled(p, d, Judge(p, envelope)) }

  // ----- the counters

  datatype Outcome = Outcome(announced: nat, own: nat, accepted: nat, rejected: nat, duplicates: nat)

  function Tally(out: Outcome, fate: Fate): Outcome
  {
    var next := out.(announced := out.announced + 1);
    match fate
    case Ours => next.(own := next.own + 1)
    case Stored => next.(accepted := next.accepted + 1)
    case Refused => next.(rejected := next.rejected + 1)
    case Duplicate => next.(duplicates := next.duplicates + 1)
  }

  /** How many announcements of the inbox come to a fate. */
  function Count(p: Post, d: Depot, inbox: seq<Envelope>, fate: Fate): nat
  {
    if |inbox| == 0 then 0
    else
      var n := |inbox| - 1;
      Count(p, d, inbox[..n], fate)
      + (if FateOf(p, Run(p, d, inbox[..n]), Judge(p, inbox[n])) == fate then 1 else 0)
  }

  /** Each counter counts its fate. */
  ghost predicate CountedBy(p: Post, d: Depot, inbox: seq<Envelope>, out: Outcome)
  {
    && out.own == Count(p, d, inbox, Ours) && out.accepted == Count(p, d, inbox, Stored)
    && out.rejected == Count(p, d, inbox, Refused) && out.duplicates == Count(p, d, inbox, Duplicate)
  }

  lemma CountSnoc(p: Post, d: Depot, inbox: seq<Envelope>, n: nat, out: Outcome)
    requires n < |inbox| && CountedBy(p, d, inbox[..n], out)
    ensures CountedBy(p, d, inbox[..n + 1], Tally(out, FateOf(p, Run(p, d, inbox[..n]), Judge(p, inbox[n]))))
  {
    assert inbox[..n + 1][..n] == inbox[..n];
  }

  /** What comes to each fate. An accepted payload is a duplicate if its artifact is
      there already, and otherwise stored if its content id is on the ledger
      or it fits the quota. */
  lemma FateLaw(p: Post, d: Depot, envelope: Envelope)
    ensures var fate := FateOf(p, d, Judge(p, envelope)); var ann := envelope.announcement;
            var foreign := ann.collector != p.local;
            var os := if envelope.response.Some? then Accept(p.env, ann, envelope.response.value) else None;
            var known := os.Some? && |os.value| > 0
                         && ArtifactKey(ann.epoch, os.value[0].slot, p.names.artifact(p.names.payload(ann.payloadCid)))
                            in d.shelf.artifacts;
            var room := ann.payloadCid in d.payloads || d.used + ann.payloadSize <= p.quota;
            && (fate == Ours <==> !foreign)
            && (fate == Duplicate <==> foreign && os.Some? && known)
            && (fate == Stored <==> foreign && os.Some? && !known && room)
            && (fate == Refused <==> foreign && (os.None? || (!known && !room)))
  {
    if envelope.response.Some? && Accept(p.env, envelope.announcement, envelope.response.value).Some? {
      var os := Accept(p.env, envelope.announcement, envelope.response.value).value;
      AcceptIff(p.env, envelope.announcement, envelope.response.value, os);
      assert os[0] in os;
    }
  }

  predicate Balanced(out: Outcome, announced: nat)
  {
    out.announced == announced == out.own + out.accepted + out.rejected + out.duplicates
  }

  lemma TallyBalanced(out: Outcome, fate: Fate, n: nat)
    requires Balanced(out, n)
    ensures Balanced(Tally(out, fate), n + 1)
    ensures Tally(out, fate).accepted == out.accepted + if fate == Stored then 1 else 0
  {}

  /** Artifacts only grow, by one for every announcement accepted. */
  lemma PlacedKeeps(p: Post, d: Depot, v: Verdict)
    ensures var fate := FateOf(p, d, v); var next := Placed(p, d.shelf, v, fate).artifacts;
            && |next| == |d.shelf.artifacts| + (if fate == Stored then 1 else 0)
            && forall k :: k in d.shelf.artifacts ==> k in next && next[k] == d.shelf.artifacts[k]
  {}

  function Run(p: Post, d: Depot, inbox: seq<Envelope>): Depot
  {
    if |inbox| == 0 then d else Received(p, Run(p, d, inbox[..|inbox| - 1]), inbox[|inbox| - 1])
  }

  lemma RunSnoc(p: Post, d: Depot, inbox: seq<Envelope>, n: nat)
    requires n < |inbox|
    ensures Run(p, d, inbox[..n + 1]) == Received(p, Run(p, d, inbox[..n]), inbox[n])
  {
    assert inbox[..n + 1][..n] == inbox[..n];
  }

  // ----- where stored batches come from

  /** The announcement is a peer's, its payload was accepted, and the record and
      the artifact are its own. */
  ghost predicate Announced(p: Post, e: Envelope)
  {
    e.announcement.collector != p.local && e.response.Some?
    && Accept(p.env, e.announcement, e.response.value).Some?
  }

  ghost predicate RecordOf(p: Post, e: Envelope, cid: Bytes, record: StoredPayload)
  {
    var a := e.announcement;
    Announced(p, e) && cid == a.payloadCid
    && record == StoredPayload(a.epoch, cid, a.payloadHash, a.payloadSize, a.epoch + p.retentionEpochs)
  }

  /** One step: what is new on the ledger and among the artifacts is this one's. */
  lemma ReceivedNew(p: Post, d: Depot, e: Envelope)
    ensures var next := Received(p, d, e);
            && (forall cid :: cid in next.payloads ==>
                  (cid in d.payloads && next.payloads[cid] == d.payloads[cid])
                  || RecordOf(p, e, cid, next.payloads[cid]))
            && (forall key :: key in next.shelf.artifacts ==>
                  (key in d.shelf.artifacts && next.shelf.artifacts[key] == d.shelf.artifacts[key])
                  || (Announced(p, e) && next.shelf.artifacts[key] == e.announcement))
  {
    JudgedAnnounced(p, e);
    SettledNew(p, d, e, Judge(p, e));
  }

  lemma JudgedAnnounced(p: Post, e: Envelope)
    ensures var v := Judge(p, e);
            v.Candidate? ==> Announced(p, e) && v.announcement == e.announcement
                             && |v.payload| == e.announcement.payloadSize
  {}

  lemma SettledNew(p: Post, d: Depot, e: Envelope, v: Verdict)
    requires v.Candidate? ==> Announced(p, e) && v.announcement == e.announcement
                              && |v.payload| == e.announcement.payloadSize
    ensures var next := Settled(p, d, v);
            && (forall cid :: cid in next.payloads ==>
                  (cid in d.payloads && next.payloads[cid] == d.payloads[cid])
                  || RecordOf(p, e, cid, next.payloads[cid]))
            && (forall key :: key in next.shelf.artifacts ==>
                  (key in d.shelf.artifacts && next.shelf.artifacts[key] == d.shelf.artifacts[key])
                  || (Announced(p, e) && next.shelf.artifacts[key] == e.announcement))
  {}

  /** Over every inbox: behind each ledger record is an accepted announcement of its
      content id, epoch, hash and size, kept for the retention period ... */
  lemma {:induction false} RecordBacked(p: Post, inbox: seq<Envelope>, cid: Bytes) returns (i: nat)
    requires cid in Run(p, EmptyDepot(), inbox).payloads
    ensures i < |inbox| && RecordOf(p, inbox[i], cid, Run(p, EmptyDepot(), inbox).payloads[cid])
  {
    var n := |inbox| - 1;
    var before := Run(p, EmptyDepot(), inbox[..n]);
    ReceivedNew(p, before, inbox[n]);
    if RecordOf(p, inbox[n], cid, Run(p, EmptyDepot(), inbox).payloads[cid]) {
      i := n;
    } else {
      i := RecordBacked(p, inbox[..n], cid);
    }
  }

  /** ... and every artifact is an accepted announcement. */
  lemma {:induction false} ArtifactBacked(p: Post, inbox: seq<Envelope>, key: ArtifactKey) returns (i: nat)
    requires key in Run(p, EmptyDepot(), inbox).shelf.artifacts
    ensures i < |inbox| && Announced(p, inbox[i])
    ensures Run(p, EmptyDepot(), inbox).shelf.artifacts[key] == inbox[i].announcement
  {
    var n := |inbox| - 1;
    var before := Run(p, EmptyDepot(), inbox[..n]);
    ReceivedNew(p, before, inbox[n]);
    if Announced(p, inbox[n]) && Run(p, EmptyDepot(), inbox).shelf.artifacts[key] == inbox[n].announcement {
      i := n;
    } else {
      i := ArtifactBacked(p, inbox[..n], key);
    }
  }

  // ----- the object

  class PeerStore {
    const post: Post
    var artifacts: map<ArtifactKey, Announcement>
    var files: map<Bytes, Bytes>

    constructor (post: Post)
      ensures this.post == post && artifacts == map[] && files == map[]
    {
      this.post, artifacts, files := post, map[], map[];
    }

    ghost function Now(book: RetentionBook): Depot
      reads this, book
    {
      Depot(Shelf(artifacts, files), book.payloads, book.used)
    }

    /** Every announcement ends in exactly one counter, that of its fate, and the
        files and the ledger are those of the run over the inbox. */
    method Ingest(book: RetentionBook, inbox: seq<Envelope>) returns (out: Outcome)
      requires book.Valid() && book.quota == post.quota
      modifies this, book
      ensures book.Valid() && Now(book) == Run(post, old(Now(book)), inbox)
      ensures Balanced(out, |inbox|) && |artifacts| == |old(artifacts)| + out.accepted
      ensures CountedBy(post, old(Now(book)), inbox, out)
      ensures forall k :: k in old(artifacts) ==> k in artifacts && artifacts[k] == old(artifacts)[k]
    {
      out := Outcome(0, 0, 0, 0, 0);
      for i := 0 to |inbox|
        invariant book.Valid() && Now(book) == Run(post, old(Now(book)), inbox[..i])
        invariant Balanced(out, i) && |artifacts| == |old(artifacts)| + out.accepted
        invariant CountedBy(post, old(Now(book)), inbox[..i], out)
        invariant forall k :: k in old(artifacts) ==> k in artifacts && artifacts[k] == old(artifacts)[k]
      {
        RunSnoc(post, old(Now(book)), inbox, i);
        var fate := Take(book, inbox[i]);
        TallyBalanced(out, fate, i);
        CountSnoc(post, old(Now(book)), inbox, i, out);
        out := Tally(out, fate);
      }
      assert inbox[..|inbox|] == inbox;
    }

    method Take(book: RetentionBook, envelope: Envelope) returns (fate: Fate)
      requires book.Valid() && book.quota == post.quota
      modifies this, book
      ensures book.Valid() && Now(book) == Received(post, old(Now(book)), envelope)
      ensures fate == FateOf(post, old(Now(book)), Judge(post, envelope))
      ensures |artifacts| == |old(artifacts)| + if fate == Stored then 1 else 0
      ensures forall k :: k in old(artifacts) ==> k in artifacts && artifacts[k] == old(artifacts)[k]
    {
      var verdict := Judge(post, envelope);
      PlacedKeeps(post, Now(book), verdict);
      fate := Settle(book, verdict);
    }

    /** The payload file is written whether or not the ledger has room. */
    method Settle(book: RetentionBook, verdict: Verdict) returns (fate: Fate)
      requires book.Valid() && book.quota == post.quota
      modifies this, book
      ensures book.Valid() && fate == FateOf(post, old(Now(book)), verdict)
      ensures Now(book) == Settled(post, old(Now(book)), verdict)
    {
      match verdict
      case Own => return Ours;
      case Rejected => return Refused;
      case Candidate(key, ann, payload) =>
        if key in artifacts { return Duplicate; }
        files := files[post.names.payload(ann.payloadCid) := payload];
        var record := book.RecordPayload(ann.epoch, post.retentionEpochs, ann.payloadCid, ann.payloadHash, |payload|);
        if record.None? { return Refused; }
        artifacts := artifacts[key := ann];
        return Stored;
    }
  }

  // ----- when stored batches stay readable

  /** The verdict is a new batch for a payload file that a stored artifact uses. */
  ghost predicate Clash(p: Post, shelf: Shelf, v: Verdict)
  {
    v.Candidate? && v.key !in shelf.artifacts
    && exists k :: k in shelf.artifacts && FileOf(p, shelf.artifacts[k]) == FileOf(p, v.announcement)
  }

  /** The artifact's payload file now belongs under another key. */
  predicate Lost(p: Post, shelf: Shelf, key: ArtifactKey)
  {
    key in shelf.artifacts &&
    var file := FileOf(p, shelf.artifacts[key]);
    file in shelf.files && KeyAt(p, file, shelf.files[file]) != Some(key)
  }

  ghost predicate SomeLost(p: Post, shelf: Shelf) { exists key :: Lost(p, shelf, key) }

  lemma LostNotIntact(p: Post, shelf: Shelf)
    requires SomeLost(p, shelf)
    ensures !Intact(p, shelf)
  {
    var key :| Lost(p, shelf, key);
    assert !Reproduced(p, shelf, key);
  }

  /** Without a clash stored batches stay readable, and so is a new one. */
  lemma StaysIntact(p: Post, d: Depot, v: Verdict)
    requires Intact(p, d.shelf) && !Clash(p, d.shelf, v)
    requires v.Candidate? ==> Genuine(p, v.key, v.announcement, v.payload)
    ensures Intact(p, Settled(p, d, v).shelf)
  {
    var next := Settled(p, d, v).shelf;
    forall key | key in next.artifacts ensures Reproduced(p, next, key) {
      if key in d.shelf.artifacts { assert Reproduced(p, d.shelf, key); }
    }
  }

  /** A clash loses the stored batch, whether the new one is stored or refused. */
  lemma ClashLoses(p: Post, d: Depot, v: Verdict)
    requires Clash(p, d.shelf, v) && Genuine(p, v.key, v.announcement, v.payload)
    ensures SomeLost(p, Settled(p, d, v).shelf)
  {
    var k :| k in d.shelf.artifacts && FileOf(p, d.shelf.artifacts[k]) == FileOf(p, v.announcement);
    assert Lost(p, Settled(p, d, v).shelf, k);
  }

  /** What is lost stays lost: its own payload would be dropped as a duplicate. */
  lemma LossStays(p: Post, d: Depot, v: Verdict)
    requires SomeLost(p, d.shelf) && (v.Candidate? ==> Genuine(p, v.key, v.announcement, v.payload))
    ensures SomeLost(p, Settled(p, d, v).shelf)
  {
    var key :| Lost(p, d.shelf, key);
    assert Lost(p, Settled(p, d, v).shelf, key);
  }

  /** Some announcement of the inbox clashes with what is stored when it is read. */
  ghost predicate Clashes(p: Post, d: Depot, inbox: seq<Envelope>)
  {
    |inbox| > 0 &&
    var front := inbox[..|inbox| - 1];
    Clashes(p, d, front) || Clash(p, Run(p, d, front).shelf, Judge(p, inbox[|inbox| - 1]))
  }

  /** Over every inbox: every stored batch can still be read back, the new ones
      included, if and only if no accepted payload is written over that of a
      batch stored under another key. */
  lemma IntactIff(p: Post, d: Depot, inbox: seq<Envelope>)
    requires Intact(p, d.shelf)
    ensures Intact(p, Run(p, d, inbox).shelf) <==> !Clashes(p, d, inbox)
  {
    IntactOrLost(p, d, inbox);
    if Clashes(p, d, inbox) { LostNotIntact(p, Run(p, d, inbox).shelf); }
  }

  lemma {:induction false} IntactOrLost(p: Post, d: Depot, inbox: seq<Envelope>)
    requires Intact(p, d.shelf)
    ensures if Clashes(p, d, inbox) then SomeLost(p, Run(p, d, inbox).shelf) else Intact(p, Run(p, d, inbox).shelf)
  {
    if |inbox| > 0 {
      var n := |inbox| - 1;
      var before, v := Run(p, d, inbox[..n]), Judge(p, inbox[n]);
      IntactOrLost(p, d, inbox[..n]);
      if Clashes(p, d, inbox[..n]) {
        LossStays(p, before, v);
      } else if Clash(p, before.shelf, v) {
        ClashLoses(p, before, v);
      } else {
        StaysIntact(p, before, v);
      }
    }
  }

  // ----- content ids that determine their payload

  ghost predicate Addressed(p: Post, content: Bytes -> Bytes, shelf: Shelf)
  {
    forall file :: file in shelf.files ==> shelf.files[file] == content(file)
  }

  ghost predicate AddressedInbox(p: Post, content: Bytes -> Bytes, inbox: seq<Envelope>)
  {
    forall i :: 0 <= i < |inbox| ==> AddressedVerdict(p, content, Judge(p, inbox[i]))
  }

  ghost predicate AddressedVerdict(p: Post, content: Bytes -> Bytes, v: Verdict)
  {
    v.Candidate? ==> v.payload == content(FileOf(p, v.announcement))
  }

  /** If the file name of every payload determines its bytes, as honest content ids
      do, every inbox leaves all stored batches readable. */
  lemma {:induction false} AddressedIntact(p: Post, content: Bytes -> Bytes, d: Depot, inbox: seq<Envelope>)
    requires Intact(p, d.shelf) && Addressed(p, content, d.shelf) && AddressedInbox(p, content, inbox)
    ensures Intact(p, Run(p, d, inbox).shelf) && Addressed(p, content, Run(p, d, inbox).shelf)
  {
    if |inbox| > 0 {
      var n := |inbox| - 1;
      AddressedIntact(p, content, d, inbox[..n]);
      var before, v := Run(p, d, inbox[..n]), Judge(p, inbox[n]);
      assert AddressedVerdict(p, content, v);
      AddressedNoClash(p, content, before.shelf, v);
      StaysIntact(p, before, v);
    }
  }

  lemma AddressedNoClash(p: Post, content: Bytes -> Bytes, shelf: Shelf, v: Verdict)
    requires Intact(p, shelf) && Addressed(p, content, shelf) && AddressedVerdict(p, content, v)
    requires v.Candidate? ==> Genuine(p, v.key, v.announcement, v.payload)
    ensures !Clash(p, shelf, v)
  {
    forall k | v.Candidate? && k in shelf.artifacts && FileOf(p, shelf.artifacts[k]) == FileOf(p, v.announcement)
      ensures k == v.key
    {
      assert Reproduced(p, shelf, k);
    }
  }

  // ----- content ids that do not

  /** A list of observations that one peer may announce. */
  predicate Listing(p: Post, os: seq<Observation>)
  {
    && EncodableList(os) && 0 < |os| && os[0].collector != p.local
    && forall o :: o in os ==> o.epoch == os[0].epoch && o.collector == os[0].collector
  }

  /** It announces and serves them under any content id it likes. */
  function Offer(p: Post, cid: Bytes, os: seq<Observation>): Envelope
    requires EncodableList(os) && 0 < |os| < U32
  {
    var payload := EncodeList(os);
    var hash := p.env.stable(payload);
    Envelope(Announcement(os[0].epoch, os[0].collector, cid, hash, |payload|,
                          Merkle.RecordRoot(p.env.sha, Encodings(os)), |os|),
             Some(Response(cid, hash, payload)))
  }

  lemma OfferJudged(p: Post, cid: Bytes, os: seq<Observation>)
    requires Listing(p, os) && |os| < U32
    ensures Judge(p, Offer(p, cid, os))
            == Candidate(KeyOf(p, p.names.payload(cid), os), Offer(p, cid, os).announcement, EncodeList(os))
  {
    DecodeInvertsEncode(os);
    FitsU32(|os|);
  }

  /** Two such lists under one content id, beginning in different slots or epochs:
      both are accepted, and the first batch then reads as the second. */
  lemma OverwrittenPayload(p: Post, cid: Bytes, xs: seq<Observation>, ys: seq<Observation>)
    requires Listing(p, xs) && Listing(p, ys) && |xs| < U32 && |ys| < U32 && |EncodeList(xs)| <= p.quota
    requires (xs[0].epoch, xs[0].slot) != (ys[0].epoch, ys[0].slot)
    ensures var inbox := [Offer(p, cid, xs), Offer(p, cid, ys)]; var file := p.names.payload(cid);
            var shelf := Run(p, EmptyDepot(), inbox).shelf;
            && shelf.artifacts.Keys == {KeyOf(p, file, xs), KeyOf(p, file, ys)}
            && shelf.files == map[file := EncodeList(ys)] && !Intact(p, shelf)
  {
    var a, b := Offer(p, cid, xs), Offer(p, cid, ys);
    var inbox, file := [a, b], p.names.payload(cid);
    OfferJudged(p, cid, xs);
    OfferJudged(p, cid, ys);
    assert inbox[..1] == [a] && [a][..0] == [];
    var d := Received(p, EmptyDepot(), a);
    assert Run(p, EmptyDepot(), [a]) == d;
    assert d.shelf == Shelf(map[KeyOf(p, file, xs) := a.announcement], map[file := EncodeList(xs)]);
    assert cid in d.payloads;
    var shelf := Run(p, EmptyDepot(), inbox).shelf;
    assert shelf == Received(p, d, b).shelf;
    DecodeInvertsEncode(ys);
    assert Lost(p, shelf, KeyOf(p, file, xs));
    LostNotIntact(p, shelf);
  }
}
