/** Automatic witnessing: which peers' play sessions this node signs, over every
    interleaving of session and attestation messages.

    Sessions and attestations are files named by session id; writing one again
    replaces it. Signatures and the account derivation are left out. */
module Witness {
  import opened Machine

  type Id = seq<nat>
  type Address = seq<nat>

  datatype Session = Session(
    id: Id, player: Address, collector: Address, app: nat, epoch: nat, playSeconds: nat, cid: Id, players: u64)

  datatype Attestation = Attestation(session: Id, signer: Address, playSeconds: nat, cid: Id, players: u64)

  /** A retained payload: its readings, if the file is there and decodes. */
  datatype Reading = Reading(app: nat, players: u64)
  datatype Payload = Payload(epoch: nat, cid: Id, readings: Option<seq<Reading>>)
  datatype Own = Own(cid: Id, players: u64)

  datatype Message =
    | PlaySession(session: Session, retained: seq<Payload>)
    | WitnessAttestation(attestation: Attestation)

  datatype Node = Node(account: Address, nodeId: Address, collects: bool)

  /** The two stores, and the sessions this node has signed, oldest first. */
  datatype Desk = Desk(sessions: map<Id, Session>, attestations: map<Id, Attestation>, signed: seq<Session>)

  const QUOTA: nat := 64
  const TOLERANCE_PPM: nat := 50_000

  // ----- this node's own figure

  function FirstReading(readings: seq<Reading>, app: nat): Option<u64>
  {
    if |readings| == 0 then None
    else if readings[0].app == app then Some(readings[0].players)
    else FirstReading(readings[1..], app)
  }

  function OwnFrom(p: Payload, epoch: nat, app: nat): Option<Own>
  {
    if p.epoch != epoch || p.readings.None? then None
    else
      var players := FirstReading(p.readings.value, app);
      if players.Some? then Some(Own(p.cid, players.value)) else None
  }

  /** The first retained figure for the app in the epoch. */
  function OwnObservation(retained: seq<Payload>, epoch: nat, app: nat): Option<Own>
  {
    if |retained| == 0 then None
    else
      var own := OwnFrom(retained[0], epoch, app);
      if own.Some? then own else OwnObservation(retained[1..], epoch, app)
  }

  /** The position of the first reading of the app, if there is one. */
  lemma {:induction false} FirstReadingIff(readings: seq<Reading>, app: nat) returns (k: nat)
    ensures k <= |readings| && forall i :: 0 <= i < k ==> readings[i].app != app
    ensures FirstReading(readings, app).None? <==> k == |readings|
    ensures k < |readings| ==> readings[k] == Reading(app, FirstReading(readings, app).value)
  {
    if |readings| == 0 || readings[0].app == app {
      k := 0;
    } else {
      k := FirstReadingIff(readings[1..], app);
      k := k + 1;
    }
  }

  predicate NoReading(p: Payload, app: nat)
  {
    p.readings.Some? ==> forall i :: 0 <= i < |p.readings.value| ==> p.readings.value[i].app != app
  }

  /** The figure is reading `j` of payload `k`: of the epoch, decoded, the first
      reading of the app in it, and no earlier payload of the epoch has one. */
  ghost predicate FoundAt(retained: seq<Payload>, epoch: nat, app: nat, own: Own, k: nat, j: nat)
  {
    && k < |retained| && retained[k].epoch == epoch && retained[k].readings.Some? && own.cid == retained[k].cid
    && j < |retained[k].readings.value| && retained[k].readings.value[j] == Reading(app, own.players)
    && (forall i :: 0 <= i < j ==> retained[k].readings.value[i].app != app)
    && (forall i :: 0 <= i < k && retained[i].epoch == epoch ==> NoReading(retained[i], app))
  }

  /** A figure is taken if and only if it stands in such a place. */
  lemma OwnObservationIff(retained: seq<Payload>, epoch: nat, app: nat, own: Own)
    ensures OwnObservation(retained, epoch, app) == Some(own)
            <==> exists k: nat, j: nat :: FoundAt(retained, epoch, app, own, k, j)
  {
    if OwnObservation(retained, epoch, app) == Some(own) {
      var k, j := OwnPlace(retained, epoch, app, own);
    }
    forall k: nat, j: nat | FoundAt(retained, epoch, app, own, k, j)
      ensures OwnObservation(retained, epoch, app) == Some(own)
    {
      PlaceOwn(retained, epoch, app, own, k, j);
    }
  }

  lemma {:induction false} OwnPlace(retained: seq<Payload>, epoch: nat, app: nat, own: Own) returns (k: nat, j: nat)
    requires OwnObservation(retained, epoch, app) == Some(own)
    ensures FoundAt(retained, epoch, app, own, k, j)
  {
    var p := retained[0];
    j := 0;
    if p.readings.Some? { j := FirstReadingIff(p.readings.value, app); }
    if OwnFrom(p, epoch, app).Some? {
      k := 0;
    } else {
      k, j := OwnPlace(retained[1..], epoch, app, own);
      k := k + 1;
    }
  }

  lemma {:induction false} PlaceOwn(retained: seq<Payload>, epoch: nat, app: nat, own: Own, k: nat, j: nat)
    requires FoundAt(retained, epoch, app, own, k, j)
    ensures OwnObservation(retained, epoch, app) == Some(own)
  {
    var p := retained[0];
    if p.readings.Some? { var first := FirstReadingIff(p.readings.value, app); }
    if k > 0 {
      assert FoundAt(retained[1..], epoch, app, own, k - 1, j);
      PlaceOwn(retained[1..], epoch, app, own, k - 1, j);
    }
  }

  // ----- the tolerance

  /** `deviation_ppm <= tolerance`, in the source's 64-bit arithmetic. */
  predicate Within(a: u64, b: u64)
  {
    var largest := Max(a, b);
    largest == 0 || SatMul(U64, largest - Min(a, b), 1_000_000) / largest <= TOLERANCE_PPM
  }

  /** What it is meant to decide: the difference is within tolerance of the
      larger figure, up to the truncation of a ppm. */
  predicate Close(a: nat, b: nat)
  {
    a == b || (Max(a, b) - Min(a, b)) * 1_000_000 < (TOLERANCE_PPM + 1) * Max(a, b)
  }

  /** The test without its division: a saturated difference, in ppm of the larger. */
  lemma WithinIff(a: u64, b: u64)
    ensures Within(a, b)
            <==> a == b || Min((Max(a, b) - Min(a, b)) * 1_000_000, U64 - 1) < 50_001 * Max(a, b)
  {
    if Max(a, b) > 0 {
      QuotientBound(SatMul(U64, Max(a, b) - Min(a, b), 1_000_000), Max(a, b), TOLERANCE_PPM);
    }
  }

  /** The two agree on every pair whose larger figure is `largest` exactly when
      the scaled figure fits 64 bits: past it the saturated product lets any
      deviation through. */
  lemma WithinExactIff(largest: u64)
    requires largest >= 1
    ensures (forall a: u64, b: u64 :: Max(a, b) == largest ==> (Within(a, b) <==> Close(a, b)))
            <==> (TOLERANCE_PPM + 1) * largest < U64
  {
    if (TOLERANCE_PPM + 1) * largest < U64 {
      forall a: u64, b: u64 | Max(a, b) == largest ensures Within(a, b) <==> Close(a, b) {
        QuotientBound(SatMul(U64, largest - Min(a, b), 1_000_000), largest, TOLERANCE_PPM);
      }
    } else {
      var zero: u64 := 0;
      assert Max(largest, zero) == largest && !Close(largest, zero);
      QuotientBound(SatMul(U64, largest, 1_000_000), largest, TOLERANCE_PPM);
      assert Within(largest, zero);
    }
  }

  // ----- building an attestation

  datatype BuildError = EmptyCid | WitnessIsPlayer | WitnessIsCollector | ObservationReused

  function BuildAttestation(n: Node, s: Session, own: Own): Result<Attestation, BuildError>
  {
    if own.cid == [] then Err(EmptyCid)
    else if n.account == s.player then Err(WitnessIsPlayer)
    else if n.nodeId == s.collector then Err(WitnessIsCollector)
    else if s.cid != [] && own.cid == s.cid then Err(ObservationReused)
    else Ok(Attestation(s.id, n.account, s.playSeconds, own.cid, own.players))
  }

  // ----- one message

  /** The stored sessions of an epoch that have an attestation. */
  function AttestedIn(w: Desk, epoch: nat): set<Id>
  {
    set id | id in w.sessions && id in w.attestations && w.sessions[id].epoch == epoch
  }

  predicate SameClaim(a: Session, b: Session) { a.epoch == b.epoch && a.player == b.player && a.app == b.app }

  /** A stored session making the same claim has an attestation. */
  predicate ClaimAttested(w: Desk, s: Session)
  {
    exists id :: id in w.sessions && id in w.attestations && SameClaim(w.sessions[id], s)
  }

  predicate Eligible(n: Node, w: Desk, s: Session)
  {
    && s.player != n.account && s.collector != n.nodeId && n.collects
    && s.id !in w.attestations && |AttestedIn(w, s.epoch)| < QUOTA && !ClaimAttested(w, s)
  }

  /** The attestation this node signs for a session, if any. */
  function Signature(n: Node, w: Desk, s: Session, retained: seq<Payload>): Option<Attestation>
  {
    var own := OwnObservation(retained, s.epoch, s.app);
    if !Eligible(n, w, s) || own.None? then None
    else if own.value.cid == s.cid || !Within(own.value.players, s.players) then None
    else
      var built := BuildAttestation(n, s, own.value);
      if built.Ok? then Some(built.value) else None
  }

  /** What the node and its stores allow: a collecting node, another's session, not
      attested, fewer than 64 attested in its epoch, and no other attested
      session of the same player and app in that epoch. */
  ghost predicate Allowed(n: Node, w: Desk, s: Session)
  {
    && n.collects && s.player != n.account && s.collector != n.nodeId && s.id !in w.attestations
    && |set id | id in w.sessions.Keys * w.attestations.Keys && w.sessions[id].epoch == s.epoch| < 64
    && forall id :: id in w.sessions && id in w.attestations ==>
         var x := w.sessions[id]; x.epoch != s.epoch || x.player != s.player || x.app != s.app
  }

  /** What the figure must be: under an id of its own and close to the session's. */
  ghost predicate Supports(own: Own, s: Session)
  {
    && own.cid != [] && own.cid != s.cid
    && var a, b := own.players, s.players;
       a == b || Min((Max(a, b) - Min(a, b)) * 1_000_000, U64 - 1) < 50_001 * Max(a, b)
  }

  /** Exactly when a session is signed, and what the attestation carries: the
      figure that stands first in the retained payloads of the session's epoch. */
  lemma SignatureIff(n: Node, w: Desk, s: Session, retained: seq<Payload>, a: Attestation)
    ensures Signature(n, w, s, retained) == Some(a)
            <==> && Allowed(n, w, s)
                 && (exists k: nat, j: nat :: FoundAt(retained, s.epoch, s.app, Own(a.cid, a.players), k, j))
                 && Supports(Own(a.cid, a.players), s)
                 && a == Attestation(s.id, n.account, s.playSeconds, a.cid, a.players)
  {
    AllowedIff(n, w, s);
    OwnObservationIff(retained, s.epoch, s.app, Own(a.cid, a.players));
    WithinIff(a.players, s.players);
  }

  lemma AllowedIff(n: Node, w: Desk, s: Session)
    ensures Allowed(n, w, s) <==> Eligible(n, w, s)
  {
    assert AttestedIn(w, s.epoch)
        == set id | id in w.sessions.Keys * w.attestations.Keys && w.sessions[id].epoch == s.epoch;
    if Eligible(n, w, s) {
      forall id | id in w.sessions && id in w.attestations ensures !SameClaim(w.sessions[id], s) {}
    }
  }

  function Saved(w: Desk, s: Session): Desk { w.(sessions := w.sessions[s.id := s]) }

  function Receive(n: Node, w: Desk, m: Message): Desk
  {
    match m
    case WitnessAttestation(a) => w.(attestations := w.attestations[a.session := a])
    case PlaySession(s, retained) =>
      var w1 := Saved(w, s);
      var a := Signature(n, w1, s, retained);
      if a.None? then w1 else w1.(attestations := w1.attestations[s.id := a.value], signed := w1.signed + [s])
  }

  // ----- the object

  class AutoWitness {
    const node: Node
    var sessions: map<Id, Session>
    var attestations: map<Id, Attestation>
    ghost var signed: seq<Session>

    ghost function Now(): Desk
      reads this
    {
      Desk(sessions, attestations, signed)
    }

    constructor (node: Node, sessions: map<Id, Session>, attestations: map<Id, Attestation>)
      ensures this.node == node && Now() == Desk(sessions, attestations, [])
    {
      this.node, this.sessions, this.attestations, this.signed := node, sessions, attestations, [];
    }

    method FindOwn(retained: seq<Payload>, epoch: nat, app: nat) returns (own: Option<Own>)
      ensures own == OwnObservation(retained, epoch, app)
    {
      var i := 0;
      while i < |retained|
        invariant i <= |retained|
        invariant OwnObservation(retained, epoch, app) == OwnObservation(retained[i..], epoch, app)
      {
        own := OwnFrom(retained[i], epoch, app);
        if own.Some? { return; }
        i := i + 1;
      }
      own := None;
    }

    /** How many stored sessions of the epoch have an attestation. */
    method CountAttested(epoch: nat) returns (count: nat)
      ensures count == |AttestedIn(Now(), epoch)|
    {
      count := 0;
      var rest := sessions.Keys;
      ghost var seen: set<Id> := {};
      while rest != {}
        invariant rest <= sessions.Keys && seen == AttestedIn(Now(), epoch) - rest && count == |seen|
        decreases |rest|
      {
        var id :| id in rest;
        if id in attestations && sessions[id].epoch == epoch {
          count := count + 1;
          seen := seen + {id};
        }
        rest := rest - {id};
      }
      assert seen == AttestedIn(Now(), epoch);
    }

    method Judge(s: Session, retained: seq<Payload>) returns (a: Option<Attestation>)
      ensures a == Signature(node, Now(), s, retained)
    {
      a := None;
      if s.player == node.account || s.collector == node.nodeId || !node.collects { return; }
      if s.id in attestations { return; }
      var count := CountAttested(s.epoch);
      if count >= QUOTA { return; }
      if exists id :: id in sessions && id in attestations && SameClaim(sessions[id], s) { return; }
      var own := FindOwn(retained, s.epoch, s.app);
      if own.None? { return; }
      if own.value.cid != s.cid && Within(own.value.players, s.players) {
        var built := BuildAttestation(node, s, own.value);
        if built.Ok? { a := Some(built.value); }
      }
    }

    method OnMessage(m: Message)
      modifies this
      ensures Now() == Receive(node, old(Now()), m)
    {
      match m
      case WitnessAttestation(a) =>
        attestations := attestations[a.session := a];
      case PlaySession(s, retained) =>
        sessions := sessions[s.id := s];
        var a := Judge(s, retained);
        if a.Some? {
          attestations := attestations[s.id := a.value];
          signed := signed + [s];
        }
    }
  }

  // ----- runs

  function Run(n: Node, w: Desk, messages: seq<Message>): Desk
  {
    if |messages| == 0 then w
    else Receive(n, Run(n, w, messages[..|messages| - 1]), messages[|messages| - 1])
  }

  /** Every signed session has its attestation on file, was neither played nor
      collected by this node, and is signed once. */
  ghost predicate SignedSoundly(n: Node, w: Desk)
  {
    && (forall s :: s in w.signed ==> s.id in w.attestations && s.player != n.account && s.collector != n.nodeId)
    && (forall i, j :: 0 <= i < j < |w.signed| ==> w.signed[i].id != w.signed[j].id)
  }

  lemma ReceiveSound(n: Node, w: Desk, m: Message)
    requires SignedSoundly(n, w)
    ensures SignedSoundly(n, Receive(n, w, m))
  {}

  /** Over every run, whatever peers send: no session is signed twice and none
      that this node played or collected is signed. */
  lemma {:induction false} RunSound(n: Node, w: Desk, messages: seq<Message>)
    requires w.signed == []
    ensures SignedSoundly(n, Run(n, w, messages))
  {
    if |messages| > 0 {
      RunSound(n, w, messages[..|messages| - 1]);
      ReceiveSound(n, Run(n, w, messages[..|messages| - 1]), messages[|messages| - 1]);
    }
  }

  /** Over every run: behind each session signed there is the message that offered
      it, with a retained payload of the session's own epoch whose figure for
      its app supports it and is the one attested. */
  lemma {:induction false} SignedBacked(n: Node, w: Desk, messages: seq<Message>, s: Session)
    returns (i: nat, own: Own, k: nat, j: nat)
    requires w.signed == [] && s in Run(n, w, messages).signed
    ensures i < |messages| && messages[i].PlaySession? && messages[i].session == s
    ensures FoundAt(messages[i].retained, s.epoch, s.app, own, k, j) && Supports(own, s) && n.collects
    ensures var reached := Run(n, w, messages[..i + 1]);
            s.id in reached.attestations
            && reached.attestations[s.id] == Attestation(s.id, n.account, s.playSeconds, own.cid, own.players)
  {
    var last := |messages| - 1;
    var before, m := Run(n, w, messages[..last]), messages[last];
    assert messages[..last + 1] == messages;
    if s in before.signed {
      i, own, k, j := SignedBacked(n, w, messages[..last], s);
      assert messages[..last][..i + 1] == messages[..i + 1];
    } else {
      i := last;
      own, k, j := SigningBacked(n, before, m, s);
    }
  }

  lemma SigningBacked(n: Node, w: Desk, m: Message, s: Session) returns (own: Own, k: nat, j: nat)
    requires s in Receive(n, w, m).signed && s !in w.signed
    ensures m.PlaySession? && m.session == s && n.collects
    ensures FoundAt(m.retained, s.epoch, s.app, own, k, j) && Supports(own, s)
    ensures s.id in Receive(n, w, m).attestations
    ensures Receive(n, w, m).attestations[s.id] == Attestation(s.id, n.account, s.playSeconds, own.cid, own.players)
  {
    var a := Signature(n, Saved(w, s), s, m.retained).value;
    SignatureIff(n, Saved(w, s), s, m.retained, a);
    own := Own(a.cid, a.players);
    k, j :| FoundAt(m.retained, s.epoch, s.app, own, k, j);
  }

  /** A session stands as the last message about it left it. */
  lemma {:induction false} StoredIsLatest(n: Node, w: Desk, messages: seq<Message>, i: nat)
    requires i < |messages| && messages[i].PlaySession?
    requires forall j :: i < j < |messages| && messages[j].PlaySession? ==>
               messages[j].session.id != messages[i].session.id
    ensures var s := messages[i].session;
            s.id in Run(n, w, messages).sessions && Run(n, w, messages).sessions[s.id] == s
  {
    var last := |messages| - 1;
    if i < last { StoredIsLatest(n, w, messages[..last], i); }
  }

  /** A peer's attestation is kept: from then on no session of its id is signed. */
  lemma {:induction false} AttestedNeverSigned(n: Node, w: Desk, messages: seq<Message>, i: nat, s: Session)
    requires i < |messages| && messages[i].WitnessAttestation?
    requires s in Run(n, w, messages).signed && s.id == messages[i].attestation.session
    ensures s in Run(n, w, messages[..i + 1]).signed
  {
    var last := |messages| - 1;
    if i == last {
      assert messages[..i + 1] == messages;
    } else {
      var before := Run(n, w, messages[..last]);
      StaysAttested(n, w, messages[..last], i);
      assert s in before.signed;
      AttestedNeverSigned(n, w, messages[..last], i, s);
      assert messages[..last][..i + 1] == messages[..i + 1];
    }
  }

  lemma {:induction false} StaysAttested(n: Node, w: Desk, messages: seq<Message>, i: nat)
    requires i < |messages| && messages[i].WitnessAttestation?
    ensures messages[i].attestation.session in Run(n, w, messages).attestations
  {
    var last := |messages| - 1;
    if i < last { StaysAttested(n, w, messages[..last], i); }
  }

  /** No message replaces a session this node signed by one making another claim. */
  predicate Keeps(w: Desk, m: Message)
  {
    m.PlaySession? ==> forall s :: s in w.signed && s.id == m.session.id ==> SameClaim(s, m.session)
  }

  ghost predicate Stable(n: Node, w: Desk, messages: seq<Message>)
  {
    forall i :: 0 <= i < |messages| ==> Keeps(Run(n, w, messages[..i]), messages[i])
  }

  function EpochCount(signed: seq<Session>, epoch: nat): nat
  {
    if |signed| == 0 then 0
    else EpochCount(signed[..|signed| - 1], epoch) + (if signed[|signed| - 1].epoch == epoch then 1 else 0)
  }

  /** Each signed session is still stored with its claim; claims are signed once. */
  ghost predicate Kept(w: Desk)
  {
    && (forall s :: s in w.signed ==> s.id in w.sessions && SameClaim(w.sessions[s.id], s))
    && (forall i, j :: 0 <= i < j < |w.signed| ==> !SameClaim(w.signed[i], w.signed[j]))
  }

  ghost predicate WithinQuota(w: Desk) { forall epoch :: EpochCount(w.signed, epoch) <= QUOTA }

  lemma ReceiveKept(n: Node, w: Desk, m: Message)
    requires SignedSoundly(n, w) && Kept(w) && Keeps(w, m)
    ensures Kept(Receive(n, w, m))
  {
    if m.PlaySession? { SavedKept(n, w, m.session); }
  }

  lemma SavedKept(n: Node, w: Desk, s: Session)
    requires SignedSoundly(n, w) && Kept(w) && forall x :: x in w.signed && x.id == s.id ==> SameClaim(x, s)
    ensures Kept(Saved(w, s))
    ensures Eligible(n, Saved(w, s), s) ==> forall x :: x in w.signed ==> !SameClaim(x, s)
  {
    var w1 := Saved(w, s);
    if Eligible(n, w1, s) {
      forall x | x in w.signed ensures !SameClaim(x, s) {
        assert x.id in w1.sessions && x.id in w1.attestations;
        assert !SameClaim(w1.sessions[x.id], s);
      }
    }
  }

  /** The signed sessions of an epoch are among the attested ones counted. */
  lemma {:induction false} SignedCounted(w: Desk, signed: seq<Session>, epoch: nat) returns (ids: set<Id>)
    requires forall s :: s in signed ==> s.id in w.sessions && s.id in w.attestations && SameClaim(w.sessions[s.id], s)
    requires forall i, j :: 0 <= i < j < |signed| ==> signed[i].id != signed[j].id
    ensures |ids| == EpochCount(signed, epoch) && ids <= AttestedIn(w, epoch)
    ensures forall id :: id in ids ==> exists s :: s in signed && s.id == id
  {
    if |signed| == 0 {
      ids := {};
    } else {
      var rest, last := signed[..|signed| - 1], signed[|signed| - 1];
      ids := SignedCounted(w, rest, epoch);
      if last.epoch == epoch {
        assert last in signed;
        assert last.id !in ids;
        ids := ids + {last.id};
      }
    }
  }

  lemma SubsetSize(a: set<Id>, b: set<Id>)
    requires a <= b
    ensures |a| <= |b|
  {
    assert b == a + (b - a);
  }

  lemma ReceiveQuota(n: Node, w: Desk, m: Message)
    requires SignedSoundly(n, w) && Kept(w) && Keeps(w, m) && WithinQuota(w)
    ensures WithinQuota(Receive(n, w, m))
  {
    if m.PlaySession? {
      var w1, s := Saved(w, m.session), m.session;
      SavedKept(n, w, s);
      if Eligible(n, w1, s) {
        var ids := SignedCounted(w1, w.signed, s.epoch);
        SubsetSize(ids, AttestedIn(w1, s.epoch));
      }
      assert (w.signed + [s])[..|w.signed|] == w.signed;
    }
  }

  /** Over every run in which no signed session is replaced by another claim:
      at most 64 sessions are signed per epoch, and at most one per epoch,
      player and app. */
  lemma {:induction false} RunWithinLimits(n: Node, w: Desk, messages: seq<Message>)
    requires w.signed == [] && Stable(n, w, messages)
    ensures Kept(Run(n, w, messages)) && WithinQuota(Run(n, w, messages))
  {
    if |messages| > 0 {
      var k := |messages| - 1;
      forall i | 0 <= i < k ensures Keeps(Run(n, w, messages[..k][..i]), messages[..k][i]) {
        assert messages[..k][..i] == messages[..i];
      }
      RunWithinLimits(n, w, messages[..k]);
      RunSound(n, w, messages[..k]);
      ReceiveKept(n, Run(n, w, messages[..k]), messages[k]);
      ReceiveQuota(n, Run(n, w, messages[..k]), messages[k]);
    }
  }

  /** Ids that determine the session's content make every run stable. */
  lemma DeterminedStable(n: Node, w: Desk, messages: seq<Message>, content: Id -> Session)
    requires w.signed == [] && forall m :: m in messages && m.PlaySession? ==> m.session == content(m.session.id)
    ensures Stable(n, w, messages)
  {
    forall i | 0 <= i < |messages| ensures Keeps(Run(n, w, messages[..i]), messages[i]) {
      assert forall m :: m in messages[..i] ==> m in messages;
      SignedReceived(n, w, messages[..i]);
    }
  }

  ghost predicate Received(messages: seq<Message>, s: Session)
  {
    exists m :: m in messages && m.PlaySession? && m.session == s
  }

  /** The session was received, and so was the one now stored under its id. */
  ghost predicate Traced(messages: seq<Message>, v: Desk, s: Session)
  {
    Received(messages, s) && s.id in v.sessions && Received(messages, v.sessions[s.id]) && v.sessions[s.id].id == s.id
  }

  ghost predicate AllTraced(messages: seq<Message>, v: Desk) { forall s :: s in v.signed ==> Traced(messages, v, s) }

  /** What is signed was received, and so was what replaced it. */
  lemma {:induction false} SignedReceived(n: Node, w: Desk, messages: seq<Message>)
    requires w.signed == []
    ensures AllTraced(messages, Run(n, w, messages))
  {
    if |messages| > 0 {
      var k := |messages| - 1;
      SignedReceived(n, w, messages[..k]);
      var v, u := Run(n, w, messages), Run(n, w, messages[..k]);
      forall s | Received(messages[..k], s) ensures Received(messages, s) {
        var m :| m in messages[..k] && m.PlaySession? && m.session == s;
        assert m in messages;
      }
      if messages[k].PlaySession? { assert messages[k] in messages && Received(messages, messages[k].session); }
      forall s | s in v.signed ensures Traced(messages, v, s) {
        if s in u.signed { assert Traced(messages[..k], u, s); }
      }
    }
  }

  // ----- exactly when each claim is signed once

  /** This node may come to sign the session. */
  predicate Signable(n: Node, s: Session) { n.collects && s.player != n.account && s.collector != n.nodeId }

  /** Of three sessions the second takes the first one's id for another claim, and
      the third makes the first one's claim under another id. */
  predicate Confusing(n: Node, s: Session, r: Session, t: Session)
  {
    Signable(n, s) && Signable(n, t) && s.id == r.id && !SameClaim(s, r) && SameClaim(s, t) && s.id != t.id
  }

  ghost predicate Over(offered: Session -> bool, messages: seq<Message>)
  {
    forall m :: m in messages && m.PlaySession? ==> offered(m.session)
  }

  function Empty(): Desk { Desk(map[], map[], []) }

  ghost predicate OncePerClaim(w: Desk)
  {
    forall i, j :: 0 <= i < j < |w.signed| ==> !SameClaim(w.signed[i], w.signed[j])
  }

  ghost predicate AlwaysOnce(n: Node, offered: Session -> bool)
  {
    forall messages :: Over(offered, messages) ==> OncePerClaim(Run(n, Empty(), messages))
  }

  ghost predicate Unconfused(n: Node, offered: Session -> bool)
  {
    forall s, r, t :: offered(s) && offered(r) && offered(t) ==> !Confusing(n, s, r, t)
  }

  /** Whatever sessions may be offered, every run over them signs each claim at
      most once if and only if no three of them are confusing. */
  lemma AlwaysOnceIff(n: Node, offered: Session -> bool)
    ensures AlwaysOnce(n, offered) <==> Unconfused(n, offered)
  {
    if Unconfused(n, offered) {
      forall messages | Over(offered, messages) ensures OncePerClaim(Run(n, Empty(), messages)) {
        UnconfusedOnce(n, offered, messages);
      }
    } else {
      var s, r, t :| offered(s) && offered(r) && offered(t) && Confusing(n, s, r, t);
      var messages := ConfusedTwice(n, s, r, t);
      assert Over(offered, messages);
    }
  }

  lemma {:induction false} UnconfusedOnce(n: Node, offered: Session -> bool, messages: seq<Message>)
    requires Unconfused(n, offered) && Over(offered, messages)
    ensures OncePerClaim(Run(n, Empty(), messages))
  {
    if |messages| > 0 {
      var k := |messages| - 1;
      assert forall m :: m in messages[..k] ==> m in messages;
      UnconfusedOnce(n, offered, messages[..k]);
      SignedReceived(n, Empty(), messages[..k]);
      RunSound(n, Empty(), messages[..k]);
      RunSignable(n, messages[..k]);
      var u := Run(n, Empty(), messages[..k]);
      if messages[k].PlaySession? && Eligible(n, Saved(u, messages[k].session), messages[k].session) {
        assert messages[k] in messages;
        forall x | x in u.signed ensures !SameClaim(x, messages[k].session) {
          assert Traced(messages[..k], u, x);
          OtherClaim(n, offered, messages[..k], u, x, messages[k].session);
        }
      }
    }
  }

  lemma OtherClaim(n: Node, offered: Session -> bool, before: seq<Message>, u: Desk, x: Session, t: Session)
    requires Unconfused(n, offered) && Over(offered, before) && offered(t) && Eligible(n, Saved(u, t), t)
    requires x in u.signed && Signable(n, x) && x.id in u.attestations && Traced(before, u, x)
    ensures !SameClaim(x, t)
  {
    var r := u.sessions[x.id];
    assert x.id != t.id;
    assert x.id in Saved(u, t).sessions && Saved(u, t).sessions[x.id] == r;
    assert !SameClaim(r, t);
    assert offered(x) && offered(r);
    assert !Confusing(n, x, r, t);
  }

  lemma {:induction false} RunSignable(n: Node, messages: seq<Message>)
    ensures forall s :: s in Run(n, Empty(), messages).signed ==> Signable(n, s)
  {
    if |messages| > 0 { RunSignable(n, messages[..|messages| - 1]); }
  }

  /** A nonempty id longer than both. */
  function Novel(a: Id, b: Id): (c: Id)
    ensures |c| > |a| && |c| > |b|
  {
    a + b + [0]
  }

  function Backing(s: Session, cid: Id): seq<Payload> { [Payload(s.epoch, cid, Some([Reading(s.app, s.players)]))] }

  /** Three confusing sessions, in turn, have one claim signed twice. */
  lemma ConfusedTwice(n: Node, s: Session, r: Session, t: Session) returns (messages: seq<Message>)
    requires Confusing(n, s, r, t)
    ensures !OncePerClaim(Run(n, Empty(), messages))
    ensures forall m :: m in messages ==> m.PlaySession? && m.session in {s, r, t}
  {
    var cid := Novel(s.cid, t.cid);
    assert cid != s.cid && cid != t.cid && cid != [];
    var m0, m1, m2 := PlaySession(s, Backing(s, cid)), PlaySession(r, []), PlaySession(t, Backing(t, cid));
    messages := [m0, m1, m2];
    assert messages[..2] == [m0, m1] && [m0, m1][..1] == [m0] && [m0][..0] == [];
    var w0 := Empty();
    var w1 := Receive(n, w0, m0);
    assert AttestedIn(Saved(w0, s), s.epoch) == {};
    EligibleSigned(n, w0, s, cid);
    var w2 := Receive(n, w1, m1);
    assert w2 == Saved(w1, r);
    SubsetSize(AttestedIn(Saved(w2, t), t.epoch), {s.id});
    EligibleSigned(n, w2, t, cid);
    assert Run(n, w0, [m0]) == w1;
    assert Run(n, w0, [m0, m1]) == w2;
    assert Run(n, w0, messages) == Receive(n, w2, m2);
    var signed := Run(n, w0, messages).signed;
    assert signed == [s, t];
    assert SameClaim(signed[0], signed[1]);
  }

  /** An eligible session with a matching figure at hand is signed. */
  lemma EligibleSigned(n: Node, w: Desk, s: Session, cid: Id)
    requires Eligible(n, Saved(w, s), s) && cid !in {s.cid, []}
    ensures Receive(n, w, PlaySession(s, Backing(s, cid)))
            == Desk(w.sessions[s.id := s],
                    w.attestations[s.id := Attestation(s.id, n.account, s.playSeconds, cid, s.players)], w.signed + [s])
  {
    assert FirstReading([Reading(s.app, s.players)], s.app) == Some(s.players);
    assert OwnObservation(Backing(s, cid), s.epoch, s.app) == Some(Own(cid, s.players));
    assert Within(s.players, s.players);
  }

  /** A session sent together with a figure that lets it be signed. */
  function Offer(s: Session): Message { PlaySession(s, Backing(s, Novel(s.cid, []))) }

  lemma OfferSigned(n: Node, w: Desk, s: Session)
    requires Eligible(n, Saved(w, s), s)
    ensures var v := Receive(n, w, Offer(s));
            && v.sessions == w.sessions[s.id := s] && v.signed == w.signed + [s]
            && v.attestations.Keys == w.attestations.Keys + {s.id}
  {
    EligibleSigned(n, w, s, Novel(s.cid, []));
  }

  /** A session whose id has an attestation is only saved. */
  lemma AttestedSaved(n: Node, w: Desk, s: Session)
    requires s.id in w.attestations
    ensures Receive(n, w, PlaySession(s, [])) == Saved(w, s)
  {}

  lemma RunSnoc(n: Node, w: Desk, messages: seq<Message>, m: Message)
    ensures Run(n, w, messages + [m]) == Receive(n, Run(n, w, messages), m)
  {
    assert (messages + [m])[..|messages|] == messages;
  }

  lemma SignedSnoc(signed: seq<Session>, s: Session, epoch: nat)
    ensures EpochCount(signed + [s], epoch) == EpochCount(signed, epoch) + if s.epoch == epoch then 1 else 0
  {
    assert (signed + [s])[..|signed|] == signed;
  }
}
