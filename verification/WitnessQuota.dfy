/** Exactly when automatic witnessing keeps its quota per epoch, whatever sessions
    are offered, in whatever order and however often. */
module WitnessQuota {
  import opened Machine
  import opened Witness

  type Offered = Session -> bool

  /** Another offered session takes its id for another claim, or another epoch. */
  ghost predicate Replaceable(offered: Offered, s: Session)
  {
    exists r :: offered(r) && r.id == s.id && !SameClaim(r, s)
  }

  ghost predicate Movable(offered: Offered, s: Session)
  {
    exists r :: offered(r) && r.id == s.id && r.epoch != s.epoch
  }

  predicate Member(n: Node, offered: Offered, s: Session, epoch: nat)
  {
    offered(s) && Signable(n, s) && s.epoch == epoch
  }

  /** The second can be signed after the first. */
  ghost predicate Follows(offered: Offered, s: Session, t: Session)
  {
    s.id != t.id && (SameClaim(s, t) ==> Replaceable(offered, s))
  }

  /** Sessions of one epoch that can be signed one after the other. */
  ghost predicate Packed(n: Node, offered: Offered, c: seq<Session>, epoch: nat)
  {
    && (forall i :: 0 <= i < |c| ==> Member(n, offered, c[i], epoch))
    && (forall i, j :: 0 <= i < j < |c| ==> Follows(offered, c[i], c[j]))
    && (|c| > QUOTA ==> exists i :: 0 <= i < QUOTA && Movable(offered, c[i]))
  }

  /** One more of them than the quota. */
  ghost predicate Crowd(n: Node, offered: Offered, c: seq<Session>, epoch: nat)
  {
    |c| == QUOTA + 1 && Packed(n, offered, c, epoch)
  }

  ghost predicate AlwaysWithinQuota(n: Node, offered: Offered)
  {
    forall messages :: Over(offered, messages) ==> WithinQuota(Run(n, Empty(), messages))
  }

  /** Whatever sessions may be offered, every run over them, with any attestations
      in between, signs at most 64 per epoch if and only if there is no crowd:
      65 signable ones of one epoch with different ids, where a claim made
      twice is first replaced, and one of the first 64 moves to another epoch. */
  lemma AlwaysWithinQuotaIff(n: Node, offered: Offered)
    ensures AlwaysWithinQuota(n, offered) <==> !exists c, epoch :: Crowd(n, offered, c, epoch)
  {
    if c, epoch :| Crowd(n, offered, c, epoch) {
      var messages := CrowdBreaksQuota(n, offered, c, epoch);
      assert Over(offered, messages) && !WithinQuota(Run(n, Empty(), messages));
    } else {
      forall messages | Over(offered, messages) ensures WithinQuota(Run(n, Empty(), messages)) {
        forall epoch ensures EpochCount(Run(n, Empty(), messages).signed, epoch) <= QUOTA {
          NoCrowdWithinQuota(n, offered, messages, epoch);
        }
      }
    }
  }

  // ----- what breaks the quota is a crowd

  function OfEpoch(signed: seq<Session>, epoch: nat): seq<Session>
  {
    if |signed| == 0 then []
    else
      var last := signed[|signed| - 1];
      OfEpoch(signed[..|signed| - 1], epoch) + (if last.epoch == epoch then [last] else [])
  }

  lemma {:induction false} OfEpochCount(signed: seq<Session>, epoch: nat)
    ensures |OfEpoch(signed, epoch)| == EpochCount(signed, epoch)
    ensures forall s :: s in OfEpoch(signed, epoch) ==> s in signed
  {
    if |signed| > 0 { OfEpochCount(signed[..|signed| - 1], epoch); }
  }

  lemma OfEpochSnoc(signed: seq<Session>, s: Session, epoch: nat)
    ensures OfEpoch(signed + [s], epoch)
            == if s.epoch == epoch then OfEpoch(signed, epoch) + [s] else OfEpoch(signed, epoch)
  {
    assert (signed + [s])[..|signed|] == signed;
  }

  /** Stored sessions are offered ones under their own ids; signed ones are there. */
  ghost predicate WellKept(offered: Offered, w: Desk)
  {
    && (forall id :: id in w.sessions ==> w.sessions[id].id == id && offered(w.sessions[id]))
    && (forall s :: s in w.signed ==> s.id in w.sessions && s.id in w.attestations)
  }

  lemma ReceiveWellKept(n: Node, offered: Offered, w: Desk, m: Message)
    requires WellKept(offered, w) && (m.PlaySession? ==> offered(m.session))
    ensures WellKept(offered, Receive(n, w, m))
  {}

  /** A session signed after others follows each of them. */
  lemma SignedFollows(n: Node, offered: Offered, w: Desk, x: Session, s: Session)
    requires WellKept(offered, w) && x in w.signed && Eligible(n, Saved(w, s), s)
    ensures Follows(offered, x, s)
  {
    var v, r := Saved(w, s), w.sessions[x.id];
    assert x.id in v.sessions && v.sessions[x.id] == r;
    assert offered(r) && r.id == x.id && !SameClaim(r, s);
  }

  ghost function IdSet(c: seq<Session>): set<Id> { set i | 0 <= i < |c| :: c[i].id }

  lemma {:induction false} IdSetSize(c: seq<Session>)
    requires forall i, j :: 0 <= i < j < |c| ==> c[i].id != c[j].id
    ensures |IdSet(c)| == |c|
  {
    if |c| > 0 {
      var n := |c| - 1;
      IdSetSize(c[..n]);
      IdSetSnoc(c);
    }
  }

  lemma IdSetSnoc(c: seq<Session>)
    requires |c| > 0 && forall i, j :: 0 <= i < j < |c| ==> c[i].id != c[j].id
    ensures var n := |c| - 1; IdSet(c) == IdSet(c[..n]) + {c[n].id} && c[n].id !in IdSet(c[..n])
  {
    var n := |c| - 1;
    forall id ensures id in IdSet(c) <==> id in IdSet(c[..n]) || id == c[n].id {
      if id in IdSet(c) {
        var i :| 0 <= i < |c| && c[i].id == id;
        if i < n { assert c[..n][i].id == id; }
      }
      if id in IdSet(c[..n]) {
        var i :| 0 <= i < n && c[..n][i].id == id;
        assert c[i].id == id;
      }
    }
  }

  /** If as many are signed as the quota and one more is let through, one of the
      signed sessions has been moved to another epoch. */
  lemma SomeMoved(n: Node, offered: Offered, w: Desk, c: seq<Session>, s: Session) returns (i: nat)
    requires WellKept(offered, w) && Eligible(n, Saved(w, s), s) && |c| == QUOTA
    requires forall k :: 0 <= k < |c| ==> c[k] in w.signed && c[k].epoch == s.epoch
    requires forall k, l :: 0 <= k < l < |c| ==> c[k].id != c[l].id
    ensures i < |c| && Movable(offered, c[i])
  {
    var v := Saved(w, s);
    var ids, counted := IdSet(c), AttestedIn(v, s.epoch);
    IdSetSize(c);
    assert !(ids <= counted) by {
      if ids <= counted { SubsetSize(ids, counted); }
    }
    var id :| id in ids && id !in counted;
    i :| 0 <= i < |c| && c[i].id == id;
    assert c[i] in w.signed;
    var r := w.sessions[id];
    assert id != s.id && v.sessions[id] == r;
    assert offered(r) && r.id == c[i].id && r.epoch != c[i].epoch;
  }

  lemma SignedPacked(n: Node, offered: Offered, w: Desk, c: seq<Session>, s: Session)
    requires WellKept(offered, w) && Eligible(n, Saved(w, s), s) && offered(s)
    requires Packed(n, offered, c, s.epoch) && forall x :: x in c ==> x in w.signed
    ensures Packed(n, offered, c + [s], s.epoch)
  {
    var more := c + [s];
    forall i, j | 0 <= i < j < |more| ensures Follows(offered, more[i], more[j]) {
      if j == |c| {
        assert c[i] in c;
        SignedFollows(n, offered, w, c[i], s);
      }
    }
    if |c| > QUOTA {
      var i :| 0 <= i < QUOTA && Movable(offered, c[i]);
      assert more[i] == c[i];
    } else if |c| == QUOTA {
      assert forall k :: 0 <= k < |c| ==> c[k] in c && Member(n, offered, c[k], s.epoch);
      assert forall k, l :: 0 <= k < l < |c| ==> Follows(offered, c[k], c[l]);
      var i := SomeMoved(n, offered, w, c, s);
      assert more[i] == c[i];
    }
  }

  lemma ReceivePacked(n: Node, offered: Offered, w: Desk, m: Message, epoch: nat)
    requires WellKept(offered, w) && (m.PlaySession? ==> offered(m.session))
    requires Packed(n, offered, OfEpoch(w.signed, epoch), epoch)
    ensures Packed(n, offered, OfEpoch(Receive(n, w, m).signed, epoch), epoch)
  {
    if m.PlaySession? && Receive(n, w, m).signed != w.signed {
      var s := m.session;
      assert Receive(n, w, m).signed == w.signed + [s] && Eligible(n, Saved(w, s), s);
      OfEpochSnoc(w.signed, s, epoch);
      OfEpochCount(w.signed, epoch);
      if s.epoch == epoch { SignedPacked(n, offered, w, OfEpoch(w.signed, epoch), s); }
    }
  }

  lemma {:induction false} RunPacked(n: Node, offered: Offered, messages: seq<Message>, epoch: nat)
    requires Over(offered, messages)
    ensures WellKept(offered, Run(n, Empty(), messages))
    ensures Packed(n, offered, OfEpoch(Run(n, Empty(), messages).signed, epoch), epoch)
  {
    if |messages| > 0 {
      var k := |messages| - 1;
      assert forall m :: m in messages[..k] ==> m in messages;
      RunPacked(n, offered, messages[..k], epoch);
      var w, m := Run(n, Empty(), messages[..k]), messages[k];
      assert m in messages;
      ReceiveWellKept(n, offered, w, m);
      ReceivePacked(n, offered, w, m, epoch);
    }
  }

  lemma NoCrowdWithinQuota(n: Node, offered: Offered, messages: seq<Message>, epoch: nat)
    requires Over(offered, messages) && !exists c, e :: Crowd(n, offered, c, e)
    ensures EpochCount(Run(n, Empty(), messages).signed, epoch) <= QUOTA
  {
    RunPacked(n, offered, messages, epoch);
    var c := OfEpoch(Run(n, Empty(), messages).signed, epoch);
    OfEpochCount(Run(n, Empty(), messages).signed, epoch);
    if |c| > QUOTA { FirstOnes(n, offered, c, epoch); }
  }

  lemma FirstOnes(n: Node, offered: Offered, c: seq<Session>, epoch: nat)
    requires Packed(n, offered, c, epoch) && |c| > QUOTA
    ensures Crowd(n, offered, c[..QUOTA + 1], epoch)
  {
    var i :| 0 <= i < QUOTA && Movable(offered, c[i]);
    assert c[..QUOTA + 1][i] == c[i];
  }

  // ----- and a crowd breaks it

  /** The first `k` are stored, attested and signed, whatever is stored for them. */
  ghost predicate Seated(w: Desk, c: seq<Session>, k: nat)
    requires k <= |c|
  {
    w.sessions.Keys == w.attestations.Keys == IdSet(c[..k]) && w.signed == c[..k]
  }

  /** Under each of the first ids, a session that leaves room for the next. */
  ghost predicate Cleared(offered: Offered, c: seq<Session>, k: nat, epoch: nat, picks: seq<Session>)
    requires k < |c|
  {
    && |picks| == k
    && (forall i :: 0 <= i < k ==> offered(picks[i]) && picks[i].id == c[i].id && !SameClaim(picks[i], c[k]))
    && (k >= QUOTA ==> exists i :: 0 <= i < k && picks[i].epoch != epoch)
  }

  /** An offered session for the id that does not make the next one's claim. */
  lemma PickOne(n: Node, offered: Offered, c: seq<Session>, epoch: nat, i: nat, k: nat) returns (r: Session)
    requires Packed(n, offered, c, epoch) && i < k < |c|
    ensures offered(r) && r.id == c[i].id && !SameClaim(r, c[k])
  {
    assert Follows(offered, c[i], c[k]) && Member(n, offered, c[i], epoch);
    if SameClaim(c[i], c[k]) {
      r :| offered(r) && r.id == c[i].id && !SameClaim(r, c[i]);
    } else {
      r := c[i];
    }
  }

  lemma {:induction false} PickSome(n: Node, offered: Offered, c: seq<Session>, epoch: nat, k: nat, m: nat)
    returns (picks: seq<Session>)
    requires Packed(n, offered, c, epoch) && m <= k < |c|
    ensures |picks| == m
    ensures forall i :: 0 <= i < m ==> offered(picks[i]) && picks[i].id == c[i].id && !SameClaim(picks[i], c[k])
  {
    picks := [];
    if m > 0 {
      picks := PickSome(n, offered, c, epoch, k, m - 1);
      var r := PickOne(n, offered, c, epoch, m - 1, k);
      picks := picks + [r];
    }
  }

  lemma PickAll(n: Node, offered: Offered, c: seq<Session>, epoch: nat, k: nat) returns (picks: seq<Session>)
    requires Packed(n, offered, c, epoch) && k < |c|
    ensures Cleared(offered, c, k, epoch, picks)
  {
    picks := PickSome(n, offered, c, epoch, k, k);
    if k >= QUOTA {
      var i :| 0 <= i < QUOTA && Movable(offered, c[i]);
      var r :| offered(r) && r.id == c[i].id && r.epoch != c[i].epoch;
      assert Member(n, offered, c[i], epoch) && Member(n, offered, c[k], epoch);
      picks := picks[i := r];
      assert picks[i].epoch != epoch;
    }
  }

  function Resent(picks: seq<Session>): seq<Message>
  {
    if |picks| == 0 then [] else Resent(picks[..|picks| - 1]) + [PlaySession(picks[|picks| - 1], [])]
  }

  /** The sessions picked are stored, and nothing else has changed. */
  ghost predicate Resaved(w: Desk, v: Desk, picks: seq<Session>)
  {
    && v.attestations == w.attestations && v.signed == w.signed
    && v.sessions.Keys == w.sessions.Keys + IdSet(picks)
    && forall i :: 0 <= i < |picks| ==> picks[i].id in v.sessions && v.sessions[picks[i].id] == picks[i]
  }

  /** Sending attested ids again replaces what is stored and nothing else. */
  lemma {:induction false} ResentSaves(n: Node, w: Desk, picks: seq<Session>)
    requires forall i :: 0 <= i < |picks| ==> picks[i].id in w.attestations
    requires forall i, j :: 0 <= i < j < |picks| ==> picks[i].id != picks[j].id
    ensures Resaved(w, Run(n, w, Resent(picks)), picks)
  {
    if |picks| > 0 {
      var front, last := picks[..|picks| - 1], picks[|picks| - 1];
      ResentSaves(n, w, front);
      var u := Run(n, w, Resent(front));
      ResavedSnoc(w, u, picks);
      RunSnoc(n, w, Resent(front), PlaySession(last, []));
      AttestedSaved(n, u, last);
    }
  }

  lemma ResavedSnoc(w: Desk, u: Desk, picks: seq<Session>)
    requires |picks| > 0 && Resaved(w, u, picks[..|picks| - 1])
    requires forall i, j :: 0 <= i < j < |picks| ==> picks[i].id != picks[j].id
    ensures Resaved(w, Saved(u, picks[|picks| - 1]), picks)
  {
    var k := |picks| - 1;
    var v := Saved(u, picks[k]);
    IdSetSnoc(picks);
    forall i | 0 <= i < |picks| ensures picks[i].id in v.sessions && v.sessions[picks[i].id] == picks[i] {
      if i < k { assert picks[..k][i] == picks[i]; }
    }
  }

  /** With the ids cleared the next of the crowd is eligible. */
  lemma NextEligible(n: Node, offered: Offered, c: seq<Session>, epoch: nat, k: nat, picks: seq<Session>, w: Desk)
    requires Packed(n, offered, c, epoch) && k < |c| && k <= QUOTA && Cleared(offered, c, k, epoch, picks)
    requires w.attestations.Keys == IdSet(c[..k])
    requires forall i :: 0 <= i < k ==> c[i].id in w.sessions && w.sessions[c[i].id] == picks[i]
    ensures Eligible(n, Saved(w, c[k]), c[k])
  {
    var v := Saved(w, c[k]);
    FewCounted(n, offered, c, epoch, k, picks, w);
    assert Member(n, offered, c[k], epoch);
    NotAttested(n, offered, c, epoch, k);
    forall id | id in v.sessions && id in v.attestations ensures !SameClaim(v.sessions[id], c[k]) {
      var i :| 0 <= i < k && c[..k][i].id == id;
      assert c[i].id == id && Follows(offered, c[i], c[k]);
    }
  }

  lemma NotAttested(n: Node, offered: Offered, c: seq<Session>, epoch: nat, k: nat)
    requires Packed(n, offered, c, epoch) && k < |c|
    ensures c[k].id !in IdSet(c[..k])
  {
    forall i | 0 <= i < k ensures c[..k][i].id != c[k].id { assert Follows(offered, c[i], c[k]); }
  }

  lemma FewCounted(n: Node, offered: Offered, c: seq<Session>, epoch: nat, k: nat, picks: seq<Session>, w: Desk)
    requires Packed(n, offered, c, epoch) && k < |c| && k <= QUOTA && Cleared(offered, c, k, epoch, picks)
    requires w.attestations.Keys == IdSet(c[..k])
    requires forall i :: 0 <= i < k ==> c[i].id in w.sessions && w.sessions[c[i].id] == picks[i]
    ensures |AttestedIn(Saved(w, c[k]), epoch)| < QUOTA
  {
    var ids := IdSet(c[..k]);
    IdsOfCrowd(n, offered, c, epoch, k);
    if k < QUOTA {
      SubsetSize(AttestedIn(Saved(w, c[k]), epoch), ids);
    } else {
      var i :| 0 <= i < k && picks[i].epoch != epoch;
      assert c[..k][i].id == c[i].id && Follows(offered, c[i], c[k]);
      CountedElsewhere(Saved(w, c[k]), epoch, ids, c[i].id);
    }
  }

  lemma IdsOfCrowd(n: Node, offered: Offered, c: seq<Session>, epoch: nat, k: nat)
    requires Packed(n, offered, c, epoch) && k <= |c|
    ensures |IdSet(c[..k])| == k && forall i :: 0 <= i < k ==> c[i].id in IdSet(c[..k])
  {
    var front := c[..k];
    forall i, j | 0 <= i < j < k ensures front[i].id != front[j].id { assert Follows(offered, c[i], c[j]); }
    IdSetSize(front);
    forall i | 0 <= i < k ensures c[i].id in IdSet(front) { assert front[i].id == c[i].id; }
  }

  lemma CountedElsewhere(v: Desk, epoch: nat, ids: set<Id>, id: Id)
    requires v.attestations.Keys <= ids && id in ids && id in v.sessions && v.sessions[id].epoch != epoch
    ensures |AttestedIn(v, epoch)| < |ids|
  {
    SubsetSize(AttestedIn(v, epoch), ids - {id});
  }

  /** Clearing the ids and offering the next one seats it. */
  lemma SeatNext(n: Node, offered: Offered, c: seq<Session>, epoch: nat, k: nat, picks: seq<Session>, w: Desk)
    requires Packed(n, offered, c, epoch) && k < |c| && k <= QUOTA && Cleared(offered, c, k, epoch, picks)
    requires Seated(w, c, k)
    ensures Seated(Receive(n, Run(n, w, Resent(picks)), Offer(c[k])), c, k + 1)
  {
    DeskCleared(n, offered, c, epoch, k, picks, w);
    OfferSeats(n, offered, c, epoch, k, picks, Run(n, w, Resent(picks)));
  }

  /** The first `k` are signed, and the sessions picked are stored for them. */
  ghost predicate Waiting(v: Desk, c: seq<Session>, k: nat, picks: seq<Session>)
    requires k <= |c| && |picks| == k
  {
    && Seated(v, c, k)
    && forall i :: 0 <= i < k ==> c[i].id in v.sessions && v.sessions[c[i].id] == picks[i]
  }

  lemma DeskCleared(n: Node, offered: Offered, c: seq<Session>, epoch: nat, k: nat, picks: seq<Session>, w: Desk)
    requires Packed(n, offered, c, epoch) && k < |c| && Cleared(offered, c, k, epoch, picks) && Seated(w, c, k)
    ensures Waiting(Run(n, w, Resent(picks)), c, k, picks)
  {
    PicksDistinct(n, offered, c, epoch, k, picks);
    ResentSaves(n, w, picks);
    ResavedWaiting(c, k, picks, w, Run(n, w, Resent(picks)));
  }

  lemma ResavedWaiting(c: seq<Session>, k: nat, picks: seq<Session>, w: Desk, v: Desk)
    requires k <= |c| && |picks| == k && Seated(w, c, k) && Resaved(w, v, picks) && IdSet(picks) == IdSet(c[..k])
    requires forall i :: 0 <= i < k ==> picks[i].id == c[i].id
    ensures Waiting(v, c, k, picks)
  {
    assert w.sessions.Keys + IdSet(picks) == IdSet(c[..k]);
  }

  lemma OfferSeats(n: Node, offered: Offered, c: seq<Session>, epoch: nat, k: nat, picks: seq<Session>, v: Desk)
    requires Packed(n, offered, c, epoch) && k < |c| && k <= QUOTA && Cleared(offered, c, k, epoch, picks)
    requires Waiting(v, c, k, picks)
    ensures Seated(Receive(n, v, Offer(c[k])), c, k + 1)
  {
    NextEligible(n, offered, c, epoch, k, picks, v);
    OfferSigned(n, v, c[k]);
    SeatsSnoc(n, offered, c, epoch, k);
  }

  lemma PicksDistinct(n: Node, offered: Offered, c: seq<Session>, epoch: nat, k: nat, picks: seq<Session>)
    requires Packed(n, offered, c, epoch) && k < |c| && Cleared(offered, c, k, epoch, picks)
    ensures forall i, j :: 0 <= i < j < k ==> picks[i].id != picks[j].id
    ensures IdSet(picks) == IdSet(c[..k]) && forall i :: 0 <= i < k ==> picks[i].id in IdSet(c[..k])
  {
    forall i, j | 0 <= i < j < k ensures picks[i].id != picks[j].id { assert Follows(offered, c[i], c[j]); }
    assert forall i :: 0 <= i < k ==> picks[i].id == c[..k][i].id;
  }

  lemma SeatsSnoc(n: Node, offered: Offered, c: seq<Session>, epoch: nat, k: nat)
    requires Packed(n, offered, c, epoch) && k < |c|
    ensures c[..k + 1] == c[..k] + [c[k]] && IdSet(c[..k + 1]) == IdSet(c[..k]) + {c[k].id}
  {
    var front := c[..k + 1];
    forall i, j | 0 <= i < j < |front| ensures front[i].id != front[j].id { assert Follows(offered, c[i], c[j]); }
    assert front[..k] == c[..k];
    IdSetSnoc(front);
  }

  lemma {:induction false} RunConcat(n: Node, w: Desk, a: seq<Message>, b: seq<Message>)
    ensures Run(n, w, a + b) == Run(n, Run(n, w, a), b)
  {
    if |b| == 0 {
      assert a + b == a;
    } else {
      var k := |b| - 1;
      RunConcat(n, w, a, b[..k]);
      RunSnoc(n, w, a + b[..k], b[k]);
      assert a + b == a + b[..k] + [b[k]];
    }
  }

  lemma {:induction false} ResentOver(offered: Offered, picks: seq<Session>)
    requires forall i :: 0 <= i < |picks| ==> offered(picks[i])
    ensures Over(offered, Resent(picks))
  {
    if |picks| > 0 { ResentOver(offered, picks[..|picks| - 1]); }
  }

  lemma {:induction false} CrowdSeated(n: Node, offered: Offered, c: seq<Session>, epoch: nat, k: nat)
    returns (messages: seq<Message>)
    requires Packed(n, offered, c, epoch) && k <= |c| && k <= QUOTA + 1
    ensures Over(offered, messages) && Seated(Run(n, Empty(), messages), c, k)
  {
    messages := [];
    if k > 0 {
      var before := CrowdSeated(n, offered, c, epoch, k - 1);
      var picks := PickAll(n, offered, c, epoch, k - 1);
      SeatNext(n, offered, c, epoch, k - 1, picks, Run(n, Empty(), before));
      messages := before + Resent(picks) + [Offer(c[k - 1])];
      RunConcat(n, Empty(), before, Resent(picks));
      RunSnoc(n, Empty(), before + Resent(picks), Offer(c[k - 1]));
      ResentOver(offered, picks);
      assert Member(n, offered, c[k - 1], epoch);
    }
  }

  lemma CrowdBreaksQuota(n: Node, offered: Offered, c: seq<Session>, epoch: nat) returns (messages: seq<Message>)
    requires Crowd(n, offered, c, epoch)
    ensures Over(offered, messages) && !WithinQuota(Run(n, Empty(), messages))
  {
    messages := CrowdSeated(n, offered, c, epoch, |c|);
    assert c[..|c|] == c;
    AllOfEpoch(n, offered, c, epoch);
  }

  lemma {:induction false} AllOfEpoch(n: Node, offered: Offered, c: seq<Session>, epoch: nat)
    requires forall i :: 0 <= i < |c| ==> Member(n, offered, c[i], epoch)
    ensures EpochCount(c, epoch) == |c|
  {
    if |c| > 0 { AllOfEpoch(n, offered, c[..|c| - 1], epoch); }
  }

  /** There are crowds: 65 players in one epoch, and a session that takes the id of
      the first for the next epoch. */
  function Player(k: nat): Session { Session([k], [3, k], [4], 730, 5, 600, [8], 100) }

  lemma CrowdExists() returns (n: Node, offered: Offered, c: seq<Session>)
    ensures Crowd(n, offered, c, 5)
  {
    n := Node([1], [2], true);
    c := seq(QUOTA + 1, k requires 0 <= k => Player(k));
    var moved := Player(0).(epoch := 6);
    offered := (s: Session) => s == moved || exists k: nat :: k <= 64 && s == Player(k);
    forall i | 0 <= i < |c| ensures Member(n, offered, c[i], 5) {
      assert c[i] == Player(i);
      assert [4][0] != [2][0] && |[3, i]| == 2;
    }
    forall i, j | 0 <= i < j < |c| ensures Follows(offered, c[i], c[j]) {
      assert c[i] == Player(i) && c[j] == Player(j);
      assert [i][0] != [j][0] && [3, i][1] != [3, j][1];
    }
    assert c[0] == Player(0);
    assert offered(moved) && moved.id == c[0].id && moved.epoch != c[0].epoch;
    assert Movable(offered, c[0]);
  }
}
