/** What this node's sessions are worth over a run, with peers' sessions in the
    same store: exactly which buckets they hold, when a peer's session takes a
    proof away, and that replaying a slot changes nothing. */
module PlayCoverage {
  import opened Machine
  import opened Sorting
  import opened Heartbeats
  import opened PlaySessions

  /** Session ids tell apart app, epoch and slot. */
  ghost predicate IdsTell(me: Self)
  {
    forall x, y {:trigger SessionId(me, x), SessionId(me, y)} ::
      SessionId(me, x) == SessionId(me, y) ==> x.app == y.app && x.epoch == y.epoch && x.slot == y.slot
  }

  /** Not the id of any session of this node's. */
  ghost predicate Outside(me: Self, id: Id) { forall x :: SessionId(me, x) != id }

  /** This node's sessions are stored under their own ids, all others elsewhere. */
  ghost predicate Named(me: Self, sessions: map<Id, Session>)
  {
    forall id :: id in sessions ==>
      if Mine(me, sessions[id]) then id == SessionId(me, sessions[id]) else Outside(me, id)
  }

  /** Heartbeats belong to stored sessions. */
  ghost predicate Housed(store: Store) { forall id :: id in store.beats ==> id in store.sessions }

  /** A store that a run may start from; the empty one is. */
  ghost predicate Ready(g: Grid, me: Self, store: Store)
  {
    Proper(g) && Sound(g, me, store) && IdsTell(me) && Named(me, store.sessions) && Housed(store)
  }

  /** What peers send: neither their sessions nor the ids are this node's. */
  ghost predicate PeerStep(me: Self, step: Step)
  {
    step.Receive? ==> !Mine(me, step.session) && Outside(me, step.id)
  }

  ghost predicate Peers(me: Self, steps: seq<Step>)
  {
    forall i :: 0 <= i < |steps| ==> PeerStep(me, steps[i])
  }

  // ----- what a tick leaves in the store

  lemma RecordNamed(g: Grid, me: Self, t: Tick, store: Store)
    requires Named(me, store.sessions)
    ensures Named(me, Record(g, me, t, store).sessions)
  {
    RecordProvenance(g, me, t, store);
  }

  /** The id of a session to be created is not taken. */
  lemma NewIdFree(g: Grid, me: Self, t: Tick, app: nat, sessions: map<Id, Session>)
    requires IdsTell(me) && Named(me, sessions) && Find(g, t, app, sessions).None?
    ensures SessionId(me, NewSession(me, t, app)) !in sessions
  {
    var id := SessionId(me, NewSession(me, t, app));
    FindExact(g, t, app, sessions);
    if id in sessions && Mine(me, sessions[id]) {
      assert SessionId(me, sessions[id]) == id;
      assert Matches(g, t, app, sessions[id]);
    }
  }

  lemma {:induction false} SessionsGrow(plan: seq<Entry>, bucket: nat, store: Store, id: Id)
    requires id in store.sessions
    ensures id in Apply(store, plan, bucket).sessions
  {
    if |plan| > 0 { SessionsGrow(plan[..|plan| - 1], bucket, store, id); }
  }

  lemma {:induction false} SessionWritten(plan: seq<Entry>, bucket: nat, m: nat, store: Store)
    requires m < |plan| && plan[m].session.Some?
    ensures plan[m].id in Apply(store, plan, bucket).sessions
  {
    if m < |plan| - 1 { SessionWritten(plan[..|plan| - 1], bucket, m, store); }
  }

  /** A stored session, whoever played it, survives a tick unchanged. */
  lemma SessionKept(g: Grid, me: Self, t: Tick, store: Store, id: Id)
    requires IdsTell(me) && Named(me, store.sessions) && id in store.sessions
    ensures id in Record(g, me, t, store).sessions && Record(g, me, t, store).sessions[id] == store.sessions[id]
  {
    SessionsGrow(Plan(g, me, t, store.sessions), g.bucketOf(t.slot), store, id);
    RecordProvenance(g, me, t, store);
    var after := Record(g, me, t, store).sessions[id];
    if Find(g, t, after.app, store.sessions).None? { NewIdFree(g, me, t, after.app, store.sessions); }
  }

  ghost predicate Writes(plan: seq<Entry>, id: Id) { exists m :: 0 <= m < |plan| && plan[m].id == id }

  /** A tick adds its bucket to the sessions its entries name, and nothing else. */
  lemma {:induction false} BeatsExact(plan: seq<Entry>, bucket: nat, store: Store, id: Id, b: nat)
    ensures b in BeatsOf(Apply(store, plan, bucket).beats, id)
            <==> b in BeatsOf(store.beats, id) || (b == bucket && Writes(plan, id))
  {
    if |plan| > 0 {
      var n := |plan| - 1;
      var front := plan[..n];
      BeatsExact(front, bucket, store, id, b);
      SaveBeatMembers(BeatsOf(Apply(store, front, bucket).beats, plan[n].id), bucket);
      WritesSnoc(plan, id);
    }
  }

  lemma WritesSnoc(plan: seq<Entry>, id: Id)
    requires |plan| > 0
    ensures Writes(plan, id) <==> Writes(plan[..|plan| - 1], id) || plan[|plan| - 1].id == id
  {
    var front := plan[..|plan| - 1];
    assert forall m :: 0 <= m < |front| ==> front[m] == plan[m];
  }

  lemma {:induction false} ApplyHoused(g: Grid, me: Self, t: Tick, loaded: map<Id, Session>, plan: seq<Entry>,
                                       store: Store)
    requires Housed(store) && forall id :: id in loaded ==> id in store.sessions
    requires forall n :: 0 <= n < |plan| ==> plan[n].session.Some? || plan[n].id in loaded
    ensures Housed(Apply(store, plan, g.bucketOf(t.slot)))
  {
    if |plan| > 0 {
      var n := |plan| - 1;
      ApplyHoused(g, me, t, loaded, plan[..n], store);
      if plan[n].session.None? { SessionsGrow(plan[..n], g.bucketOf(t.slot), store, plan[n].id); }
    }
  }

  lemma RecordReady(g: Grid, me: Self, t: Tick, store: Store)
    requires Ready(g, me, store)
    ensures Ready(g, me, Record(g, me, t, store))
  {
    RecordSound(g, me, t, store);
    RecordNamed(g, me, t, store);
    var plan := Plan(g, me, t, store.sessions);
    forall n | 0 <= n < |plan| ensures plan[n].session.Some? || plan[n].id in store.sessions {
      FindExact(g, t, t.apps[n], store.sessions);
    }
    ApplyHoused(g, me, t, store.sessions, plan, store);
  }

  // ----- the session an active app's heartbeat goes to

  /** After the tick it is the one found for the app. */
  lemma EntryFound(g: Grid, me: Self, t: Tick, store: Store, app: nat)
    requires IdsTell(me) && Named(me, store.sessions) && app in t.apps
    ensures var after := Record(g, me, t, store); var id := EntryFor(g, me, t, app, store.sessions).id;
            Find(g, t, app, after.sessions) == Some(id) && g.bucketOf(t.slot) in BeatsOf(after.beats, id)
  {
    var loaded, after := store.sessions, Record(g, me, t, store);
    var plan, bucket := Plan(g, me, t, loaded), g.bucketOf(t.slot);
    var m :| 0 <= m < |t.apps| && t.apps[m] == app;
    var id := plan[m].id;
    assert Writes(plan, id);
    BeatsExact(plan, bucket, store, id, bucket);
    FindExact(g, t, app, loaded);
    FindExact(g, t, app, after.sessions);
    if Find(g, t, app, loaded).Some? {
      SessionKept(g, me, t, store, id);
      OldMatches(g, me, t, store, app);
      LeqAntisymmetric(id, Find(g, t, app, after.sessions).value);
    } else {
      SessionWritten(plan, bucket, m, store);
      NewMatches(g, me, t, store, app);
    }
  }

  /** If the app had a session, only sessions stored before match it. */
  lemma OldMatches(g: Grid, me: Self, t: Tick, store: Store, app: nat)
    requires Find(g, t, app, store.sessions).Some?
    ensures var after := Record(g, me, t, store).sessions;
            forall i :: i in after && Matches(g, t, app, after[i]) ==>
              i in store.sessions && store.sessions[i] == after[i]
  {
    RecordProvenance(g, me, t, store);
  }

  /** If it had none, the one created is the only one. */
  lemma NewMatches(g: Grid, me: Self, t: Tick, store: Store, app: nat)
    requires IdsTell(me) && Named(me, store.sessions) && Find(g, t, app, store.sessions).None?
    requires SessionId(me, NewSession(me, t, app)) in Record(g, me, t, store).sessions
    ensures var after := Record(g, me, t, store).sessions; var id := SessionId(me, NewSession(me, t, app));
            && Matches(g, t, app, after[id]) && Mine(me, after[id])
            && forall i :: i in after && Matches(g, t, app, after[i]) ==> i == id
  {
    var after, id := Record(g, me, t, store).sessions, SessionId(me, NewSession(me, t, app));
    RecordProvenance(g, me, t, store);
    NewIdFree(g, me, t, app, store.sessions);
    FindExact(g, t, app, store.sessions);
    assert SessionId(me, after[id]) == SessionId(me, NewSession(me, t, app));
  }

  // ----- replay

  lemma {:induction false} ApplyUnchanged(store: Store, plan: seq<Entry>, bucket: nat)
    requires forall n :: 0 <= n < |plan| ==> Write(store, plan[n], bucket) == store
    ensures Apply(store, plan, bucket) == store
  {
    if |plan| > 0 { ApplyUnchanged(store, plan[..|plan| - 1], bucket); }
  }

  lemma {:induction false} SameFind(g: Grid, t: Tick, again: Tick, app: nat, ids: seq<Id>, sessions: map<Id, Session>)
    requires again.epoch == t.epoch && again.slot == t.slot && forall i :: i in ids ==> i in sessions
    ensures FirstMatch(g, again, app, ids, sessions) == FirstMatch(g, t, app, ids, sessions)
  {
    if |ids| > 0 {
      assert forall i :: i in ids[1..] ==> i in ids;
      SameFind(g, t, again, app, ids[1..], sessions);
    }
  }

  /** Replaying a slot, with the same apps or fewer and any observation, changes
      nothing, whatever sessions of peers are stored. */
  lemma ReplayChangesNothing(g: Grid, me: Self, t: Tick, again: Tick, store: Store)
    requires IdsTell(me) && Named(me, store.sessions)
    requires again.epoch == t.epoch && again.slot == t.slot && forall app :: app in again.apps ==> app in t.apps
    ensures Record(g, me, again, Record(g, me, t, store)) == Record(g, me, t, store)
  {
    var after := Record(g, me, t, store);
    var plan, bucket := Plan(g, me, again, after.sessions), g.bucketOf(again.slot);
    forall n | 0 <= n < |plan| ensures Write(after, plan[n], bucket) == after {
      var app := again.apps[n];
      EntryFound(g, me, t, store, app);
      SameFind(g, t, again, app, InOrder(after.sessions.Keys), after.sessions);
      HeldUnchanged(g, me, again, app, after);
    }
    ApplyUnchanged(after, plan, bucket);
  }

  lemma HeldUnchanged(g: Grid, me: Self, t: Tick, app: nat, store: Store)
    requires Find(g, t, app, store.sessions).Some?
    requires g.bucketOf(t.slot) in BeatsOf(store.beats, Find(g, t, app, store.sessions).value)
    ensures Write(store, EntryFor(g, me, t, app, store.sessions), g.bucketOf(t.slot)) == store
  {
    var id := Find(g, t, app, store.sessions).value;
    assert store.beats[id := store.beats[id]] == store.beats;
  }

  // ----- exactly which buckets this node's sessions hold

  /** A claim to have played an app in a block of an epoch. */
  datatype Claim = Claim(app: nat, epoch: nat, block: nat)

  predicate Makes(g: Grid, c: Claim,
                  s: Session) { s.app == c.app && s.epoch == c.epoch && g.blockOf(s.slot) == c.block }

  /** A session of this node's making the claim has a heartbeat in the bucket. */
  ghost predicate Holds(g: Grid, me: Self, c: Claim, b: nat, store: Store)
  {
    exists id :: id in store.sessions && Mine(me, store.sessions[id]) && Makes(g, c, store.sessions[id])
                 && b in BeatsOf(store.beats, id)
  }

  /** The tick plays the claim at the bucket. */
  predicate Attends(g: Grid, t: Tick, c: Claim, b: nat)
  {
    c.app in t.apps && t.epoch == c.epoch && g.blockOf(t.slot) == c.block && g.bucketOf(t.slot) == b
  }

  /** The first stored session of the app, epoch and block is this node's, or
      there is none. */
  predicate Unrivalled(g: Grid, me: Self, t: Tick, app: nat, sessions: map<Id, Session>)
  {
    var f := Find(g, t, app, sessions);
    f.Some? ==> f.value in sessions && Mine(me, sessions[f.value])
  }

  /** After a tick this node holds a bucket of a claim if and only if it did
      before, or the tick plays it and no peer's session comes first. */
  lemma TickHoldsIff(g: Grid, me: Self, t: Tick, c: Claim, b: nat, store: Store)
    requires Ready(g, me, store)
    ensures Holds(g, me, c, b, Record(g, me, t, store))
            <==> Holds(g, me, c, b, store) || (Attends(g, t, c, b) && Unrivalled(g, me, t, c.app, store.sessions))
  {
    if Holds(g, me, c, b, store) { StillHolds(g, me, t, c, b, store); }
    if Attends(g, t, c, b) && Unrivalled(g, me, t, c.app, store.sessions) { TickEarns(g, me, t, c, store); }
    if Holds(g, me, c, b, Record(g, me, t, store)) { HeldOrEarned(g, me, t, c, b, store); }
  }

  lemma StillHolds(g: Grid, me: Self, t: Tick, c: Claim, b: nat, store: Store)
    requires Ready(g, me, store) && Holds(g, me, c, b, store)
    ensures Holds(g, me, c, b, Record(g, me, t, store))
  {
    var id :| id in store.sessions && Mine(me, store.sessions[id]) && Makes(g, c, store.sessions[id])
              && b in BeatsOf(store.beats, id);
    SessionKept(g, me, t, store, id);
    BeatsExact(Plan(g, me, t, store.sessions), g.bucketOf(t.slot), store, id, b);
  }

  lemma TickEarns(g: Grid, me: Self, t: Tick, c: Claim, store: Store)
    requires Ready(g, me, store) && Unrivalled(g, me, t, c.app, store.sessions)
    requires Attends(g, t, c, g.bucketOf(t.slot))
    ensures Holds(g, me, c, g.bucketOf(t.slot), Record(g, me, t, store))
  {
    var loaded, after := store.sessions, Record(g, me, t, store);
    EntryFound(g, me, t, store, c.app);
    FindExact(g, t, c.app, after.sessions);
    var id := EntryFor(g, me, t, c.app, loaded).id;
    if Find(g, t, c.app, loaded).Some? {
      FindExact(g, t, c.app, loaded);
      SessionKept(g, me, t, store, id);
    } else {
      NewMatches(g, me, t, store, c.app);
    }
    assert Makes(g, c, after.sessions[id]);
  }

  lemma HeldOrEarned(g: Grid, me: Self, t: Tick, c: Claim, b: nat, store: Store)
    requires Ready(g, me, store) && Holds(g, me, c, b, Record(g, me, t, store))
    ensures Holds(g, me, c, b, store) || (Attends(g, t, c, b) && Unrivalled(g, me, t, c.app, store.sessions))
  {
    var loaded, after := store.sessions, Record(g, me, t, store);
    var plan, bucket := Plan(g, me, t, loaded), g.bucketOf(t.slot);
    var id :| id in after.sessions && Mine(me, after.sessions[id]) && Makes(g, c, after.sessions[id])
              && b in BeatsOf(after.beats, id);
    BeatsExact(plan, bucket, store, id, b);
    if !(id in loaded && b in BeatsOf(store.beats, id)) {
      assert Housed(store);
      var m :| 0 <= m < |plan| && plan[m].id == id;
      EntryMakes(g, me, t, c, store, id, t.apps[m]);
    } else {
      SessionKept(g, me, t, store, id);
    }
  }

  /** Which app an entry under a session of this node's was made for. */
  lemma EntryMakes(g: Grid, me: Self, t: Tick, c: Claim, store: Store, id: Id, app: nat)
    requires Ready(g, me, store) && app in t.apps && EntryFor(g, me, t, app, store.sessions).id == id
    requires var after := Record(g, me, t, store).sessions;
             id in after && Mine(me, after[id]) && Makes(g, c, after[id])
    ensures c.app == app && t.epoch == c.epoch && g.blockOf(t.slot) == c.block
    ensures Unrivalled(g, me, t, c.app, store.sessions)
  {
    var loaded := store.sessions;
    FindExact(g, t, app, loaded);
    if Find(g, t, app, loaded).Some? {
      SessionKept(g, me, t, store, id);
    } else {
      NewMatches(g, me, t, store, app);
    }
  }

  // ----- over runs

  lemma NextReady(g: Grid, me: Self, step: Step, store: Store)
    requires Ready(g, me, store) && PeerStep(me, step)
    ensures Ready(g, me, Next(g, me, step, store))
  {
    if step.Collect? { RecordReady(g, me, step.tick, store); } else { NextSound(g, me, step, store); }
  }

  lemma {:induction false} RunReady(g: Grid, me: Self, steps: seq<Step>, store: Store)
    requires Ready(g, me, store) && Peers(me, steps)
    ensures Ready(g, me, Run(g, me, steps, store))
  {
    if |steps| > 0 {
      RunReady(g, me, steps[..|steps| - 1], store);
      NextReady(g, me, steps[|steps| - 1], Run(g, me, steps[..|steps| - 1], store));
    }
  }

  /** A received session takes nothing this node holds, and adds nothing. */
  lemma ReceiveHoldsIff(g: Grid, me: Self, id: Id, s: Session, c: Claim, b: nat, store: Store)
    requires Ready(g, me, store) && !Mine(me, s) && Outside(me, id)
    ensures Holds(g, me, c, b, Saved(store, id, s)) <==> Holds(g, me, c, b, store)
  {
    var after := Saved(store, id, s);
    if Holds(g, me, c, b, store) {
      var i :| i in store.sessions && Mine(me, store.sessions[i]) && Makes(g, c, store.sessions[i])
               && b in BeatsOf(store.beats, i);
      assert i == SessionId(me, store.sessions[i]);
      assert i in after.sessions && after.sessions[i] == store.sessions[i];
    }
  }

  /** The step is a tick that plays the claim at the bucket, with no peer's
      session first. */
  predicate Earns(g: Grid, me: Self, step: Step, c: Claim, b: nat, store: Store)
  {
    step.Collect? && Attends(g, step.tick, c, b) && Unrivalled(g, me, step.tick, c.app, store.sessions)
  }

  ghost predicate EarnsAt(g: Grid, me: Self, steps: seq<Step>, i: nat, c: Claim, b: nat, start: Store)
    requires i < |steps|
  {
    Earns(g, me, steps[i], c, b, Run(g, me, steps[..i], start))
  }

  ghost predicate Earned(g: Grid, me: Self, steps: seq<Step>, c: Claim, b: nat, start: Store)
  {
    exists i :: 0 <= i < |steps| && EarnsAt(g, me, steps, i, c, b, start)
  }

  /** Over every run, with any sessions of peers arriving in between: this node
      ends up holding a bucket of a claim if and only if it started with it or
      some tick earned it. */
  lemma {:induction false} RunHoldsIff(g: Grid, me: Self, steps: seq<Step>, c: Claim, b: nat, start: Store)
    requires Ready(g, me, start) && Peers(me, steps)
    ensures Holds(g, me, c, b, Run(g, me, steps, start))
            <==> Holds(g, me, c, b, start) || Earned(g, me, steps, c, b, start)
  {
    if |steps| > 0 {
      var n := |steps| - 1;
      var front, before := steps[..n], Run(g, me, steps[..n], start);
      RunHoldsIff(g, me, front, c, b, start);
      RunReady(g, me, front, start);
      assert PeerStep(me, steps[n]);
      if steps[n].Collect? {
        TickHoldsIff(g, me, steps[n].tick, c, b, before);
      } else {
        ReceiveHoldsIff(g, me, steps[n].id, steps[n].session, c, b, before);
      }
      EarnsSnoc(g, me, steps, c, b, start);
    }
  }

  lemma EarnsSnoc(g: Grid, me: Self, steps: seq<Step>, c: Claim, b: nat, start: Store)
    requires |steps| > 0
    ensures var n := |steps| - 1; var front := steps[..n];
            Earned(g, me, steps, c, b, start)
            <==> Earned(g, me, front, c, b, start) || Earns(g, me, steps[n], c, b, Run(g, me, front, start))
  {
    var n := |steps| - 1;
    var front := steps[..n];
    forall i | 0 <= i < n ensures EarnsAt(g, me, front, i, c, b, start) == EarnsAt(g, me, steps, i, c, b, start) {
      EarnsEarlier(g, me, steps, i, c, b, start);
    }
    assert EarnsAt(g, me, steps, n, c, b, start) == Earns(g, me, steps[n], c, b, Run(g, me, front, start));
  }

  lemma EarnsEarlier(g: Grid, me: Self, steps: seq<Step>, i: nat, c: Claim, b: nat, start: Store)
    requires i < |steps| - 1
    ensures EarnsAt(g, me, steps[..|steps| - 1], i, c, b, start) == EarnsAt(g, me, steps, i, c, b, start)
  {
    assert steps[..|steps| - 1][..i] == steps[..i];
  }

  // ----- full blocks

  /** One session of this node's making the claim has a heartbeat in every bucket. */
  ghost predicate FullyProved(g: Grid, me: Self, c: Claim, store: Store)
  {
    exists id :: id in store.sessions && Mine(me, store.sessions[id]) && Makes(g, c, store.sessions[id])
                 && |BeatsOf(store.beats, id)| == g.buckets
  }

  /** Over every run from an empty store a block is fully proved, by one session,
      if and only if each of its buckets is earned by some tick. */
  lemma FullyProvedIff(g: Grid, me: Self, steps: seq<Step>, c: Claim)
    requires Proper(g) && IdsTell(me) && Peers(me, steps)
    ensures var start := Store(map[], map[]);
            FullyProved(g, me, c, Run(g, me, steps, start))
            <==> forall b: nat :: b < g.buckets ==> Earned(g, me, steps, c, b, start)
  {
    var start := Store(map[], map[]);
    RunReady(g, me, steps, start);
    FullIffHoldsAll(g, me, c, Run(g, me, steps, start));
    forall b: nat | b < g.buckets
      ensures Holds(g, me, c, b, Run(g, me, steps, start))
              == Earned(g, me, steps, c, b, start)
    {
      RunHoldsIff(g, me, steps, c, b, start);
    }
  }

  lemma FullIffHoldsAll(g: Grid, me: Self, c: Claim, store: Store)
    requires Ready(g, me, store)
    ensures FullyProved(g, me, c, store) <==> forall b: nat :: b < g.buckets ==> Holds(g, me, c, b, store)
  {
    assert g.bucketOf(0) < g.buckets;
    if FullyProved(g, me, c, store) {
      var id :| id in store.sessions && Mine(me, store.sessions[id]) && Makes(g, c, store.sessions[id])
                && |BeatsOf(store.beats, id)| == g.buckets;
      var beats := BeatsOf(store.beats, id);
      forall b: nat | b < g.buckets ensures Holds(g, me, c, b, store) { RisingHasAll(beats, g.buckets, b); }
    }
    if forall b: nat :: b < g.buckets ==> Holds(g, me, c, b, store) {
      assert Holds(g, me, c, g.bucketOf(0), store);
      var id :| id in store.sessions && Mine(me, store.sessions[id]) && Makes(g, c, store.sessions[id])
                && g.bucketOf(0) in BeatsOf(store.beats, id);
      var beats := BeatsOf(store.beats, id);
      assert GoodBeats(g, beats);
      forall b: nat ensures b in beats <==> b < g.buckets {
        if b < g.buckets { HeldInOne(g, me, c, store, id, b); }
      }
      RisingFull(beats, g.buckets);
    }
  }

  /** All of a claim's buckets are in the one session making it. */
  lemma HeldInOne(g: Grid, me: Self, c: Claim, store: Store, id: Id, b: nat)
    requires Ready(g, me, store) && Holds(g, me, c, b, store)
    requires id in store.sessions && Mine(me, store.sessions[id]) && Makes(g, c, store.sessions[id])
    ensures b in BeatsOf(store.beats, id)
  {
    var j :| j in store.sessions && Mine(me, store.sessions[j]) && Makes(g, c, store.sessions[j])
             && b in BeatsOf(store.beats, j);
    assert SameClaim(g, store.sessions[id], store.sessions[j]);
  }

  /** A rising list of `bound` numbers below `bound` has all of them. */
  lemma RisingHasAll(beats: seq<nat>, bound: nat, b: nat)
    requires Rising(beats) && |beats| == bound && b < bound && forall x :: x in beats ==> x < bound
    ensures b in beats
  {
    forall i | 0 <= i < bound ensures beats[i] == i { RisingAt(beats, bound, i); }
    assert beats[b] == b;
  }

  lemma {:induction false} RisingAt(beats: seq<nat>, bound: nat, i: nat)
    requires Rising(beats) && |beats| == bound && i < bound && forall x :: x in beats ==> x < bound
    ensures beats[i] == i
  {
    var n := bound - 1;
    assert beats[n] in beats;
    forall x | x in beats[..n] ensures x < beats[n] {
      var k :| 0 <= k < n && beats[k] == x;
    }
    RisingBound(beats[..n], beats[n]);
    if i < n { RisingAt(beats[..n], n, i); }
  }

  /** Every session making the claim is this node's. */
  ghost predicate OwnOnly(g: Grid, me: Self, c: Claim, sessions: map<Id, Session>)
  {
    forall id :: id in sessions && Makes(g, c, sessions[id]) ==> Mine(me, sessions[id])
  }

  predicate Rival(g: Grid, c: Claim, step: Step) { step.Receive? && Makes(g, c, step.session) }

  /** No session of a peer's makes the claim, stored at the start or received. */
  ghost predicate NoRival(g: Grid, me: Self, steps: seq<Step>, c: Claim, start: Store)
  {
    OwnOnly(g, me, c, start.sessions) && forall i :: 0 <= i < |steps| ==> !Rival(g, c, steps[i])
  }

  lemma {:induction false} RunNoRival(g: Grid, me: Self, steps: seq<Step>, c: Claim, start: Store)
    requires NoRival(g, me, steps, c, start)
    ensures OwnOnly(g, me, c, Run(g, me, steps, start).sessions)
  {
    if |steps| > 0 {
      var n := |steps| - 1;
      RunNoRival(g, me, steps[..n], c, start);
      assert !Rival(g, c, steps[n]);
      NextNoRival(g, me, steps[n], c, Run(g, me, steps[..n], start));
    }
  }

  lemma NextNoRival(g: Grid, me: Self, step: Step, c: Claim, store: Store)
    requires OwnOnly(g, me, c, store.sessions) && !Rival(g, c, step)
    ensures OwnOnly(g, me, c, Next(g, me, step, store).sessions)
  {
    if step.Collect? {
      RecordProvenance(g, me, step.tick, store);
      var after := Record(g, me, step.tick, store).sessions;
      forall id | id in after && Makes(g, c, after[id]) ensures Mine(me, after[id]) {
        if id in store.sessions && after[id] == store.sessions[id] { assert Makes(g, c, store.sessions[id]); }
      }
    }
  }

  /** So while no peer claims the same app, epoch and block, every tick that plays
      the claim counts. */
  lemma RunCovers(g: Grid, me: Self, steps: seq<Step>, i: nat, c: Claim, b: nat, start: Store)
    requires Ready(g, me, start) && Peers(me, steps) && NoRival(g, me, steps, c, start)
    requires i < |steps| && steps[i].Collect? && Attends(g, steps[i].tick, c, b)
    ensures Holds(g, me, c, b, Run(g, me, steps, start))
  {
    var before := Run(g, me, steps[..i], start);
    RunNoRival(g, me, steps[..i], c, start);
    FindExact(g, steps[i].tick, c.app, before.sessions);
    assert EarnsAt(g, me, steps, i, c, b, start);
    RunHoldsIff(g, me, steps, c, b, start);
  }

  ghost predicate VisitsOffset(l: Lengths, steps: seq<Step>, c: Claim, o: nat)
    requires l.bucket >= 1
  {
    exists i :: 0 <= i < |steps| && steps[i].Collect? && OffsetOf(l, steps[i].tick.slot) == o
                && Attends(GridOf(l), steps[i].tick, c, GridOf(l).bucketOf(steps[i].tick.slot))
  }

  /** The node plays the claim in every slot of its block. */
  ghost predicate EverySlot(l: Lengths, steps: seq<Step>, c: Claim)
    requires l.bucket >= 1
  {
    forall o: nat :: o < SlotsPerBlock(l) ==> VisitsOffset(l, steps, c, o)
  }

  /** Full coverage: when the tick divides bucket and block, a node that plays
      every slot of a block ends with a session proving all its buckets, unless a
      peer claims the same app, epoch and block. */
  lemma FullBlockFullyCovered(l: Lengths, ticksPerBucket: nat, ticksPerBlock: nat, me: Self, steps: seq<Step>, c: Claim)
    requires Positive(l) && l.bucket == ticksPerBucket * l.tick && l.block == ticksPerBlock * l.tick
    requires IdsTell(me) && Peers(me, steps) && EverySlot(l, steps, c)
    requires NoRival(GridOf(l), me, steps, c, Store(map[], map[]))
    ensures FullyProved(GridOf(l), me, c, Run(GridOf(l), me, steps, Store(map[], map[])))
  {
    var g, start := GridOf(l), Store(map[], map[]);
    GridProper(l);
    RunReady(g, me, steps, start);
    forall b: nat | b < g.buckets ensures Holds(g, me, c, b, Run(g, me, steps, start)) {
      BucketHeld(l, ticksPerBucket, ticksPerBlock, me, steps, c, b);
    }
    FullIffHoldsAll(g, me, c, Run(g, me, steps, start));
  }

  lemma BucketHeld(l: Lengths, ticksPerBucket: nat, ticksPerBlock: nat, me: Self, steps: seq<Step>, c: Claim, b: nat)
    requires Positive(l) && l.bucket == ticksPerBucket * l.tick && l.block == ticksPerBlock * l.tick
    requires IdsTell(me) && Peers(me, steps) && EverySlot(l, steps, c) && b < Buckets(l)
    requires NoRival(GridOf(l), me, steps, c, Store(map[], map[])) && Proper(GridOf(l))
    ensures Holds(GridOf(l), me, c, b, Run(GridOf(l), me, steps, Store(map[], map[])))
  {
    var o := SlotForBucket(l, ticksPerBucket, ticksPerBlock, b);
    assert VisitsOffset(l, steps, c, o);
    var i :| 0 <= i < |steps| && steps[i].Collect? && OffsetOf(l, steps[i].tick.slot) == o
             && Attends(GridOf(l), steps[i].tick, c, GridOf(l).bucketOf(steps[i].tick.slot));
    assert GridOf(l).bucketOf(steps[i].tick.slot) == b;
    RunCovers(GridOf(l), me, steps, i, c, b, Store(map[], map[]));
  }

  /** The ids of peers' sessions matter too: one saved under the id of a session
      of this node's takes all that session proved. */
  lemma TakenIdLosesProof(g: Grid, me: Self, id: Id, s: Session, c: Claim, b: nat, store: Store)
    requires Ready(g, me, store) && !Mine(me, s)
    requires id in store.sessions && Mine(me, store.sessions[id]) && Makes(g, c, store.sessions[id])
    ensures !Holds(g, me, c, b, Saved(store, id, s))
  {
    var after := Saved(store, id, s);
    forall i | i in after.sessions && Mine(me, after.sessions[i]) ensures !Makes(g, c, after.sessions[i]) {
      assert i != id && SameClaim(g, store.sessions[i], store.sessions[id]) ==> i == id;
    }
  }

  /** A rival does take the proof: whatever session of a peer's arrives first for
      the app, epoch and block, the tick's heartbeat goes to it and this node
      has no session of its own. */
  lemma RivalTakesProof(g: Grid, me: Self, id: Id, s: Session, t: Tick, app: nat, b: nat)
    requires !Mine(me, s) && Matches(g, t, app, s) && t.apps == [app]
    ensures var after := Run(g, me, [Receive(id, s), Collect(t)], Store(map[], map[]));
            && !Holds(g, me, Claim(app, t.epoch, g.blockOf(t.slot)), b, after)
            && after.sessions == map[id := s] && g.bucketOf(t.slot) in BeatsOf(after.beats, id)
  {
    var start := Store(map[], map[]);
    var steps := [Receive(id, s), Collect(t)];
    assert steps[..1] == [Receive(id, s)] && steps[..1][..0] == [];
    var before := Saved(start, id, s);
    assert Run(g, me, steps[..1], start) == before;
    FindExact(g, t, app, before.sessions);
    var plan := Plan(g, me, t, before.sessions);
    assert plan[..0] == [];
    assert Apply(before, plan, g.bucketOf(t.slot)) == Write(before, plan[0], g.bucketOf(t.slot));
    SaveBeatMembers([], g.bucketOf(t.slot));
  }
}
