/** The node's own play proofs: one session per app and reward block, one
    heartbeat per bucket, over every run of ticks. Peers' sessions are kept in
    the same store. Ids of this node's sessions come from an arbitrary function
    of the claim; lengths are fixed for a run. */
module PlaySessions {
  import opened Machine
  import opened Sorting
  import opened Heartbeats

  type Id = Key

  /** How slots fall into blocks and buckets, and how many buckets a block has. */
  datatype Grid = Grid(blockOf: nat -> nat, bucketOf: nat -> nat, buckets: nat)

  ghost predicate Proper(g: Grid) { forall slot :: g.bucketOf(slot) < g.buckets }

  function GridOf(l: Lengths): Grid
    requires l.bucket >= 1
  {
    Grid(slot => BucketForSlot(l, slot).0, slot => BucketForSlot(l, slot).1, Buckets(l))
  }

  lemma GridProper(l: Lengths)
    requires Positive(l)
    ensures Proper(GridOf(l))
  {
    forall slot ensures GridOf(l).bucketOf(slot) < Buckets(l) { BucketBelow(l, OffsetOf(l, slot)); }
  }

  datatype Session = Session(player: Key, app: nat, epoch: nat, slot: nat, cid: Key)

  /** This node: its account, and how it derives the id of a session of its own. */
  datatype Self = Self(account: Key, idOf: (nat, nat, nat, Key) -> Id)

  predicate Mine(me: Self, s: Session) { s.player == me.account }

  datatype Store = Store(sessions: map<Id, Session>, beats: map<Id, seq<nat>>)

  /** What one tick records: the cursor, the observation and the active apps. */
  datatype Tick = Tick(epoch: nat, slot: nat, cid: Key, apps: seq<nat>)

  /** A tick of this node, or a session announced by a peer, saved as it comes. */
  datatype Step = Collect(tick: Tick) | Receive(id: Id, session: Session)

  // ----- heartbeats of one session

  function BeatKey(b: nat): Key { [b] }

  /** `save_play_heartbeat`: one heartbeat per bucket, kept sorted. */
  function SaveBeat(beats: seq<nat>, bucket: nat): seq<nat>
  {
    if bucket in beats then beats else SortBy(BeatKey, beats + [bucket])
  }

  lemma SaveBeatMembers(beats: seq<nat>, bucket: nat)
    ensures forall b :: b in SaveBeat(beats, bucket) <==> b in beats || b == bucket
  {
    if bucket !in beats {
      var s := SaveBeat(beats, bucket);
      forall b ensures b in s <==> b in beats || b == bucket {
        assert b in s <==> b in multiset(s);
        assert b in beats + [bucket] <==> b in multiset(beats + [bucket]);
      }
    }
  }

  lemma SaveBeatRising(beats: seq<nat>, bucket: nat)
    requires Rising(beats)
    ensures Rising(SaveBeat(beats, bucket))
  {
    if bucket !in beats {
      var all, s := beats + [bucket], SaveBeat(beats, bucket);
      SortBySorted(BeatKey, all);
      forall i, j | 0 <= i < j < |s| ensures s[i] < s[j] {
        assert Leq(BeatKey(s[i]), BeatKey(s[j]));
        NoTwins(beats, bucket, s, i, j);
      }
    }
  }

  lemma NoTwins(beats: seq<nat>, bucket: nat, s: seq<nat>, i: nat, j: nat)
    requires Rising(beats) && bucket !in beats && multiset(s) == multiset(beats + [bucket]) && i < j < |s|
    ensures s[i] != s[j]
  {
    if s[i] == s[j] {
      var x := s[i];
      var rest := s[..i] + s[i + 1..];
      DropCount(s, i);
      assert rest[j - 1] == x;
      assert multiset(s)[x] == multiset(rest)[x] + 1 >= 2;
      OnceEach(beats, bucket, x);
    }
  }

  lemma OnceEach(beats: seq<nat>, bucket: nat, x: nat)
    requires Rising(beats) && bucket !in beats
    ensures multiset(beats + [bucket])[x] <= 1
  {
    RisingOnce(beats, x);
    if x == bucket { assert x !in multiset(beats); }
  }

  lemma {:induction false} RisingOnce(beats: seq<nat>, x: nat)
    requires Rising(beats)
    ensures multiset(beats)[x] <= 1
  {
    if |beats| > 0 {
      var rest := beats[1..];
      assert beats == [beats[0]] + rest;
      RisingOnce(rest, x);
      if x == beats[0] {
        assert x !in rest;
        assert x !in multiset(rest);
      }
    }
  }

  lemma {:induction false} RisingBound(beats: seq<nat>, bound: nat)
    requires Rising(beats) && forall b :: b in beats ==> b < bound
    ensures |beats| <= bound
  {
    if |beats| > 0 {
      var n := |beats| - 1;
      assert beats[n] in beats;
      forall b | b in beats[..n] ensures b < beats[n] {
        var i :| 0 <= i < n && beats[i] == b;
      }
      RisingBound(beats[..n], beats[n]);
    }
  }

  function Below(n: nat): (s: set<nat>)
    ensures |s| == n && forall b: nat :: b in s <==> b < n
  {
    if n == 0 then {} else Below(n - 1) + {n - 1}
  }

  lemma RisingFull(beats: seq<nat>, bound: nat)
    requires Rising(beats) && forall b: nat :: b in beats <==> b < bound
    ensures |beats| == bound
  {
    RisingBound(beats, bound);
    var s: set<nat> := set b | b in beats;
    SetSize(beats, s);
    assert s == Below(bound);
  }

  lemma {:induction false} SetSize(beats: seq<nat>, s: set<nat>)
    requires s == set b | b in beats
    ensures |s| <= |beats|
  {
    if |beats| > 0 {
      var rest: set<nat> := set b | b in beats[1..];
      SetSize(beats[1..], rest);
      assert beats == [beats[0]] + beats[1..];
      assert s == rest + {beats[0]};
    }
  }

  // ----- one tick

  predicate Matches(g: Grid, t: Tick, app: nat, s: Session)
  {
    s.app == app && s.epoch == t.epoch && g.blockOf(s.slot) == g.blockOf(t.slot)
  }

  /** The first stored session, in id order, for this app, epoch and block,
      whoever played it. */
  function FirstMatch(g: Grid, t: Tick, app: nat, ids: seq<Id>, sessions: map<Id, Session>): Option<Id>
    requires forall i :: i in ids ==> i in sessions
  {
    if |ids| == 0 then None
    else
      assert ids[0] in ids;
      if Matches(g, t, app, sessions[ids[0]]) then Some(ids[0])
      else
        assert forall i :: i in ids[1..] ==> i in ids;
        FirstMatch(g, t, app, ids[1..], sessions)
  }

  function Find(g: Grid, t: Tick, app: nat, sessions: map<Id, Session>): Option<Id>
  {
    FirstMatch(g, t, app, InOrder(sessions.Keys), sessions)
  }

  lemma {:induction false} FirstMatchExact(g: Grid, t: Tick, app: nat, ids: seq<Id>, sessions: map<Id, Session>)
    requires StrictlyAscending(ids) && forall i :: i in ids ==> i in sessions
    ensures var f := FirstMatch(g, t, app, ids, sessions);
            && (f.Some? ==> f.value in ids && Matches(g, t, app, sessions[f.value]))
            && (f.Some? ==> forall i :: i in ids && Matches(g, t, app, sessions[i]) ==> Leq(f.value, i))
            && (f.None? ==> forall i :: i in ids ==> !Matches(g, t, app, sessions[i]))
  {
    if |ids| > 0 {
      assert ids == [ids[0]] + ids[1..];
      assert forall i :: i in ids[1..] ==> i in ids;
      FirstMatchExact(g, t, app, ids[1..], sessions);
      forall i | i in ids ensures Leq(ids[0], i) {
        LeqSelf(ids[0]);
        var k :| 0 <= k < |ids| && ids[k] == i;
        assert k > 0 ==> Less(ids[0], ids[k]);
      }
    }
  }

  /** It matches, it is the least that does, and if there is none nothing does. */
  lemma FindExact(g: Grid, t: Tick, app: nat, sessions: map<Id, Session>)
    ensures var f := Find(g, t, app, sessions);
            && (f.Some? ==> f.value in sessions && Matches(g, t, app, sessions[f.value]))
            && (f.Some? ==> forall i :: i in sessions && Matches(g, t, app, sessions[i]) ==> Leq(f.value, i))
            && (f.None? ==> forall i :: i in sessions ==> !Matches(g, t, app, sessions[i]))
  {
    InOrderAscending(sessions.Keys);
    FirstMatchExact(g, t, app, InOrder(sessions.Keys), sessions);
  }

  function NewSession(me: Self, t: Tick, app: nat): Session
  {
    Session(me.account, app, t.epoch, t.slot, t.cid)
  }

  function SessionId(me: Self, s: Session): Id { me.idOf(s.app, s.epoch, s.slot, s.cid) }

  function BeatsOf(beats: map<Id, seq<nat>>, id: Id): seq<nat> { if id in beats then beats[id] else [] }

  /** Where an app's heartbeat goes: a stored session, or one created now. */
  datatype Entry = Entry(id: Id, session: Option<Session>)

  function EntryFor(g: Grid, me: Self, t: Tick, app: nat, loaded: map<Id, Session>): Entry
  {
    match Find(g, t, app, loaded)
    case Some(id) => Entry(id, None)
    case None => Entry(SessionId(me, NewSession(me, t, app)), Some(NewSession(me, t, app)))
  }

  /** A tick's entries; sessions are looked up as they were loaded at its start. */
  function Plan(g: Grid, me: Self, t: Tick, loaded: map<Id, Session>): (plan: seq<Entry>)
    ensures |plan| == |t.apps| && forall n :: 0 <= n < |plan| ==> plan[n] == EntryFor(g, me, t, t.apps[n], loaded)
  {
    seq(|t.apps|, n requires 0 <= n < |t.apps| => EntryFor(g, me, t, t.apps[n], loaded))
  }

  function Write(store: Store, e: Entry, bucket: nat): Store
  {
    Store(if e.session.Some? then store.sessions[e.id := e.session.value] else store.sessions,
          store.beats[e.id := SaveBeat(BeatsOf(store.beats, e.id), bucket)])
  }

  function Apply(store: Store, plan: seq<Entry>, bucket: nat): Store
  {
    if |plan| == 0 then store
    else Write(Apply(store, plan[..|plan| - 1], bucket), plan[|plan| - 1], bucket)
  }

  function Record(g: Grid, me: Self, t: Tick, store: Store): Store
  {
    Apply(store, Plan(g, me, t, store.sessions), g.bucketOf(t.slot))
  }

  function Saved(store: Store, id: Id, session: Session): Store { store.(sessions := store.sessions[id := session]) }

  function Next(g: Grid, me: Self, step: Step, store: Store): Store
  {
    match step
    case Collect(t) => Record(g, me, t, store)
    case Receive(id, session) => Saved(store, id, session)
  }

  /** The stored sessions and heartbeat files, written in place. */
  class PlayStore {
    var sessions: map<Id, Session>
    var beats: map<Id, seq<nat>>

    constructor ()
      ensures State() == Store(map[], map[])
    {
      sessions, beats := map[], map[];
    }

    ghost function State(): Store
      reads this
    {
      Store(sessions, beats)
    }

    /** One tick's pass over the active apps. */
    method RecordPlayHeartbeats(g: Grid, me: Self, t: Tick)
      modifies this
      ensures State() == Record(g, me, t, old(State()))
    {
      var plan := Plan(g, me, t, sessions);
      for n := 0 to |plan|
        invariant State() == Apply(old(State()), plan[..n], g.bucketOf(t.slot))
      {
        assert plan[..n + 1][..n] == plan[..n];
        WriteBeat(plan[n], g.bucketOf(t.slot));
      }
      assert plan[..|plan|] == plan;
    }

    /** A peer's session is saved under the id it names, replacing what is there. */
    method ReceiveSession(id: Id, session: Session)
      modifies this
      ensures State() == Saved(old(State()), id, session)
    {
      sessions := sessions[id := session];
    }

    /** A heartbeat already stored for the bucket is not written again. */
    method WriteBeat(e: Entry, bucket: nat)
      modifies this
      ensures State() == Write(old(State()), e, bucket)
    {
      if e.session.Some? { sessions := sessions[e.id := e.session.value]; }
      var list := BeatsOf(beats, e.id);
      if bucket in list {
        assert beats[e.id := list] == beats;
      } else {
        beats := beats[e.id := SaveBeat(list, bucket)];
      }
    }
  }

  // ----- invariants

  predicate SameClaim(g: Grid, s: Session, t: Session)
  {
    s.app == t.app && s.epoch == t.epoch && g.blockOf(s.slot) == g.blockOf(t.slot)
  }

  /** This node has at most one session per app, epoch and block. */
  ghost predicate OnePerBlock(g: Grid, me: Self, sessions: map<Id, Session>)
  {
    forall i, j :: i in sessions && j in sessions && Mine(me, sessions[i]) && Mine(me, sessions[j]) ==>
      SameClaim(g, sessions[i], sessions[j]) ==> i == j
  }

  ghost predicate GoodBeats(g: Grid, beats: seq<nat>)
  {
    Rising(beats) && forall b :: b in beats ==> b < g.buckets
  }

  ghost predicate Sound(g: Grid, me: Self, store: Store)
  {
    OnePerBlock(g, me, store.sessions) && AllGood(g, store.beats)
  }

  ghost predicate AllGood(g: Grid, beats: map<Id, seq<nat>>)
  {
    forall id :: id in beats ==> GoodBeats(g, beats[id])
  }

  /** Mid-tick, a session is as loaded, or new for an app that had none. */
  ghost predicate Provenance(g: Grid, me: Self, t: Tick, loaded: map<Id, Session>, sessions: map<Id, Session>)
  {
    forall id :: id in sessions ==>
      || (id in loaded && sessions[id] == loaded[id])
      || (&& sessions[id] == NewSession(me, t, sessions[id].app) && id == SessionId(me, sessions[id])
          && sessions[id].app in t.apps && Find(g, t, sessions[id].app, loaded).None?)
  }

  /** A created entry is for an app without a stored session. */
  ghost predicate Fitting(g: Grid, me: Self, t: Tick, loaded: map<Id, Session>, e: Entry)
  {
    e.session.Some? ==> && e.session.value == NewSession(me, t, e.session.value.app)
                        && e.session.value.app in t.apps
                        && e.id == SessionId(me, e.session.value)
                        && Find(g, t, e.session.value.app, loaded).None?
  }

  lemma {:induction false} ApplyProvenance(g: Grid, me: Self, t: Tick, plan: seq<Entry>, store: Store)
    requires forall n :: 0 <= n < |plan| ==> Fitting(g, me, t, store.sessions, plan[n])
    ensures Provenance(g, me, t, store.sessions, Apply(store, plan, g.bucketOf(t.slot)).sessions)
  {
    if |plan| > 0 { ApplyProvenance(g, me, t, plan[..|plan| - 1], store); }
  }

  lemma RecordProvenance(g: Grid, me: Self, t: Tick, store: Store)
    ensures Provenance(g, me, t, store.sessions, Record(g, me, t, store).sessions)
  {
    ApplyProvenance(g, me, t, Plan(g, me, t, store.sessions), store);
  }

  /** What a tick creates: sessions of this node alone, for an active app that no
      stored session of the epoch and block is for, at the tick's cursor, with
      the tick's observation, under the id derived from these. */
  lemma TickCreates(g: Grid, me: Self, t: Tick, store: Store, id: Id)
    requires id in Record(g, me, t, store).sessions
    ensures var s := Record(g, me, t, store).sessions[id];
            || (id in store.sessions && s == store.sessions[id])
            || (&& s.app in t.apps && s == Session(me.account, s.app, t.epoch, t.slot, t.cid)
                && id == me.idOf(s.app, t.epoch, t.slot, t.cid)
                && forall i :: i in store.sessions && store.sessions[i].app == s.app
                               && store.sessions[i].epoch == t.epoch ==>
                     g.blockOf(store.sessions[i].slot) != g.blockOf(t.slot))
  {
    RecordProvenance(g, me, t, store);
    FindExact(g, t, Record(g, me, t, store).sessions[id].app, store.sessions);
  }

  lemma ProvenanceOnePerBlock(g: Grid, me: Self, t: Tick, loaded: map<Id, Session>, sessions: map<Id, Session>)
    requires OnePerBlock(g, me, loaded) && Provenance(g, me, t, loaded, sessions)
    ensures OnePerBlock(g, me, sessions)
  {
    forall i, j | i in sessions && j in sessions && Mine(me, sessions[i]) && Mine(me, sessions[j])
                  && SameClaim(g, sessions[i], sessions[j]) ensures i == j {
      FindExact(g, t, sessions[i].app, loaded);
    }
  }

  lemma WriteGood(g: Grid, store: Store, e: Entry, bucket: nat)
    requires bucket < g.buckets && AllGood(g, store.beats)
    ensures AllGood(g, Write(store, e, bucket).beats)
  {
    var list := BeatsOf(store.beats, e.id);
    assert GoodBeats(g, list);
    SaveBeatRising(list, bucket);
    SaveBeatMembers(list, bucket);
  }

  lemma {:induction false} ApplyGood(g: Grid, plan: seq<Entry>, bucket: nat, store: Store)
    requires bucket < g.buckets && AllGood(g, store.beats)
    ensures AllGood(g, Apply(store, plan, bucket).beats)
  {
    if |plan| > 0 {
      ApplyGood(g, plan[..|plan| - 1], bucket, store);
      WriteGood(g, Apply(store, plan[..|plan| - 1], bucket), plan[|plan| - 1], bucket);
    }
  }

  lemma RecordSound(g: Grid, me: Self, t: Tick, store: Store)
    requires Proper(g) && Sound(g, me, store)
    ensures Sound(g, me, Record(g, me, t, store))
  {
    RecordProvenance(g, me, t, store);
    ProvenanceOnePerBlock(g, me, t, store.sessions, Record(g, me, t, store).sessions);
    ApplyGood(g, Plan(g, me, t, store.sessions), g.bucketOf(t.slot), store);
  }

  function Run(g: Grid, me: Self, steps: seq<Step>, store: Store): Store
  {
    if |steps| == 0 then store else Next(g, me, steps[|steps| - 1], Run(g, me, steps[..|steps| - 1], store))
  }

  /** No session received names this node as its player. */
  predicate FromPeers(me: Self, steps: seq<Step>)
  {
    forall i :: 0 <= i < |steps| && steps[i].Receive? ==> !Mine(me, steps[i].session)
  }

  /** After every run of ticks and received sessions from an empty store: at most
      one session of this node per app, epoch and block, and heartbeat lists
      rising and no longer than a block. */
  lemma {:induction false} RunSound(g: Grid, me: Self, steps: seq<Step>)
    requires Proper(g) && FromPeers(me, steps)
    ensures Sound(g, me, Run(g, me, steps, Store(map[], map[])))
  {
    if |steps| > 0 {
      RunSound(g, me, steps[..|steps| - 1]);
      NextSound(g, me, steps[|steps| - 1], Run(g, me, steps[..|steps| - 1], Store(map[], map[])));
    }
  }

  lemma NextSound(g: Grid, me: Self, step: Step, store: Store)
    requires Proper(g) && Sound(g, me, store) && (step.Receive? ==> !Mine(me, step.session))
    ensures Sound(g, me, Next(g, me, step, store))
  {
    if step.Collect? { RecordSound(g, me, step.tick, store); }
  }

  /** A received session keeps this node's sessions apart if and only if it does not
      name this node, or repeats no claim stored under another id. */
  lemma ReceiveOnePerBlockIff(g: Grid, me: Self, id: Id, s: Session, store: Store)
    requires OnePerBlock(g, me, store.sessions)
    ensures OnePerBlock(g, me, Saved(store, id, s).sessions)
            <==> !Mine(me, s) || forall i :: i in store.sessions && i != id && Mine(me, store.sessions[i]) ==>
                                   !SameClaim(g, store.sessions[i], s)
  {
    var after := Saved(store, id, s).sessions;
    assert after[id] == s;
    if Mine(me, s) {
      if i :| i in store.sessions && i != id && Mine(me, store.sessions[i]) && SameClaim(g, store.sessions[i], s) {
        assert after[i] == store.sessions[i];
      }
    }
  }

  /** A session in this node's name under another id does break it: after a tick
      that creates a session, a copy of it is received. */
  lemma ForgedSessionDoubles(g: Grid, me: Self, t: Tick, app: nat, id: Id)
    requires t.apps == [app] && id != SessionId(me, NewSession(me, t, app))
    ensures var steps := [Collect(t), Receive(id, NewSession(me, t, app))];
            !OnePerBlock(g, me, Run(g, me, steps, Store(map[], map[])).sessions)
  {
    var start, own := Store(map[], map[]), NewSession(me, t, app);
    var steps := [Collect(t), Receive(id, own)];
    assert steps[..1] == [Collect(t)] && steps[..1][..0] == [];
    FindExact(g, t, app, start.sessions);
    var plan := Plan(g, me, t, start.sessions);
    assert plan[..0] == [];
    var store := Record(g, me, t, start);
    assert Apply(start, plan[..0], g.bucketOf(t.slot)) == start;
    assert store == Apply(start, plan, g.bucketOf(t.slot)) == Write(start, plan[0], g.bucketOf(t.slot));
    assert Run(g, me, steps[..1], start) == store;
    var mine, after := SessionId(me, own), Run(g, me, steps, start).sessions;
    assert after == store.sessions[id := own];
    assert after[mine] == own && after[id] == own && SameClaim(g, after[mine], after[id]);
  }

  lemma BeatsBounded(g: Grid, me: Self, store: Store, id: Id)
    requires Sound(g, me, store) && id in store.beats
    ensures |store.beats[id]| <= g.buckets
  {
    RisingBound(store.beats[id], g.buckets);
  }
}
