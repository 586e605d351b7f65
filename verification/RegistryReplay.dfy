/** The events of a batch are an exact account of what the batch changed. */
module RegistryReplay {
  import opened Ordering
  import opened Registry

  /** What a listener can keep: who is there, what they publish, what is attached. */
  datatype Seen = Seen(people: set<string>, pubs: set<(string, string)>, attached: set<string>)

  function Note(seen: Seen, e: Event): Seen {
    match e
    case Connected(p) => seen.(people := seen.people + {p})
    case Disconnected(p) => seen.(people := seen.people - {p})
    case Published(p, t) => seen.(pubs := seen.pubs + {(p, t)})
    case Unpublished(p, t) => seen.(pubs := seen.pubs - {(p, t)})
    case Subscribed(_, t) => seen.(attached := seen.attached + {t})
    case Unsubscribed(_, t) => seen.(attached := seen.attached - {t})
    case _ => seen
  }

  function Fold(seen: Seen, events: seq<Event>): Seen {
    if events == [] then seen else Note(Fold(seen, events[..|events| - 1]), events[|events| - 1])
  }

  lemma {:induction false} FoldConcat(seen: Seen, a: seq<Event>, b: seq<Event>)
    ensures Fold(seen, a + b) == Fold(Fold(seen, a), b)
    decreases |b|
  {
    if b == [] {
      assert a + b == a;
    } else {
      FoldConcat(seen, a, b[..|b| - 1]);
      assert (a + b)[..|a + b| - 1] == a + b[..|b| - 1];
    }
  }

  function View(reg: Registry): Seen {
    Seen(reg.people.Keys,
         set id, t | id in reg.people && t in reg.people[id].publications :: (id, t),
         reg.tracks.Keys)
  }

  // ----- What a log adds and removes -----

  predicate DetachedIn(log: seq<Event>, t: string) {
    exists i :: 0 <= i < |log| && log[i].Unsubscribed? && log[i].t == t
  }

  /** `after` is `before` with all that a log adds, less all that it removes. */
  ghost predicate Patch(before: Seen, log: seq<Event>, after: Seen) {
    PatchPeople(before, log, after) && PatchPubs(before, log, after) && PatchAttached(before, log, after)
  }

  ghost predicate PatchPeople(before: Seen, log: seq<Event>, after: Seen) {
    forall p :: p in after.people <==> (p in before.people || Connected(p) in log) && Disconnected(p) !in log
  }

  ghost predicate PatchPubs(before: Seen, log: seq<Event>, after: Seen) {
    forall p, t :: (p, t) in after.pubs <==>
                   ((p, t) in before.pubs || Published(p, t) in log) && Unpublished(p, t) !in log
  }

  ghost predicate PatchAttached(before: Seen, log: seq<Event>, after: Seen) {
    forall t :: t in after.attached <==> t in before.attached && !DetachedIn(log, t)
  }

  /** The part of a patch that the events of rank r below 10 contribute. */
  ghost predicate PatchAt(before: Seen, log: seq<Event>, r: nat, after: Seen) {
    PeopleAt(before, log, r, after) && PubsAt(before, log, r, after) && AttachedAt(before, log, r, after)
  }

  ghost predicate PeopleAt(before: Seen, log: seq<Event>, r: nat, after: Seen) {
    forall p :: p in after.people <==>
                (p in before.people || (r == 0 && Connected(p) in log)) && !(r == 9 && Disconnected(p) in log)
  }

  ghost predicate PubsAt(before: Seen, log: seq<Event>, r: nat, after: Seen) {
    forall p, t :: (p, t) in after.pubs <==>
                   ((p, t) in before.pubs || (r == 1 && Published(p, t) in log)) && !(r == 4 && Unpublished(p, t) in log)
  }

  ghost predicate AttachedAt(before: Seen, log: seq<Event>, r: nat, after: Seen) {
    forall t :: t in after.attached <==> t in before.attached && !(r == 3 && DetachedIn(log, t))
  }

  lemma DetachedSnoc(log: seq<Event>, e: Event, t: string)
    ensures DetachedIn(log + [e], t) <==> DetachedIn(log, t) || (e.Unsubscribed? && e.t == t)
  {
    var all := log + [e];
    if e.Unsubscribed? && e.t == t {
      assert all[|log|] == e;
    }
    if DetachedIn(log, t) {
      var i :| 0 <= i < |log| && log[i].Unsubscribed? && log[i].t == t;
      assert all[i] == log[i];
    }
  }

  /** One more event of a log, delivered in its turn. */
  lemma PatchMore(seen: Seen, log: seq<Event>, e: Event, r: nat, after: Seen)
    requires r < 10 && PatchAt(seen, log, r, after)
    ensures PatchAt(seen, log + [e], r, if Rank(e) == r then Note(after, e) else after)
  {
    var more := log + [e];
    var now := if Rank(e) == r then Note(after, e) else after;
    assert forall x :: x in more <==> x in log || x == e;
    assert PeopleAt(seen, more, r, now);
    assert PubsAt(seen, more, r, now);
    forall t ensures t in now.attached <==> t in seen.attached && !(r == 3 && DetachedIn(more, t)) {
      DetachedSnoc(log, e, t);
    }
  }

  lemma {:induction false} FoldRank(seen: Seen, log: seq<Event>, r: nat)
    requires r < 10
    ensures PatchAt(seen, log, r, Fold(seen, ByRank(log, r)))
  {
    if log == [] {
      assert Fold(seen, ByRank(log, r)) == seen;
    } else {
      var before, last := log[..|log| - 1], log[|log| - 1];
      var front := ByRank(before, r);
      assert log == before + [last];
      FoldRank(seen, before, r);
      PatchMore(seen, before, last, r, Fold(seen, front));
      if Rank(last) == r {
        assert ByRank(log, r) == front + [last] && (front + [last])[..|front|] == front;
        assert Fold(seen, ByRank(log, r)) == Note(Fold(seen, front), last);
      } else {
        assert ByRank(log, r) == front;
      }
    }
  }

  lemma OrderedStep(seen: Seen, log: seq<Event>, r: nat)
    requires r < 10
    ensures PatchAt(Fold(seen, Ordered(log, r)), log, r, Fold(seen, Ordered(log, r + 1)))
  {
    FoldConcat(seen, Ordered(log, r), ByRank(log, r));
    FoldRank(Fold(seen, Ordered(log, r)), log, r);
  }

  /** Delivered by rank, a batch first adds everything and then removes everything. */
  lemma FoldOrdered(seen: Seen, log: seq<Event>)
    ensures Patch(seen, log, Fold(seen, Ordered(log, 10)))
  {
    assert Fold(seen, Ordered(log, 0)) == seen;
    OrderedStep(seen, log, 0);
    OrderedStep(seen, log, 1);
    OrderedStep(seen, log, 2);
    OrderedStep(seen, log, 3);
    OrderedStep(seen, log, 4);
    OrderedStep(seen, log, 5);
    OrderedStep(seen, log, 6);
    OrderedStep(seen, log, 7);
    OrderedStep(seen, log, 8);
    OrderedStep(seen, log, 9);
  }

  // ----- One entry of a batch -----

  lemma {:induction false} ForEachMembers(ids: seq<string>, f: string -> seq<Event>, e: Event)
    ensures e in ForEach(ids, f) <==> exists t :: t in ids && e in f(t)
  {
    if ids != [] {
      var before, last := ids[..|ids| - 1], ids[|ids| - 1];
      assert ids == before + [last];
      ForEachMembers(before, f, e);
      assert e in ForEach(ids, f) <==> e in ForEach(before, f) || e in f(last);
    }
  }

  lemma Withdrawals(id: string, gone: set<string>, tracks: map<string, MediaKind>, e: Event)
    ensures e in ForEach(InOrder(gone), Withdrawal(id, tracks)) <==>
            || (e.Unpublished? && e.p == id && e.t in gone)
            || (e.Unsubscribed? && e.p == id && e.t in gone && e.t in tracks)
  {
    ForEachMembers(InOrder(gone), Withdrawal(id, tracks), e);
    if e.Unpublished? || e.Unsubscribed? {
      assert e.t in gone ==> e.t in InOrder(gone);
    }
  }

  lemma Arrivals(id: string, before: map<string, TrackInfo>, after: map<string, TrackInfo>, e: Event)
    ensures e.Published? ==>
              (e in ForEach(InOrder(after.Keys), Arrival(id, before, after)) <==> e.p == id && e.t in after && e.t !in before)
    ensures e in ForEach(InOrder(after.Keys), Arrival(id, before, after)) ==> e.Published? || e.MuteChanged?
  {
    var ids, f := InOrder(after.Keys), Arrival(id, before, after);
    ForEachMembers(ids, f, e);
    if e in ForEach(ids, f) {
      var t :| t in ids && e in f(t);
      assert f(t) == [e];
    }
    if e.Published? && e.p == id && e.t in after && e.t !in before {
      assert e.t in after.Keys && f(e.t) == [e];
    }
  }

  predicate Publishes(people: map<string, Person>, p: string, t: string) {
    p in people && t in people[p].publications
  }

  lemma PubsOfView(reg: Registry, p: string, t: string)
    ensures (p, t) in View(reg).pubs <==> Publishes(reg.people, p, t)
  {
  }

  /** How one entry may change the registry: as its events say, and only under its own sid. */
  ghost predicate Exact(reg: Registry, info: ParticipantInfo, r: Effect) {
    && Patch(View(reg), r.log, View(r.reg))
    && (forall p :: Disconnected(p) in r.log ==> p == info.sid && p in reg.people && p !in r.reg.people)
    && (forall p, t :: Unpublished(p, t) in r.log ==>
                       p == info.sid && Publishes(reg.people, p, t) && !Publishes(r.reg.people, p, t))
    && (forall id :: id != info.sid ==> (id in reg.people <==> id in r.reg.people) &&
                                        (id in reg.people ==> r.reg.people[id] == reg.people[id]))
  }

  /** Enough to know, event by event, for an entry to be exact. */
  lemma ExactByEvents(reg: Registry, info: ParticipantInfo, r: Effect)
    requires forall p :: (p in r.reg.people <==> (p in reg.people || Connected(p) in r.log) && Disconnected(p) !in r.log) &&
                         (Disconnected(p) in r.log ==> p == info.sid && p in reg.people)
    requires forall p, t :: (Publishes(r.reg.people, p, t) <==>
                               (Publishes(reg.people, p, t) || Published(p, t) in r.log) && Unpublished(p, t) !in r.log) &&
                            (Unpublished(p, t) in r.log ==> p == info.sid && Publishes(reg.people, p, t))
    requires forall t :: t in r.reg.tracks <==> t in reg.tracks && !DetachedIn(r.log, t)
    requires forall id :: id != info.sid ==> (id in reg.people <==> id in r.reg.people) &&
                                             (id in reg.people ==> r.reg.people[id] == reg.people[id])
    ensures Exact(reg, info, r)
  {
    var v, w := View(reg), View(r.reg);
    assert PatchPubs(v, r.log, w) by {
      forall p, t ensures (p, t) in w.pubs <==> ((p, t) in v.pubs || Published(p, t) in r.log) && Unpublished(p, t) !in r.log {
        PubsOfView(reg, p, t);
        PubsOfView(r.reg, p, t);
      }
    }
  }

  lemma LeaveIsExact(reg: Registry, info: ParticipantInfo)
    requires info.sid in reg.people
    ensures Exact(reg, info, Leave(reg, info.sid, true))
  {
    var id, r := info.sid, Leave(reg, info.sid, true);
    var gone := reg.people[id].publications.Keys;
    forall e ensures e in r.log <==> || e == Disconnected(id) || (e.Unpublished? && e.p == id && e.t in gone)
                                     || (e.Unsubscribed? && e.p == id && e.t in gone && e.t in reg.tracks)
    {
      Withdrawals(id, gone, reg.tracks, e);
    }
    forall t ensures DetachedIn(r.log, t) <==> t in gone && t in reg.tracks {
      assert t in gone && t in reg.tracks ==> Unsubscribed(id, t) in r.log;
    }
    ExactByEvents(reg, info, r);
  }

  lemma EnterIsExact(reg: Registry, info: ParticipantInfo)
    requires info.sid !in reg.people
    ensures Exact(reg, info, Enter(reg, info, true))
  {
    var id, r, pubs := info.sid, Enter(reg, info, true), Listed(info.tracks);
    forall e ensures e in r.log ==> e == Connected(id) || e.Published? || e.MuteChanged?
             ensures e.Published? ==> (e in r.log <==> e.p == id && e.t in pubs)
    {
      Arrivals(id, map[], pubs, e);
    }
    assert Connected(id) in r.log;
    ExactByEvents(reg, info, r);
  }

  lemma ValueEventKinds(id: string, before: ParticipantInfo, after: ParticipantInfo, e: Event)
    requires e in ValueEvents(id, before, after)
    ensures e.MetadataChanged? || e.NameChanged? || e.AttributesChanged? || e.PermissionsChanged?
  {
  }

  /** The events of a changed participant that concern its publications. */
  lemma ChangeLog(reg: Registry, info: ParticipantInfo, e: Event)
    requires info.sid in reg.people
    ensures var p := reg.people[info.sid].publications;
            var q := Refresh(reg.people[info.sid], info).publications;
            var log := Change(reg, info, true).log;
            && (e.Connected? || e.Disconnected? ==> e !in log)
            && (e.Published? ==> (e in log <==> e.p == info.sid && e.t in q && e.t !in p))
            && (e.Unpublished? ==> (e in log <==> e.p == info.sid && e.t in p && e.t !in q))
            && (e.Unsubscribed? ==> (e in log <==> e.p == info.sid && e.t in p && e.t !in q && e.t in reg.tracks))
  {
    var id, p := info.sid, reg.people[info.sid];
    var q := Refresh(p, info);
    Arrivals(id, p.publications, q.publications, e);
    Withdrawals(id, p.publications.Keys - q.publications.Keys, reg.tracks, e);
    if e in ValueEvents(id, p.info, q.info) {
      ValueEventKinds(id, p.info, q.info, e);
    }
  }

  lemma ChangeIsExact(reg: Registry, info: ParticipantInfo)
    requires info.sid in reg.people
    ensures Exact(reg, info, Change(reg, info, true))
  {
    var id, r, p := info.sid, Change(reg, info, true), reg.people[info.sid].publications;
    var q := Refresh(reg.people[id], info).publications;
    forall x ensures Connected(x) !in r.log && Disconnected(x) !in r.log {
      ChangeLog(reg, info, Connected(x));
      ChangeLog(reg, info, Disconnected(x));
    }
    forall x, t ensures Published(x, t) in r.log <==> x == id && t in q && t !in p
                ensures Unpublished(x, t) in r.log <==> x == id && t in p && t !in q
    {
      ChangeLog(reg, info, Published(x, t));
      ChangeLog(reg, info, Unpublished(x, t));
    }
    forall t ensures DetachedIn(r.log, t) <==> t in p && t !in q && t in reg.tracks {
      ChangeLog(reg, info, Unsubscribed(id, t));
      if DetachedIn(r.log, t) {
        var i :| 0 <= i < |r.log| && r.log[i].Unsubscribed? && r.log[i].t == t;
        ChangeLog(reg, info, r.log[i]);
      }
    }
    ExactByEvents(reg, info, r);
  }

  lemma EntryIsExact(reg: Registry, info: ParticipantInfo)
    ensures Exact(reg, info, ApplyOne(reg, info, true))
  {
    var r := ApplyOne(reg, info, true);
    if info.sid == "" {
    } else if IsLocal(reg, info) {
      forall e | e in r.log ensures !e.Connected? && !e.Disconnected? && !e.Published? && !e.Unpublished? && !e.Unsubscribed? {
        ValueEventKinds(Me, reg.local.info, r.reg.local.info, e);
      }
      ExactByEvents(reg, info, r);
    } else if info.disconnected {
      if info.sid in reg.people {
        LeaveIsExact(reg, info);
      }
    } else if info.sid in reg.people {
      ChangeIsExact(reg, info);
    } else {
      EnterIsExact(reg, info);
    }
  }

  // ----- A batch -----

  /** What the events of a batch say for certain, whatever order its entries come in. */
  ghost predicate Account(reg: Registry, r: Effect) {
    && (forall p :: p in r.reg.people ==> p in reg.people || Connected(p) in r.log)
    && (forall p :: p in reg.people || Connected(p) in r.log ==> p in r.reg.people || Disconnected(p) in r.log)
    && (forall p, t :: Publishes(r.reg.people, p, t) ==> Publishes(reg.people, p, t) || Published(p, t) in r.log)
    && (forall p, t :: Publishes(reg.people, p, t) || Published(p, t) in r.log ==>
                       Publishes(r.reg.people, p, t) || Unpublished(p, t) in r.log)
    && (forall t :: t in r.reg.tracks <==> t in reg.tracks && !DetachedIn(r.log, t))
  }

  lemma DetachedConcat(a: seq<Event>, b: seq<Event>, t: string)
    ensures DetachedIn(a + b, t) <==> DetachedIn(a, t) || DetachedIn(b, t)
  {
    if DetachedIn(a, t) {
      var i :| 0 <= i < |a| && a[i].Unsubscribed? && a[i].t == t;
      assert (a + b)[i] == a[i];
    }
    if DetachedIn(b, t) {
      var i :| 0 <= i < |b| && b[i].Unsubscribed? && b[i].t == t;
      assert (a + b)[|a| + i] == b[i];
    }
  }

  lemma EntryFacts(reg: Registry, info: ParticipantInfo)
    ensures Account(reg, ApplyOne(reg, info, true))
  {
    EntryIsExact(reg, info);
    var r := ApplyOne(reg, info, true);
    forall p, t ensures Publishes(r.reg.people, p, t) <==>
                        (Publishes(reg.people, p, t) || Published(p, t) in r.log) && Unpublished(p, t) !in r.log
    {
      PubsOfView(reg, p, t);
      PubsOfView(r.reg, p, t);
    }
    assert forall p :: p in r.reg.people <==> p in View(r.reg).people;
    assert forall t :: t in r.reg.tracks <==> t in View(r.reg).attached;
  }

  lemma AccountsCompose(reg: Registry, a: Effect, b: Effect)
    requires Account(reg, a) && Account(a.reg, b)
    ensures Account(reg, Effect(b.reg, a.log + b.log))
  {
    forall t ensures DetachedIn(a.log + b.log, t) <==> DetachedIn(a.log, t) || DetachedIn(b.log, t) {
      DetachedConcat(a.log, b.log, t);
    }
  }

  lemma {:induction false} BatchAccount(reg: Registry, infos: seq<ParticipantInfo>)
    ensures Account(reg, ApplyAll(reg, infos, true))
  {
    if infos != [] {
      var before := ApplyAll(reg, infos[..|infos| - 1], true);
      BatchAccount(reg, infos[..|infos| - 1]);
      EntryFacts(before.reg, infos[|infos| - 1]);
      AccountsCompose(reg, before, ApplyOne(before.reg, infos[|infos| - 1], true));
    }
  }

  /** Nothing that an entry of the batch took away is back when the batch ends. */
  ghost predicate NothingReturns(r: Effect) {
    && (forall p :: Disconnected(p) in r.log ==> p !in r.reg.people)
    && (forall p, t :: Unpublished(p, t) in r.log ==> !Publishes(r.reg.people, p, t))
  }

  lemma PatchMeetsView(reg: Registry, r: Effect, seen: Seen)
    requires Account(reg, r) && Patch(View(reg), r.log, seen)
    ensures seen.attached == r.reg.tracks.Keys
    ensures seen == View(r.reg) <==> NothingReturns(r)
  {
    var w := View(r.reg);
    forall p, t ensures ((p, t) in w.pubs <==> Publishes(r.reg.people, p, t)) &&
                        ((p, t) in View(reg).pubs <==> Publishes(reg.people, p, t))
    {
      PubsOfView(reg, p, t);
      PubsOfView(r.reg, p, t);
    }
    assert forall p :: p in w.people <==> p in r.reg.people;
    if NothingReturns(r) {
      assert seen.people == w.people;
      assert seen.pubs == w.pubs by {
        forall k ensures k in seen.pubs <==> k in w.pubs {
          assert k == (k.0, k.1);
        }
      }
    }
    if seen == w {
      forall p | Disconnected(p) in r.log ensures p !in r.reg.people {
        assert p !in seen.people;
      }
      forall p, t | Unpublished(p, t) in r.log ensures !Publishes(r.reg.people, p, t) {
        assert (p, t) !in seen.pubs;
      }
    }
  }

  lemma MediaTrackReplay(reg: Registry, t: string, kind: MediaKind, seen: Seen)
    requires seen.attached == reg.tracks.Keys
    ensures var r := MediaTrack(reg, t, kind);
            Fold(seen, r.log) == seen.(attached := r.reg.tracks.Keys) && r.reg.people == reg.people
  {
    var r := MediaTrack(reg, t, kind);
    if r.log == [] {
      assert r.reg.tracks == reg.tracks;
    } else {
      assert r.log[..0] == [] && r.reg.tracks.Keys == reg.tracks.Keys + {t};
    }
  }

  lemma {:induction false} MediaTracksReplay(reg: Registry, ts: seq<string>, kinds: map<string, MediaKind>, seen: Seen)
    requires forall t :: t in ts ==> t in kinds
    requires seen.attached == reg.tracks.Keys
    ensures var r := MediaTracks(reg, ts, kinds);
            Fold(seen, r.log) == seen.(attached := r.reg.tracks.Keys) && r.reg.people == reg.people
  {
    if ts != [] {
      var front, t := ts[..|ts| - 1], ts[|ts| - 1];
      MediaTracksReplay(reg, front, kinds, seen);
      var before := MediaTracks(reg, front, kinds);
      FoldConcat(seen, before.log, MediaTrack(before.reg, t, kinds[t]).log);
      MediaTrackReplay(before.reg, t, kinds[t], Fold(seen, before.log));
    }
  }

  /** Folding the events of a batch gives the new registry if and only if its log withdraws nothing for a while only. */
  lemma ReplayByLog(reg: Registry, infos: seq<ParticipantInfo>)
    ensures var r := ApplyUpdates(reg, infos, true);
            Fold(View(reg), r.log) == View(r.reg) <==> NothingReturns(ApplyAll(reg, infos, true))
  {
    var batch := ApplyAll(reg, infos, true);
    var seen := Fold(View(reg), Ordered(batch.log, 10));
    FoldOrdered(View(reg), batch.log);
    BatchAccount(reg, infos);
    PatchMeetsView(reg, batch, seen);
    var waiting := batch.reg.(pending := batch.reg.pending - Ready(batch.reg));
    MediaTracksReplay(waiting, InOrder(Ready(batch.reg)), batch.reg.pending, seen);
    FoldConcat(View(reg), Ordered(batch.log, 10), Attach(batch.reg).log);
  }

  lemma MuteTrackReplay(reg: Registry, t: string, muted: bool)
    ensures var r := MuteTrack(reg, t, muted);
            Fold(View(reg), r.log) == View(r.reg)
  {
    var r := MuteTrack(reg, t, muted);
    if r.log != [] {
      assert r.log[..0] == [];
      forall id, x ensures Publishes(r.reg.people, id, x) <==> Publishes(reg.people, id, x) {
      }
      assert View(r.reg).pubs == View(reg).pubs by {
        forall k ensures k in View(r.reg).pubs <==> k in View(reg).pubs {
          assert k == (k.0, k.1);
          PubsOfView(reg, k.0, k.1);
          PubsOfView(r.reg, k.0, k.1);
        }
      }
      assert r.reg.people.Keys == reg.people.Keys;
    }
  }

  lemma MediaTrackRemovedReplay(reg: Registry, t: string)
    ensures var r := MediaTrackRemoved(reg, t);
            Fold(View(reg), r.log) == View(r.reg)
  {
    var r := MediaTrackRemoved(reg, t);
    if r.log != [] {
      assert r.log[..0] == [] && r.reg.tracks.Keys == reg.tracks.Keys - {t};
    }
  }

  // ----- Values -----

  /** An info older than the one known changes nothing and is reported by no event. */
  lemma StaleEmitsNothing(reg: Registry, info: ParticipantInfo)
    requires info.sid in reg.people && info.sid != "" && !info.disconnected && !IsLocal(reg, info)
    requires Stale(reg.people[info.sid], info)
    ensures ApplyOne(reg, info, true) == Effect(reg, [])
  {
    var p := reg.people[info.sid];
    NoValueEvents(info.sid, p.info);
    NothingForEach(InOrder(p.publications.Keys), Arrival(info.sid, p.publications, p.publications));
    NothingForEach(InOrder({}), Withdrawal(info.sid, reg.tracks));
    assert p.publications.Keys - p.publications.Keys == {};
    assert reg.people[info.sid := p] == reg.people && reg.tracks - {} == reg.tracks && reg.pending - {} == reg.pending;
  }

  lemma NoValueEvents(id: string, info: ParticipantInfo)
    ensures ValueEvents(id, info, info) == []
  {
    assert AttributeChanges(info.attributes, info.attributes) == map[];
  }

  lemma NothingForEach(ids: seq<string>, f: string -> seq<Event>)
    requires forall t :: t in ids ==> f(t) == []
    ensures ForEach(ids, f) == []
  {
    if ForEach(ids, f) != [] {
      ForEachMembers(ids, f, ForEach(ids, f)[0]);
    }
  }

  function Read(attributes: map<string, string>, k: string): string {
    if k in attributes then attributes[k] else ""
  }

  /** The patch names exactly the keys that differ, and turns the old values into the new ones. */
  lemma AttributePatch(before: map<string, string>, after: map<string, string>, k: string)
    ensures var changes := AttributeChanges(before, after);
            && Read(before + changes, k) == Read(after, k)
            && (k in changes <==> (k in before) != (k in after) || (k in before && k in after && before[k] != after[k]))
            && (changes == map[] <==> before == after)
  {
    var changes := AttributeChanges(before, after);
    if changes == map[] {
      assert forall x :: x in before.Keys + after.Keys ==> x !in changes;
      assert before.Keys == after.Keys;
    }
  }
}
