/** The values that events carry: what they say of a change, and that folding them gives the name and the mute state. */
module RegistryValues {
  import opened Wire
  import opened Ordering
  import opened Registry
  import opened RegistryFold
  import opened RegistryReplay

  // ----- One change -----

  /** The value events of a participant: for exactly what differs, with the value the listener is promised. */
  lemma ValueInLog(id: string, before: ParticipantInfo, after: ParticipantInfo, e: Event)
    ensures e in ValueEvents(id, before, after) <==>
            || (e == MetadataChanged(id, before.metadata) && before.metadata != after.metadata)
            || (e == NameChanged(id, after.name) && before.name != after.name)
            || (e == PermissionsChanged(id, before.permissions) && before.permissions != after.permissions)
            || (e == AttributesChanged(id, AttributeChanges(before.attributes, after.attributes)) && before.attributes != after.attributes)
  {
    AttributePatch(before.attributes, after.attributes, "");
    var changes := AttributeChanges(before.attributes, after.attributes);
    var a := if before.metadata != after.metadata then [MetadataChanged(id, before.metadata)] else [];
    var b := if before.name != after.name then [NameChanged(id, after.name)] else [];
    var c := if changes != map[] then [AttributesChanged(id, changes)] else [];
    var d := if before.permissions != after.permissions then [PermissionsChanged(id, before.permissions)] else [];
    assert ValueEvents(id, before, after) == a + b + c + d;
    assert e in a + b + c + d <==> e in a || e in b || e in c || e in d;
  }

  /** The mute events of a participant: for exactly the publications that stay and differ, with the new state. */
  lemma MutesOfChange(id: string, before: map<string, TrackInfo>, after: map<string, TrackInfo>, p: string, t: string, muted: bool)
    ensures MuteChanged(p, t, muted) in ForEach(InOrder(after.Keys), Arrival(id, before, after)) <==>
            p == id && t in before && t in after && before[t].muted != after[t].muted && muted == after[t].muted
  {
    var ids, f, e := InOrder(after.Keys), Arrival(id, before, after), MuteChanged(p, t, muted);
    ForEachMembers(ids, f, e);
    if e in ForEach(ids, f) {
      var x :| x in ids && e in f(x);
      assert f(x) == [e];
    }
    if p == id && t in before && t in after && before[t].muted != after[t].muted && muted == after[t].muted {
      assert t in ids && f(t) == [e];
    }
  }

  // ----- Folding a value -----

  /** What a listener that started with a value has after a log: the value of the last event it picks. */
  function Told<V>(log: seq<Event>, pick: Event -> Option<V>, start: V): V {
    if log == [] then start else
    var last := pick(log[|log| - 1]);
    if last.Some? then last.value else Told(log[..|log| - 1], pick, start)
  }

  lemma {:induction false} ToldConcat<V>(a: seq<Event>, b: seq<Event>, pick: Event -> Option<V>, start: V)
    ensures Told(a + b, pick, start) == Told(b, pick, Told(a, pick, start))
    decreases |b|
  {
    if b == [] {
      assert a + b == a;
    } else {
      ToldConcat(a, b[..|b| - 1], pick, start);
      assert (a + b)[..|a + b| - 1] == a + b[..|b| - 1];
    }
  }

  lemma {:induction false} ToldNothing<V>(log: seq<Event>, pick: Event -> Option<V>, start: V)
    requires forall e :: e in log ==> pick(e).None?
    ensures Told(log, pick, start) == start
  {
    if log != [] {
      assert log[|log| - 1] in log;
      ToldNothing(log[..|log| - 1], pick, start);
    }
  }

  /** All events that are picked have one rank. */
  ghost predicate OfRank<V>(pick: Event -> Option<V>, r: nat) { forall e :: pick(e).Some? ==> Rank(e) == r }

  lemma {:induction false} RankMembers(log: seq<Event>, r: nat, e: Event)
    ensures e in ByRank(log, r) ==> Rank(e) == r
  {
    if log != [] {
      RankMembers(log[..|log| - 1], r, e);
    }
  }

  lemma {:induction false} ToldByRank<V>(log: seq<Event>, r: nat, pick: Event -> Option<V>, start: V)
    requires OfRank(pick, r)
    ensures Told(ByRank(log, r), pick, start) == Told(log, pick, start)
  {
    if log != [] {
      var front, last := log[..|log| - 1], log[|log| - 1];
      ToldByRank(front, r, pick, start);
      var own := ByRank(front, r);
      if Rank(last) == r {
        assert ByRank(log, r) == own + [last] && (own + [last])[..|own|] == own;
      } else {
        assert ByRank(log, r) == own && pick(last).None?;
      }
    }
  }

  /** The order in which a batch is told does not matter to such a value. */
  lemma {:induction false} ToldOrdered<V>(log: seq<Event>, n: nat, r: nat, pick: Event -> Option<V>, start: V)
    requires OfRank(pick, r)
    ensures Told(Ordered(log, n), pick, start) == if r < n then Told(log, pick, start) else start
  {
    if n > 0 {
      ToldOrdered(log, n - 1, r, pick, start);
      ToldConcat(Ordered(log, n - 1), ByRank(log, n - 1), pick, start);
      if r == n - 1 {
        ToldByRank(log, r, pick, start);
      } else {
        forall e | e in ByRank(log, n - 1) ensures pick(e).None? {
          RankMembers(log, n - 1, e);
        }
        ToldNothing(ByRank(log, n - 1), pick, Told(Ordered(log, n - 1), pick, start));
      }
    }
  }

  /** All picks of a log agree, and there is one. */
  lemma {:induction false} ToldAgree<V>(log: seq<Event>, pick: Event -> Option<V>, start: V, v: V, e: Event)
    requires forall x :: x in log && pick(x).Some? ==> pick(x).value == v
    requires e in log && pick(e).Some?
    ensures Told(log, pick, start) == v
  {
    var front, last := log[..|log| - 1], log[|log| - 1];
    assert last in log;
    if pick(last).None? {
      assert e in front;
      ToldAgree(front, pick, start, v, e);
    }
  }

  // ----- Names -----

  function NameOf(p: string): Event -> Option<string> {
    (e: Event) => if e.NameChanged? && e.p == p then Some(e.name) else None
  }

  /** A batch entry reports the name of a participant that stays exactly when it changed, with the new one. */
  lemma NameInLog(reg: Registry, info: ParticipantInfo, p: string, v: string)
    requires p != "" && p in reg.people && p in ApplyOne(reg, info, true).reg.people
    ensures var r := ApplyOne(reg, info, true);
            var old_, now := reg.people[p].info.name, r.reg.people[p].info.name;
            NameChanged(p, v) in r.log <==> old_ != now && v == now
  {
    var r, e := ApplyOne(reg, info, true), NameChanged(p, v);
    if info.sid == "" {
    } else if IsLocal(reg, info) {
      ValueInLog(Me, reg.local.info, r.reg.local.info, e);
    } else if info.disconnected {
      if info.sid in reg.people {
        Withdrawals(info.sid, reg.people[info.sid].publications.Keys, reg.tracks, e);
      }
    } else if info.sid in reg.people {
      var q, q' := reg.people[info.sid], Refresh(reg.people[info.sid], info);
      ValueInLog(info.sid, q.info, q'.info, e);
      Arrivals(info.sid, q.publications, q'.publications, e);
      Withdrawals(info.sid, q.publications.Keys - q'.publications.Keys, reg.tracks, e);
    } else {
      Arrivals(info.sid, map[], Refresh(Nobody, info).publications, e);
    }
  }

  lemma NameOfEntry(reg: Registry, info: ParticipantInfo, p: string)
    requires p != "" && p in reg.people && p in ApplyOne(reg, info, true).reg.people
    ensures var r := ApplyOne(reg, info, true);
            Told(r.log, NameOf(p), reg.people[p].info.name) == r.reg.people[p].info.name
  {
    var r := ApplyOne(reg, info, true);
    var old_, now := reg.people[p].info.name, r.reg.people[p].info.name;
    forall x | x in r.log && NameOf(p)(x).Some? ensures old_ != now && NameOf(p)(x).value == now {
      NameInLog(reg, info, p, x.name);
    }
    if old_ != now {
      NameInLog(reg, info, p, now);
      ToldAgree(r.log, NameOf(p), old_, now, NameChanged(p, now));
    } else {
      ToldNothing(r.log, NameOf(p), old_);
    }
  }

  /** Folding the name events of a batch gives the name of every participant that stays. */
  lemma {:induction false} NamesReplay(reg: Registry, infos: seq<ParticipantInfo>, p: string)
    requires p != "" && forall k :: 0 <= k <= |infos| ==> HereAt(reg, infos, p, k)
    requires p in reg.people && p in ApplyAll(reg, infos, true).reg.people
    ensures var r := ApplyAll(reg, infos, true);
            Told(r.log, NameOf(p), reg.people[p].info.name) == r.reg.people[p].info.name
  {
    if infos != [] {
      var front, last := infos[..|infos| - 1], infos[|infos| - 1];
      var before := ApplyAll(reg, front, true);
      forall k | 0 <= k <= |front| ensures HereAt(reg, front, p, k) {
        assert front[..k] == infos[..k] && HereAt(reg, infos, p, k);
      }
      AtIsPrefix(reg, infos, true, p, |front|);
      assert HereAt(reg, infos, p, |front|);
      NamesReplay(reg, front, p);
      NameOfEntry(before.reg, last, p);
      ToldConcat(before.log, ApplyOne(before.reg, last, true).log, NameOf(p), reg.people[p].info.name);
    }
  }

  // ----- Mute states -----

  function MuteOf(p: string, t: string): Event -> Option<bool> {
    (e: Event) => if e.MuteChanged? && e.p == p && e.t == t then Some(e.muted) else None
  }

  function MutedAs(people: map<string, Person>, p: string, t: string): bool
    requires Publishes(people, p, t)
  {
    people[p].publications[t].muted
  }

  lemma MuteInLog(reg: Registry, info: ParticipantInfo, p: string, t: string, m: bool)
    requires Publishes(reg.people, p, t) && Publishes(ApplyOne(reg, info, true).reg.people, p, t)
    ensures var r := ApplyOne(reg, info, true);
            var old_, now := MutedAs(reg.people, p, t), MutedAs(r.reg.people, p, t);
            MuteChanged(p, t, m) in r.log <==> old_ != now && m == now
  {
    var r, e := ApplyOne(reg, info, true), MuteChanged(p, t, m);
    if info.sid == "" {
    } else if IsLocal(reg, info) {
      ValueInLog(Me, reg.local.info, r.reg.local.info, e);
    } else if info.disconnected {
      if info.sid in reg.people {
        Withdrawals(info.sid, reg.people[info.sid].publications.Keys, reg.tracks, e);
      }
    } else if info.sid in reg.people {
      var q, q' := reg.people[info.sid], Refresh(reg.people[info.sid], info);
      ValueInLog(info.sid, q.info, q'.info, e);
      MutesOfChange(info.sid, q.publications, q'.publications, p, t, m);
      Withdrawals(info.sid, q.publications.Keys - q'.publications.Keys, reg.tracks, e);
    } else {
      MutesOfChange(info.sid, map[], Refresh(Nobody, info).publications, p, t, m);
    }
  }

  lemma MuteOfEntry(reg: Registry, info: ParticipantInfo, p: string, t: string)
    requires Publishes(reg.people, p, t) && Publishes(ApplyOne(reg, info, true).reg.people, p, t)
    ensures var r := ApplyOne(reg, info, true);
            Told(r.log, MuteOf(p, t), MutedAs(reg.people, p, t)) == MutedAs(r.reg.people, p, t)
  {
    var r := ApplyOne(reg, info, true);
    var old_, now := MutedAs(reg.people, p, t), MutedAs(r.reg.people, p, t);
    forall x | x in r.log && MuteOf(p, t)(x).Some? ensures old_ != now && MuteOf(p, t)(x).value == now {
      MuteInLog(reg, info, p, t, x.muted);
    }
    if old_ != now {
      MuteInLog(reg, info, p, t, now);
      ToldAgree(r.log, MuteOf(p, t), old_, now, MuteChanged(p, t, now));
    } else {
      ToldNothing(r.log, MuteOf(p, t), old_);
    }
  }

  /** Folding the mute events of a batch gives the mute state of every publication that stays. */
  lemma {:induction false} MutesReplay(reg: Registry, infos: seq<ParticipantInfo>, p: string, t: string)
    requires forall k :: 0 <= k <= |infos| ==> PublishesAt(reg, infos, p, t, k)
    requires Publishes(reg.people, p, t) && Publishes(ApplyAll(reg, infos, true).reg.people, p, t)
    ensures var r := ApplyAll(reg, infos, true);
            Told(r.log, MuteOf(p, t), MutedAs(reg.people, p, t)) == MutedAs(r.reg.people, p, t)
  {
    if infos != [] {
      var front, last := infos[..|infos| - 1], infos[|infos| - 1];
      var before := ApplyAll(reg, front, true);
      forall k | 0 <= k <= |front| ensures PublishesAt(reg, front, p, t, k) {
        assert front[..k] == infos[..k] && PublishesAt(reg, infos, p, t, k);
      }
      AtIsPrefix(reg, infos, true, p, |front|);
      assert PublishesAt(reg, infos, p, t, |front|);
      MutesReplay(reg, front, p, t);
      MuteOfEntry(before.reg, last, p, t);
      ToldConcat(before.log, ApplyOne(before.reg, last, true).log, MuteOf(p, t), MutedAs(reg.people, p, t));
    }
  }

  /** As the listener hears it: the batch by rank, then the media tracks that became ready. */
  lemma ValuesAreHeard(reg: Registry, infos: seq<ParticipantInfo>, p: string, t: string, name: string, muted: bool)
    ensures var heard, log := ApplyUpdates(reg, infos, true).log, ApplyAll(reg, infos, true).log;
            && Told(heard, NameOf(p), name) == Told(log, NameOf(p), name)
            && Told(heard, MuteOf(p, t), muted) == Told(log, MuteOf(p, t), muted)
  {
    var batch := ApplyAll(reg, infos, true);
    ToldOrdered(batch.log, 10, 6, NameOf(p), name);
    ToldOrdered(batch.log, 10, 2, MuteOf(p, t), muted);
    var ready := Attach(batch.reg).log;
    OnlySubscribed(batch.reg.(pending := batch.reg.pending - Ready(batch.reg)), InOrder(Ready(batch.reg)), batch.reg.pending);
    ToldConcat(Ordered(batch.log, 10), ready, NameOf(p), name);
    ToldConcat(Ordered(batch.log, 10), ready, MuteOf(p, t), muted);
    ToldNothing(ready, NameOf(p), Told(Ordered(batch.log, 10), NameOf(p), name));
    ToldNothing(ready, MuteOf(p, t), Told(Ordered(batch.log, 10), MuteOf(p, t), muted));
  }

  lemma {:induction false} OnlySubscribed(reg: Registry, ts: seq<string>, kinds: map<string, MediaKind>)
    requires forall t :: t in ts ==> t in kinds
    ensures forall e :: e in MediaTracks(reg, ts, kinds).log ==> e.Subscribed?
  {
    if ts != [] {
      OnlySubscribed(reg, ts[..|ts| - 1], kinds);
    }
  }
}
