/** What an update, a join response and a media event must lead to, said of the infos themselves. */
module RegistryAnswers {
  import opened Ordering
  import opened Registry
  import opened RegistryFold
  import opened RegistryReplay
  import opened RegistryInvariant

  /** An info about someone else than the local participant. */
  predicate Remote(local: ParticipantInfo, info: ParticipantInfo) {
    info.sid != "" && info.sid != local.sid && (info.identity == "" || info.identity != local.identity)
  }

  /** The info with the larger version, the new one on a tie. */
  function Newer(old_: ParticipantInfo, info: ParticipantInfo): ParticipantInfo {
    if old_.version > info.version then old_ else info
  }

  /** Sid t is among the tracks of an info. */
  predicate Lists(info: ParticipantInfo, t: string) { exists i :: 0 <= i < |info.tracks| && info.tracks[i].sid == t }

  // ----- One info -----

  lemma MeetAnswers(o: One, info: ParticipantInfo)
    requires Remote(o.local.info, info) && (o.person.Some? ==> SettledAs(o.person.value, info.sid))
    ensures var m := Meet(o, info.sid, info);
            && m.local == o.local && (m.person.Some? <==> !info.disconnected)
            && (m.person.Some? ==> m.person.value.info == if o.person.Some? then Newer(o.person.value.info, info) else info)
  {
  }

  lemma TracksOfSettled(p: Person, id: string, t: string)
    requires SettledAs(p, id)
    ensures t in p.publications <==> t != "" && Lists(p.info, t)
  {
    ListedKeys(p.info.tracks, t);
  }

  /** After an info about a remote participant, that participant is there unless it left, with the newer info and its tracks. */
  lemma UpdateAnswers(reg: Registry, info: ParticipantInfo, emit: bool)
    requires Settled(reg.people) && Remote(reg.local.info, info)
    ensures var r := ApplyOne(reg, info, emit).reg;
            && (info.sid in r.people <==> !info.disconnected)
            && (!info.disconnected ==>
                  && r.people[info.sid].info == (if info.sid in reg.people then Newer(reg.people[info.sid].info, info) else info)
                  && forall t :: t in r.people[info.sid].publications <==> t != "" && Lists(r.people[info.sid].info, t))
            && r.local == reg.local
  {
    var r := ApplyOne(reg, info, emit).reg;
    OneEntry(reg, info, emit, info.sid);
    assert info.sid in reg.people ==> SettledAs(reg.people[info.sid], info.sid);
    MeetAnswers(Focus(reg, info.sid), info);
    EntrySettles(reg, info, emit);
    if !info.disconnected {
      forall t ensures t in r.people[info.sid].publications <==> t != "" && Lists(r.people[info.sid].info, t) {
        TracksOfSettled(r.people[info.sid], info.sid, t);
      }
    }
  }

  /** Nobody else is touched. */
  lemma UpdateTouchesOne(reg: Registry, info: ParticipantInfo, emit: bool, id: string)
    requires id != info.sid
    ensures Present(ApplyOne(reg, info, emit).reg.people, id) == Present(reg.people, id)
  {
    OneEntry(reg, info, emit, id);
  }

  /** An info about the local participant touches nobody else. */
  lemma LocalUpdateAnswers(reg: Registry, info: ParticipantInfo, emit: bool)
    requires info.sid != "" && !Remote(reg.local.info, info)
    ensures var r := ApplyOne(reg, info, emit).reg;
            && r.people == reg.people && r.tracks == reg.tracks && r.pending == reg.pending
            && r.local.info == (if reg.local.info.sid == info.sid then Newer(reg.local.info, info) else info)
  {
  }

  /** An info without a sid changes nothing. */
  lemma NamelessIsIgnored(reg: Registry, info: ParticipantInfo, emit: bool)
    requires info.sid == ""
    ensures ApplyOne(reg, info, emit) == Effect(reg, [])
  {
  }

  // ----- A batch -----

  /** Info k is about `id`, as a remote participant. */
  predicate About(reg: Registry, infos: seq<ParticipantInfo>, id: string, k: nat)
    requires k < |infos|
  {
    infos[k].sid == id && Remote(MeetAll(Focus(reg, id), id, infos[..k]).local.info, infos[k])
  }

  lemma NextAt(reg: Registry, infos: seq<ParticipantInfo>, id: string, k: nat)
    requires k < |infos| && HereAt(reg, infos, id, k) && SettledAs(At(reg, infos, id, k).value, id) && HereAt(reg, infos, id, k + 1)
    ensures var was, now := At(reg, infos, id, k).value, At(reg, infos, id, k + 1).value;
            now.info == (if About(reg, infos, id, k) then Newer(was.info, infos[k]) else was.info) && SettledAs(now, id)
  {
    assert infos[..k + 1][..k] == infos[..k];
    MeetSettles(MeetAll(Focus(reg, id), id, infos[..k]), id, infos[k]);
  }

  /**
    * While a participant stays, the version kept of it never decreases: after a batch it is the largest of
    * the one known and all those received, and its info is one of them.
    */
  lemma {:induction false} VersionIsLargest(reg: Registry, infos: seq<ParticipantInfo>, id: string, n: nat)
    requires Settled(reg.people) && n <= |infos| && forall k :: 0 <= k <= n ==> HereAt(reg, infos, id, k)
    requires HereAt(reg, infos, id, 0) && HereAt(reg, infos, id, n)
    ensures SettledAs(At(reg, infos, id, n).value, id)
    ensures var first, last := At(reg, infos, id, 0).value.info, At(reg, infos, id, n).value.info;
            && last.version >= first.version
            && (forall k :: 0 <= k < n && About(reg, infos, id, k) ==> last.version >= infos[k].version)
            && (last == first || exists k :: 0 <= k < n && About(reg, infos, id, k) && last == infos[k])
    decreases n
  {
    assert infos[..0] == [];
    if n > 0 {
      assert HereAt(reg, infos, id, n - 1) && HereAt(reg, infos, id, n);
      VersionIsLargest(reg, infos, id, n - 1);
      NextAt(reg, infos, id, n - 1);
    }
  }

  // ----- A reconnection -----

  /** Info i is the last one about `id`. */
  predicate LastAbout(infos: seq<ParticipantInfo>, id: string, i: nat) {
    i < |infos| && infos[i].sid == id && forall j :: i < j < |infos| ==> infos[j].sid != id
  }

  predicate Named(infos: seq<ParticipantInfo>, id: string) { exists i :: 0 <= i < |infos| && infos[i].sid == id }

  predicate AllRemote(local: ParticipantInfo, infos: seq<ParticipantInfo>) {
    forall i :: 0 <= i < |infos| ==> infos[i].sid == "" || Remote(local, infos[i])
  }

  /** Who is there after infos about remote participants: the last word on each counts. */
  lemma {:induction false} LastWordCounts(o: One, id: string, infos: seq<ParticipantInfo>)
    requires id != "" && AllRemote(o.local.info, infos)
    ensures MeetAll(o, id, infos).local == o.local
    ensures !Named(infos, id) ==> MeetAll(o, id, infos).person == o.person
    ensures forall i: nat :: LastAbout(infos, id, i) ==> (MeetAll(o, id, infos).person.Some? <==> !infos[i].disconnected)
  {
    if infos != [] {
      var front, last := infos[..|infos| - 1], infos[|infos| - 1];
      FrontIsRemote(o.local.info, infos);
      LastWordCounts(o, id, front);
      MeetRemote(MeetAll(o, id, front), id, last);
      if last.sid == id {
        forall i: nat | LastAbout(infos, id, i) ensures i == |infos| - 1 {
        }
      } else {
        FrontSaysIt(infos, id);
      }
    }
  }

  lemma FrontIsRemote(local: ParticipantInfo, infos: seq<ParticipantInfo>)
    requires infos != [] && AllRemote(local, infos)
    ensures AllRemote(local, infos[..|infos| - 1])
    ensures infos[|infos| - 1].sid == "" || Remote(local, infos[|infos| - 1])
  {
  }

  lemma MeetRemote(o: One, id: string, info: ParticipantInfo)
    requires id != "" && (info.sid == "" || Remote(o.local.info, info))
    ensures Meet(o, id, info).local == o.local
    ensures info.sid != id ==> Meet(o, id, info).person == o.person
    ensures info.sid == id ==> (Meet(o, id, info).person.Some? <==> !info.disconnected)
  {
  }

  /** If the last info is about another sid, the others say the same about this one. */
  lemma FrontSaysIt(infos: seq<ParticipantInfo>, id: string)
    requires infos != [] && infos[|infos| - 1].sid != id
    ensures Named(infos[..|infos| - 1], id) ==> Named(infos, id)
    ensures forall i: nat :: LastAbout(infos, id, i) ==> LastAbout(infos[..|infos| - 1], id, i)
  {
    var front := infos[..|infos| - 1];
    if Named(front, id) {
      var i :| 0 <= i < |front| && front[i].sid == id;
      assert infos[i].sid == id;
    }
  }

  lemma {:induction false} NamedHasLast(infos: seq<ParticipantInfo>, id: string) returns (i: nat)
    requires Named(infos, id)
    ensures LastAbout(infos, id, i)
  {
    var front := infos[..|infos| - 1];
    if infos[|infos| - 1].sid == id {
      i := |infos| - 1;
    } else {
      var k :| 0 <= k < |infos| && infos[k].sid == id;
      assert front[k].sid == id;
      i := NamedHasLast(front, id);
      assert forall j :: 0 <= j < |front| ==> front[j] == infos[j];
    }
  }

  /**
    * After a reconnection whose response names only remote participants, those are there whom it names
    * and whose last info is not a departure; nothing that was attached or waiting before is.
    */
  lemma RejoinAnswers(reg: Registry, join: Join, id: string)
    requires Settled(reg.people) && id != "" && AllRemote(Rejoining(reg, join).local.info, join.others)
    ensures var r := ApplyJoin(reg, join, true).reg;
            && r.tracks == map[] && r.pending == map[]
            && (id in r.people <==> exists i: nat :: LastAbout(join.others, id, i) && !join.others[i].disconnected)
  {
    var kept := Rejoining(reg, join);
    var batch := ApplyAll(kept, join.others, false).reg;
    assert ApplyJoin(reg, join, true) == ApplyUpdates(kept, join.others, false);
    BatchOnlyDetaches(kept, join.others, false);
    AttachKeeps(batch);
    assert Attach(batch).reg.tracks.Keys == {} && Attach(batch).reg.pending.Keys == {};
    FoldIsBatch(kept, join.others, false, id);
    LastWordCounts(Focus(kept, id), id, join.others);
    if Named(join.others, id) {
      var i := NamedHasLast(join.others, id);
    } else {
      assert id !in kept.people;
      assert forall i: nat :: !LastAbout(join.others, id, i);
    }
  }

  /**
    * After a first join whose response names only remote participants, those it names are there unless
    * their last info is a departure, and those it does not name are there if they were.
    */
  lemma FirstJoinAnswers(reg: Registry, join: Join, id: string)
    requires id != "" && AllRemote(Joining(reg, join).local.info, join.others)
    ensures var r := ApplyJoin(reg, join, false).reg;
            && (Named(join.others, id) ==> (id in r.people <==> exists i: nat :: LastAbout(join.others, id, i) && !join.others[i].disconnected))
            && (!Named(join.others, id) ==> (id in r.people <==> id in reg.people))
  {
    var kept := Joining(reg, join);
    assert ApplyJoin(reg, join, false) == ApplyUpdates(kept, join.others, false);
    AttachKeeps(ApplyAll(kept, join.others, false).reg);
    FoldIsBatch(kept, join.others, false, id);
    LastWordCounts(Focus(kept, id), id, join.others);
    if Named(join.others, id) {
      var i := NamedHasLast(join.others, id);
    }
  }

  /** The local participant of a join response is the one kept, unless the same one is known in a newer version. */
  lemma JoinNamesLocal(reg: Registry, join: Join, reconnecting: bool)
    requires AllRemote((if reconnecting then Rejoining(reg, join) else Joining(reg, join)).local.info, join.others)
    ensures var local, r := reg.local.info, ApplyJoin(reg, join, reconnecting).reg.local.info;
            && (join.local.None? ==> r == local)
            && (join.local.Some? && local.sid == join.local.value.sid && local.sid != "" ==> r == Newer(local, join.local.value))
            && (join.local.Some? && (local.sid != join.local.value.sid || local.sid == "") ==> r == join.local.value)
  {
    var kept := if reconnecting then Rejoining(reg, join) else Joining(reg, join);
    assert ApplyJoin(reg, join, reconnecting) == ApplyUpdates(kept, join.others, false);
    LocalStays(kept, join.others);
    AttachLocal(ApplyAll(kept, join.others, false).reg);
  }

  lemma LocalStays(reg: Registry, infos: seq<ParticipantInfo>)
    requires AllRemote(reg.local.info, infos)
    ensures ApplyAll(reg, infos, false).reg.local == reg.local
  {
    FoldIsBatch(reg, infos, false, "x");
    LastWordCounts(Focus(reg, "x"), "x", infos);
  }

  lemma {:induction false} MediaTracksLocal(reg: Registry, ts: seq<string>, kinds: map<string, MediaKind>)
    requires forall t :: t in ts ==> t in kinds
    ensures MediaTracks(reg, ts, kinds).reg.local == reg.local
  {
    if ts != [] {
      MediaTracksLocal(reg, ts[..|ts| - 1], kinds);
    }
  }

  lemma AttachLocal(reg: Registry)
    ensures Attach(reg).reg.local == reg.local
  {
    MediaTracksLocal(reg.(pending := reg.pending - Ready(reg)), InOrder(Ready(reg)), reg.pending);
  }

  // ----- Media tracks -----

  /** A media track whose participant is known is attached and reported at once, otherwise it waits. */
  lemma MediaAnswers(reg: Registry, t: string, kind: MediaKind, id: string)
    requires kind != OtherKind && t !in reg.tracks
    ensures !Owned(reg.people, t) ==> MediaTrack(reg, t, kind) == Effect(reg.(pending := reg.pending[t := kind]), [])
    ensures IsSmallest(id, set p | p in reg.people && Lists(reg.people[p].info, t)) ==>
              MediaTrack(reg, t, kind) == Effect(reg.(tracks := reg.tracks[t := kind]), [Subscribed(id, t)])
  {
    var owners := set p | p in reg.people && Lists(reg.people[p].info, t);
    assert owners == set p | p in reg.people && reg.people[p].HasTrackSid(t);
    if IsSmallest(id, owners) {
      assert reg.people[id].HasTrackSid(t);
      LessIsStrict(id, OwnerOf(reg.people, t));
    }
  }

  lemma {:induction false} ReadyIsAttached(reg: Registry, ts: seq<string>, kinds: map<string, MediaKind>, t: string)
    requires forall x :: x in ts ==> x in kinds && Owned(reg.people, x)
    requires t in ts && t !in reg.tracks && kinds[t] != OtherKind
    ensures var r := MediaTracks(reg, ts, kinds);
            t in r.reg.tracks && r.reg.tracks[t] == kinds[t] && Subscribed(OwnerOf(reg.people, t), t) in r.log
  {
    var front, last := ts[..|ts| - 1], ts[|ts| - 1];
    ReadyTracks(reg, front, kinds);
    if t in front {
      ReadyIsAttached(reg, front, kinds, t);
    } else {
      assert t == last;
    }
  }

  /** A waiting track is attached and reported when an info comes that lists it. */
  lemma WaitingIsAttached(reg: Registry, info: ParticipantInfo, t: string)
    requires Inv(reg) && Remote(reg.local.info, info) && !info.disconnected && Lists(info, t)
    requires info.sid in reg.people ==> info.version >= reg.people[info.sid].info.version
    requires t in reg.pending && t !in reg.tracks && reg.pending[t] != OtherKind
    ensures var r := Step(reg, Update([info]));
            t in r.reg.tracks && r.reg.tracks[t] == reg.pending[t] && t !in r.reg.pending && Subscribed(info.sid, t) in r.log
  {
    var batch := ApplyOne(reg, info, true).reg;
    WaitsThrough(reg, info, t);
    assert [info][..0] == [] && ApplyAll(reg, [], true) == Effect(reg, []);
    assert ApplyAll(reg, [info], true).reg == batch;
    var waiting := batch.(pending := batch.pending - Ready(batch));
    assert t in Ready(batch) && t in InOrder(Ready(batch));
    ReadyIsAttached(waiting, InOrder(Ready(batch)), batch.pending, t);
    AttachKeeps(batch);
  }

  /** Before the ready tracks are looked for, the track still waits and the new participant is its only owner. */
  lemma WaitsThrough(reg: Registry, info: ParticipantInfo, t: string)
    requires Inv(reg) && Remote(reg.local.info, info) && !info.disconnected && Lists(info, t)
    requires info.sid in reg.people ==> info.version >= reg.people[info.sid].info.version
    requires t in reg.pending && t !in reg.tracks
    ensures var batch := ApplyOne(reg, info, true).reg;
            && t in batch.pending && batch.pending[t] == reg.pending[t] && t !in batch.tracks
            && Owned(batch.people, t) && OwnerOf(batch.people, t) == info.sid
  {
    var batch := ApplyOne(reg, info, true).reg;
    UpdateAnswers(reg, info, true);
    assert batch.people[info.sid].info == info && batch.people[info.sid].HasTrackSid(t);
    assert !Owned(reg.people, t);
    forall id | id in batch.people && batch.people[id].HasTrackSid(t) ensures id == info.sid {
      if id != info.sid {
        UpdateTouchesOne(reg, info, true, id);
      }
    }
    if info.sid in reg.people {
      TracksOfSettled(reg.people[info.sid], info.sid, t);
      assert !reg.people[info.sid].HasTrackSid(t);
    }
  }

  /** A participant that leaves takes its tracks along, and all of it is reported. */
  lemma DepartureAnswers(reg: Registry, info: ParticipantInfo, t: string)
    requires Settled(reg.people) && Remote(reg.local.info, info) && info.disconnected && info.sid in reg.people
    requires t != "" && Lists(reg.people[info.sid].info, t)
    ensures var r := ApplyOne(reg, info, true);
            && info.sid !in r.reg.people && t !in r.reg.tracks && t !in r.reg.pending
            && Disconnected(info.sid) in r.log && Unpublished(info.sid, t) in r.log
            && (t in reg.tracks ==> Unsubscribed(info.sid, t) in r.log)
  {
    TracksOfSettled(reg.people[info.sid], info.sid, t);
    var gone := reg.people[info.sid].publications.Keys;
    Withdrawals(info.sid, gone, reg.tracks, Unpublished(info.sid, t));
    Withdrawals(info.sid, gone, reg.tracks, Unsubscribed(info.sid, t));
  }

  /** A mute change of a published track is kept and reported; one that changes nothing is not. */
  lemma MuteAnswers(reg: Registry, t: string, muted: bool, id: string)
    requires IsSmallest(id, set p | p in reg.people && Lists(reg.people[p].info, t)) && t in reg.people[id].publications
    ensures var r := MuteTrack(reg, t, muted);
            && id in r.reg.people && t in r.reg.people[id].publications && r.reg.people[id].publications[t].muted == muted
            && r.log == if reg.people[id].publications[t].muted == muted then [] else [MuteChanged(id, t, muted)]
  {
    var owners := set p | p in reg.people && Lists(reg.people[p].info, t);
    assert owners == set p | p in reg.people && reg.people[p].HasTrackSid(t);
    assert reg.people[id].HasTrackSid(t);
    LessIsStrict(id, OwnerOf(reg.people, t));
  }
}
