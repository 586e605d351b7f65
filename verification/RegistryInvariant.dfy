/** What every run of the registry keeps, and exactly which steps break it. */
module RegistryInvariant {
  import opened Wire
  import opened Ordering
  import opened Registry
  import opened RegistryFold

  /** Participants are kept under their own sid, with the publications their last accepted info asks for. */
  ghost predicate Settled(people: map<string, Person>) {
    forall id :: id in people ==> SettledAs(people[id], id)
  }

  ghost predicate SettledAs(p: Person, id: string) {
    id != "" && p.info.sid == id && UpToMute(p.publications, Listed(p.info.tracks))
  }

  /** The same tracks; a mute change may have come after the info. */
  predicate UpToMute(a: map<string, TrackInfo>, b: map<string, TrackInfo>) {
    a.Keys == b.Keys && forall t :: t in a ==> a[t].(muted := false) == b[t].(muted := false)
  }

  /** Every attached track with a sid belongs to a participant. */
  ghost predicate TracksOwned(reg: Registry) {
    forall t :: t in reg.tracks && t != "" ==> Owned(reg.people, t)
  }

  /** So does an attached track without one. */
  ghost predicate EmptyOwned(reg: Registry) {
    "" in reg.tracks ==> Owned(reg.people, "")
  }

  /** Every waiting media track belongs to none. */
  ghost predicate PendingUnowned(reg: Registry) {
    forall t :: t in reg.pending ==> !Owned(reg.people, t)
  }

  ghost predicate Inv(reg: Registry) {
    Settled(reg.people) && TracksOwned(reg) && PendingUnowned(reg)
  }

  /** No track is both attached and waiting. */
  lemma AttachedOrWaiting(reg: Registry)
    requires Inv(reg)
    ensures forall t :: t in reg.tracks && t in reg.pending ==> t == ""
    ensures EmptyOwned(reg) ==> reg.tracks.Keys !! reg.pending.Keys
  {
  }

  lemma {:induction false} ListedKeys(tracks: seq<TrackInfo>, t: string)
    ensures t in Listed(tracks) <==> t != "" && exists i :: 0 <= i < |tracks| && tracks[i].sid == t
  {
    if tracks != [] {
      var before, last := tracks[..|tracks| - 1], tracks[|tracks| - 1];
      ListedKeys(before, t);
      assert forall i :: 0 <= i < |before| ==> before[i] == tracks[i];
    }
  }

  /** Publication keys are the non-empty track sids of the last accepted info. */
  lemma PublicationKeys(reg: Registry, id: string, t: string)
    requires Inv(reg) && id in reg.people
    ensures t in reg.people[id].publications <==> t != "" && reg.people[id].HasTrackSid(t)
  {
    ListedKeys(reg.people[id].info.tracks, t);
  }

  // ----- A batch, reported or silent -----

  lemma EntrySettles(reg: Registry, info: ParticipantInfo, emit: bool)
    requires Settled(reg.people)
    ensures Settled(ApplyOne(reg, info, emit).reg.people)
  {
    var people := ApplyOne(reg, info, emit).reg.people;
    forall id | id in people
      ensures SettledAs(people[id], id)
    {
      OneEntry(reg, info, emit, id);
      MeetSettles(Focus(reg, id), id, info);
    }
  }

  lemma MeetSettles(o: One, id: string, info: ParticipantInfo)
    requires o.person.Some? ==> SettledAs(o.person.value, id)
    ensures Meet(o, id, info).person.Some? ==> SettledAs(Meet(o, id, info).person.value, id)
  {
  }

  lemma {:induction false} BatchSettles(reg: Registry, infos: seq<ParticipantInfo>, emit: bool)
    requires Settled(reg.people)
    ensures Settled(ApplyAll(reg, infos, emit).reg.people)
  {
    if infos != [] {
      BatchSettles(reg, infos[..|infos| - 1], emit);
      EntrySettles(ApplyAll(reg, infos[..|infos| - 1], emit).reg, infos[|infos| - 1], emit);
    }
  }

  /** Tracks and waiting tracks only go, and a track without sid never does. */
  lemma {:induction false} BatchOnlyDetaches(reg: Registry, infos: seq<ParticipantInfo>, emit: bool)
    requires Settled(reg.people)
    ensures var r := ApplyAll(reg, infos, emit).reg;
            && r.tracks.Keys <= reg.tracks.Keys && r.pending.Keys <= reg.pending.Keys
            && ("" in reg.tracks ==> "" in r.tracks)
  {
    if infos != [] {
      BatchOnlyDetaches(reg, infos[..|infos| - 1], emit);
      BatchSettles(reg, infos[..|infos| - 1], emit);
      EntryOnlyDetaches(ApplyAll(reg, infos[..|infos| - 1], emit).reg, infos[|infos| - 1], emit);
    }
  }

  lemma EntryOnlyDetaches(reg: Registry, info: ParticipantInfo, emit: bool)
    requires Settled(reg.people)
    ensures var r := ApplyOne(reg, info, emit).reg;
            && r.tracks.Keys <= reg.tracks.Keys && r.pending.Keys <= reg.pending.Keys
            && ("" in reg.tracks ==> "" in r.tracks)
  {
    if info.sid in reg.people {
      ListedKeys(reg.people[info.sid].info.tracks, "");
    }
  }

  lemma StillOwned(people: map<string, Person>, people': map<string, Person>, id: string, t: string)
    requires Owned(people, t)
    requires forall k :: k != id && k in people ==> k in people' && people'[k] == people[k]
    requires id in people && people[id].HasTrackSid(t) ==> id in people' && people'[id].HasTrackSid(t)
    ensures Owned(people', t)
  {
    var k :| k in people && people[k].HasTrackSid(t);
    assert k in people' && people'[k].HasTrackSid(t);
  }

  /** A change under one sid keeps tracks owned if every track left attached there is still listed there. */
  lemma ChangeUnderOneSid(reg: Registry, r: Registry, id: string)
    requires TracksOwned(reg) && r.tracks.Keys <= reg.tracks.Keys
    requires forall k :: k != id && k in reg.people ==> k in r.people && r.people[k] == reg.people[k]
    requires forall t :: t in r.tracks && t != "" && id in reg.people && reg.people[id].HasTrackSid(t) ==>
                         id in r.people && r.people[id].HasTrackSid(t)
    ensures TracksOwned(r)
  {
    forall t | t in r.tracks && t != "" ensures Owned(r.people, t) {
      StillOwned(reg.people, r.people, id, t);
    }
  }

  lemma EntryKeepsOwners(reg: Registry, info: ParticipantInfo)
    requires Settled(reg.people) && TracksOwned(reg)
    ensures TracksOwned(ApplyOne(reg, info, true).reg)
  {
    var id, r := info.sid, ApplyOne(reg, info, true).reg;
    if id == "" || IsLocal(reg, info) || (info.disconnected && id !in reg.people) {
      assert r.people == reg.people && r.tracks == reg.tracks;
    } else if id !in reg.people {
      ChangeUnderOneSid(reg, r, id);
    } else {
      var p := reg.people[id];
      var q := Refresh(p, info);
      forall t | t in r.tracks && t != "" && p.HasTrackSid(t) ensures id in r.people && r.people[id].HasTrackSid(t) {
        ListedKeys(p.info.tracks, t);
        ListedKeys(q.info.tracks, t);
      }
      ChangeUnderOneSid(reg, r, id);
    }
  }

  /** A batch that is reported detaches the tracks it withdraws. */
  lemma {:induction false} ReportedBatchKeepsOwners(reg: Registry, infos: seq<ParticipantInfo>)
    requires Settled(reg.people) && TracksOwned(reg)
    ensures TracksOwned(ApplyAll(reg, infos, true).reg)
  {
    if infos != [] {
      ReportedBatchKeepsOwners(reg, infos[..|infos| - 1]);
      BatchSettles(reg, infos[..|infos| - 1], true);
      EntryKeepsOwners(ApplyAll(reg, infos[..|infos| - 1], true).reg, infos[|infos| - 1]);
    }
  }

  /** Info k lets a publisher of t leave, which erases the track even in a silent batch. */
  predicate ErasesAt(reg: Registry, infos: seq<ParticipantInfo>, id: string, t: string, k: nat)
    requires k < |infos|
  {
    PublishesAt(reg, infos, id, t, k) && LeavesAt(reg, infos, id, k)
  }

  ghost predicate Erases(reg: Registry, infos: seq<ParticipantInfo>, t: string) {
    exists id, k :: 0 <= k < |infos| && ErasesAt(reg, infos, id, t, k)
  }

  /** Some participant lists t when all infos have been taken. */
  ghost predicate ListedAfter(reg: Registry, infos: seq<ParticipantInfo>, t: string) {
    exists id :: ListsAt(reg, infos, id, t, |infos|)
  }

  lemma OwnedIffListed(reg: Registry, infos: seq<ParticipantInfo>, emit: bool, t: string)
    ensures Owned(ApplyAll(reg, infos, emit).reg.people, t) <==> ListedAfter(reg, infos, t)
  {
    var people := ApplyAll(reg, infos, emit).reg.people;
    forall id ensures ListsAt(reg, infos, id, t, |infos|) <==> id in people && people[id].HasTrackSid(t) {
      AtIsPrefix(reg, infos, emit, id, |infos|);
    }
  }

  lemma ErasesOfFront(reg: Registry, infos: seq<ParticipantInfo>, t: string)
    requires infos != []
    ensures var n := |infos| - 1;
            Erases(reg, infos, t) <==> Erases(reg, infos[..n], t) || exists id :: ErasesAt(reg, infos, id, t, n)
  {
    var front, n := infos[..|infos| - 1], |infos| - 1;
    forall id, k: nat | k < n ensures ErasesAt(reg, infos, id, t, k) <==> ErasesAt(reg, front, id, t, k) {
      AtOfFront(reg, infos, id, k);
      AtOfFront(reg, infos, id, k + 1);
    }
    if Erases(reg, front, t) {
      var id, k :| 0 <= k < n && ErasesAt(reg, front, id, t, k);
      assert ErasesAt(reg, infos, id, t, k);
    }
    if Erases(reg, infos, t) {
      var id, k :| 0 <= k <= n && ErasesAt(reg, infos, id, t, k);
      assert k < n ==> ErasesAt(reg, front, id, t, k);
    }
  }

  /** One silent info detaches exactly the publications of the participant it lets leave. */
  lemma SilentEntryErases(reg: Registry, info: ParticipantInfo, t: string)
    ensures var r := ApplyOne(reg, info, false).reg;
            t in r.tracks <==>
            t in reg.tracks && !exists id :: id in reg.people && t in reg.people[id].publications && id !in r.people
  {
    var r := ApplyOne(reg, info, false).reg;
    assert forall id :: id in reg.people && id !in r.people ==> id == info.sid;
    if info.sid != "" && !IsLocal(reg, info) && info.disconnected && info.sid in reg.people {
      assert info.sid !in r.people;
    }
  }

  /** The last info, in terms of the fold. */
  lemma LastErases(reg: Registry, infos: seq<ParticipantInfo>, t: string)
    requires infos != []
    ensures var n := |infos| - 1;
            var before := ApplyAll(reg, infos[..n], false).reg;
            t in ApplyOne(before, infos[n], false).reg.tracks <==>
            t in before.tracks && !exists id :: ErasesAt(reg, infos, id, t, n)
  {
    var n := |infos| - 1;
    var before := ApplyAll(reg, infos[..n], false).reg;
    var after := ApplyOne(before, infos[n], false).reg;
    assert ApplyAll(reg, infos, false).reg == after;
    SilentEntryErases(before, infos[n], t);
    forall id ensures ErasesAt(reg, infos, id, t, n) <==>
                      id in before.people && t in before.people[id].publications && id !in after.people
    {
      AtIsPrefix(reg, infos, false, id, n);
      AtIsPrefix(reg, infos, false, id, |infos|);
    }
  }

  lemma {:induction false} SilentBatchErases(reg: Registry, infos: seq<ParticipantInfo>, t: string)
    ensures t in ApplyAll(reg, infos, false).reg.tracks <==> t in reg.tracks && !Erases(reg, infos, t)
  {
    if infos != [] {
      SilentBatchErases(reg, infos[..|infos| - 1], t);
      ErasesOfFront(reg, infos, t);
      LastErases(reg, infos, t);
    }
  }

  // ----- The media tracks that became ready -----

  /** Media tracks that belong to someone are attached or dropped, never put back to wait. */
  lemma {:induction false} ReadyTracks(reg: Registry, ts: seq<string>, kinds: map<string, MediaKind>)
    requires forall t :: t in ts ==> t in kinds && Owned(reg.people, t)
    ensures var r := MediaTracks(reg, ts, kinds).reg;
            && r.people == reg.people && r.pending == reg.pending && reg.tracks.Keys <= r.tracks.Keys
            && forall t :: t in r.tracks && t !in reg.tracks ==> t in ts
  {
    if ts != [] {
      ReadyTracks(reg, ts[..|ts| - 1], kinds);
    }
  }

  lemma AttachKeeps(reg: Registry)
    ensures var r := Attach(reg).reg;
            && r.people == reg.people && PendingUnowned(r) && r.pending.Keys <= reg.pending.Keys
            && reg.tracks.Keys <= r.tracks.Keys
            && forall t :: t in r.tracks && t !in reg.tracks ==> t in reg.pending && Owned(r.people, t)
  {
    ReadyTracks(reg.(pending := reg.pending - Ready(reg)), InOrder(Ready(reg)), reg.pending);
  }

  // ----- Which steps keep it -----

  /** The registry that the other participants of a first join response meet. */
  function Joining(reg: Registry, join: Join): Registry {
    reg.(local := if join.local.None? then reg.local else Refresh(reg.local, join.local.value))
  }

  /** Each track attached before is erased by the batch or listed after it. */
  ghost predicate Accounts(reg: Registry, infos: seq<ParticipantInfo>) {
    forall t :: t in reg.tracks && t != "" ==> Erases(reg, infos, t) || ListedAfter(reg, infos, t)
  }

  /** The condition on a step: only a first join response can break the invariant. */
  ghost predicate KeepsOwners(reg: Registry, op: Op) {
    op.JoinResponse? && !op.reconnecting ==> Accounts(Joining(reg, op.join), op.join.others)
  }

  /** The condition for the track without sid: a batch must leave someone who lists it. */
  ghost predicate KeepsEmpty(reg: Registry, op: Op) {
    match op
    case Update(infos) => "" in reg.tracks ==> ListedAfter(reg, infos, "")
    case JoinResponse(join, reconnecting) =>
      !reconnecting && "" in reg.tracks ==> ListedAfter(Joining(reg, join), join.others, "")
    case _ => true
  }

  /** A silent batch over a settled registry, whatever is attached. */
  lemma SilentUpdateIsExact(reg: Registry, infos: seq<ParticipantInfo>)
    requires Settled(reg.people)
    ensures Inv(ApplyUpdates(reg, infos, false).reg) <==> Accounts(reg, infos)
  {
    var batch := ApplyAll(reg, infos, false).reg;
    var r := Attach(batch).reg;
    BatchSettles(reg, infos, false);
    AttachKeeps(batch);
    forall t ensures t in batch.tracks <==> t in reg.tracks && !Erases(reg, infos, t) {
      SilentBatchErases(reg, infos, t);
    }
    forall t ensures Owned(batch.people, t) <==> ListedAfter(reg, infos, t) {
      OwnedIffListed(reg, infos, false, t);
    }
    assert ApplyUpdates(reg, infos, false).reg == r;
    assert TracksOwned(r) <==> forall t :: t in batch.tracks && t != "" ==> Owned(batch.people, t);
  }

  lemma ReportedUpdateKeeps(reg: Registry, infos: seq<ParticipantInfo>)
    requires Settled(reg.people) && TracksOwned(reg)
    ensures Inv(ApplyUpdates(reg, infos, true).reg)
  {
    BatchSettles(reg, infos, true);
    ReportedBatchKeepsOwners(reg, infos);
    AttachKeeps(ApplyAll(reg, infos, true).reg);
  }

  lemma UpdateOfEmpty(reg: Registry, infos: seq<ParticipantInfo>, emit: bool)
    requires Settled(reg.people)
    ensures EmptyOwned(ApplyUpdates(reg, infos, emit).reg) <==> ("" in reg.tracks ==> ListedAfter(reg, infos, ""))
  {
    BatchOnlyDetaches(reg, infos, emit);
    AttachKeeps(ApplyAll(reg, infos, emit).reg);
    OwnedIffListed(reg, infos, emit, "");
  }

  /** The registry that the batch of a reconnection meets: nothing attached, only participants still named. */
  function Rejoining(reg: Registry, join: Join): Registry {
    var local := if join.local.None? || Stale(reg.local, join.local.value) then reg.local else reg.local.(info := join.local.value);
    Registry(local, map id | id in reg.people && (exists i :: 0 <= i < |join.others| && join.others[i].sid == id) :: reg.people[id], map[], map[])
  }

  lemma RejoinKeeps(reg: Registry, join: Join)
    requires Settled(reg.people)
    ensures Inv(ApplyJoin(reg, join, true).reg) && EmptyOwned(ApplyJoin(reg, join, true).reg)
  {
    var kept := Rejoining(reg, join);
    SilentUpdateIsExact(kept, join.others);
    UpdateOfEmpty(kept, join.others, false);
    assert ApplyJoin(reg, join, true) == ApplyUpdates(kept, join.others, false);
  }

  lemma OwnedByInfo(people: map<string, Person>, people': map<string, Person>, t: string)
    requires people.Keys == people'.Keys && forall id :: id in people ==> people'[id].info == people[id].info
    ensures Owned(people, t) <==> Owned(people', t)
  {
    assert forall id :: id in people ==> (people'[id].HasTrackSid(t) <==> people[id].HasTrackSid(t));
  }

  lemma MutedIsSettled(p: Person, id: string, t: string, muted: bool)
    requires SettledAs(p, id) && t in p.publications
    ensures SettledAs(p.(publications := p.publications[t := p.publications[t].(muted := muted)]), id)
  {
  }

  /** A mute change leaves everything but one publication's mute state as it was. */
  lemma MuteKeeps(reg: Registry, t: string, muted: bool)
    requires Settled(reg.people)
    ensures var r := MuteTrack(reg, t, muted).reg;
            && Settled(r.people) && r.tracks == reg.tracks && r.pending == reg.pending
            && forall x :: Owned(r.people, x) <==> Owned(reg.people, x)
  {
    var r := MuteTrack(reg, t, muted).reg;
    if MuteTrack(reg, t, muted).log != [] {
      var id := OwnerOf(reg.people, t);
      var p := reg.people[id];
      var q := p.(publications := p.publications[t := p.publications[t].(muted := muted)]);
      MutedIsSettled(p, id, t, muted);
      assert r.people == reg.people[id := q] && q.info == p.info;
      forall x ensures Owned(r.people, x) <==> Owned(reg.people, x) {
        OwnedByInfo(reg.people, r.people, x);
      }
    }
  }

  lemma MediaKeeps(reg: Registry, t: string, kind: MediaKind)
    requires Inv(reg)
    ensures var r := MediaTrack(reg, t, kind).reg; Inv(r) && (EmptyOwned(reg) ==> EmptyOwned(r))
    ensures var r := MediaTrackRemoved(reg, t).reg; Inv(r) && (EmptyOwned(reg) ==> EmptyOwned(r))
  {
  }

  /** Exactly which steps keep the invariant, and its part for the track without sid. */
  lemma StepIsExact(reg: Registry, op: Op)
    requires Inv(reg)
    ensures Inv(Step(reg, op).reg) <==> KeepsOwners(reg, op)
    ensures EmptyOwned(reg) ==> (EmptyOwned(Step(reg, op).reg) <==> KeepsEmpty(reg, op))
  {
    match op
    case Update(infos) =>
      ReportedUpdateKeeps(reg, infos);
      UpdateOfEmpty(reg, infos, true);
    case JoinResponse(join, reconnecting) =>
      if reconnecting {
        RejoinKeeps(reg, join);
      } else {
        SilentUpdateIsExact(Joining(reg, join), join.others);
        UpdateOfEmpty(Joining(reg, join), join.others, false);
        assert ApplyJoin(reg, join, false) == ApplyUpdates(Joining(reg, join), join.others, false);
      }
    case Media(t, kind) => MediaKeeps(reg, t, kind);
    case MediaGone(t) => MediaKeeps(reg, t, OtherKind);
    case Mute(t, muted) => MuteKeeps(reg, t, muted);
    case Disconnect =>
  }

  // ----- Runs -----

  function Empty(local: Person): Registry { Registry(local, map[], map[], map[]) }

  /** At every moment of a run from an empty registry. */
  ghost predicate AlwaysInv(local: Person, ops: seq<Op>) {
    Inv(After(Empty(local), ops)) && (ops != [] ==> AlwaysInv(local, ops[..|ops| - 1]))
  }

  ghost predicate AlwaysWhole(local: Person, ops: seq<Op>) {
    var reg := After(Empty(local), ops);
    Inv(reg) && EmptyOwned(reg) && (ops != [] ==> AlwaysWhole(local, ops[..|ops| - 1]))
  }

  ghost predicate AllKeepOwners(local: Person, ops: seq<Op>) {
    ops == [] ||
    var before, last := ops[..|ops| - 1], ops[|ops| - 1];
    AllKeepOwners(local, before) && KeepsOwners(After(Empty(local), before), last)
  }

  ghost predicate AllKeepEmpty(local: Person, ops: seq<Op>) {
    ops == [] ||
    var before, last := ops[..|ops| - 1], ops[|ops| - 1];
    AllKeepEmpty(local, before) && KeepsEmpty(After(Empty(local), before), last)
  }

  /**
    * The registry invariant holds throughout a run from an empty registry, each attached track with a sid
    * belonging to a known participant, each waiting media track to none, and each participant's
    * publications being those of its last accepted info, if and only if each first join response accounts
    * for the tracks it finds attached. Without exception for the empty sid it holds if and only if, besides,
    * each batch that finds a track without sid attached leaves someone who lists it.
    */
  lemma {:induction false} RegistryInvariant(local: Person, ops: seq<Op>)
    ensures AlwaysInv(local, ops) <==> AllKeepOwners(local, ops)
    ensures AlwaysWhole(local, ops) <==> AllKeepOwners(local, ops) && AllKeepEmpty(local, ops)
  {
    if ops != [] {
      var before, last := ops[..|ops| - 1], ops[|ops| - 1];
      RegistryInvariant(local, before);
      if AlwaysInv(local, before) {
        StepIsExact(After(Empty(local), before), last);
      }
    }
  }

  // ----- Tracks without sid -----

  lemma StepWithoutEmpty(reg: Registry, op: Op)
    requires Settled(reg.people) && "" !in reg.tracks && "" !in reg.pending && !(op.Media? && op.t == "")
    ensures "" !in Step(reg, op).reg.tracks && "" !in Step(reg, op).reg.pending
  {
    match op
    case Update(infos) =>
      BatchOnlyDetaches(reg, infos, true);
      AttachKeeps(ApplyAll(reg, infos, true).reg);
    case JoinResponse(join, reconnecting) =>
      var batch := if reconnecting then Rejoining(reg, join) else Joining(reg, join);
      BatchOnlyDetaches(batch, join.others, false);
      AttachKeeps(ApplyAll(batch, join.others, false).reg);
      assert ApplyJoin(reg, join, reconnecting) == ApplyUpdates(batch, join.others, false);
    case Media(t, kind) =>
    case MediaGone(t) =>
    case Mute(t, muted) => MuteKeeps(reg, t, muted);
    case Disconnect =>
  }

  lemma StepSettles(reg: Registry, op: Op)
    requires Settled(reg.people)
    ensures Settled(Step(reg, op).reg.people)
  {
    match op
    case Update(infos) =>
      BatchSettles(reg, infos, true);
      AttachKeeps(ApplyAll(reg, infos, true).reg);
    case JoinResponse(join, reconnecting) =>
      var batch := if reconnecting then Rejoining(reg, join) else Joining(reg, join);
      BatchSettles(batch, join.others, false);
      AttachKeeps(ApplyAll(batch, join.others, false).reg);
      assert ApplyJoin(reg, join, reconnecting) == ApplyUpdates(batch, join.others, false);
    case Media(t, kind) =>
    case MediaGone(t) =>
    case Mute(t, muted) => MuteKeeps(reg, t, muted);
    case Disconnect =>
  }

  /** While no media track comes without a sid, none is attached or waiting, and there is no exception. */
  lemma {:induction false} NoTrackWithoutSid(local: Person, ops: seq<Op>)
    requires forall op :: op in ops ==> !(op.Media? && op.t == "")
    ensures var reg := After(Empty(local), ops);
            Settled(reg.people) && "" !in reg.tracks && "" !in reg.pending
    ensures AllKeepEmpty(local, ops)
  {
    if ops != [] {
      var before, last := ops[..|ops| - 1], ops[|ops| - 1];
      assert last in ops;
      NoTrackWithoutSid(local, before);
      StepSettles(After(Empty(local), before), last);
      StepWithoutEmpty(After(Empty(local), before), last);
    }
  }

  // ----- Steps that break it -----

  /** A first join that drops the track of an attached publication strands it. */
  lemma DirtyJoinStrandsTrack(reg: Registry, id: string, t: string)
    requires Inv(reg) && id in reg.people && t != "" && t in reg.tracks
    requires !IsLocal(reg, reg.people[id].info) && !reg.people[id].info.disconnected
    requires forall k :: k in reg.people && reg.people[k].HasTrackSid(t) ==> k == id
    ensures var op := JoinResponse(Join(None, [reg.people[id].info.(tracks := [])]), false);
            !KeepsOwners(reg, op) && !Inv(Step(reg, op).reg)
  {
    var info := reg.people[id].info.(tracks := []);
    var op := JoinResponse(Join(None, [info]), false);
    assert [info][..0] == [] && Joining(reg, op.join) == reg;
    var batch := ApplyAll(reg, [info], false).reg;
    assert ApplyAll(reg, [], false).reg == reg && info.sid == id && !IsLocal(reg, info);
    assert batch == ApplyOne(reg, info, false).reg == Change(reg, info, false).reg;
    assert batch.people == reg.people[id := Person(info, map[])];
    assert t in batch.tracks && !Owned(batch.people, t);
    SilentBatchErases(reg, [info], t);
    OwnedIffListed(reg, [info], false, t);
    StepIsExact(reg, op);
  }

  /** A run that does: a participant publishes a track, it is attached, and a first join lists the participant without it. */
  lemma DirtyJoinAsRun(local: Person, info: ParticipantInfo, t: string)
    requires info.sid != "" && t != "" && !info.disconnected && info.tracks == [TrackInfo(t, "", false)]
    requires !IsLocal(Empty(local), info)
    ensures var join := JoinResponse(Join(None, [info.(tracks := [])]), false);
            !Inv(After(Empty(local), [] + [Update([info])] + [Media(t, Audio)] + [join]))
  {
    var join := JoinResponse(Join(None, [info.(tracks := [])]), false);
    var two := Registry(local, map[info.sid := Lister(info)], map[t := Audio], map[]);
    PublisherAttached(local, info, t);
    assert two.people[info.sid].info == info;
    DirtyJoinStrandsTrack(two, info.sid, t);
    OneMore(Empty(local), [] + [Update([info])] + [Media(t, Audio)], join);
  }

  lemma PublisherAttached(local: Person, info: ParticipantInfo, t: string)
    requires info.sid != "" && t != "" && !info.disconnected && info.tracks == [TrackInfo(t, "", false)]
    requires !IsLocal(Empty(local), info)
    ensures var two := Registry(local, map[info.sid := Lister(info)], map[t := Audio], map[]);
            After(Empty(local), [] + [Update([info])] + [Media(t, Audio)]) == two && Inv(two)
  {
    PublisherComes(local, info, t);
    OneMore(Empty(local), [], Update([info]));
    OneMore(Empty(local), [] + [Update([info])], Media(t, Audio));
  }

  lemma PublisherComes(local: Person, info: ParticipantInfo, t: string)
    requires info.sid != "" && t != "" && !info.disconnected && info.tracks == [TrackInfo(t, "", false)]
    requires !IsLocal(Empty(local), info)
    ensures var people := map[info.sid := Lister(info)];
            && Step(Empty(local), Update([info])).reg == Empty(local).(people := people)
            && Owned(people, t) && Inv(Registry(local, people, map[t := Audio], map[]))
  {
    OneUpdate(Empty(local), info);
    var p, people := Lister(info), map[info.sid := Lister(info)];
    assert p.info.tracks[0].sid == t && p.HasTrackSid(t) && info.sid in people && people[info.sid] == p;
  }

  /** A participant that comes with an info. */
  function Lister(info: ParticipantInfo): Person { Refresh(Nobody, info) }

  lemma ListerComes(local: Person, info: ParticipantInfo)
    requires info.sid != "" && !info.disconnected && info.tracks == [TrackInfo("", "", false)]
    requires !IsLocal(Empty(local), info)
    ensures Step(Empty(local), Update([info])).reg == Empty(local).(people := map[info.sid := Lister(info)])
    ensures Owned(map[info.sid := Lister(info)], "") && Lister(info).publications == map[]
  {
    OneUpdate(Empty(local), info);
    var p, people := Lister(info), map[info.sid := Lister(info)];
    assert p.info.tracks[0].sid == "" && p.HasTrackSid("") && info.sid in people && people[info.sid] == p;
    assert Listed(info.tracks) == map[] by {
      forall t ensures t !in Listed(info.tracks) {
        ListedKeys(info.tracks, t);
      }
    }
  }

  lemma ListerLeaves(local: Person, info: ParticipantInfo)
    requires info.sid != "" && !IsLocal(Empty(local), info) && Lister(info).publications == map[]
    ensures var reg := Registry(local, map[info.sid := Lister(info)], map["" := Audio], map[]);
            Step(reg, Update([info.(disconnected := true)])).reg == Registry(local, map[], map["" := Audio], map[])
  {
    var reg := Registry(local, map[info.sid := Lister(info)], map["" := Audio], map[]);
    OneUpdate(reg, info.(disconnected := true));
    assert reg.people - {info.sid} == map[] && reg.tracks - {} == reg.tracks && reg.pending - {} == reg.pending;
    assert reg.people[info.sid].publications.Keys == {};
  }

  /**
    * A run that leaves a track without sid attached and ownerless: its participant comes, the media track
    * comes, the participant leaves.
    */
  lemma EmptySidStaysAttached(local: Person, info: ParticipantInfo)
    requires info.sid != "" && !info.disconnected && info.tracks == [TrackInfo("", "", false)]
    requires !IsLocal(Empty(local), info)
    ensures var reg := After(Empty(local), [] + [Update([info])] + [Media("", Audio)] + [Update([info.(disconnected := true)])]);
            Inv(reg) && !EmptyOwned(reg) && reg.people == map[]
  {
    ListerAttached(local, info);
    ListerLeaves(local, info);
    OneMore(Empty(local), [] + [Update([info])] + [Media("", Audio)], Update([info.(disconnected := true)]));
  }

  lemma ListerAttached(local: Person, info: ParticipantInfo)
    requires info.sid != "" && !info.disconnected && info.tracks == [TrackInfo("", "", false)]
    requires !IsLocal(Empty(local), info)
    ensures After(Empty(local), [] + [Update([info])] + [Media("", Audio)])
            == Registry(local, map[info.sid := Lister(info)], map["" := Audio], map[])
    ensures Lister(info).publications == map[]
  {
    ListerComes(local, info);
    OneMore(Empty(local), [], Update([info]));
    OneMore(Empty(local), [] + [Update([info])], Media("", Audio));
    assert After(Empty(local), []) == Empty(local);
    assert After(Empty(local), [] + [Update([info])]) == Empty(local).(people := map[info.sid := Lister(info)]);
  }

  lemma OneMore(reg: Registry, ops: seq<Op>, op: Op)
    ensures After(reg, ops + [op]) == Step(After(reg, ops), op).reg
  {
    assert (ops + [op])[..|ops|] == ops;
  }

  /** A batch of one info when nothing waits. */
  lemma OneUpdate(reg: Registry, info: ParticipantInfo)
    requires reg.pending == map[]
    ensures Step(reg, Update([info])).reg == ApplyOne(reg, info, true).reg
  {
    assert [info][..0] == [] && ApplyAll(reg, [], true).reg == reg;
    var batch := ApplyAll(reg, [info], true).reg;
    assert batch == ApplyOne(reg, info, true).reg;
    assert batch.pending == map[] && Ready(batch) == {};
    assert InOrder({}) == [] by {
      OrderIsUnique(InOrder({}), [], {});
    }
    assert batch.(pending := batch.pending - {}) == batch;
  }
}
