/**
  * The room registry as values: participants, attached remote tracks, media tracks that wait for their
  * participant, and what one participant update, media event or join response does to them.
  */
module Registry {
  import opened Wire
  import opened Ordering
  import opened Machines

  datatype TrackInfo = TrackInfo(sid: string, name: string, muted: bool)

  datatype Permissions = Permissions(flags: seq<bool>, sources: seq<int>)

  datatype ParticipantInfo = ParticipantInfo(
    sid: string, identity: string, name: string, metadata: string, attributes: map<string, string>,
    permissions: Permissions, version: int, disconnected: bool, tracks: seq<TrackInfo>)

  /** A participant: the last accepted info and the track publications reconciled with it. */
  datatype Person = Person(info: ParticipantInfo, publications: map<string, TrackInfo>)
  {
    /** Participant::HasTrackSid looks at the info, not at the publications. */
    predicate HasTrackSid(t: string) {
      exists i :: 0 <= i < |info.tracks| && info.tracks[i].sid == t
    }
  }

  /** The publications that an info asks for: its tracks by sid, the last one of each, none without sid. */
  function Listed(tracks: seq<TrackInfo>): map<string, TrackInfo> {
    if tracks == [] then map[] else
    var before, last := Listed(tracks[..|tracks| - 1]), tracks[|tracks| - 1];
    if last.sid == "" then before else before[last.sid := last]
  }

  predicate Stale(p: Person, info: ParticipantInfo) {
    p.info.sid != "" && p.info.sid == info.sid && p.info.version > info.version
  }

  /** Participant::UpdateFromInfo. */
  function Refresh(p: Person, info: ParticipantInfo): Person {
    if Stale(p, info) then p else Person(info, Listed(info.tracks))
  }

  const NoInfo := ParticipantInfo("", "", "", "", map[], Permissions([], []), 0, false, [])
  const Nobody := Person(NoInfo, map[])

  datatype MediaKind = Audio | Video | OtherKind

  datatype Registry = Registry(
    local: Person, people: map<string, Person>, tracks: map<string, MediaKind>, pending: map<string, MediaKind>)

  datatype Event =
    | Connected(p: string)
    | Published(p: string, t: string)
    | MuteChanged(p: string, t: string, muted: bool)
    | Unsubscribed(p: string, t: string)
    | Unpublished(p: string, t: string)
    | MetadataChanged(p: string, previous: string)
    | NameChanged(p: string, name: string)
    | AttributesChanged(p: string, changes: map<string, string>)
    | PermissionsChanged(p: string, before: Permissions)
    | Disconnected(p: string)
    | Subscribed(p: string, t: string)

  /** A new state and the events gathered on the way. */
  datatype Effect = Effect(reg: Registry, log: seq<Event>)

  /** The events that `f` gives for each of `ids`, in that order. */
  function ForEach(ids: seq<string>, f: string -> seq<Event>): seq<Event> {
    if ids == [] then [] else ForEach(ids[..|ids| - 1], f) + f(ids[|ids| - 1])
  }

  /** attribute_changes: new and changed values, and "" for every key that is gone. */
  function AttributeChanges(before: map<string, string>, after: map<string, string>): map<string, string> {
    map k | k in before.Keys + after.Keys && !(k in before && k in after && before[k] == after[k]) ::
      if k in after then after[k] else ""
  }

  /** Metadata, name, attributes and permissions that differ. */
  function ValueEvents(id: string, before: ParticipantInfo, after: ParticipantInfo): seq<Event> {
    var changes := AttributeChanges(before.attributes, after.attributes);
    (if before.metadata != after.metadata then [MetadataChanged(id, before.metadata)] else [])
    + (if before.name != after.name then [NameChanged(id, after.name)] else [])
    + (if changes != map[] then [AttributesChanged(id, changes)] else [])
    + (if before.permissions != after.permissions then [PermissionsChanged(id, before.permissions)] else [])
  }

  /** A publication of `id` goes away. */
  function Withdrawal(id: string, tracks: map<string, MediaKind>): string -> seq<Event> {
    t => (if t in tracks then [Unsubscribed(id, t)] else []) + [Unpublished(id, t)]
  }

  /** A publication of `id` is new, or its mute state changed. */
  function Arrival(id: string, before: map<string, TrackInfo>, after: map<string, TrackInfo>): string -> seq<Event> {
    t => if t !in after then [] else
         if t !in before then [Published(id, t)] else
         if before[t].muted != after[t].muted then [MuteChanged(id, t, after[t].muted)] else []
  }

  function Withdraw(reg: Registry, gone: set<string>): Registry {
    reg.(tracks := reg.tracks - gone, pending := reg.pending - gone)
  }

  /** The local participant in an event; no remote one has this sid. */
  const Me := ""

  predicate IsLocal(reg: Registry, info: ParticipantInfo) {
    info.sid == reg.local.info.sid || (info.identity != "" && info.identity == reg.local.info.identity)
  }

  ghost function Leave(reg: Registry, id: string, emit: bool): Effect
    requires id in reg.people
  {
    var gone := reg.people[id].publications.Keys;
    Effect(
      Withdraw(reg, gone).(people := reg.people - {id}),
      if emit then ForEach(InOrder(gone), Withdrawal(id, reg.tracks)) + [Disconnected(id)] else [])
  }

  ghost function Enter(reg: Registry, info: ParticipantInfo, emit: bool): Effect {
    var p := Refresh(Nobody, info);
    Effect(
      reg.(people := reg.people[info.sid := p]),
      if emit then [Connected(info.sid)] + ForEach(InOrder(p.publications.Keys), Arrival(info.sid, map[], p.publications)) else [])
  }

  ghost function Change(reg: Registry, info: ParticipantInfo, emit: bool): Effect
    requires info.sid in reg.people
  {
    var id, before := info.sid, reg.people[info.sid];
    var after := Refresh(before, info);
    var updated := reg.(people := reg.people[id := after]);
    if !emit then Effect(updated, []) else
    var gone := before.publications.Keys - after.publications.Keys;
    Effect(
      Withdraw(updated, gone),
      ValueEvents(id, before.info, after.info)
      + ForEach(InOrder(after.publications.Keys), Arrival(id, before.publications, after.publications))
      + ForEach(InOrder(gone), Withdrawal(id, reg.tracks)))
  }

  /** One entry of a batch. */
  ghost function ApplyOne(reg: Registry, info: ParticipantInfo, emit: bool): Effect {
    if info.sid == "" then Effect(reg, [])
    else if IsLocal(reg, info) then
      var after := Refresh(reg.local, info);
      Effect(reg.(local := after), if emit then ValueEvents(Me, reg.local.info, after.info) else [])
    else if info.disconnected then (if info.sid in reg.people then Leave(reg, info.sid, emit) else Effect(reg, []))
    else if info.sid in reg.people then Change(reg, info, emit)
    else Enter(reg, info, emit)
  }

  ghost function ApplyAll(reg: Registry, infos: seq<ParticipantInfo>, emit: bool): Effect {
    if infos == [] then Effect(reg, []) else
    var before := ApplyAll(reg, infos[..|infos| - 1], emit);
    var last := ApplyOne(before.reg, infos[|infos| - 1], emit);
    Effect(last.reg, before.log + last.log)
  }

  // ----- Media tracks -----

  predicate Owned(people: map<string, Person>, t: string) {
    exists id :: id in people && people[id].HasTrackSid(t)
  }

  /** FindRemoteParticipantForTrack: the first participant, in key order, whose info lists the track. */
  function OwnerOf(people: map<string, Person>, t: string): string
    requires Owned(people, t)
  {
    var owners := set id | id in people && people[id].HasTrackSid(t);
    assert owners != {} by {
      var id :| id in people && people[id].HasTrackSid(t);
      assert id in owners;
    }
    Smallest(owners)
  }

  function MediaTrack(reg: Registry, t: string, kind: MediaKind): Effect {
    if !Owned(reg.people, t) then Effect(reg.(pending := reg.pending[t := kind]), [])
    else if t in reg.tracks || kind == OtherKind then Effect(reg, [])
    else Effect(reg.(tracks := reg.tracks[t := kind]), [Subscribed(OwnerOf(reg.people, t), t)])
  }

  function MediaTrackRemoved(reg: Registry, t: string): Effect {
    if !Owned(reg.people, t) || t !in reg.tracks || t !in reg.people[OwnerOf(reg.people, t)].publications then Effect(reg, [])
    else Effect(reg.(tracks := reg.tracks - {t}), [Unsubscribed(OwnerOf(reg.people, t), t)])
  }

  /** RemoteMuteChangedEvent: the publication itself is changed, the info that lists it is not. */
  function MuteTrack(reg: Registry, t: string, muted: bool): Effect {
    if !Owned(reg.people, t) then Effect(reg, []) else
    var id := OwnerOf(reg.people, t);
    var p := reg.people[id];
    if t !in p.publications || p.publications[t].muted == muted then Effect(reg, [])
    else Effect(reg.(people := reg.people[id := p.(publications := p.publications[t := p.publications[t].(muted := muted)])]),
                [MuteChanged(id, t, muted)])
  }

  /** Media tracks `ts`, taken out of the waiting map before, are reported one after the other. */
  function MediaTracks(reg: Registry, ts: seq<string>, kinds: map<string, MediaKind>): Effect
    requires forall t :: t in ts ==> t in kinds
  {
    if ts == [] then Effect(reg, []) else
    var before := MediaTracks(reg, ts[..|ts| - 1], kinds);
    var last := MediaTrack(before.reg, ts[|ts| - 1], kinds[ts[|ts| - 1]]);
    Effect(last.reg, before.log + last.log)
  }

  function Ready(reg: Registry): set<string> {
    set t | t in reg.pending && Owned(reg.people, t)
  }

  ghost function Attach(reg: Registry): Effect {
    MediaTracks(reg.(pending := reg.pending - Ready(reg)), InOrder(Ready(reg)), reg.pending)
  }

  // ----- Handlers -----

  /** The order of the listener calls after a batch: one list for each kind of event. */
  function Rank(e: Event): nat {
    match e
    case Connected(_) => 0
    case Published(_, _) => 1
    case MuteChanged(_, _, _) => 2
    case Unsubscribed(_, _) => 3
    case Unpublished(_, _) => 4
    case MetadataChanged(_, _) => 5
    case NameChanged(_, _) => 6
    case AttributesChanged(_, _) => 7
    case PermissionsChanged(_, _) => 8
    case Disconnected(_) => 9
    case Subscribed(_, _) => 10
  }

  function ByRank(log: seq<Event>, r: nat): seq<Event> {
    if log == [] then [] else
    ByRank(log[..|log| - 1], r) + if Rank(log[|log| - 1]) == r then [log[|log| - 1]] else []
  }

  /** All events of a batch with rank below r, in listener order. */
  function Ordered(log: seq<Event>, r: nat): seq<Event> {
    if r == 0 then [] else Ordered(log, r - 1) + ByRank(log, r - 1)
  }

  /** ApplyParticipantUpdates: the batch, the listener calls by rank, then the media tracks that became ready. */
  ghost function ApplyUpdates(reg: Registry, infos: seq<ParticipantInfo>, emit: bool): Effect {
    var batch := ApplyAll(reg, infos, emit);
    var ready := Attach(batch.reg);
    Effect(ready.reg, Ordered(batch.log, 10) + ready.log)
  }

  datatype Join = Join(local: Option<ParticipantInfo>, others: seq<ParticipantInfo>)

  /** ApplyJoinResponse; the local participant keeps its tracks on a reconnection. */
  ghost function ApplyJoin(reg: Registry, join: Join, reconnecting: bool): Effect {
    var local := if join.local.None? || (reconnecting && Stale(reg.local, join.local.value)) then reg.local
                 else if reconnecting then reg.local.(info := join.local.value)
                 else Refresh(reg.local, join.local.value);
    var kept := if reconnecting
                then Registry(local, map id | id in reg.people && (exists i :: 0 <= i < |join.others| && join.others[i].sid == id) :: reg.people[id], map[], map[])
                else reg.(local := local);
    ApplyUpdates(kept, join.others, false)
  }

  /** Room::Disconnect, as far as the registry is concerned. */
  function Clear(reg: Registry): Effect {
    Effect(Registry(reg.local, map[], map[], map[]), [])
  }

  // ----- Runs -----

  datatype Op =
    | Update(infos: seq<ParticipantInfo>)
    | JoinResponse(join: Join, reconnecting: bool)
    | Media(t: string, kind: MediaKind)
    | MediaGone(t: string)
    | Mute(t: string, muted: bool)
    | Disconnect

  ghost function Step(reg: Registry, op: Op): Effect {
    match op
    case Update(infos) => ApplyUpdates(reg, infos, true)
    case JoinResponse(join, reconnecting) => ApplyJoin(reg, join, reconnecting)
    case Media(t, kind) => MediaTrack(reg, t, kind)
    case MediaGone(t) => MediaTrackRemoved(reg, t)
    case Mute(t, muted) => MuteTrack(reg, t, muted)
    case Disconnect => Clear(reg)
  }

  ghost function Play(): (Registry, Op) -> Outcome<Registry, Event> {
    (reg: Registry, op: Op) => Outcome(Step(reg, op).reg, Step(reg, op).log)
  }

  ghost function After(reg: Registry, ops: seq<Op>): Registry { Run(Play(), reg, ops).state }
}
