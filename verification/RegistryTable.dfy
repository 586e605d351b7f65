/** Participant::UpdateFromInfo and the room's registry handlers with their maps and loops. */
module RegistryTable {
  import opened Wire
  import opened Ordering
  import opened Registry

  class Participant {
    var info: ParticipantInfo
    var publications: map<string, TrackInfo>

    function Value(): Person
      reads this
    {
      Person(info, publications)
    }

    constructor (p: Person)
      ensures Value() == p
    {
      info, publications := p.info, p.publications;
    }

    /** The fields are overwritten unless the info is stale. */
    method UpdateInfoFields(update: ParticipantInfo) returns (accepted: bool)
      modifies this`info
      ensures accepted == !Stale(old(Value()), update)
      ensures info == if accepted then update else old(info)
    {
      if info.sid != "" && info.sid == update.sid && info.version > update.version {
        return false;
      }
      info := update;
      return true;
    }

    /** Publications are created or updated for each listed track, and erased for every other sid. */
    method UpdateFromInfo(update: ParticipantInfo)
      modifies this
      ensures Value() == Refresh(old(Value()), update)
    {
      var accepted := UpdateInfoFields(update);
      if !accepted {
        return;
      }
      var current: set<string> := {};
      for k := 0 to |update.tracks|
        invariant info == update
        invariant Covers(publications, current, Listed(update.tracks[..k]))
      {
        assert update.tracks[..k + 1][..k] == update.tracks[..k];
        var track := update.tracks[k];
        if track.sid != "" {
          current := current + {track.sid};
          publications := publications[track.sid := track];
        }
      }
      assert update.tracks[..|update.tracks|] == update.tracks;
      publications := EraseOthers(publications, current);
    }
  }

  /** `m` agrees with `part` on the keys of `part`, which are `keys`. */
  ghost predicate Covers(m: map<string, TrackInfo>, keys: set<string>, part: map<string, TrackInfo>) {
    keys == part.Keys && forall t :: t in part ==> t in m && m[t] == part[t]
  }

  method EraseOthers(m: map<string, TrackInfo>, keep: set<string>) returns (r: map<string, TrackInfo>)
    ensures r == map t | t in m && t in keep :: m[t]
  {
    r := m;
    var rest := m.Keys;
    while rest != {}
      invariant rest <= m.Keys && r == map t | t in m && (t in keep || t in rest) :: m[t]
      decreases |rest|
    {
      var t := Smallest(rest);
      rest := rest - {t};
      if t !in keep {
        r := r - {t};
      }
    }
  }

  lemma ForEachSnoc(ids: seq<string>, k: nat, f: string -> seq<Event>)
    requires k < |ids|
    ensures ForEach(ids[..k + 1], f) == ForEach(ids[..k], f) + f(ids[k])
  {
    assert ids[..k + 1][..k] == ids[..k];
  }

  function Restrict(m: map<string, string>, keys: set<string>): map<string, string> {
    map k | k in m && k in keys :: m[k]
  }

  function Elements(ids: seq<string>): set<string> {
    set t | t in ids
  }

  lemma ElementsSnoc(ids: seq<string>, k: nat)
    requires k < |ids|
    ensures Elements(ids[..k + 1]) == Elements(ids[..k]) + {ids[k]}
  {
    assert ids[..k + 1] == ids[..k] + [ids[k]];
  }

  lemma ElementsOfOrder(order: seq<string>, keys: set<string>)
    requires order == InOrder(keys)
    ensures Elements(order[..|order|]) == keys && Elements(order[..0]) == {}
  {
    assert order[..|order|] == order;
  }

  lemma RestrictMore(m: map<string, string>, keys: set<string>, k: string)
    ensures Restrict(m, keys + {k}) == if k in m then Restrict(m, keys)[k := m[k]] else Restrict(m, keys)
    ensures k in keys && k in m ==> Restrict(m, keys + {k}) == Restrict(m, keys)
  {
    assert k in keys ==> keys + {k} == keys;
  }

  lemma RestrictAll(m: map<string, string>, keys: set<string>)
    requires m.Keys <= keys
    ensures Restrict(m, keys) == m
  {
  }

  /** The attribute_changes lambda: the new map first, then what is missing from it. */
  method ChangesOf(before: map<string, string>, after: map<string, string>) returns (changes: map<string, string>)
    ensures changes == AttributeChanges(before, after)
  {
    changes := map[];
    ghost var spec := AttributeChanges(before, after);
    var order := Visit(after.Keys);
    ElementsOfOrder(order, after.Keys);
    for i := 0 to |order|
      invariant changes == Restrict(spec, Elements(order[..i]))
    {
      var k := order[i];
      assert k in order;
      ElementsSnoc(order, i);
      RestrictMore(spec, Elements(order[..i]), k);
      if k !in before || before[k] != after[k] {
        changes := changes[k := after[k]];
      }
    }
    changes := AddMissing(before, after, changes);
    RestrictAll(spec, after.Keys + before.Keys);
  }

  method AddMissing(before: map<string, string>, after: map<string, string>, start: map<string, string>)
    returns (changes: map<string, string>)
    requires start == Restrict(AttributeChanges(before, after), after.Keys)
    ensures changes == Restrict(AttributeChanges(before, after), after.Keys + before.Keys)
  {
    changes := start;
    ghost var spec := AttributeChanges(before, after);
    var order := Visit(before.Keys);
    ElementsOfOrder(order, before.Keys);
    assert after.Keys + {} == after.Keys;
    for i := 0 to |order|
      invariant changes == Restrict(spec, after.Keys + Elements(order[..i]))
    {
      var k := order[i];
      assert k in order;
      ElementsSnoc(order, i);
      ghost var known := after.Keys + Elements(order[..i]);
      assert after.Keys + Elements(order[..i + 1]) == known + {k};
      RestrictMore(spec, known, k);
      if k !in after {
        changes := changes[k := ""];
      }
    }
  }

  method ValueChanges(id: string, before: ParticipantInfo, after: ParticipantInfo) returns (log: seq<Event>)
    ensures log == ValueEvents(id, before, after)
  {
    log := [];
    if before.metadata != after.metadata {
      log := log + [MetadataChanged(id, before.metadata)];
    }
    if before.name != after.name {
      log := log + [NameChanged(id, after.name)];
    }
    var changes := ChangesOf(before.attributes, after.attributes);
    if changes != map[] {
      log := log + [AttributesChanged(id, changes)];
    }
    if before.permissions != after.permissions {
      log := log + [PermissionsChanged(id, before.permissions)];
    }
  }

  lemma NotBefore(order: seq<string>, k: nat)
    requires Increasing(order) && k < |order|
    ensures order[k] !in order[..k]
  {
    forall j | 0 <= j < k ensures order[j] != order[k] {
      IncreasingIsDistinct(order, j, k);
    }
  }

  class RoomRegistry {
    var local: Person
    var people: map<string, Person>
    var tracks: map<string, MediaKind>
    var pending: map<string, MediaKind>

    function Value(): Registry
      reads this
    {
      Registry(local, people, tracks, pending)
    }

    constructor ()
      ensures Value() == Registry(Nobody, map[], map[], map[])
    {
      local, people, tracks, pending := Nobody, map[], map[], map[];
    }

    /** Publications `gone` of `id` are withdrawn in key order: detached, forgotten, reported. */
    method WithdrawEach(id: string, gone: set<string>, emit: bool) returns (log: seq<Event>)
      modifies this`tracks, this`pending
      ensures Value() == Withdraw(old(Value()), gone)
      ensures log == if emit then ForEach(InOrder(gone), Withdrawal(id, old(tracks))) else []
    {
      log := [];
      var order := Visit(gone);
      ElementsOfOrder(order, gone);
      ghost var f := Withdrawal(id, tracks);
      for k := 0 to |order|
        invariant tracks == old(tracks) - Elements(order[..k]) && pending == old(pending) - Elements(order[..k])
        invariant log == if emit then ForEach(order[..k], f) else []
      {
        var t := order[k];
        ForEachSnoc(order, k, f);
        ElementsSnoc(order, k);
        NotBefore(order, k);
        if emit && t in tracks {
          log := log + [Unsubscribed(id, t)];
        }
        tracks, pending := tracks - {t}, pending - {t};
        if emit {
          log := log + [Unpublished(id, t)];
        }
      }
      assert order[..|order|] == order;
    }

    method ParticipantLeft(id: string, emit: bool) returns (log: seq<Event>)
      requires id in people
      modifies this`people, this`tracks, this`pending
      ensures Value() == Leave(old(Value()), id, emit).reg && log == Leave(old(Value()), id, emit).log
    {
      log := WithdrawEach(id, people[id].publications.Keys, emit);
      people := people - {id};
      if emit {
        log := log + [Disconnected(id)];
      }
    }

    /** New and unmuted or muted publications, in key order. */
    method Arrived(id: string, before: map<string, TrackInfo>, after: map<string, TrackInfo>) returns (log: seq<Event>)
      ensures log == ForEach(InOrder(after.Keys), Arrival(id, before, after))
    {
      log := [];
      var order := Visit(after.Keys);
      ghost var f := Arrival(id, before, after);
      for k := 0 to |order|
        invariant log == ForEach(order[..k], f)
      {
        var t := order[k];
        assert t in order;
        ForEachSnoc(order, k, f);
        if t !in before {
          log := log + [Published(id, t)];
        } else if before[t].muted != after[t].muted {
          log := log + [MuteChanged(id, t, after[t].muted)];
        }
      }
      assert order[..|order|] == order;
    }

    method ParticipantEntered(info: ParticipantInfo, emit: bool) returns (log: seq<Event>)
      requires info.sid !in people
      modifies this`people
      ensures Value() == Enter(old(Value()), info, emit).reg && log == Enter(old(Value()), info, emit).log
    {
      log := [];
      var added := new Participant(Nobody);
      added.UpdateFromInfo(info);
      people := people[info.sid := added.Value()];
      if emit {
        var published := Arrived(info.sid, map[], added.publications);
        log := [Connected(info.sid)] + published;
      }
    }

    method ParticipantChanged(info: ParticipantInfo, emit: bool) returns (log: seq<Event>)
      requires info.sid in people
      modifies this`people, this`tracks, this`pending
      ensures Value() == Change(old(Value()), info, emit).reg && log == Change(old(Value()), info, emit).log
    {
      log := [];
      var id, before := info.sid, people[info.sid];
      var retained := new Participant(before);
      retained.UpdateFromInfo(info);
      var after := retained.Value();
      people := people[id := after];
      if !emit {
        return;
      }
      var values := ValueChanges(id, before.info, after.info);
      var arrived := Arrived(id, before.publications, after.publications);
      var withdrawn := WithdrawEach(id, before.publications.Keys - after.publications.Keys, true);
      log := values + arrived + withdrawn;
    }

    method UpdateOne(info: ParticipantInfo, emit: bool) returns (log: seq<Event>)
      modifies this
      ensures Value() == ApplyOne(old(Value()), info, emit).reg && log == ApplyOne(old(Value()), info, emit).log
    {
      log := [];
      if info.sid == "" {
        return;
      }
      if info.sid == local.info.sid || (info.identity != "" && info.identity == local.info.identity) {
        var me := new Participant(local);
        me.UpdateFromInfo(info);
        var before := local;
        local := me.Value();
        if emit {
          log := ValueChanges(Me, before.info, local.info);
        }
        return;
      }
      if info.disconnected {
        if info.sid in people {
          log := ParticipantLeft(info.sid, emit);
        }
      } else if info.sid in people {
        log := ParticipantChanged(info, emit);
      } else {
        log := ParticipantEntered(info, emit);
      }
    }

    /** The first participant in key order that lists the track. */
    method FindRemoteParticipantForTrack(t: string) returns (owner: Option<string>)
      ensures owner == if Owned(people, t) then Some(OwnerOf(people, t)) else None
    {
      var order := Visit(people.Keys);
      for k := 0 to |order|
        invariant forall j :: 0 <= j < k ==> !people[order[j]].HasTrackSid(t)
      {
        assert order[k] in order;
        if people[order[k]].HasTrackSid(t) {
          FirstIsOwner(people, order, k, t);
          return Some(order[k]);
        }
      }
      assert !Owned(people, t) by {
        forall id | id in people ensures !people[id].HasTrackSid(t) {
          assert id in order;
        }
      }
      return None;
    }

    method MediaTrackEvent(t: string, kind: MediaKind) returns (events: seq<Event>)
      modifies this`tracks, this`pending
      ensures Value() == MediaTrack(old(Value()), t, kind).reg && events == MediaTrack(old(Value()), t, kind).log
    {
      events := [];
      var owner := FindRemoteParticipantForTrack(t);
      if owner.None? {
        pending := pending[t := kind];
        return;
      }
      if t in tracks {
        return;
      }
      if kind == Audio || kind == Video {
        tracks := tracks[t := kind];
        events := [Subscribed(owner.value, t)];
      }
    }

    method MediaTrackRemovedEvent(t: string) returns (events: seq<Event>)
      modifies this`tracks
      ensures Value() == MediaTrackRemoved(old(Value()), t).reg && events == MediaTrackRemoved(old(Value()), t).log
    {
      events := [];
      var owner := FindRemoteParticipantForTrack(t);
      if owner.None? || t !in tracks || t !in people[owner.value].publications {
        return;
      }
      tracks := tracks - {t};
      events := [Unsubscribed(owner.value, t)];
    }

    method RemoteMuteChangedEvent(t: string, muted: bool) returns (events: seq<Event>)
      modifies this`people
      ensures Value() == MuteTrack(old(Value()), t, muted).reg && events == MuteTrack(old(Value()), t, muted).log
    {
      events := [];
      var owner := FindRemoteParticipantForTrack(t);
      if owner.None? {
        return;
      }
      var p := people[owner.value];
      if t !in p.publications || p.publications[t].muted == muted {
        return;
      }
      people := people[owner.value := p.(publications := p.publications[t := p.publications[t].(muted := muted)])];
      events := [MuteChanged(owner.value, t, muted)];
    }

    /** The waiting tracks whose participant is now known leave the waiting map, in key order. */
    method TakeReady() returns (ready: seq<string>)
      modifies this`pending
      ensures ready == InOrder(Ready(old(Value())))
      ensures Value() == old(Value()).(pending := old(pending) - Ready(old(Value())))
    {
      var found: set<string> := {};
      var rest := pending.Keys;
      while rest != {}
        invariant rest <= old(pending).Keys && pending == old(pending)
        invariant FoundSoFar(Value(), rest, found)
        decreases |rest|
      {
        var t := Smallest(rest);
        var owner := FindRemoteParticipantForTrack(t);
        FoundOneMore(Value(), rest, found, t);
        rest := rest - {t};
        if owner.Some? {
          found := found + {t};
        }
      }
      AllFound(Value(), found);
      pending := pending - found;
      ready := Visit(found);
    }

    /** The listener calls after a batch, one list after the other. */
    method DeliverByRank(log: seq<Event>) returns (events: seq<Event>)
      ensures events == Ordered(log, 10)
    {
      events := [];
      for r := 0 to 10
        invariant events == Ordered(log, r)
      {
        var list := [];
        for k := 0 to |log|
          invariant list == ByRank(log[..k], r)
        {
          assert log[..k + 1][..k] == log[..k];
          if Rank(log[k]) == r {
            list := list + [log[k]];
          }
        }
        assert log[..|log|] == log;
        events := events + list;
      }
    }

    method ApplyParticipantUpdates(infos: seq<ParticipantInfo>, emit: bool) returns (events: seq<Event>)
      modifies this
      ensures Value() == ApplyUpdates(old(Value()), infos, emit).reg
      ensures events == ApplyUpdates(old(Value()), infos, emit).log
    {
      var log := [];
      ghost var start := Value();
      for k := 0 to |infos|
        invariant Effect(Value(), log) == ApplyAll(start, infos[..k], emit)
      {
        assert infos[..k + 1][..k] == infos[..k];
        var more := UpdateOne(infos[k], emit);
        log := log + more;
      }
      assert infos[..|infos|] == infos;
      events := AttachReady(log);
    }

    method AttachReady(log: seq<Event>) returns (events: seq<Event>)
      modifies this`tracks, this`pending
      ensures Value() == Attach(old(Value())).reg
      ensures events == Ordered(log, 10) + Attach(old(Value())).log
    {
      var kinds := pending;
      var ready := TakeReady();
      ghost var start := Value();
      var delivered := DeliverByRank(log);
      var attached := [];
      for k := 0 to |ready|
        invariant forall t :: t in ready[..k] ==> t in kinds
        invariant Effect(Value(), attached) == MediaTracks(start, ready[..k], kinds)
      {
        assert ready[k] in ready && ready[..k + 1][..k] == ready[..k];
        var more := MediaTrackEvent(ready[k], kinds[ready[k]]);
        attached := attached + more;
      }
      assert ready[..|ready|] == ready;
      events := delivered + attached;
    }

    /** A reconnection drops all tracks and the participants the server no longer names. */
    method ApplyJoinResponse(join: Join, reconnecting: bool) returns (events: seq<Event>)
      modifies this
      ensures Value() == ApplyJoin(old(Value()), join, reconnecting).reg
      ensures events == ApplyJoin(old(Value()), join, reconnecting).log
    {
      if join.local.Some? {
        var me := new Participant(local);
        if reconnecting {
          var accepted := me.UpdateInfoFields(join.local.value);
        } else {
          me.UpdateFromInfo(join.local.value);
        }
        local := me.Value();
      }
      if reconnecting {
        tracks, pending := map[], map[];
        people := map id | id in people && (exists i :: 0 <= i < |join.others| && join.others[i].sid == id) :: people[id];
      }
      events := ApplyParticipantUpdates(join.others, false);
    }
  }

  /** The ready tracks outside `rest`. */
  ghost predicate FoundSoFar(reg: Registry, rest: set<string>, found: set<string>) {
    forall t :: t in found <==> t in reg.pending && t !in rest && Owned(reg.people, t)
  }

  lemma FoundOneMore(reg: Registry, rest: set<string>, found: set<string>, t: string)
    requires FoundSoFar(reg, rest, found) && t in rest && rest <= reg.pending.Keys
    ensures FoundSoFar(reg, rest - {t}, if Owned(reg.people, t) then found + {t} else found)
  {
  }

  lemma AllFound(reg: Registry, found: set<string>)
    requires FoundSoFar(reg, {}, found)
    ensures found == Ready(reg)
  {
  }

  lemma FirstIsOwner(people: map<string, Person>, order: seq<string>, k: nat, t: string)
    requires order == InOrder(people.Keys) && k < |order| && order[k] in people && people[order[k]].HasTrackSid(t)
    requires forall j :: 0 <= j < k ==> order[j] in people && !people[order[j]].HasTrackSid(t)
    ensures Owned(people, t) && OwnerOf(people, t) == order[k]
  {
    var owners := set id | id in people && people[id].HasTrackSid(t);
    var first := OwnerOf(people, t);
    assert IsSmallest(first, owners) && order[k] in owners && first in order;
    var j :| 0 <= j < |order| && order[j] == first;
    if k < j {
      LessIsStrict(order[k], order[j]);
    }
  }
}
