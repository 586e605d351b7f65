/**
  * What a batch does to one participant, computed from the infos alone: no events, no other participant,
  * no tracks. This is how a caller can tell in advance what a batch will do.
  */
module RegistryFold {
  import opened Wire
  import opened Registry

  /** The local participant, which decides who is remote, and the participant under one sid. */
  datatype One = One(local: Person, person: Option<Person>)

  function Present(people: map<string, Person>, id: string): Option<Person> {
    if id in people then Some(people[id]) else None
  }

  function Focus(reg: Registry, id: string): One { One(reg.local, Present(reg.people, id)) }

  function Meet(o: One, id: string, info: ParticipantInfo): One {
    if info.sid == "" then o
    else if info.sid == o.local.info.sid || (info.identity != "" && info.identity == o.local.info.identity)
    then o.(local := Refresh(o.local, info))
    else if info.sid != id then o
    else if info.disconnected then o.(person := None)
    else o.(person := Some(Refresh(if o.person.Some? then o.person.value else Nobody, info)))
  }

  function MeetAll(o: One, id: string, infos: seq<ParticipantInfo>): One {
    if infos == [] then o else Meet(MeetAll(o, id, infos[..|infos| - 1]), id, infos[|infos| - 1])
  }

  /** The participant under `id` when the first k infos have been taken. */
  function At(reg: Registry, infos: seq<ParticipantInfo>, id: string, k: nat): Option<Person>
    requires k <= |infos|
  {
    MeetAll(Focus(reg, id), id, infos[..k]).person
  }

  predicate HereAt(reg: Registry, infos: seq<ParticipantInfo>, id: string, k: nat)
    requires k <= |infos|
  {
    At(reg, infos, id, k).Some?
  }

  predicate PublishesAt(reg: Registry, infos: seq<ParticipantInfo>, id: string, t: string, k: nat)
    requires k <= |infos|
  {
    HereAt(reg, infos, id, k) && t in At(reg, infos, id, k).value.publications
  }

  predicate ListsAt(reg: Registry, infos: seq<ParticipantInfo>, id: string, t: string, k: nat)
    requires k <= |infos|
  {
    HereAt(reg, infos, id, k) && At(reg, infos, id, k).value.HasTrackSid(t)
  }

  /** Info k makes the participant leave. */
  predicate LeavesAt(reg: Registry, infos: seq<ParticipantInfo>, id: string, k: nat)
    requires k < |infos|
  {
    HereAt(reg, infos, id, k) && !HereAt(reg, infos, id, k + 1)
  }

  /** Info k makes a publication go. */
  predicate WithdrawsAt(reg: Registry, infos: seq<ParticipantInfo>, id: string, t: string, k: nat)
    requires k < |infos|
  {
    PublishesAt(reg, infos, id, t, k) && !PublishesAt(reg, infos, id, t, k + 1)
  }

  lemma OneEntry(reg: Registry, info: ParticipantInfo, emit: bool, id: string)
    ensures Focus(ApplyOne(reg, info, emit).reg, id) == Meet(Focus(reg, id), id, info)
  {
  }

  /** The fold says what the batch leaves under each sid. */
  lemma {:induction false} FoldIsBatch(reg: Registry, infos: seq<ParticipantInfo>, emit: bool, id: string)
    ensures Focus(ApplyAll(reg, infos, emit).reg, id) == MeetAll(Focus(reg, id), id, infos)
  {
    if infos != [] {
      FoldIsBatch(reg, infos[..|infos| - 1], emit, id);
      OneEntry(ApplyAll(reg, infos[..|infos| - 1], emit).reg, infos[|infos| - 1], emit, id);
    }
  }

  /** At the end and before it. */
  lemma AtIsPrefix(reg: Registry, infos: seq<ParticipantInfo>, emit: bool, id: string, k: nat)
    requires k <= |infos|
    ensures At(reg, infos, id, k) == Present(ApplyAll(reg, infos[..k], emit).reg.people, id)
    ensures k == |infos| ==> infos[..k] == infos
  {
    FoldIsBatch(reg, infos[..k], emit, id);
  }

  /** Taking one info less changes nothing before it. */
  lemma AtOfFront(reg: Registry, infos: seq<ParticipantInfo>, id: string, k: nat)
    requires infos != [] && k < |infos|
    ensures At(reg, infos[..|infos| - 1], id, k) == At(reg, infos, id, k)
  {
    assert infos[..|infos| - 1][..k] == infos[..k];
  }
}
