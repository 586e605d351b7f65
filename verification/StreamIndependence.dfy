/** Streams do not disturb each other, however their packets are interleaved. */
module StreamIndependence {
  import opened Inflate
  import opened Machines
  import opened Ordering
  import opened DataStreams

  /** The emissions about one stream id. */
  function About(es: seq<Emission>, id: string): seq<Emission> {
    if es == [] then [] else
    var last := es[|es| - 1];
    About(es[..|es| - 1], id) + if last.event.info.id == id then [last] else []
  }

  lemma {:induction false} AboutConcat(a: seq<Emission>, b: seq<Emission>, id: string)
    ensures About(a + b, id) == About(a, id) + About(b, id)
    decreases |b|
  {
    if b == [] {
      assert a + b == a;
    } else {
      AboutConcat(a, b[..|b| - 1], id);
      assert (a + b)[..|a + b| - 1] == a + b[..|b| - 1];
    }
  }

  ghost predicate AllAbout(es: seq<Emission>, id: string) {
    forall e :: e in es ==> e.event.info.id == id
  }

  /** Emissions that are all about one id are kept or dropped together. */
  lemma {:induction false} AboutUniform(es: seq<Emission>, own: string, id: string)
    requires AllAbout(es, own)
    ensures About(es, id) == if own == id then es else []
  {
    if es != [] {
      AboutUniform(es[..|es| - 1], own, id);
      assert es[|es| - 1] in es;
      assert es == es[..|es| - 1] + [es[|es| - 1]];
    }
  }

  predicate Concerns(p: Packet, id: string) {
    match p
    case HeaderPacket(h) => h.id == id
    case ChunkPacket(own, _, _) => own == id
    case TrailerPacket(own, _, _) => own == id
    case CloseAll(_) => true
  }

  /** The inputs that concern one stream id. */
  function Only(inputs: seq<Input>, id: string): seq<Input> {
    if inputs == [] then [] else
    var last := inputs[|inputs| - 1];
    Only(inputs[..|inputs| - 1], id) + if Concerns(last.packet, id) then [last] else []
  }

  /** A slot belongs to an id when the stream in it does. */
  ghost predicate Keyed(slot: Slot, id: string) {
    slot.stream.Some? ==> slot.stream.value.header.id == id
  }

  /** One step of the machine for `id` stays with `id`, and a closed slot has nothing to close. */
  ghost predicate Owned(life: (Slot, Input) -> Reaction, slot: Slot, i: Input, id: string) {
    Keyed(slot, id) && Concerns(i.packet, id) ==>
      && Keyed(life(slot, i).state, id)
      && AllAbout(life(slot, i).events, id)
      && (slot.stream.None? && i.packet.CloseAll? ==> life(slot, i).events == [])
      && (slot == EmptySlot && i.packet.CloseAll? ==> life(slot, i).state == EmptySlot)
  }

  lemma LifeIsOwned(c: Codec, slot: Slot, i: Input, id: string)
    ensures Owned(Life(c), slot, i, id)
  {
    match i.packet
    case HeaderPacket(h) =>
      if Keyed(slot, h.id) {
        HeaderIsOwned(c, slot, i, h);
      }
    case ChunkPacket(_, index, content) =>
      var r := OnChunk(c, slot, index, content);
      assert Life(c)(slot, i) == r;
    case TrailerPacket(_, reason, attributes) =>
      var r := OnTrailer(c, slot, i.listening, reason, attributes);
      assert Life(c)(slot, i) == r;
    case CloseAll(reason) =>
      assert Life(c)(slot, i) == OnCloseAll(slot, reason);
  }

  lemma HeaderIsOwned(c: Codec, slot: Slot, i: Input, h: Header)
    requires Keyed(slot, h.id)
    ensures Keyed(OnHeader(c, slot, i, h).state, h.id)
    ensures AllAbout(OnHeader(c, slot, i, h).events, h.id)
  {
  }

  predicate Distinct(ids: seq<string>) {
    forall a, b :: 0 <= a < b < |ids| ==> ids[a] != ids[b]
  }

  lemma {:induction false} AboutEach(life: (Slot, Input) -> Reaction, room: Room, ids: seq<string>, i: Input, id: string)
    requires Distinct(ids) && forall k :: k in ids ==> AllAbout(life(Look(room, k), i).events, k)
    ensures About(EventsOfEach(life, room, ids, i), id) == if id in ids then life(Look(room, id), i).events else []
  {
    if ids != [] {
      var before, last := ids[..|ids| - 1], ids[|ids| - 1];
      assert ids == before + [last] && last !in before;
      AboutEach(life, room, before, i, id);
      AboutUniform(life(Look(room, last), i).events, last, id);
      AboutConcat(EventsOfEach(life, room, before, i), life(Look(room, last), i).events, id);
    }
  }

  lemma CloseOrderIsExact(room: Room)
    ensures Distinct(CloseOrder(room))
    ensures forall id :: id in CloseOrder(room) <==> Look(room, id).stream.Some?
  {
    var texts, files := InOrder(OpenIds(room, Text)), InOrder(OpenIds(room, Bytes));
    forall a, b | 0 <= a < b < |texts + files| ensures (texts + files)[a] != (texts + files)[b] {
      if b < |texts| {
        IncreasingIsDistinct(texts, a, b);
      } else if a >= |texts| {
        IncreasingIsDistinct(files, a - |texts|, b - |texts|);
      } else {
        assert texts[a] in texts && files[b - |texts|] in files;
      }
    }
  }

  ghost predicate RoomKeyed(room: Room) {
    forall id :: Keyed(Look(room, id), id)
  }

  /** A step of the room is, for each id it concerns, a step of that id's machine, and nothing for the others. */
  lemma StepIsLocal(life: (Slot, Input) -> Reaction, room: Room, i: Input, id: string)
    requires forall slot, i, k :: Owned(life, slot, i, k)
    requires RoomKeyed(room)
    ensures var r := RoomStep(life, room, i);
            var own := life(Look(room, id), i);
            && Look(r.state, id) == (if Concerns(i.packet, id) then own.state else Look(room, id))
            && About(r.events, id) == (if Concerns(i.packet, id) then own.events else [])
            && Keyed(Look(r.state, id), id)
  {
    assert Owned(life, Look(room, id), i, id) && Keyed(Look(room, id), id);
    if i.packet.CloseAll? {
      CloseOrderIsExact(room);
      forall k | k in CloseOrder(room) ensures AllAbout(life(Look(room, k), i).events, k) {
        assert Owned(life, Look(room, k), i, k) && Keyed(Look(room, k), k);
      }
      AboutEach(life, room, CloseOrder(room), i, id);
    } else {
      var own := if i.packet.HeaderPacket? then i.packet.header.id else i.packet.id;
      assert Owned(life, Look(room, own), i, own) && Keyed(Look(room, own), own);
      AboutUniform(life(Look(room, own), i).events, own, id);
    }
  }

  lemma {:induction false} LocalRuns(life: (Slot, Input) -> Reaction, step: (Room, Input) -> Outcome<Room, Emission>,
                                     room: Room, inputs: seq<Input>, id: string)
    requires forall slot, i, k :: Owned(life, slot, i, k)
    requires forall r, i :: step(r, i) == RoomStep(life, r, i)
    requires RoomKeyed(room)
    ensures RoomKeyed(Run(step, room, inputs).state)
    ensures Look(Run(step, room, inputs).state, id) == Run(life, Look(room, id), Only(inputs, id)).state
    ensures About(Run(step, room, inputs).events, id) == Run(life, Look(room, id), Only(inputs, id)).events
  {
    if inputs != [] {
      var before, last := inputs[..|inputs| - 1], inputs[|inputs| - 1];
      var r := Run(step, room, before);
      LocalRuns(life, step, room, before, id);
      var s := step(r.state, last);
      StepIsLocal(life, r.state, last, id);
      forall k ensures Keyed(Look(s.state, k), k) {
        StepIsLocal(life, r.state, last, k);
      }
      AboutConcat(r.events, s.events, id);
      var own := Only(before, id);
      if Concerns(last.packet, id) {
        assert Only(inputs, id) == own + [last] && (own + [last])[..|own|] == own;
      } else {
        assert Only(inputs, id) == own;
      }
    }
  }

  /**
    * Interleaving independence: however the packets of many streams are interleaved, the final state
    * and the events of each stream id are those of its own machine fed with its own packets.
    */
  lemma InterleavingIndependence(c: Codec, room: Room, inputs: seq<Input>, id: string)
    requires RoomKeyed(room)
    ensures RoomKeyed(Run(Receiver(c), room, inputs).state)
    ensures Look(Run(Receiver(c), room, inputs).state, id) == Run(Life(c), Look(room, id), Only(inputs, id)).state
    ensures About(Run(Receiver(c), room, inputs).events, id) == Run(Life(c), Look(room, id), Only(inputs, id)).events
  {
    forall slot, i, k ensures Owned(Life(c), slot, i, k) {
      LifeIsOwned(c, slot, i, k);
    }
    LocalRuns(Life(c), Receiver(c), room, inputs, id);
  }
}
