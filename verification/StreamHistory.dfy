/** What a delivered stream contains, and in which order a handler hears about it. */
module StreamHistory {
  import opened Wire
  import opened Inflate
  import opened Machines
  import opened DataStreams
  import opened StreamIndependence

  // ----- Contents only grow -----

  lemma ContentGrows(c: Codec, s: Stream, chunk: seq<byte>)
    requires c.Valid()
    ensures s.Extend(chunk).Raw() == s.Raw() + chunk
    ensures s.Content(c) <= s.Extend(chunk).Content(c)
    ensures s.Extend(chunk).Content(c) == s.Content(c) + s.Piece(c, chunk)
  {
    ConcatSnoc(s.chunks, chunk);
    OutMonotone(c, s.Raw(), chunk);
  }

  // ----- The packets behind an open stream -----

  /** A header that opens a stream. */
  ghost predicate Opens(c: Codec, i: Input) {
    i.packet.HeaderPacket? && !Ignored(c, i, i.packet.header) && i.packet.header.inlined.None?
  }

  /** Inputs without the headers that leave an open stream alone (ignored ones and inline ones). */
  ghost function Relevant(c: Codec, inputs: seq<Input>): seq<Input> {
    if inputs == [] then [] else
    var last := inputs[|inputs| - 1];
    Relevant(c, inputs[..|inputs| - 1]) + if last.packet.HeaderPacket? && !Opens(c, last) then [] else [last]
  }

  /** `inputs` end with the header of `s` and then exactly its chunks, numbered from 0. */
  ghost predicate EndWith(inputs: seq<Input>, id: string, s: Stream) {
    var n := |s.chunks|;
    && n + 1 <= |inputs|
    && var start := inputs[|inputs| - n - 1];
    && start.packet == HeaderPacket(s.header) && s.header.id == id
    && s.handler == start.HandlerOf(s.header.kind, s.header.topic)
    && Admissible(s.header, s.handler)
    && forall k :: 0 <= k < n ==>
         inputs[|inputs| - n + k].packet == ChunkPacket(id, Index(k), s.chunks[k])
  }

  lemma EndWithOneMore(inputs: seq<Input>, id: string, s: Stream, i: Input)
    requires EndWith(inputs, id, s) && i.packet.ChunkPacket?
    requires i.packet.id == id && i.packet.index == Index(|s.chunks|)
    ensures EndWith(inputs + [i], id, s.Extend(i.packet.content))
  {
    var s', all := s.Extend(i.packet.content), inputs + [i];
    forall k | 0 <= k < |s'.chunks|
      ensures all[|all| - |s'.chunks| + k].packet == ChunkPacket(id, Index(k), s'.chunks[k])
    {
      assert k < |s.chunks| ==> all[|all| - |s'.chunks| + k] == inputs[|inputs| - |s.chunks| + k];
    }
  }

  lemma FreshStreamWithin(c: Codec, h: Header, handler: Option<Handler>, n: nat)
    requires c.Valid()
    ensures Stream(h, handler, n, []).Within(c)
  {
  }

  /** What is known of the stream in a slot from the inputs that led there. */
  ghost predicate Accounted(c: Codec, slot: Slot, inputs: seq<Input>, id: string) {
    slot.stream.Some? ==> slot.stream.value.Within(c) && EndWith(inputs, id, slot.stream.value)
  }

  lemma AccountedStep(c: Codec, slot: Slot, inputs: seq<Input>, i: Input, id: string)
    requires c.Valid() && Accounted(c, slot, inputs, id) && Concerns(i.packet, id)
    ensures Accounted(c, Life(c)(slot, i).state, inputs + if i.packet.HeaderPacket? && !Opens(c, i) then [] else [i], id)
  {
    match i.packet
    case HeaderPacket(h) =>
      assert Life(c)(slot, i) == OnHeader(c, slot, i, h);
      if Opens(c, i) {
        FreshStreamWithin(c, h, i.HandlerOf(h.kind, h.topic), slot.born);
      } else {
        assert inputs + [] == inputs;
      }
    case ChunkPacket(_, index, chunk) =>
      var r := OnChunk(c, slot, index, chunk);
      assert Life(c)(slot, i) == r;
      if slot.stream.Some? && slot.stream.value.Takes(c, index, chunk) {
        EndWithOneMore(inputs, id, slot.stream.value, i);
      }
    case TrailerPacket(_, reason, attributes) =>
      assert Life(c)(slot, i) == OnTrailer(c, slot, i.listening, reason, attributes);
    case CloseAll(_) =>
  }

  /** An open stream is accounted for by the packets received for its id, and respects all sizes. */
  lemma {:induction false} OpenStreamHistory(c: Codec, inputs: seq<Input>, id: string)
    requires c.Valid() && forall i :: i in inputs ==> Concerns(i.packet, id)
    ensures Accounted(c, Run(Life(c), EmptySlot, inputs).state, Relevant(c, inputs), id)
  {
    if inputs != [] {
      var before, last := inputs[..|inputs| - 1], inputs[|inputs| - 1];
      OpenStreamHistory(c, before, id);
      AccountedStep(c, Run(Life(c), EmptySlot, before).state, Relevant(c, before), last, id);
    }
  }

  lemma {:induction false} OnlyConcerns(inputs: seq<Input>, id: string)
    ensures forall i :: i in Only(inputs, id) ==> Concerns(i.packet, id)
  {
    if inputs != [] {
      OnlyConcerns(inputs[..|inputs| - 1], id);
    }
  }

  lemma TrailerDelivers(c: Codec, slot: Slot, i: Input, e: Emission)
    requires i.packet.TrailerPacket? && e in Life(c)(slot, i).events
    requires e.event.Received? || e.event.FileReceived?
    ensures slot.stream.Some? && slot.stream.value.handler.None? && i.packet.reason == ""
    ensures slot.stream.value.EndsWell(c, "") && e.event.content == slot.stream.value.Content(c)
  {
    var r := OnTrailer(c, slot, i.listening, i.packet.reason, i.packet.attributes);
    assert Life(c)(slot, i) == r;
  }

  /**
    * Reassembly: content handed to the listener when a trailer arrives is the decoding of the chunks
    * received for that id since its last chunked header, in index order from 0 with none missing. It
    * has the declared length, if one was declared, and is at most 64 MiB long.
    */
  lemma Reassembly(c: Codec, inputs: seq<Input>, i: Input, e: Emission) returns (s: Stream)
    requires c.Valid() && i.packet.TrailerPacket?
    requires e in RoomStep(Life(c), Run(Receiver(c), map[], inputs).state, i).events
    requires e.event.Received? || e.event.FileReceived?
    ensures EndWith(Relevant(c, Only(inputs, i.packet.id)), i.packet.id, s)
    ensures e.event.content == s.Content(c) && |e.event.content| <= CAP
    ensures s.header.compression == NoCompression ==> e.event.content == Concat(s.chunks)
    ensures s.header.compression == DeflateRaw ==>
              c.Complete(Concat(s.chunks)) && e.event.content == c.Out(Concat(s.chunks))
    ensures s.header.total.Some? ==> |e.event.content| == s.header.total.value
    ensures s.handler.None? && i.packet.reason == ""
  {
    var id, room := i.packet.id, Run(Receiver(c), map[], inputs).state;
    InterleavingIndependence(c, map[], inputs, id);
    OnlyConcerns(inputs, id);
    OpenStreamHistory(c, Only(inputs, id), id);
    TrailerDelivers(c, Look(room, id), i, e);
    s := Look(room, id).stream.value;
  }
}
