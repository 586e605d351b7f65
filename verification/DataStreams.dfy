/**
  * Incoming data streams, specified by history: an open stream is its header and the raw chunks
  * accepted since. No counter and no buffer appears here; what a receiver must do is a function of
  * that history. `StreamTable` implements it with the counters and maps of the room.
  */
module DataStreams {
  import opened Wire
  import opened Inflate
  import opened Machines
  import opened Ordering

  /** kMaximumBufferedDataStreamSize */
  const CAP: u64 := 64 * 1024 * 1024

  datatype Kind = Text | Bytes
  datatype Compression = NoCompression | DeflateRaw | OtherCompression
  type Handler = nat

  /** Fields that are copied and never examined, except that `name` decides on a file event. */
  datatype Details = Details(name: string, mimeType: string, timestamp: int, replyTo: string, attached: seq<string>)

  datatype Header = Header(
    kind: Kind, id: string, topic: string, sender: string, compression: Compression,
    total: Option<u64>, inlined: Option<seq<byte>>, attributes: map<string, string>, details: Details)

  datatype Packet =
    | HeaderPacket(header: Header)
    | ChunkPacket(id: string, index: u64, content: seq<byte>)
    | TrailerPacket(id: string, reason: string, attributes: map<string, string>)
    | CloseAll(reason: string)  // FailIncomingDataStreams, on disconnection

  /** A packet together with the handlers registered and the listener attached when it arrives. */
  datatype Input = Input(texts: map<string, Handler>, files: map<string, Handler>, listening: bool, packet: Packet)
  {
    function HandlerOf(kind: Kind, topic: string): Option<Handler> {
      var handlers := if kind == Text then texts else files;
      if topic in handlers then Some(handlers[topic]) else None
    }
  }

  datatype Info = Info(
    id: string, kind: Kind, topic: string, sender: string, total: Option<u64>,
    attributes: map<string, string>, details: Details)

  datatype Event =
    | Opened(info: Info, handler: Handler)
    | Chunk(info: Info, handler: Handler, content: seq<byte>, index: u64)
    | Closed(info: Info, handler: Handler)
    | Failed(info: Info, handler: Handler, index: u64, reason: string)
    | Received(info: Info, content: seq<byte>)      // OnTextReceived, OnByteReceived
    | FileReceived(info: Info, content: seq<byte>)  // OnFileReceived

  /** An event and the instance of its stream id (the how-manieth accepted header) it belongs to. */
  datatype Emission = Emission(instance: nat, event: Event)

  function InfoOf(h: Header): Info {
    Info(h.id, h.kind, h.topic, h.sender, h.total, h.attributes, h.details)
  }

  /** chunk_index and next_chunk are 64-bit. */
  function Index(n: nat): u64 {
    n % 0x1_0000_0000_0000_0000
  }

  datatype Stream = Stream(header: Header, handler: Option<Handler>, instance: nat, chunks: seq<seq<byte>>)
  {
    function Raw(): seq<byte> { Concat(chunks) }

    /** What the chunks decode to. */
    function Content(c: Codec): seq<byte> {
      if header.compression == DeflateRaw then c.Out(Raw()) else Raw()
    }

    function Extend(chunk: seq<byte>): Stream { this.(chunks := chunks + [chunk]) }

    /** The bytes a further chunk adds. */
    function Piece(c: Codec, chunk: seq<byte>): seq<byte> {
      var before, after := Content(c), Extend(chunk).Content(c);
      if |before| <= |after| then after[|before|..] else []
    }

    /** The sizes that every accepted stream respects. */
    ghost predicate Within(c: Codec) {
      && |Content(c)| < TWO_64
      && (header.total.Some? ==> |Content(c)| <= header.total.value)
      && (handler.None? ==> |Content(c)| <= CAP)
      && (header.compression == DeflateRaw ==> |Raw()| <= CAP && |Content(c)| <= CAP && !c.Bad(Raw()))
    }

    /** A chunk is taken when it is the next one, still decodes, and keeps the sizes. */
    ghost predicate Takes(c: Codec, index: u64, chunk: seq<byte>) {
      && index == Index(|chunks|)
      && (header.compression == DeflateRaw ==>
            !c.Complete(Raw()) && Accepts(c, CAP, Raw() + chunk, |Raw()|))
      && Extend(chunk).Within(c)
    }

    ghost predicate EndsWell(c: Codec, reason: string) {
      && reason == ""
      && (header.compression == DeflateRaw ==> c.Complete(Raw()))
      && (header.total.Some? ==> |Content(c)| == header.total.value)
    }
  }

  predicate Admissible(h: Header, handler: Option<Handler>) {
    && h.id != "" && h.compression != OtherCompression
    && (h.total.Some? && (h.compression == DeflateRaw || handler.None?) ==> h.total.value <= CAP)
  }

  /** The decoded inline content of a header, if it decodes and has the declared length. */
  ghost function InlineContent(c: Codec, h: Header): Option<seq<byte>>
    requires h.inlined.Some?
  {
    var raw := h.inlined.value;
    var content :=
      if h.compression == DeflateRaw
      then if |raw| < TWO_32 && Accepts(c, CAP, raw, 0) && c.Complete(raw) then Some(c.Out(raw)) else None
      else if |raw| <= CAP then Some(raw) else None;
    if content.Some? && h.total.Some? && |content.value| != h.total.value then None else content
  }

  /** All that a receiver knows about one stream id: the open stream, if any, and the headers accepted. */
  datatype Slot = Slot(stream: Option<Stream>, born: nat)

  const EmptySlot := Slot(None, 0)

  type Reaction = Outcome<Slot, Emission>

  /** What the listener is told about a stream received as a whole. */
  function Delivery(instance: nat, info: Info, content: seq<byte>, listening: bool): seq<Emission> {
    if !listening then [] else
    [Emission(instance, Received(info, content))]
    + if info.kind == Bytes && info.details.name != "" then [Emission(instance, FileReceived(info, content))] else []
  }

  /** A handler is told about the failure of its stream. */
  function Failure(s: Stream, info: Info, index: u64, reason: string): seq<Emission> {
    if s.handler.Some? then [Emission(s.instance, Failed(info, s.handler.value, index, reason))] else []
  }

  /** A header is ignored unless it is admissible and its inline content, if any, decodes. */
  ghost predicate Ignored(c: Codec, i: Input, h: Header) {
    !Admissible(h, i.HandlerOf(h.kind, h.topic)) || (h.inlined.Some? && InlineContent(c, h).None?)
  }

  ghost function OnHeader(c: Codec, slot: Slot, i: Input, h: Header): Reaction {
    var handler, n, info := i.HandlerOf(h.kind, h.topic), slot.born, InfoOf(h);
    if Ignored(c, i, h) then Outcome(slot, [])
    else if h.inlined.Some? then
      var content := InlineContent(c, h).value;
      Outcome(
        slot.(born := n + 1),
        if handler.Some?
        then [Emission(n, Opened(info, handler.value)), Emission(n, Chunk(info, handler.value, content, 0)),
              Emission(n, Closed(info, handler.value))]
        else Delivery(n, info, content, i.listening))
    else
      Outcome(
        Slot(Some(Stream(h, handler, n, [])), n + 1),
        if handler.Some? then [Emission(n, Opened(info, handler.value))] else [])
  }

  ghost function OnChunk(c: Codec, slot: Slot, index: u64, chunk: seq<byte>): Reaction {
    if slot.stream.None? then Outcome(slot, []) else
    var s := slot.stream.value;
    if s.Takes(c, index, chunk) then
      Outcome(
        slot.(stream := Some(s.Extend(chunk))),
        if s.handler.Some?
        then [Emission(s.instance, Chunk(InfoOf(s.header), s.handler.value, s.Piece(c, chunk), index))]
        else [])
    else
      Outcome(slot.(stream := None), Failure(s, InfoOf(s.header), index, "invalid stream chunk"))
  }

  ghost function OnTrailer(c: Codec, slot: Slot, listening: bool, reason: string, attributes: map<string, string>): Reaction {
    if slot.stream.None? then Outcome(slot, []) else
    var s := slot.stream.value;
    var info := InfoOf(s.header).(attributes := s.header.attributes + attributes);
    Outcome(
      slot.(stream := None),
      if !s.EndsWell(c, reason) then Failure(s, info, 0, if reason == "" then "incomplete stream" else reason)
      else if s.handler.Some? then [Emission(s.instance, Closed(info, s.handler.value))]
      else Delivery(s.instance, info, s.Content(c), listening))
  }

  function OnCloseAll(slot: Slot, reason: string): Reaction {
    if slot.stream.None? then Outcome(slot, []) else
    var s := slot.stream.value;
    Outcome(slot.(stream := None), Failure(s, InfoOf(s.header), 0, reason))
  }

  /** The life of one stream id, as a machine over the packets that concern it. */
  ghost function Life(c: Codec): (Slot, Input) -> Reaction {
    (slot: Slot, i: Input) =>
      match i.packet
      case HeaderPacket(h) => OnHeader(c, slot, i, h)
      case ChunkPacket(_, index, content) => OnChunk(c, slot, index, content)
      case TrailerPacket(_, reason, attributes) => OnTrailer(c, slot, i.listening, reason, attributes)
      case CloseAll(reason) => OnCloseAll(slot, reason)
  }

  type Room = map<string, Slot>

  function Look(room: Room, id: string): Slot {
    if id in room then room[id] else EmptySlot
  }

  /** The ids open with one kind. */
  function OpenIds(room: Room, kind: Kind): set<string> {
    set id | id in room && room[id].stream.Some? && room[id].stream.value.header.kind == kind
  }

  /** The order in which open streams are failed: text streams first, each kind in key order. */
  ghost function CloseOrder(room: Room): seq<string> {
    InOrder(OpenIds(room, Text)) + InOrder(OpenIds(room, Bytes))
  }

  /** The events of each of `ids`, in that order. */
  function EventsOfEach(life: (Slot, Input) -> Reaction, room: Room, ids: seq<string>, i: Input): seq<Emission> {
    if ids == [] then [] else
    EventsOfEach(life, room, ids[..|ids| - 1], i) + life(Look(room, ids[|ids| - 1]), i).events
  }

  /** A packet concerns one id; a disconnection concerns all. */
  ghost function RoomStep(life: (Slot, Input) -> Reaction, room: Room, i: Input): Outcome<Room, Emission> {
    if i.packet.CloseAll? then
      Outcome(
        map id | id in room :: life(room[id], i).state,
        EventsOfEach(life, room, CloseOrder(room), i))
    else
      var id := if i.packet.HeaderPacket? then i.packet.header.id else i.packet.id;
      var r := life(Look(room, id), i);
      Outcome(room[id := r.state], r.events)
  }

  ghost function Receiver(c: Codec): (Room, Input) -> Outcome<Room, Emission> {
    (room: Room, i: Input) => RoomStep(Life(c), room, i)
  }
}
