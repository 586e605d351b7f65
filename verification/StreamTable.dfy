/**
  * The stream branches of Room::DataPacketEvent with their two maps, their 64-bit counters and their
  * buffers, proved to do what `DataStreams` specifies. Unsigned arithmetic is `Sub64` and `Add64`,
  * so a subtraction that wrapped would break the proof.
  */
module StreamTable {
  import opened Wire
  import opened Inflate
  import opened Ordering
  import opened DataStreams
  import opened StreamIndependence
  import opened StreamHistory

  /** IncomingText and IncomingFile. */
  datatype Incoming = Incoming(
    info: Info, handler: Option<Handler>, expected: Option<u64>, received: u64, compressed: u64, next: u64,
    buffered: seq<byte>, inflater: Option<Inflater>)

  /** The counters and buffers of a record say what the history of its stream says. */
  ghost predicate Represents(c: Codec, inc: Incoming, s: Stream) {
    && s.Within(c) && s.header.compression != OtherCompression
    && inc.info == InfoOf(s.header) && inc.handler == s.handler && inc.expected == s.header.total
    && inc.received == |s.Content(c)| && inc.next == Index(|s.chunks|)
    && inc.buffered == (if s.handler.None? then s.Content(c) else [])
    && (s.header.compression == NoCompression ==> inc.inflater.None?)
    && (s.header.compression == DeflateRaw ==>
          && inc.inflater.Some? && inc.inflater.value.Intact(c, CAP) && inc.inflater.value.fed == s.Raw()
          && inc.compressed == |s.Raw()|)
  }

  lemma IndexSuccessor(n: nat)
    ensures Index(n + 1) == Add64(Index(n), 1)
  {
  }

  /** `content` and `content_valid`: the chunk itself, or what the stream's inflater makes of it. */
  method DecodeChunk(c: Codec, inc: Incoming, chunk: seq<byte>, ghost s: Stream)
    returns (ok: bool, next: Incoming, piece: seq<byte>)
    requires c.Valid() && Represents(c, inc, s)
    ensures ok <==> (s.header.compression == DeflateRaw ==>
                       && |s.Raw() + chunk| <= CAP && !c.Complete(s.Raw())
                       && Accepts(c, CAP, s.Raw() + chunk, |s.Raw()|))
    ensures ok ==> piece == s.Piece(c, chunk)
    ensures s.header.compression == NoCompression ==> next == inc
    ensures ok && s.header.compression == DeflateRaw ==>
              && next == inc.(compressed := |s.Raw() + chunk|, inflater := next.inflater)
              && next.inflater.Some? && next.inflater.value.Intact(c, CAP) && next.inflater.value.fed == s.Raw() + chunk
  {
    ContentGrows(c, s, chunk);
    next, piece, ok := inc, chunk, true;
    if inc.inflater.Some? {
      piece, ok := [], false;
      if |chunk| <= Sub64(CAP, inc.compressed) {
        var inflater := new InflateRawStream.Resume(c, CAP, true, inc.inflater.value);
        ok, piece := inflater.Write(chunk);
        if ok {
          next := next.(compressed := Add64(inc.compressed, |chunk|), inflater := Some(inflater.Snapshot()));
        }
      }
    }
  }

  /** The test and the update of one chunk, in the order of the source. */
  method TakeChunk(c: Codec, inc: Incoming, index: u64, chunk: seq<byte>, ghost s: Stream)
    returns (ok: bool, next: Incoming, piece: seq<byte>)
    requires c.Valid() && Represents(c, inc, s)
    ensures ok <==> s.Takes(c, index, chunk)
    ensures ok ==> Represents(c, next, s.Extend(chunk)) && piece == s.Piece(c, chunk)
  {
    ContentGrows(c, s, chunk);
    IndexSuccessor(|s.chunks|);
    ok, next, piece := DecodeChunk(c, inc, chunk, s);
    if !ok || index != inc.next
       || |piece| > Sub64(TWO_64 - 1, inc.received)
       || (inc.expected.Some? && (inc.received > inc.expected.value || |piece| > Sub64(inc.expected.value, inc.received)))
       || (inc.handler.None? && |piece| > Sub64(CAP, |inc.buffered|))
    {
      ok := false;
    } else {
      next := next.(received := Add64(inc.received, |piece|), next := Add64(inc.next, 1));
      if inc.handler.None? {
        next := next.(buffered := inc.buffered + piece);
      }
    }
  }

  method DecodeInlineContent(c: Codec, h: Header) returns (ok: bool, content: seq<byte>)
    requires c.Valid() && h.inlined.Some? && h.compression != OtherCompression
    ensures ok && (h.total.Some? ==> |content| == h.total.value) <==> InlineContent(c, h).Some?
    ensures InlineContent(c, h).Some? ==> content == InlineContent(c, h).value
  {
    var raw := h.inlined.value;
    if h.compression == NoCompression {
      content := raw;
      ok := |content| <= CAP;
    } else {
      var inflater := new InflateRawStream.Resume(c, CAP, true, FreshInflater);
      assert [] + raw == raw;
      ok, content := inflater.Write(raw);
      ok := ok && inflater.finished;
    }
  }

  /** Emissions as the callbacks see them, without the instance they belong to. */
  function Events(es: seq<Emission>): seq<Event> {
    seq(|es|, k requires 0 <= k < |es| => es[k].event)
  }

  lemma EventsConcat(a: seq<Emission>, b: seq<Emission>)
    ensures Events(a + b) == Events(a) + Events(b)
  {
  }

  predicate IsOpen(room: Room, id: string, kind: Kind) {
    Look(room, id).stream.Some? && Look(room, id).stream.value.header.kind == kind
  }

  /** A map of records holds exactly the open streams of one kind, faithfully. */
  ghost predicate HoldsAt(c: Codec, room: Room, records: map<string, Incoming>, kind: Kind, id: string) {
    && (id in records <==> IsOpen(room, id, kind))
    && (id in records ==> Represents(c, records[id], Look(room, id).stream.value))
  }

  ghost predicate Table(c: Codec, room: Room, texts: map<string, Incoming>, files: map<string, Incoming>) {
    forall id :: TableAt(c, room, texts, files, id)
  }

  ghost predicate TableAt(c: Codec, room: Room, texts: map<string, Incoming>, files: map<string, Incoming>, id: string) {
    Keyed(Look(room, id), id) && HoldsAt(c, room, texts, Text, id) && HoldsAt(c, room, files, Bytes, id)
  }

  /** An id is never open as both text and bytes. */
  lemma NeverBoth(c: Codec, room: Room, texts: map<string, Incoming>, files: map<string, Incoming>, id: string)
    requires Table(c, room, texts, files)
    ensures !(id in texts && id in files)
  {
    assert TableAt(c, room, texts, files, id);
  }

  lemma PutKeepsTable(c: Codec, room: Room, texts: map<string, Incoming>, files: map<string, Incoming>,
                      id: string, slot: Slot, inc: Incoming)
    requires Table(c, room, texts, files)
    requires slot.stream.Some? && slot.stream.value.header.id == id && Represents(c, inc, slot.stream.value)
    ensures slot.stream.value.header.kind == Text ==> Table(c, room[id := slot], texts[id := inc], files - {id})
    ensures slot.stream.value.header.kind == Bytes ==> Table(c, room[id := slot], texts - {id}, files[id := inc])
  {
    var isText := slot.stream.value.header.kind == Text;
    var texts', files' := if isText then texts[id := inc] else texts - {id}, if isText then files - {id} else files[id := inc];
    var room' := room[id := slot];
    forall k ensures TableAt(c, room', texts', files', k) {
      assert TableAt(c, room, texts, files, k);
    }
  }

  lemma DropKeepsTable(c: Codec, room: Room, texts: map<string, Incoming>, files: map<string, Incoming>, id: string, slot: Slot)
    requires Table(c, room, texts, files)
    requires slot.stream.None?
    ensures Table(c, room[id := slot], texts - {id}, files - {id})
  {
    var room', texts', files' := room[id := slot], texts - {id}, files - {id};
    forall k ensures TableAt(c, room', texts', files', k) {
      assert TableAt(c, room, texts, files, k);
    }
  }

  lemma SameStreamKeepsTable(c: Codec, room: Room, texts: map<string, Incoming>, files: map<string, Incoming>, id: string, slot: Slot)
    requires Table(c, room, texts, files)
    requires slot.stream == Look(room, id).stream
    ensures Table(c, room[id := slot], texts, files)
  {
    var room' := room[id := slot];
    forall k ensures TableAt(c, room', texts, files, k) {
      assert TableAt(c, room, texts, files, k);
    }
  }

  lemma KeysAreOpenIds(c: Codec, room: Room, texts: map<string, Incoming>, files: map<string, Incoming>)
    requires Table(c, room, texts, files)
    ensures texts.Keys == OpenIds(room, Text) && files.Keys == OpenIds(room, Bytes)
  {
    forall id ensures (id in texts <==> id in OpenIds(room, Text)) && (id in files <==> id in OpenIds(room, Bytes)) {
      assert TableAt(c, room, texts, files, id);
    }
  }

  lemma OneFailure(c: Codec, room: Room, texts: map<string, Incoming>, files: map<string, Incoming>, id: string, i: Input)
    requires Table(c, room, texts, files) && i.packet.CloseAll?
    requires id in texts || id in files
    ensures var inc := if id in texts then texts[id] else files[id];
            Events(Life(c)(Look(room, id), i).events) ==
              if inc.handler.Some? then [Failed(inc.info, inc.handler.value, 0, i.packet.reason)] else []
  {
    assert TableAt(c, room, texts, files, id);
    assert Life(c)(Look(room, id), i) == OnCloseAll(Look(room, id), i.packet.reason);
  }

  lemma ClosedTable(c: Codec, room: Room, texts: map<string, Incoming>, files: map<string, Incoming>, i: Input)
    requires Table(c, room, texts, files) && i.packet.CloseAll?
    ensures Table(c, RoomStep(Life(c), room, i).state, map[], map[])
  {
    var closed := RoomStep(Life(c), room, i).state;
    forall id ensures TableAt(c, closed, map[], map[], id) {
      assert Look(closed, id) == if id in room then OnCloseAll(room[id], i.packet.reason).state else EmptySlot;
    }
  }

  class IncomingStreams {
    const codec: Codec
    var textHandlers: map<string, Handler>
    var byteHandlers: map<string, Handler>
    var listening: bool
    var texts: map<string, Incoming>
    var files: map<string, Incoming>
    ghost var room: Room  // what `DataStreams` says about the packets handled so far

    ghost predicate Valid()
      reads this
    {
      codec.Valid() && Table(codec, room, texts, files)
    }

    ghost function At(packet: Packet): Input
      reads this
    {
      Input(textHandlers, byteHandlers, listening, packet)
    }

    constructor (codec: Codec)
      requires codec.Valid()
      ensures Valid() && this.codec == codec && room == map[] && texts == map[] && files == map[]
    {
      this.codec := codec;
      textHandlers, byteHandlers, listening, texts, files := map[], map[], false, map[], map[];
      room := map[];
    }

    /** A header with its content inline, after the tests common to all headers. */
    method OnInlineHeader(h: Header, handler: Option<Handler>) returns (events: seq<Event>)
      requires Valid() && h.inlined.Some? && Admissible(h, handler)
      requires handler == At(HeaderPacket(h)).HandlerOf(h.kind, h.topic)
      modifies this`room
      ensures Valid()
      ensures var spec := OnHeader(codec, Look(old(room), h.id), At(HeaderPacket(h)), h);
              room == old(room)[h.id := spec.state] && events == Events(spec.events)
    {
      ghost var spec := OnHeader(codec, Look(room, h.id), At(HeaderPacket(h)), h);
      var info := InfoOf(h);
      events := [];
      var ok, content := DecodeInlineContent(codec, h);
      SameStreamKeepsTable(codec, room, texts, files, h.id, spec.state);
      room := room[h.id := spec.state];
      if !ok || (h.total.Some? && |content| != h.total.value) {
        return;
      }
      if handler.Some? {
        events := [Opened(info, handler.value), Chunk(info, handler.value, content, 0), Closed(info, handler.value)];
      } else if listening {
        events := [Received(info, content)];
        if h.kind == Bytes && h.details.name != "" {
          events := events + [FileReceived(info, content)];
        }
      }
    }

    /** A chunked header replaces whatever was open under its id, in either map. */
    method OpenStream(h: Header, handler: Option<Handler>) returns (events: seq<Event>)
      requires Valid() && h.inlined.None? && Admissible(h, handler)
      requires handler == At(HeaderPacket(h)).HandlerOf(h.kind, h.topic)
      modifies this`texts, this`files, this`room
      ensures Valid()
      ensures var spec := OnHeader(codec, Look(old(room), h.id), At(HeaderPacket(h)), h);
              room == old(room)[h.id := spec.state] && events == Events(spec.events)
    {
      ghost var spec := OnHeader(codec, Look(room, h.id), At(HeaderPacket(h)), h);
      events := [];
      var inflater := if h.compression == DeflateRaw then Some(FreshInflater) else None;
      var incoming := Incoming(InfoOf(h), handler, h.total, 0, 0, 0, [], inflater);
      FreshStreamWithin(codec, h, handler, Look(room, h.id).born);
      PutKeepsTable(codec, room, texts, files, h.id, spec.state, incoming);
      if h.kind == Text {
        files := files - {h.id};
        texts := texts[h.id := incoming];
      } else {
        texts := texts - {h.id};
        files := files[h.id := incoming];
      }
      room := room[h.id := spec.state];
      if handler.Some? {
        events := [Opened(InfoOf(h), handler.value)];
      }
    }

    /** Either header branch: `h.kind` selects the handler table and the map. */
    method OnStreamHeader(h: Header) returns (events: seq<Event>)
      requires Valid()
      modifies this`texts, this`files, this`room
      ensures Valid()
      ensures var spec := OnHeader(codec, Look(old(room), h.id), At(HeaderPacket(h)), h);
              room == old(room)[h.id := spec.state] && events == Events(spec.events)
    {
      ghost var spec := OnHeader(codec, Look(room, h.id), At(HeaderPacket(h)), h);
      events := [];
      var handlers := if h.kind == Text then textHandlers else byteHandlers;
      var handler := if h.topic in handlers then Some(handlers[h.topic]) else None;
      if h.id == "" || h.compression == OtherCompression
         || (h.total.Some? && ((h.compression == DeflateRaw && h.total.value > CAP) || (handler.None? && h.total.value > CAP)))
      {
        SameStreamKeepsTable(codec, room, texts, files, h.id, spec.state);
        room := room[h.id := spec.state];
        return;
      }
      if h.inlined.Some? {
        events := OnInlineHeader(h, handler);
        return;
      }
      events := OpenStream(h, handler);
    }

    /** The chunk branch: text streams are looked up first. */
    method OnStreamChunk(id: string, index: u64, content: seq<byte>) returns (events: seq<Event>)
      requires Valid()
      modifies this`texts, this`files, this`room
      ensures Valid()
      ensures var spec := OnChunk(codec, Look(old(room), id), index, content);
              room == old(room)[id := spec.state] && events == Events(spec.events)
    {
      ghost var slot := Look(room, id);
      ghost var spec := OnChunk(codec, slot, index, content);
      events := [];
      assert TableAt(codec, room, texts, files, id);
      if id !in texts && id !in files {
        SameStreamKeepsTable(codec, room, texts, files, id, spec.state);
        room := room[id := spec.state];
        return;
      }
      NeverBoth(codec, room, texts, files, id);
      var isText := id in texts;
      var record := if isText then texts[id] else files[id];
      assert texts - {id} == texts || files - {id} == files;
      var ok, next, piece := TakeChunk(codec, record, index, content, slot.stream.value);
      if !ok {
        DropKeepsTable(codec, room, texts, files, id, spec.state);
        if isText {
          texts := texts - {id};
        } else {
          files := files - {id};
        }
        if record.handler.Some? {
          events := [Failed(record.info, record.handler.value, index, "invalid stream chunk")];
        }
      } else {
        PutKeepsTable(codec, room, texts, files, id, spec.state, next);
        if isText {
          texts := texts[id := next];
        } else {
          files := files[id := next];
        }
        if record.handler.Some? {
          events := [Chunk(record.info, record.handler.value, piece, index)];
        }
      }
      room := room[id := spec.state];
    }

    /** What a trailer makes of one record; the caller erases it. */
    method Finish(inc: Incoming, reason: string, attributes: map<string, string>, ghost slot: Slot) returns (events: seq<Event>)
      requires codec.Valid() && slot.stream.Some? && Represents(codec, inc, slot.stream.value)
      ensures events == Events(OnTrailer(codec, slot, listening, reason, attributes).events)
    {
      events := [];
      var complete := && reason == ""
                      && (inc.inflater.None? || inc.inflater.value.finished)
                      && (inc.expected.None? || inc.received == inc.expected.value);
      var info := inc.info.(attributes := inc.info.attributes + attributes);
      if inc.handler.Some? {
        events := if complete then [Closed(info, inc.handler.value)]
                  else [Failed(info, inc.handler.value, 0, if reason == "" then "incomplete stream" else reason)];
      } else if complete && listening {
        events := [Received(info, inc.buffered)];
        if info.kind == Bytes && info.details.name != "" {
          events := events + [FileReceived(info, inc.buffered)];
        }
      }
    }

    /** The trailer branch looks into both maps; an id is in at most one. */
    method OnStreamTrailer(id: string, reason: string, attributes: map<string, string>) returns (events: seq<Event>)
      requires Valid()
      modifies this`texts, this`files, this`room
      ensures Valid()
      ensures var spec := OnTrailer(codec, Look(old(room), id), listening, reason, attributes);
              room == old(room)[id := spec.state] && events == Events(spec.events)
    {
      ghost var slot := Look(room, id);
      ghost var spec := OnTrailer(codec, slot, listening, reason, attributes);
      events := [];
      assert TableAt(codec, room, texts, files, id);
      DropKeepsTable(codec, room, texts, files, id, spec.state);
      if id in texts {
        events := Finish(texts[id], reason, attributes, slot);
      }
      if id in files {
        events := Finish(files[id], reason, attributes, slot);
      }
      texts, files, room := texts - {id}, files - {id}, room[id := spec.state];
    }

    /** The failures reported for one map, in key order. */
    method FailRecords(records: map<string, Incoming>, kind: Kind, reason: string) returns (events: seq<Event>)
      requires Valid() && records == (if kind == Text then texts else files)
      ensures events == Events(EventsOfEach(Life(codec), room, InOrder(OpenIds(room, kind)), At(CloseAll(reason))))
    {
      KeysAreOpenIds(codec, room, texts, files);
      var order := Visit(records.Keys);
      ghost var i, life := At(CloseAll(reason)), Life(codec);
      events := [];
      for k := 0 to |order|
        invariant events == Events(EventsOfEach(life, room, order[..k], i))
      {
        assert order[k] in order && order[..k + 1][..k] == order[..k];
        var inc := records[order[k]];
        OneFailure(codec, room, texts, files, order[k], i);
        EventsConcat(EventsOfEach(life, room, order[..k], i), life(Look(room, order[k]), i).events);
        if inc.handler.Some? {
          events := events + [Failed(inc.info, inc.handler.value, 0, reason)];
        }
      }
      assert order[..|order|] == order;
    }

    method FailIncomingDataStreams(reason: string) returns (events: seq<Event>)
      requires Valid()
      modifies this`texts, this`files, this`room
      ensures Valid() && texts == map[] && files == map[]
      ensures var spec := RoomStep(Life(codec), old(room), old(At(CloseAll(reason))));
              room == spec.state && events == Events(spec.events)
    {
      ghost var i, life := At(CloseAll(reason)), Life(codec);
      var fromTexts := FailRecords(texts, Text, reason);
      var fromFiles := FailRecords(files, Bytes, reason);
      events := fromTexts + fromFiles;
      EventsOfBoth(life, room, InOrder(OpenIds(room, Text)), InOrder(OpenIds(room, Bytes)), i);
      EventsConcat(EventsOfEach(life, room, InOrder(OpenIds(room, Text)), i),
                   EventsOfEach(life, room, InOrder(OpenIds(room, Bytes)), i));
      ClosedTable(codec, room, texts, files, i);
      texts, files, room := map[], map[], RoomStep(life, room, i).state;
    }

    /** Room::DataPacketEvent on a stream packet, and Room::FailIncomingDataStreams: one step of the receiver. */
    method Handle(packet: Packet) returns (events: seq<Event>)
      requires Valid()
      modifies this`texts, this`files, this`room
      ensures Valid()
      ensures var spec := Receiver(codec)(old(room), old(At(packet)));
              room == spec.state && events == Events(spec.events)
    {
      ghost var was, i := room, At(packet);
      assert Receiver(codec)(was, i) == RoomStep(Life(codec), was, i);
      match packet
      case HeaderPacket(h) =>
        assert Life(codec)(Look(was, h.id), i) == OnHeader(codec, Look(was, h.id), i, h);
        events := OnStreamHeader(h);
      case ChunkPacket(id, index, content) =>
        assert Life(codec)(Look(was, id), i) == OnChunk(codec, Look(was, id), index, content);
        events := OnStreamChunk(id, index, content);
      case TrailerPacket(id, reason, attributes) =>
        assert Life(codec)(Look(was, id), i) == OnTrailer(codec, Look(was, id), listening, reason, attributes);
        events := OnStreamTrailer(id, reason, attributes);
      case CloseAll(reason) => events := FailIncomingDataStreams(reason);
    }
  }

  lemma {:induction false} EventsOfBoth(life: (Slot, Input) -> Reaction, room: Room, a: seq<string>, b: seq<string>, i: Input)
    ensures EventsOfEach(life, room, a + b, i) == EventsOfEach(life, room, a, i) + EventsOfEach(life, room, b, i)
    decreases |b|
  {
    if b == [] {
      assert a + b == a;
    } else {
      EventsOfBoth(life, room, a, b[..|b| - 1], i);
      assert (a + b)[..|a + b| - 1] == a + b[..|b| - 1];
    }
  }
}
