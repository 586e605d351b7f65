/**
  * What a well-formed stream must lead to, and a malformed one, said of the packets alone: header,
  * numbered chunks, trailer.
  */
module StreamDelivery {
  import opened Wire
  import opened Inflate
  import opened Machines
  import opened DataStreams
  import opened StreamIndependence

  /** 64 MiB. */
  const LIMIT := 67108864

  // ----- Packets -----

  /** A chunked header and then chunks numbered from 0. */
  predicate Begins(inputs: seq<Input>, h: Header, chunks: seq<seq<byte>>) {
    && |inputs| == |chunks| + 1 && inputs[0].packet == HeaderPacket(h)
    && forall k :: 0 <= k < |chunks| ==> IsChunk(inputs[k + 1], h.id, k, chunks[k])
  }

  predicate IsChunk(i: Input, id: string, k: nat, content: seq<byte>) {
    i.packet.ChunkPacket? && i.packet.id == id && i.packet.index == k && i.packet.content == content
  }

  /** What the chunks stand for. */
  function Decoding(c: Codec, h: Header, chunks: seq<seq<byte>>): seq<byte> {
    if h.compression == DeflateRaw then c.Out(Concat(chunks)) else Concat(chunks)
  }

  /** The compressed bytes decode without an end or an error before their end, and no empty chunk comes when they are complete. */
  ghost predicate Inflates(c: Codec, chunks: seq<seq<byte>>) {
    var raw := Concat(chunks);
    && (forall n :: 0 <= n < |raw| ==> !c.Stops(raw, n)) && !c.Bad(raw)
    && (forall k :: 0 <= k < |chunks| ==> InTime(c, chunks, k))
    && |raw| <= LIMIT && |c.Out(raw)| <= LIMIT
  }

  ghost predicate InTime(c: Codec, chunks: seq<seq<byte>>, k: nat)
    requires k < |chunks|
  {
    chunks[k] == [] ==> !c.Complete(Concat(chunks[..k]))
  }

  /** A stream that may go on or end: known compression, sizes within what was declared and what can be held. */
  ghost predicate Fits(c: Codec, h: Header, handler: Option<Handler>, chunks: seq<seq<byte>>) {
    var size := |Decoding(c, h, chunks)|;
    && h.id != "" && h.inlined.None? && (h.compression == NoCompression || h.compression == DeflateRaw)
    && (h.total.Some? ==> size <= h.total.value)
    && (h.total.Some? && (handler.None? || h.compression == DeflateRaw) ==> h.total.value <= LIMIT)
    && (handler.None? ==> size <= LIMIT) && size < 0x1_0000_0000_0000_0000
    && (h.compression == DeflateRaw ==> Inflates(c, chunks))
  }

  /** ... and that is whole. */
  ghost predicate IsWhole(c: Codec, h: Header, chunks: seq<seq<byte>>) {
    && (h.total.Some? ==> |Decoding(c, h, chunks)| == h.total.value)
    && (h.compression == DeflateRaw ==> c.Complete(Concat(chunks)))
  }

  // ----- Shorter streams -----

  lemma {:induction false} ConcatFront(parts: seq<seq<byte>>, k: nat)
    requires k <= |parts|
    ensures |Concat(parts[..k])| <= |Concat(parts)| && Concat(parts)[..|Concat(parts[..k])|] == Concat(parts[..k])
    decreases |parts| - k
  {
    if k < |parts| {
      ConcatFront(parts, k + 1);
      assert parts[..k + 1][..k] == parts[..k];
    } else {
      assert parts[..k] == parts;
    }
  }

  lemma ConcatNext(parts: seq<seq<byte>>, k: nat)
    requires k < |parts|
    ensures Concat(parts[..k + 1]) == Concat(parts[..k]) + parts[k]
  {
    assert parts[..k + 1][..k] == parts[..k];
  }

  lemma InflatesFront(c: Codec, chunks: seq<seq<byte>>, k: nat)
    requires c.Valid() && Inflates(c, chunks) && k <= |chunks|
    ensures Inflates(c, chunks[..k])
  {
    var raw, part := Concat(chunks), Concat(chunks[..k]);
    ConcatFront(chunks, k);
    forall n | 0 <= n < |part| ensures !c.Stops(part, n) {
      assert part[..n] == raw[..n] && !c.Stops(raw, n);
    }
    assert !c.Bad(part) by {
      if |part| < |raw| {
        assert part == raw[..|part|] && !c.Stops(raw, |part|);
      } else {
        assert part == raw;
      }
    }
    forall i | 0 <= i < k ensures InTime(c, chunks[..k], i) {
      assert chunks[..k][..i] == chunks[..i] && InTime(c, chunks, i);
    }
    OutMonotone(c, part, raw[|part|..]);
    assert part + raw[|part|..] == raw;
  }

  lemma FitsFront(c: Codec, h: Header, handler: Option<Handler>, chunks: seq<seq<byte>>, k: nat)
    requires c.Valid() && Fits(c, h, handler, chunks) && k <= |chunks|
    ensures Fits(c, h, handler, chunks[..k])
  {
    ConcatFront(chunks, k);
    var raw, part := Concat(chunks), Concat(chunks[..k]);
    OutMonotone(c, part, raw[|part|..]);
    assert part + raw[|part|..] == raw;
    if h.compression == DeflateRaw {
      InflatesFront(c, chunks, k);
    }
  }

  // ----- Chunk by chunk -----

  /** What a chunk adds to what was decoded. */
  function Added(c: Codec, h: Header, chunks: seq<seq<byte>>, k: nat): seq<byte>
    requires k < |chunks|
  {
    var before, now := Decoding(c, h, chunks[..k]), Decoding(c, h, chunks[..k + 1]);
    if |before| <= |now| then now[|before|..] else []
  }

  /** What a handler must hear: Open, and each chunk's decoded bytes under its number. */
  function Hears(c: Codec, h: Header, handler: Option<Handler>, n: nat, chunks: seq<seq<byte>>, k: nat): seq<Emission>
    requires k <= |chunks|
  {
    if handler.None? then [] else
    var info := Info(h.id, h.kind, h.topic, h.sender, h.total, h.attributes, h.details);
    if k == 0 then [Emission(n, Opened(info, handler.value))] else
    Hears(c, h, handler, n, chunks, k - 1) + [Emission(n, Chunk(info, handler.value, Added(c, h, chunks, k - 1), Index(k - 1)))]
  }

  lemma ChunkIsTaken(c: Codec, h: Header, handler: Option<Handler>, n: nat, chunks: seq<seq<byte>>, k: nat)
    requires c.Valid() && Fits(c, h, handler, chunks) && k < |chunks| && k < 0x1_0000_0000_0000_0000
    ensures Stream(h, handler, n, chunks[..k]).Takes(c, k, chunks[k])
  {
    var s := Stream(h, handler, n, chunks[..k]);
    FitsFront(c, h, handler, chunks, k + 1);
    ConcatNext(chunks, k);
    assert s.Extend(chunks[k]).chunks == chunks[..k + 1];
    if h.compression == DeflateRaw {
      var raw, now := Concat(chunks[..k]), Concat(chunks[..k + 1]);
      assert Inflates(c, chunks[..k + 1]);
      assert !c.Complete(raw) by {
        if chunks[k] == [] {
          assert InTime(c, chunks[..k + 1], k) && chunks[..k + 1][..k] == chunks[..k];
        } else {
          assert now[..|raw|] == raw && !c.Stops(now, |raw|);
        }
      }
    }
  }

  lemma TakenChunkIsHeard(c: Codec, h: Header, handler: Option<Handler>, n: nat, chunks: seq<seq<byte>>, k: nat, i: Input)
    returns (r: Reaction)
    requires c.Valid() && Fits(c, h, handler, chunks) && k < |chunks| && IsChunk(i, h.id, k, chunks[k])
    ensures r == Life(c)(Slot(Some(Stream(h, handler, n, chunks[..k])), n + 1), i)
    ensures r.state == Slot(Some(Stream(h, handler, n, chunks[..k + 1])), n + 1)
    ensures Hears(c, h, handler, n, chunks, k) + r.events == Hears(c, h, handler, n, chunks, k + 1)
  {
    var s := Stream(h, handler, n, chunks[..k]);
    var was := Slot(Some(s), n + 1);
    ChunkIsTaken(c, h, handler, n, chunks, k);
    assert s.Extend(chunks[k]).chunks == chunks[..k + 1];
    r := OnChunk(c, was, k, chunks[k]);
    assert Life(c)(was, i) == r;
  }

  // ----- The beginning of a stream -----

  lemma HeaderIsTaken(c: Codec, slot: Slot, i: Input, h: Header, chunks: seq<seq<byte>>)
    requires c.Valid() && i.packet == HeaderPacket(h) && Fits(c, h, i.HandlerOf(h.kind, h.topic), chunks)
    ensures var handler := i.HandlerOf(h.kind, h.topic);
            Life(c)(slot, i) == Outcome(Slot(Some(Stream(h, handler, slot.born, chunks[..0])), slot.born + 1),
                                        Hears(c, h, handler, slot.born, chunks, 0))
  {
    assert Life(c)(slot, i) == OnHeader(c, slot, i, h);
    assert chunks[..0] == [];
  }

  /** What is known after k inputs: nothing at first, then the open stream with its first k - 1 chunks. */
  ghost function Known(c: Codec, slot: Slot, h: Header, handler: Option<Handler>, chunks: seq<seq<byte>>, k: nat): Reaction
    requires k <= |chunks| + 1
  {
    if k == 0 then Outcome(slot, []) else
    Outcome(Slot(Some(Stream(h, handler, slot.born, chunks[..k - 1])), slot.born + 1), Hears(c, h, handler, slot.born, chunks, k - 1))
  }

  /** A stream that fits opens, whatever was there before, and takes each of its chunks. */
  lemma BeginningFollows(c: Codec, slot: Slot, inputs: seq<Input>, h: Header, chunks: seq<seq<byte>>, k: nat)
    requires c.Valid() && Begins(inputs, h, chunks) && k < |inputs|
    requires Fits(c, h, inputs[0].HandlerOf(h.kind, h.topic), chunks)
    ensures var handler := inputs[0].HandlerOf(h.kind, h.topic);
            Follows(Life(c), Known(c, slot, h, handler, chunks, k), inputs[k], Known(c, slot, h, handler, chunks, k + 1))
  {
    var handler := inputs[0].HandlerOf(h.kind, h.topic);
    if k == 0 {
      HeaderFollows(c, slot, inputs[0], h, chunks);
    } else {
      assert IsChunk(inputs[k - 1 + 1], h.id, k - 1, chunks[k - 1]);
      ChunkFollows(c, slot, h, handler, chunks, k, inputs[k]);
    }
  }

  lemma HeaderFollows(c: Codec, slot: Slot, i: Input, h: Header, chunks: seq<seq<byte>>)
    requires c.Valid() && i.packet == HeaderPacket(h) && Fits(c, h, i.HandlerOf(h.kind, h.topic), chunks)
    ensures var handler := i.HandlerOf(h.kind, h.topic);
            Follows(Life(c), Known(c, slot, h, handler, chunks, 0), i, Known(c, slot, h, handler, chunks, 1))
  {
    HeaderIsTaken(c, slot, i, h, chunks);
    var heard := Hears(c, h, i.HandlerOf(h.kind, h.topic), slot.born, chunks, 0);
    assert [] + heard == heard;
  }

  lemma ChunkFollows(c: Codec, slot: Slot, h: Header, handler: Option<Handler>, chunks: seq<seq<byte>>, k: nat, i: Input)
    requires c.Valid() && Fits(c, h, handler, chunks) && 0 < k <= |chunks| && IsChunk(i, h.id, k - 1, chunks[k - 1])
    ensures Follows(Life(c), Known(c, slot, h, handler, chunks, k), i, Known(c, slot, h, handler, chunks, k + 1))
  {
    var before, after := Known(c, slot, h, handler, chunks, k), Known(c, slot, h, handler, chunks, k + 1);
    var r := TakenChunkIsHeard(c, h, handler, slot.born, chunks, k - 1, i);
    assert Life(c)(before.state, i) == r;
    assert before.events + r.events == after.events;
  }

  /** The run of a stream that fits and one more input. */
  lemma BeginningAndOne(life: (Slot, Input) -> Reaction, c: Codec, slot: Slot, inputs: seq<Input>, h: Header, handler: Option<Handler>,
                        chunks: seq<seq<byte>>, t: Input)
    requires |inputs| == |chunks| + 1
    requires forall k: nat :: k < |inputs| ==>
               Follows(life, Known(c, slot, h, handler, chunks, k), inputs[k], Known(c, slot, h, handler, chunks, k + 1))
    ensures var last := life(Slot(Some(Stream(h, handler, slot.born, chunks)), slot.born + 1), t);
            var r := Run(life, slot, inputs + [t]);
            r.state == last.state && r.events == Hears(c, h, handler, slot.born, chunks, |chunks|) + last.events
  {
    BeginningRuns(life, c, slot, inputs, h, handler, chunks);
    RunMore(life, slot, inputs, t);
  }

  lemma BeginningRuns(life: (Slot, Input) -> Reaction, c: Codec, slot: Slot, inputs: seq<Input>, h: Header, handler: Option<Handler>,
                      chunks: seq<seq<byte>>)
    requires |inputs| == |chunks| + 1
    requires forall k: nat :: k < |inputs| ==>
               Follows(life, Known(c, slot, h, handler, chunks, k), inputs[k], Known(c, slot, h, handler, chunks, k + 1))
    ensures Run(life, slot, inputs).state == Slot(Some(Stream(h, handler, slot.born, chunks)), slot.born + 1)
    ensures Run(life, slot, inputs).events == Hears(c, h, handler, slot.born, chunks, |chunks|)
  {
    var at: nat -> Reaction := (k: nat) => if k <= |chunks| + 1 then Known(c, slot, h, handler, chunks, k) else Outcome(slot, []);
    assert forall k: nat :: k < |inputs| ==> Follows(life, at(k), inputs[k], at(k + 1));
    RunFollows(life, inputs, at);
    assert chunks[..|chunks|] == chunks;
  }

  lemma FitsAndOne(c: Codec, slot: Slot, inputs: seq<Input>, h: Header, chunks: seq<seq<byte>>, t: Input, last: Reaction)
    requires c.Valid() && Begins(inputs, h, chunks) && Fits(c, h, inputs[0].HandlerOf(h.kind, h.topic), chunks)
    requires Life(c)(Slot(Some(Stream(h, inputs[0].HandlerOf(h.kind, h.topic), slot.born, chunks)), slot.born + 1), t) == last
    ensures Run(Life(c), slot, inputs + [t]).state == last.state
    ensures Run(Life(c), slot, inputs + [t]).events ==
            Hears(c, h, inputs[0].HandlerOf(h.kind, h.topic), slot.born, chunks, |chunks|) + last.events
  {
    var handler := inputs[0].HandlerOf(h.kind, h.topic);
    forall k: nat | k < |inputs|
      ensures Follows(Life(c), Known(c, slot, h, handler, chunks, k), inputs[k], Known(c, slot, h, handler, chunks, k + 1))
    {
      BeginningFollows(c, slot, inputs, h, chunks, k);
    }
    BeginningAndOne(Life(c), c, slot, inputs, h, handler, chunks, t);
  }

  // ----- Its end -----

  /** The header's information, with the trailer's attributes in place of the header's where both have one. */
  function InfoAtEnd(h: Header, attributes: map<string, string>): Info {
    var merged := map k | k in h.attributes.Keys + attributes.Keys :: if k in attributes then attributes[k] else h.attributes[k];
    Info(h.id, h.kind, h.topic, h.sender, h.total, merged, h.details)
  }

  lemma MergedAttributes(h: Header, attributes: map<string, string>)
    ensures InfoOf(h).(attributes := h.attributes + attributes) == InfoAtEnd(h, attributes)
  {
    assert h.attributes + attributes ==
           map k | k in h.attributes.Keys + attributes.Keys :: if k in attributes then attributes[k] else h.attributes[k];
  }

  /** What must come last: Closed, or the whole content to the listener, and named bytes also as a file. */
  function Completion(h: Header, handler: Option<Handler>, n: nat, content: seq<byte>, listening: bool, info: Info): seq<Emission> {
    if handler.Some? then [Emission(n, Closed(info, handler.value))]
    else if !listening then []
    else if h.kind == Bytes && h.details.name != "" then [Emission(n, Received(info, content)), Emission(n, FileReceived(info, content))]
    else [Emission(n, Received(info, content))]
  }

  function FailedOnly(handler: Option<Handler>, n: nat, info: Info, index: u64, reason: string): seq<Emission> {
    if handler.None? then [] else [Emission(n, Failed(info, handler.value, index, reason))]
  }

  /** What must follow a stream that fits: see `StreamEnds`. */
  ghost function Ending(c: Codec, h: Header, handler: Option<Handler>, n: nat, chunks: seq<seq<byte>>, t: Input): seq<Emission>
    requires t.packet.TrailerPacket?
  {
    var info := InfoAtEnd(h, t.packet.attributes);
    if t.packet.reason == "" && IsWhole(c, h, chunks) then Completion(h, handler, n, Decoding(c, h, chunks), t.listening, info)
    else FailedOnly(handler, n, info, 0, if t.packet.reason == "" then "incomplete stream" else t.packet.reason)
  }

  lemma TrailerEnds(c: Codec, h: Header, handler: Option<Handler>, n: nat, chunks: seq<seq<byte>>, t: Input)
    requires t.packet.TrailerPacket? && h.compression != OtherCompression
    ensures Life(c)(Slot(Some(Stream(h, handler, n, chunks)), n + 1), t) == Outcome(Slot(None, n + 1), Ending(c, h, handler, n, chunks, t))
  {
    var was := Slot(Some(Stream(h, handler, n, chunks)), n + 1);
    assert Life(c)(was, t) == OnTrailer(c, was, t.listening, t.packet.reason, t.packet.attributes);
    MergedAttributes(h, t.packet.attributes);
  }

  /**
    * Delivery: a header, its chunks and a trailer without reason, all well formed and whole, are reported as
    * exactly Open, the chunks and Closed to the handler, or as the whole content to the listener. Any other
    * trailer fails the stream, for the reason it gives or as incomplete.
    */
  lemma StreamEnds(c: Codec, slot: Slot, inputs: seq<Input>, h: Header, chunks: seq<seq<byte>>, t: Input)
    requires c.Valid() && Begins(inputs, h, chunks) && Fits(c, h, inputs[0].HandlerOf(h.kind, h.topic), chunks)
    requires t.packet.TrailerPacket? && t.packet.id == h.id
    ensures Run(Life(c), slot, inputs + [t]).state == Slot(None, slot.born + 1)
    ensures var handler, n := inputs[0].HandlerOf(h.kind, h.topic), slot.born;
            Run(Life(c), slot, inputs + [t]).events ==
            Hears(c, h, handler, n, chunks, |chunks|) + Ending(c, h, handler, n, chunks, t)
  {
    var handler, n := inputs[0].HandlerOf(h.kind, h.topic), slot.born;
    TrailerEnds(c, h, handler, n, chunks, t);
    FitsAndOne(c, slot, inputs, h, chunks, t, Outcome(Slot(None, n + 1), Ending(c, h, handler, n, chunks, t)));
  }

  /** The same in a room with any other streams: the packets of this id are some others and then this stream. */
  lemma StreamEndsInRoom(c: Codec, all: seq<Input>, earlier: seq<Input>, inputs: seq<Input>, h: Header, chunks: seq<seq<byte>>, t: Input)
    requires c.Valid() && Begins(inputs, h, chunks) && Fits(c, h, inputs[0].HandlerOf(h.kind, h.topic), chunks)
    requires t.packet.TrailerPacket? && t.packet.id == h.id && Only(all, h.id) == earlier + (inputs + [t])
    ensures var before := Run(Life(c), EmptySlot, earlier);
            var handler, n := inputs[0].HandlerOf(h.kind, h.topic), before.state.born;
            About(Run(Receiver(c), map[], all).events, h.id) ==
            before.events + (Hears(c, h, handler, n, chunks, |chunks|) + Ending(c, h, handler, n, chunks, t))
  {
    InterleavingIndependence(c, map[], all, h.id);
    RunConcat(Life(c), EmptySlot, earlier, inputs + [t]);
    StreamEnds(c, Run(Life(c), EmptySlot, earlier).state, inputs, h, chunks, t);
  }

  // ----- A further chunk -----

  lemma InflatesIsAccepted(c: Codec, chunks: seq<seq<byte>>)
    ensures Inflates(c, chunks) <==>
            Accepts(c, LIMIT, Concat(chunks), 0) && NoneAfterEnd(c, chunks) && |Concat(chunks)| <= LIMIT
  {
    if NoneAfterEnd(c, chunks) {
      forall k | 0 <= k < |chunks| ensures InTime(c, chunks, k) {
      }
    }
    if forall k :: 0 <= k < |chunks| ==> InTime(c, chunks, k) {
      forall k | 0 <= k < |chunks| && chunks[k] == [] ensures !c.Complete(Concat(chunks[..k])) {
        assert InTime(c, chunks, k);
      }
    }
  }

  lemma InflatesMore(c: Codec, chunks: seq<seq<byte>>, chunk: seq<byte>)
    requires c.Valid() && Inflates(c, chunks)
    ensures var raw := Concat(chunks);
            Inflates(c, chunks + [chunk]) <==>
            !c.Complete(raw) && Accepts(c, LIMIT, raw + chunk, |raw|) && |raw + chunk| <= LIMIT
  {
    var raw, more := Concat(chunks), chunks + [chunk];
    ConcatSnoc(chunks, chunk);
    InflatesIsAccepted(c, chunks);
    InflatesIsAccepted(c, more);
    assert more[..|more| - 1] == chunks && more[|more| - 1] == chunk;
    NoneAfterEndOfFront(c, more);
    LastPiece(c, LIMIT, raw, chunk);
  }

  lemma SizesFit(c: Codec, h: Header, handler: Option<Handler>, n: nat, chunks: seq<seq<byte>>, chunk: seq<byte>)
    requires c.Valid() && Fits(c, h, handler, chunks)
    ensures var size := |Decoding(c, h, chunks + [chunk])|;
            Stream(h, handler, n, chunks).Extend(chunk).Within(c) <==>
            && (h.total.Some? ==> size <= h.total.value) && (handler.None? ==> size <= LIMIT) && size < 0x1_0000_0000_0000_0000
            && (h.compression == DeflateRaw ==>
                  |Concat(chunks + [chunk])| <= LIMIT && size <= LIMIT && !c.Bad(Concat(chunks + [chunk])))
  {
  }

  /** A stream takes the next chunk exactly when it still fits with it. */
  lemma TakesIffFits(c: Codec, h: Header, handler: Option<Handler>, n: nat, chunks: seq<seq<byte>>, index: u64, chunk: seq<byte>)
    requires c.Valid() && Fits(c, h, handler, chunks) && |chunks| < 0x1_0000_0000_0000_0000
    ensures Stream(h, handler, n, chunks).Takes(c, index, chunk) <==> index == |chunks| && Fits(c, h, handler, chunks + [chunk])
  {
    SizesFit(c, h, handler, n, chunks, chunk);
    ConcatSnoc(chunks, chunk);
    var s := Stream(h, handler, n, chunks);
    assert s.Takes(c, index, chunk) <==>
           && index == |chunks|
           && (h.compression == DeflateRaw ==> !c.Complete(s.Raw()) && Accepts(c, LIMIT, s.Raw() + chunk, |s.Raw()|))
           && s.Extend(chunk).Within(c);
    if h.compression == DeflateRaw {
      InflatesMore(c, chunks, chunk);
    }
  }

  lemma ChunkEnds(c: Codec, h: Header, handler: Option<Handler>, n: nat, chunks: seq<seq<byte>>, i: Input)
    requires c.Valid() && Fits(c, h, handler, chunks) && |chunks| < 0x1_0000_0000_0000_0000 && i.packet.ChunkPacket?
    requires !(i.packet.index == |chunks| && Fits(c, h, handler, chunks + [i.packet.content]))
    ensures var info := Info(h.id, h.kind, h.topic, h.sender, h.total, h.attributes, h.details);
            Life(c)(Slot(Some(Stream(h, handler, n, chunks)), n + 1), i) ==
            Outcome(Slot(None, n + 1), FailedOnly(handler, n, info, i.packet.index, "invalid stream chunk"))
  {
    var was := Slot(Some(Stream(h, handler, n, chunks)), n + 1);
    assert Life(c)(was, i) == OnChunk(c, was, i.packet.index, i.packet.content);
    TakesIffFits(c, h, handler, n, chunks, i.packet.index, i.packet.content);
  }

  /** Any other chunk fails the stream and ends it. */
  lemma BadChunkFails(c: Codec, slot: Slot, inputs: seq<Input>, h: Header, chunks: seq<seq<byte>>, i: Input)
    requires c.Valid() && Begins(inputs, h, chunks) && Fits(c, h, inputs[0].HandlerOf(h.kind, h.topic), chunks)
    requires |chunks| < 0x1_0000_0000_0000_0000 && i.packet.ChunkPacket? && i.packet.id == h.id
    requires !(i.packet.index == |chunks| && Fits(c, h, inputs[0].HandlerOf(h.kind, h.topic), chunks + [i.packet.content]))
    ensures var handler, n := inputs[0].HandlerOf(h.kind, h.topic), slot.born;
            var info := Info(h.id, h.kind, h.topic, h.sender, h.total, h.attributes, h.details);
            && Run(Life(c), slot, inputs + [i]).state == Slot(None, n + 1)
            && Run(Life(c), slot, inputs + [i]).events ==
               Hears(c, h, handler, n, chunks, |chunks|) + FailedOnly(handler, n, info, i.packet.index, "invalid stream chunk")
  {
    var handler, n := inputs[0].HandlerOf(h.kind, h.topic), slot.born;
    var info := Info(h.id, h.kind, h.topic, h.sender, h.total, h.attributes, h.details);
    ChunkEnds(c, h, handler, n, chunks, i);
    FitsAndOne(c, slot, inputs, h, chunks, i, Outcome(Slot(None, n + 1), FailedOnly(handler, n, info, i.packet.index, "invalid stream chunk")));
  }

  lemma CloseAllEnds(c: Codec, h: Header, handler: Option<Handler>, n: nat, chunks: seq<seq<byte>>, i: Input)
    requires i.packet.CloseAll?
    ensures var info := Info(h.id, h.kind, h.topic, h.sender, h.total, h.attributes, h.details);
            Life(c)(Slot(Some(Stream(h, handler, n, chunks)), n + 1), i) ==
            Outcome(Slot(None, n + 1), FailedOnly(handler, n, info, 0, i.packet.reason))
  {
    var was := Slot(Some(Stream(h, handler, n, chunks)), n + 1);
    assert Life(c)(was, i) == OnCloseAll(was, i.packet.reason);
  }

  /** A disconnection fails it for the reason given. */
  lemma DisconnectionFails(c: Codec, slot: Slot, inputs: seq<Input>, h: Header, chunks: seq<seq<byte>>, i: Input)
    requires c.Valid() && Begins(inputs, h, chunks) && Fits(c, h, inputs[0].HandlerOf(h.kind, h.topic), chunks)
    requires i.packet.CloseAll?
    ensures var handler, n := inputs[0].HandlerOf(h.kind, h.topic), slot.born;
            var info := Info(h.id, h.kind, h.topic, h.sender, h.total, h.attributes, h.details);
            && Run(Life(c), slot, inputs + [i]).state == Slot(None, n + 1)
            && Run(Life(c), slot, inputs + [i]).events ==
               Hears(c, h, handler, n, chunks, |chunks|) + FailedOnly(handler, n, info, 0, i.packet.reason)
  {
    var handler, n := inputs[0].HandlerOf(h.kind, h.topic), slot.born;
    var info := Info(h.id, h.kind, h.topic, h.sender, h.total, h.attributes, h.details);
    CloseAllEnds(c, h, handler, n, chunks, i);
    FitsAndOne(c, slot, inputs, h, chunks, i, Outcome(Slot(None, n + 1), FailedOnly(handler, n, info, 0, i.packet.reason)));
  }

  // ----- Content inside the header -----

  /** Inline content that must be delivered. */
  ghost predicate InlineFits(c: Codec, h: Header) {
    && h.id != "" && h.inlined.Some?
    && var raw := h.inlined.value;
    && (if h.compression == DeflateRaw then
          && c.Complete(raw) && (forall n :: 0 <= n < |raw| ==> !c.Stops(raw, n))
          && |raw| < 0x1_0000_0000 && |c.Out(raw)| <= LIMIT && (h.total.Some? ==> h.total.value == |c.Out(raw)|)
        else
          h.compression == NoCompression && |raw| <= LIMIT && (h.total.Some? ==> h.total.value == |raw|))
  }

  /** It is reported at once, as one chunk between Open and Closed or as a whole, and touches nothing else. */
  lemma InlineIsDelivered(c: Codec, slot: Slot, i: Input, h: Header)
    requires c.Valid() && i.packet == HeaderPacket(h) && InlineFits(c, h)
    ensures var handler, n := i.HandlerOf(h.kind, h.topic), slot.born;
            var content := if h.compression == DeflateRaw then c.Out(h.inlined.value) else h.inlined.value;
            var info := Info(h.id, h.kind, h.topic, h.sender, h.total, h.attributes, h.details);
            Life(c)(slot, i) ==
            Outcome(slot.(born := n + 1),
                    if handler.Some?
                    then [Emission(n, Opened(info, handler.value)), Emission(n, Chunk(info, handler.value, content, 0)),
                          Emission(n, Closed(info, handler.value))]
                    else Completion(h, handler, n, content, i.listening, info))
  {
    assert Life(c)(slot, i) == OnHeader(c, slot, i, h);
    if h.compression == DeflateRaw {
      assert Accepts(c, CAP, h.inlined.value, 0);
    }
    assert InlineContent(c, h).Some? && !Ignored(c, i, h);
  }
}
