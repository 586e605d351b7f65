/** The order in which one instance of a stream is reported. */
module StreamLanguage {
  import opened Wire
  import opened Inflate
  import opened Machines
  import opened DataStreams
  import opened StreamIndependence
  import opened StreamHistory

  /** The events of one instance. */
  function OfInstance(es: seq<Emission>, n: nat): seq<Event> {
    if es == [] then [] else
    var last := es[|es| - 1];
    OfInstance(es[..|es| - 1], n) + if last.instance == n then [last.event] else []
  }

  lemma {:induction false} OfInstanceConcat(a: seq<Emission>, b: seq<Emission>, n: nat)
    ensures OfInstance(a + b, n) == OfInstance(a, n) + OfInstance(b, n)
    ensures OfInstance(a, n) == [] ==> OfInstance(a + b, n) == OfInstance(b, n)
    ensures OfInstance(b, n) == [] ==> OfInstance(a + b, n) == OfInstance(a, n)
    decreases |b|
  {
    if b == [] {
      assert a + b == a;
    } else {
      var front, last := b[..|b| - 1], b[|b| - 1];
      var piece := if last.instance == n then [last.event] else [];
      assert OfInstance(a + b, n) == OfInstance(a, n) + OfInstance(front, n) + piece by {
        assert (a + b)[..|a + b| - 1] == a + front && (a + b)[|a + b| - 1] == last;
        OfInstanceConcat(a, front, n);
      }
      assert OfInstance(b, n) == OfInstance(front, n) + piece;
    }
  }

  /** The bytes of the chunk events, in order. */
  function Heard(ev: seq<Event>): seq<byte> {
    if ev == [] then [] else
    var last := ev[|ev| - 1];
    Heard(ev[..|ev| - 1]) + if last.Chunk? then last.content else []
  }

  /** Open Chunk(0) Chunk(1) ... Chunk(|ev| - 2), all to one handler. */
  ghost predicate Spoken(ev: seq<Event>) {
    && ev != [] && ev[0].Opened?
    && forall k :: 1 <= k < |ev| ==>
         ev[k].Chunk? && ev[k].index == Index(k - 1) && ev[k].handler == ev[0].handler && ev[k].info == ev[0].info
  }

  /** ... followed by one Closed or Failed; Closed only when all that was announced has been heard. */
  ghost predicate Ended(ev: seq<Event>) {
    && |ev| >= 2 && Spoken(ev[..|ev| - 1])
    && var last := ev[|ev| - 1];
    && (last.Closed? || last.Failed?) && last.handler == ev[0].handler
    && (last.Closed? && ev[0].info.total.Some? ==> |Heard(ev)| == ev[0].info.total.value)
  }

  /** A stream without a handler is reported once, as a whole. */
  ghost predicate Whole(ev: seq<Event>) {
    && 1 <= |ev| <= 2 && ev[0].Received? && |ev[0].content| <= CAP
    && (|ev| == 2 ==> ev[1] == FileReceived(ev[0].info, ev[0].content))
    && (ev[0].info.total.Some? ==> |ev[0].content| == ev[0].info.total.value)
  }

  /** Nothing more is to come. */
  ghost predicate Finished(ev: seq<Event>) {
    ev == [] || Ended(ev) || Whole(ev)
  }

  /** The last word is missing, if there is a handler at all. */
  ghost predicate Unfinished(ev: seq<Event>) {
    ev == [] || Spoken(ev)
  }

  /** What has been reported of an open stream. */
  function Said(c: Codec, s: Stream): seq<Event>
    decreases |s.chunks|
  {
    if s.handler.None? then [] else
    if s.chunks == [] then [Opened(InfoOf(s.header), s.handler.value)] else
    var before, last := s.(chunks := s.chunks[..|s.chunks| - 1]), s.chunks[|s.chunks| - 1];
    Said(c, before) + [Chunk(InfoOf(s.header), s.handler.value, before.Piece(c, last), Index(|before.chunks|))]
  }

  lemma SaidExtends(c: Codec, s: Stream, chunk: seq<byte>)
    requires s.handler.Some?
    ensures Said(c, s.Extend(chunk)) ==
            Said(c, s) + [Chunk(InfoOf(s.header), s.handler.value, s.Piece(c, chunk), Index(|s.chunks|))]
  {
    assert s.Extend(chunk).chunks[..|s.chunks|] == s.chunks;
  }

  lemma SpokenMore(ev: seq<Event>, e: Event)
    requires Spoken(ev) && e.Chunk? && e.index == Index(|ev| - 1) && e.handler == ev[0].handler && e.info == ev[0].info
    ensures Spoken(ev + [e])
  {
  }

  lemma HeardMore(ev: seq<Event>, e: Event)
    ensures Heard(ev + [e]) == Heard(ev) + if e.Chunk? then e.content else []
  {
    assert (ev + [e])[..|ev|] == ev;
  }

  lemma {:induction false} SaidIsSpoken(c: Codec, s: Stream)
    requires c.Valid() && s.handler.Some?
    ensures Spoken(Said(c, s)) && |Said(c, s)| == |s.chunks| + 1
    ensures Said(c, s)[0] == Opened(InfoOf(s.header), s.handler.value)
    ensures Heard(Said(c, s)) == s.Content(c)
    decreases |s.chunks|
  {
    if s.chunks == [] {
      assert Said(c, s)[..0] == [];
    } else {
      var before, last := s.(chunks := s.chunks[..|s.chunks| - 1]), s.chunks[|s.chunks| - 1];
      assert before.Extend(last) == s;
      SaidIsSpoken(c, before);
      SaidExtends(c, before, last);
      ContentGrows(c, before, last);
      var e := Chunk(InfoOf(s.header), s.handler.value, before.Piece(c, last), Index(|before.chunks|));
      SpokenMore(Said(c, before), e);
      HeardMore(Said(c, before), e);
    }
  }

  /** The header `i` takes the place of the open stream `n`. */
  ghost predicate Replaces(c: Codec, slot: Slot, i: Input, n: nat) {
    slot.stream.Some? && slot.stream.value.instance == n && Opens(c, i)
  }

  /** Some header of a run has taken the place of instance n while it was open. */
  ghost predicate Replaced(c: Codec, inputs: seq<Input>, n: nat) {
    inputs != [] &&
    var before, last := inputs[..|inputs| - 1], inputs[|inputs| - 1];
    Replaced(c, before, n) || Replaces(c, Run(Life(c), EmptySlot, before).state, last, n)
  }

  predicate IsOpen(slot: Slot, n: nat) { slot.stream.Some? && slot.stream.value.instance == n }

  /** The reports so far: finished, except of the open stream and of those that were replaced. */
  ghost predicate Reported(c: Codec, slot: Slot, es: seq<Emission>, n: nat, replaced: bool) {
    && (slot.stream.Some? ==> slot.stream.value.instance < slot.born && slot.stream.value.Within(c))
    && (n >= slot.born ==> OfInstance(es, n) == [] && !replaced)
    && !(IsOpen(slot, n) && replaced)
    && (if IsOpen(slot, n) then OfInstance(es, n) == Said(c, slot.stream.value)
        else if replaced then Unfinished(OfInstance(es, n))
        else Finished(OfInstance(es, n)))
  }

  lemma SingleInstance(es: seq<Emission>, n: nat)
    requires |es| == 1
    ensures OfInstance(es, n) == if es[0].instance == n then [es[0].event] else []
  {
    assert es[..0] == [];
  }

  /** A handler-backed stream that stops does so with one last event. */
  lemma LastWord(c: Codec, s: Stream, last: Event)
    requires c.Valid() && s.handler.Some?
    requires last.Closed? || last.Failed?
    requires last.handler == s.handler.value
    requires last.Closed? ==> s.EndsWell(c, "")
    ensures Finished(Said(c, s) + [last])
  {
    SaidIsSpoken(c, s);
    var ev := Said(c, s) + [last];
    assert ev[..|ev| - 1] == Said(c, s);
    assert Heard(ev) == Heard(Said(c, s));
  }

  lemma SaidIsUnfinished(c: Codec, s: Stream)
    requires c.Valid()
    ensures Unfinished(Said(c, s))
  {
    if s.handler.Some? {
      SaidIsSpoken(c, s);
    }
  }

  lemma DeliveryIsWhole(n: nat, info: Info, content: seq<byte>, listening: bool, m: nat)
    requires |content| <= CAP && (info.total.Some? ==> |content| == info.total.value)
    ensures OfInstance(Delivery(n, info, content, listening), m) != [] ==> m == n
    ensures Finished(OfInstance(Delivery(n, info, content, listening), m))
  {
    if listening {
      var one := [Emission(n, Received(info, content))];
      SingleInstance(one, m);
      if info.kind == Bytes && info.details.name != "" {
        var two := [Emission(n, FileReceived(info, content))];
        SingleInstance(two, m);
        OfInstanceConcat(one, two, m);
      } else {
        assert one + [] == one;
      }
    }
  }

  /** The three events of inline content handed to a handler. */
  lemma TripleIsFinished(info: Info, h: Handler, content: seq<byte>)
    requires info.total.Some? ==> |content| == info.total.value
    ensures Finished([Opened(info, h), Chunk(info, h, content, 0), Closed(info, h)])
  {
    var ev := [Opened(info, h), Chunk(info, h, content, 0), Closed(info, h)];
    assert ev[..2][..1] == [ev[0]] && ev[..1][..0] == [];
    assert Heard(ev[..2][..1]) == [] && Heard(ev[..2]) == content;
    assert Ended(ev);
  }

  lemma TripleOfInstance(a: Emission, b: Emission, d: Emission, n: nat, m: nat)
    requires a.instance == b.instance == d.instance == n
    ensures OfInstance([a, b, d], m) == if m == n then [a.event, b.event, d.event] else []
  {
    assert [a, b, d] == [a] + [b] + [d];
    OfInstanceConcat([a] + [b], [d], m);
    OfInstanceConcat([a], [b], m);
    SingleInstance([a], m);
    SingleInstance([b], m);
    SingleInstance([d], m);
  }

  lemma InlineIsFinished(c: Codec, slot: Slot, i: Input, h: Header, m: nat)
    requires c.Valid() && !Ignored(c, i, h) && h.inlined.Some?
    ensures OfInstance(OnHeader(c, slot, i, h).events, m) != [] ==> m == slot.born
    ensures Finished(OfInstance(OnHeader(c, slot, i, h).events, m))
  {
    var handler, content, n := i.HandlerOf(h.kind, h.topic), InlineContent(c, h).value, slot.born;
    if handler.Some? {
      TripleIsFinished(InfoOf(h), handler.value, content);
      TripleOfInstance(Emission(n, Opened(InfoOf(h), handler.value)), Emission(n, Chunk(InfoOf(h), handler.value, content, 0)),
                       Emission(n, Closed(InfoOf(h), handler.value)), n, m);
    } else {
      DeliveryIsWhole(n, InfoOf(h), content, i.listening, m);
    }
  }

  lemma HeaderIsReported(c: Codec, slot: Slot, es: seq<Emission>, i: Input, h: Header, n: nat, replaced: bool)
    requires c.Valid() && Reported(c, slot, es, n, replaced) && i.packet == HeaderPacket(h)
    ensures var r := OnHeader(c, slot, i, h);
            Reported(c, r.state, es + r.events, n, replaced || Replaces(c, slot, i, n))
  {
    var r := OnHeader(c, slot, i, h);
    OfInstanceConcat(es, r.events, n);
    if Ignored(c, i, h) {
      assert es + r.events == es;
    } else if h.inlined.Some? {
      InlineIsFinished(c, slot, i, h, n);
    } else {
      FreshStreamWithin(c, h, i.HandlerOf(h.kind, h.topic), slot.born);
      if r.events != [] {
        SingleInstance(r.events, n);
      }
      if slot.stream.Some? {
        SaidIsUnfinished(c, slot.stream.value);
      }
    }
  }

  lemma ChunkIsReported(c: Codec, slot: Slot, es: seq<Emission>, index: u64, chunk: seq<byte>, n: nat, replaced: bool)
    requires c.Valid() && Reported(c, slot, es, n, replaced)
    ensures var r := OnChunk(c, slot, index, chunk);
            Reported(c, r.state, es + r.events, n, replaced)
  {
    var r := OnChunk(c, slot, index, chunk);
    OfInstanceConcat(es, r.events, n);
    if r.events != [] {
      SingleInstance(r.events, n);
      var s := slot.stream.value;
      if s.Takes(c, index, chunk) {
        SaidExtends(c, s, chunk);
      } else {
        LastWord(c, s, r.events[0].event);
      }
    }
  }

  lemma TrailerIsReported(c: Codec, slot: Slot, es: seq<Emission>, listening: bool, reason: string,
                          attributes: map<string, string>, n: nat, replaced: bool)
    requires c.Valid() && Reported(c, slot, es, n, replaced)
    ensures var r := OnTrailer(c, slot, listening, reason, attributes);
            Reported(c, r.state, es + r.events, n, replaced)
  {
    var r := OnTrailer(c, slot, listening, reason, attributes);
    OfInstanceConcat(es, r.events, n);
    if slot.stream.Some? {
      var s := slot.stream.value;
      if s.handler.Some? {
        SingleInstance(r.events, n);
        LastWord(c, s, r.events[0].event);
      } else if s.EndsWell(c, reason) {
        DeliveryIsWhole(s.instance, InfoOf(s.header).(attributes := s.header.attributes + attributes), s.Content(c), listening, n);
      }
    }
  }

  lemma CloseIsReported(c: Codec, slot: Slot, es: seq<Emission>, reason: string, n: nat, replaced: bool)
    requires c.Valid() && Reported(c, slot, es, n, replaced)
    ensures var r := OnCloseAll(slot, reason);
            Reported(c, r.state, es + r.events, n, replaced)
  {
    var r := OnCloseAll(slot, reason);
    OfInstanceConcat(es, r.events, n);
    if r.events != [] {
      SingleInstance(r.events, n);
      LastWord(c, slot.stream.value, r.events[0].event);
    }
  }

  lemma {:induction false} LifeIsReported(c: Codec, inputs: seq<Input>, n: nat)
    requires c.Valid()
    ensures var r := Run(Life(c), EmptySlot, inputs);
            Reported(c, r.state, r.events, n, Replaced(c, inputs, n))
  {
    if inputs != [] {
      var before, last := inputs[..|inputs| - 1], inputs[|inputs| - 1];
      LifeIsReported(c, before, n);
      var r, was := Run(Life(c), EmptySlot, before), Replaced(c, before, n);
      match last.packet
      case HeaderPacket(h) => HeaderIsReported(c, r.state, r.events, last, h, n, was);
      case ChunkPacket(_, index, content) => ChunkIsReported(c, r.state, r.events, index, content, n, was);
      case TrailerPacket(_, reason, attributes) =>
        TrailerIsReported(c, r.state, r.events, last.listening, reason, attributes, n, was);
      case CloseAll(reason) => CloseIsReported(c, r.state, r.events, reason, n, was);
    }
  }

  // ----- Which instances have a handler -----

  /** The header that makes instance n finds a handler for its topic. */
  ghost predicate FindsHandler(c: Codec, slot: Slot, i: Input, n: nat) {
    && i.packet.HeaderPacket? && !Ignored(c, i, i.packet.header) && slot.born == n
    && i.HandlerOf(i.packet.header.kind, i.packet.header.topic).Some?
  }

  ghost predicate Handled(c: Codec, inputs: seq<Input>, n: nat) {
    inputs != [] &&
    var before, last := inputs[..|inputs| - 1], inputs[|inputs| - 1];
    Handled(c, before, n) || FindsHandler(c, Run(Life(c), EmptySlot, before).state, last, n)
  }

  predicate BeginsOpen(ev: seq<Event>) { ev != [] && ev[0].Opened? }

  /** A header reports Open of its own instance if it finds a handler, and of no other instance anything. */
  lemma HeaderOpens(c: Codec, slot: Slot, i: Input, h: Header, n: nat)
    requires i.packet == HeaderPacket(h)
    ensures var own := OfInstance(OnHeader(c, slot, i, h).events, n);
            && (BeginsOpen(own) <==> FindsHandler(c, slot, i, n))
            && (own != [] ==> n == slot.born)
  {
    var events, handler, m := OnHeader(c, slot, i, h).events, i.HandlerOf(h.kind, h.topic), slot.born;
    if !Ignored(c, i, h) {
      if h.inlined.Some? {
        if handler.Some? {
          TripleOfInstance(events[0], events[1], events[2], m, n);
        } else {
          DeliveryBegins(m, InfoOf(h), InlineContent(c, h).value, i.listening, n);
        }
      } else if handler.Some? {
        SingleInstance(events, n);
      }
    }
  }

  lemma DeliveryBegins(m: nat, info: Info, content: seq<byte>, listening: bool, n: nat)
    ensures var own := OfInstance(Delivery(m, info, content, listening), n);
            !BeginsOpen(own) && (own != [] ==> n == m)
  {
    if listening {
      var one := [Emission(m, Received(info, content))];
      SingleInstance(one, n);
      if info.kind == Bytes && info.details.name != "" {
        var two := [Emission(m, FileReceived(info, content))];
        SingleInstance(two, n);
        OfInstanceConcat(one, two, n);
      } else {
        assert one + [] == one;
      }
    }
  }

  /** Any other packet never reports Open, and reports on a stream with a handler only what has been opened. */
  lemma OthersDoNotOpen(c: Codec, slot: Slot, es: seq<Emission>, i: Input, n: nat, replaced: bool)
    requires c.Valid() && Reported(c, slot, es, n, replaced) && !i.packet.HeaderPacket?
    ensures !BeginsOpen(OfInstance(Life(c)(slot, i).events, n))
  {
    var r := Life(c)(slot, i);
    if slot.stream.Some? {
      var s := slot.stream.value;
      if s.handler.None? && i.packet.TrailerPacket? && s.EndsWell(c, i.packet.reason) {
        DeliveryBegins(s.instance, InfoOf(s.header).(attributes := s.header.attributes + i.packet.attributes), s.Content(c), i.listening, n);
      } else if r.events != [] {
        SingleInstance(r.events, n);
      }
    }
  }

  lemma {:induction false} OpenedIffHandled(c: Codec, inputs: seq<Input>, n: nat)
    requires c.Valid()
    ensures BeginsOpen(OfInstance(Run(Life(c), EmptySlot, inputs).events, n)) <==> Handled(c, inputs, n)
  {
    if inputs != [] {
      var before, last := inputs[..|inputs| - 1], inputs[|inputs| - 1];
      OpenedIffHandled(c, before, n);
      LifeIsReported(c, before, n);
      var r := Run(Life(c), EmptySlot, before);
      OfInstanceConcat(r.events, Life(c)(r.state, last).events, n);
      if last.packet.HeaderPacket? {
        HeaderOpens(c, r.state, last, last.packet.header, n);
      } else {
        OthersDoNotOpen(c, r.state, r.events, last, n, Replaced(c, before, n));
      }
    }
  }

  lemma SpokenIsNotEnded(ev: seq<Event>)
    requires Spoken(ev)
    ensures !Ended(ev) && !Whole(ev)
  {
  }

  /**
    * The event language: in every run, every instance of every stream id whose header found a handler is
    * reported as Open Chunk(0) Chunk(1) ... and then one Closed or Failed and nothing after it. The last
    * word is missing exactly while the instance is open and if a later chunked header took its place while
    * it was. Any other instance is reported by one whole delivery or not at all.
    */
  lemma EventLanguage(c: Codec, inputs: seq<Input>, id: string, n: nat)
    requires c.Valid()
    ensures var r := Run(Receiver(c), map[], inputs);
            var told, slot := OfInstance(About(r.events, id), n), Look(r.state, id);
            var missing := IsOpen(slot, n) || Replaced(c, Only(inputs, id), n);
            && (if missing then Unfinished(told) else Finished(told))
            && (BeginsOpen(told) <==> Handled(c, Only(inputs, id), n))
            && (Handled(c, Only(inputs, id), n) ==> (Spoken(told) <==> missing) && (Ended(told) <==> !missing))
            && (!Handled(c, Only(inputs, id), n) ==> told == [] || Whole(told))
            && (IsOpen(slot, n) ==> told == Said(c, slot.stream.value))
  {
    InterleavingIndependence(c, map[], inputs, id);
    LifeIsReported(c, Only(inputs, id), n);
    OpenedIffHandled(c, Only(inputs, id), n);
    var r := Run(Receiver(c), map[], inputs);
    var told := OfInstance(About(r.events, id), n);
    if Look(r.state, id).stream.Some? {
      SaidIsUnfinished(c, Look(r.state, id).stream.value);
    }
    if Spoken(told) {
      SpokenIsNotEnded(told);
    }
    assert Ended(told) ==> told[..|told| - 1][0] == told[0];
  }
}
