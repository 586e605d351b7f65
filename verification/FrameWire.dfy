/** What an encrypted frame is on the wire, byte for byte, and what never leaves or enters in the clear. */
module FrameWire {
  import opened Wire
  import opened Rbsp
  import opened KeyRing
  import opened Envelope
  import opened FrameCryptor

  /** A NAL unit of a coded slice starts at o, behind 0 0 1: types 1 and 5 of H.264, 0 to 9 and 16 to 21 of H.265. */
  predicate CodedSliceAt(codec: VideoCodec, data: seq<byte>, o: nat) {
    && 3 <= o < |data| && data[o - 3] == 0 && data[o - 2] == 0 && data[o - 1] == 1
    && (codec == H264 ==> data[o] % 32 == 1 || data[o] % 32 == 5)
    && (codec == H265 ==> var t := (data[o] / 2) % 64; t <= 9 || 16 <= t <= 21)
  }

  predicate FirstSliceAt(codec: VideoCodec, data: seq<byte>, o: nat) {
    CodedSliceAt(codec, data, o) && forall k :: 0 <= k < o ==> !CodedSliceAt(codec, data, k)
  }

  /** How many bytes of a frame stay clear. */
  ghost predicate ClearLength(media: Media, data: seq<byte>, n: nat) {
    match media
    case Audio => n == 1
    case Video(codec, keyFrame) =>
      match codec
      case Vp8 => n == if keyFrame then 10 else 3
      case Av1 => n == 0
      case OtherCodec => n == 0
      case _ =>
        || (exists o: nat :: FirstSliceAt(codec, data, o) && n == (o + 2) % 256)
        || ((forall o: nat :: !CodedSliceAt(codec, data, o)) && n == 0)
  }

  lemma ClearBytesIsClearLength(media: Media, data: seq<byte>)
    ensures ClearLength(media, data, ClearBytes(media, data))
  {
    if media.Video? && media.HasNalUnits() {
      var codec := media.codec;
      assert forall o: nat :: CodedSliceAt(codec, data, o) <==> SliceAt(codec, data, o);
      var first := FirstSlice(codec, data, 0);
      if first.Some? {
        assert FirstSliceAt(codec, data, first.value);
      }
    }
  }

  /**
    * A frame on the wire: its first bytes as they are, then the sealed rest, the nonce, 12 and the key
    * index; for H.264 and H.265 everything behind the clear bytes is escaped.
    */
  lemma OnTheWire(c: Crypto, options: Options, slots: Slots, keyIndex: nat, iv: seq<byte>, frame: Frame) returns (n: nat)
    requires |iv| == 12 && Outgoing(c, options, true, true, Some(slots), keyIndex, iv, frame).Deliver?
    ensures ClearLength(frame.media, frame.data, n) && n <= |frame.data|
    ensures keyIndex < |slots| && slots[keyIndex].Some?
    ensures var sealed := c.Seal(slots[keyIndex].value.key, iv, frame.data[..n], frame.data[n..]);
            var escaped := frame.media.Video? && (frame.media.codec == H264 || frame.media.codec == H265);
            sealed.Some? &&
            var body := sealed.value + iv + [12, keyIndex % 256];
            Outgoing(c, options, true, true, Some(slots), keyIndex, iv, frame) ==
            Deliver(frame.data[..n] + if escaped then Escape(body) else body, 0)
  {
    n := ClearBytes(frame.media, frame.data);
    ClearBytesIsClearLength(frame.media, frame.data);
  }

  /** While encryption is on, a frame leaves sealed or not at all. */
  lemma NothingLeavesClear(c: Crypto, options: Options, slots: Option<Slots>, keyIndex: int, iv: seq<byte>, frame: Frame)
    requires frame.data != []
    ensures var v := Outgoing(c, options, true, true, slots, keyIndex, iv, frame);
            && (v.Deliver? || v == Refuse(MissingKey) || v == Refuse(EncryptionFailed))
            && (v == Refuse(MissingKey) <==> slots.None? || !(0 <= keyIndex < |slots.value|) || slots.value[keyIndex].None?)
  {
  }

  /** While decryption is on, a frame is forwarded if a key of the window opens it, or without its suffix if it carries the magic one. */
  lemma NothingEntersUnopened(c: Crypto, options: Options, slots: Option<Slots>, hasValidKey: bool, last: State, frame: Frame)
    requires frame.data != []
    ensures var v := Incoming(c, options, true, true, slots, hasValidKey, last, frame);
            && (v.Pass? ==> options.magic != [] && frame.data == v.data + options.magic)
            && (v.Deliver? ==> exists header, plain, key, box :: v.data == header + plain && c.Open(key, box) == Some(plain) && box.header == header)
  {
    var v := Incoming(c, options, true, true, slots, hasValidKey, last, frame);
    if v.Deliver? {
      var got := Unwrap(frame.media, frame.data).value;
      var material := KeyAt(slots, got.keyIndex).value.material;
      RatchetWindow(c, material, options.window, got.box);
      var hit := Search(c, material, options.window, got.box).value;
      assert c.Open(hit.keys.key, got.box) == Some(hit.plain);
    }
  }

  /** A frame that was sent in the clear with the magic suffix arrives without it. */
  lemma MagicSuffixIsCut(c: Crypto, options: Options, slots: Option<Slots>, hasValidKey: bool, last: State, frame: Frame, plain: seq<byte>)
    requires options.magic != [] && frame.data == plain + options.magic
    ensures Incoming(c, options, true, true, slots, hasValidKey, last, frame) == Pass(plain)
  {
    assert frame.data[|plain|..] == options.magic && frame.data[..|plain|] == plain;
  }

  /** Without encryption, and for empty frames, both ends forward what they get; without a sink neither forwards anything. */
  lemma ForwardedAsTheyAre(c: Crypto, options: Options, slots: Option<Slots>, keyIndex: int, iv: seq<byte>, hasValidKey: bool, last: State, frame: Frame, enabled: bool)
    ensures frame.data != [] ==>
              && Outgoing(c, options, true, false, slots, keyIndex, iv, frame) == Pass(frame.data)
              && Incoming(c, options, true, false, slots, hasValidKey, last, frame) == Pass(frame.data)
    ensures frame.data == [] ==>
              && Outgoing(c, options, true, enabled, slots, keyIndex, iv, frame) == (if options.discardWhenNotReady then Drop else Pass([]))
              && Incoming(c, options, true, enabled, slots, hasValidKey, last, frame) == (if options.discardWhenNotReady then Drop else Pass([]))
    ensures Outgoing(c, options, false, enabled, slots, keyIndex, iv, frame) == Refuse(InternalError)
    ensures Incoming(c, options, false, enabled, slots, hasValidKey, last, frame) == Refuse(InternalError)
  {
  }

  /** What is left of a received frame behind its clear bytes, before it is opened. */
  function Behind(media: Media, data: seq<byte>, n: nat): seq<byte>
    requires n <= |data|
  {
    if media.Video? && (media.codec == H264 || media.codec == H265) && NeedsUnescaping(data[n..]) then Unescape(data[n..]) else data[n..]
  }

  /**
    * A received frame is refused as undecryptable if it is shorter than its clear bytes, or behind them than
    * tag, nonce and trailer, or does not announce a nonce of 12 bytes; for want of a key if its index is
    * outside the ring or has none; and is dropped while a new key is awaited.
    */
  lemma RefusedOnReceipt(c: Crypto, options: Options, slots: Option<Slots>, hasValidKey: bool, last: State, frame: Frame) returns (n: nat)
    requires frame.data != [] && !EndsWith(frame.data, options.magic)
    ensures ClearLength(frame.media, frame.data, n)
    ensures var v := Incoming(c, options, true, true, slots, hasValidKey, last, frame);
            if n > |frame.data| then v == Refuse(DecryptionFailed) else
            var body := Behind(frame.media, frame.data, n);
            if |body| < 30 || body[|body| - 2] != 12 then v == Refuse(DecryptionFailed) else
            var index := body[|body| - 1];
            if index >= options.ringSize || slots.None? || index >= |slots.value| || slots.value[index].None? then v == Refuse(MissingKey)
            else if last == DecryptionFailed && !hasValidKey then v == Drop
            else v.Deliver? || v == Unopened
  {
    n := ClearBytes(frame.media, frame.data);
    ClearBytesIsClearLength(frame.media, frame.data);
    if n <= |frame.data| {
      var body := Behind(frame.media, frame.data, n);
      assert Unwrap(frame.media, frame.data) == Split(frame.data[..n], body);
      SplitByBytes(frame.data[..n], body);
    }
  }

  lemma SplitByBytes(header: seq<byte>, body: seq<byte>)
    ensures Split(header, body).None? <==> |body| < 30 || body[|body| - 2] != 12
    ensures Split(header, body).Some? ==> Split(header, body).value.keyIndex == body[|body| - 1]
  {
  }
}
