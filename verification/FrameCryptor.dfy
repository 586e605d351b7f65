/**
  * FrameCryptorTransformer::encryptFrame and decryptFrame, and DataPacketCryptor::Decrypt. Buffers are
  * sequences: the loops that copy one byte range are slices here.
  */
module FrameCryptor {
  import opened Wire
  import opened Rbsp
  import opened KeyRing
  import opened Envelope
  import opened Iv

  datatype State = New | Ok | EncryptionFailed | DecryptionFailed | MissingKey | KeyRatcheted | InternalError

  datatype Frame = Frame(media: Media, ssrc: u32, timestamp: u32, data: seq<byte>)

  datatype Options = Options(ringSize: nat, window: int, magic: seq<byte>, discardWhenNotReady: bool)

  type Slots = seq<Option<KeySet>>

  function KeyAt(slots: Option<Slots>, index: int): Option<KeySet> {
    if slots.Some? && 0 <= index < |slots.value| then slots.value[index] else None
  }

  /** What becomes of a frame. */
  datatype Verdict =
    | Pass(data: seq<byte>)               // forwarded as it is, or without its magic suffix
    | Drop                                // not forwarded, nothing reported
    | Refuse(state: State)                // not forwarded, state reported
    | Unopened                            // no key of the window opens it
    | Deliver(data: seq<byte>, hit: nat)  // forwarded encrypted, or decrypted after `hit` ratchets

  /** encryptFrame; `slots` is None when there is no key handler. */
  function Outgoing(c: Crypto, options: Options, hasSink: bool, enabled: bool, slots: Option<Slots>, keyIndex: int,
                    iv: seq<byte>, frame: Frame): Verdict
  {
    if !hasSink then Refuse(InternalError)
    else if frame.data == [] then (if options.discardWhenNotReady then Drop else Pass([]))
    else if !enabled then Pass(frame.data)
    else if KeyAt(slots, keyIndex).None? then Refuse(MissingKey)
    else
      var sent := Wrap(c, frame.media, frame.data, KeyAt(slots, keyIndex).value.key, iv, keyIndex % 256);
      if sent.None? then Refuse(EncryptionFailed) else Deliver(sent.value, 0)
  }

  predicate EndsWith(data: seq<byte>, magic: seq<byte>) {
    magic != [] && |data| >= |magic| && data[|data| - |magic|..] == magic
  }

  /** decryptFrame. */
  function Incoming(c: Crypto, options: Options, hasSink: bool, enabled: bool, slots: Option<Slots>, hasValidKey: bool,
                    last: State, frame: Frame): Verdict
  {
    if !hasSink then Refuse(InternalError)
    else if frame.data == [] then (if options.discardWhenNotReady then Drop else Pass([]))
    else if !enabled then Pass(frame.data)
    else if EndsWith(frame.data, options.magic) then Pass(frame.data[..|frame.data| - |options.magic|])
    else
      var got := Unwrap(frame.media, frame.data);
      if got.None? then Refuse(DecryptionFailed)
      else if got.value.keyIndex >= options.ringSize || KeyAt(slots, got.value.keyIndex).None? then Refuse(MissingKey)
      else if last == DecryptionFailed && !hasValidKey then Drop
      else
        var hit := Search(c, KeyAt(slots, got.value.keyIndex).value.material, options.window, got.value.box);
        if hit.None? then Unopened else Deliver(got.value.box.header + hit.value.plain, hit.value.k)
  }

  /**
    * End to end: whatever encryptFrame delivers, decryptFrame at a receiver with the same key set at the
    * same index delivers as the original bytes. The header must fit, the index must be inside the ring,
    * the wire bytes must not end in the magic suffix, and the receiver must not be waiting for a new key.
    */
  lemma EndToEnd(c: Crypto, sending: Options, receiving: Options, sender: Slots, receiver: Slots, keyIndex: nat,
                 iv: seq<byte>, frame: Frame, hasValidKey: bool, last: State)
    requires c.Valid() && |iv| == IV_SIZE && frame.data != []
    requires keyIndex < receiving.ringSize && keyIndex < 256
    requires KeyAt(Some(sender), keyIndex).Some? && KeyAt(Some(receiver), keyIndex) == KeyAt(Some(sender), keyIndex)
    requires var keys := KeyAt(Some(sender), keyIndex).value; c.Derive(keys.material) == Some(keys.key)
    requires HeaderFits(frame.media, frame.data) && (last == DecryptionFailed ==> hasValidKey)
    requires Outgoing(c, sending, true, true, Some(sender), keyIndex, iv, frame).Deliver?
    ensures var wire := Outgoing(c, sending, true, true, Some(sender), keyIndex, iv, frame).data;
            !EndsWith(wire, receiving.magic) ==>
              Incoming(c, receiving, true, true, Some(receiver), hasValidKey, last, frame.(data := wire)) ==
              Deliver(frame.data, 0)
  {
    var keys := KeyAt(Some(sender), keyIndex).value;
    var wire := Outgoing(c, sending, true, true, Some(sender), keyIndex, iv, frame).data;
    assert Some(wire) == Wrap(c, frame.media, frame.data, keys.key, iv, keyIndex);
    WrapIsNotEmpty(c, frame.media, frame.data, keys.key, iv, keyIndex);
    FrameRoundTrip(c, frame.media, frame.data, keys, iv, keyIndex, receiving.window);
    if !EndsWith(wire, receiving.magic) {
      OpenedFrame(c, receiving, receiver, hasValidKey, last, frame.(data := wire));
    }
  }

  lemma OpenedFrame(c: Crypto, options: Options, slots: Slots, hasValidKey: bool, last: State, frame: Frame)
    requires frame.data != [] && !EndsWith(frame.data, options.magic) && Unwrap(frame.media, frame.data).Some?
    requires var index := Unwrap(frame.media, frame.data).value.keyIndex;
             index < options.ringSize && KeyAt(Some(slots), index).Some?
    requires last == DecryptionFailed ==> hasValidKey
    ensures var got := Unwrap(frame.media, frame.data).value;
            var hit := Search(c, KeyAt(Some(slots), got.keyIndex).value.material, options.window, got.box);
            hit.Some? ==> Incoming(c, options, true, true, Some(slots), hasValidKey, last, frame) ==
                          Deliver(got.box.header + hit.value.plain, hit.value.k)
  {
  }

  /** The part of decryptFrame that takes a frame apart, in the order of its tests. */
  method TakeApart(media: Media, data: seq<byte>) returns (got: Option<Opened>)
    ensures got == Unwrap(media, data)
  {
    var n := GetUnencryptedBytes(media, data);
    if n > |data| {
      return None;
    }
    var header, body := data[..n], data[n..];
    if media.HasNalUnits() {
      var needed := NeedsRbspUnescaping(body);
      if needed {
        body := Unescape(body);
      }
    }
    var size := |body|;
    if size < 2 {
      return None;
    }
    var ivLength, keyIndex := body[size - 2], body[size - 1];
    if ivLength != IV_SIZE || size < 2 + IV_SIZE + TAG_SIZE {
      return None;
    }
    var iv, sealed := body[size - 2 - IV_SIZE..size - 2], body[..size - 2 - IV_SIZE];
    return Some(Opened(Box(iv, header, sealed), keyIndex));
  }

  class FrameCryptorTransformer {
    const crypto: Crypto
    const options: Options
    const handler: ParticipantKeyHandler?
    var hasSink: bool
    var enabled: bool
    var keyIndex: int
    var lastEncError: State
    var lastDecError: State
    var sendCounts: map<u32, u32>

    ghost predicate Valid()
      reads this, handler, if handler == null then {} else {handler.slots}
    {
      handler != null ==> handler.Valid() && handler.crypto == crypto
    }

    ghost function Keys(): Option<Slots>
      reads this, handler, if handler == null then {} else {handler.slots}
    {
      if handler == null then None else Some(handler.slots[..])
    }

    constructor (crypto: Crypto, options: Options, handler: ParticipantKeyHandler?)
      requires handler != null ==> handler.Valid() && handler.crypto == crypto
      ensures Valid() && this.handler == handler && this.crypto == crypto && this.options == options
      ensures sendCounts == map[] && lastEncError == New && lastDecError == New && !hasSink && !enabled
    {
      this.crypto, this.options, this.handler := crypto, options, handler;
      hasSink, enabled, keyIndex, lastEncError, lastDecError, sendCounts := false, false, 0, New, New, map[];
    }

    /** One step of the machine `Calls(IvOf)`; the random start value is stored and then overwritten. */
    method MakeIv(ssrc: u32, timestamp: u32, random: u32) returns (iv: seq<byte>)
      modifies this`sendCounts
      ensures iv == IvOf(ssrc, timestamp, CountOf(old(sendCounts), ssrc))
      ensures sendCounts == Bump(old(sendCounts), ssrc)
    {
      var count: int := 0;
      if ssrc !in sendCounts {
        sendCounts := sendCounts[ssrc := random];
      } else {
        count := sendCounts[ssrc];
      }
      iv := BigEndian(ssrc) + BigEndian(timestamp) + BigEndian(Sub32(timestamp, count % 0xFFFF));
      sendCounts := sendCounts[ssrc := Wrap32(count + 1)];
    }

    /** A frame is forwarded as `Outgoing` decides, and a state is reported exactly when it changes. */
    method EncryptFrame(frame: Frame, random: u32) returns (out: Option<seq<byte>>, reports: seq<State>)
      requires Valid()
      modifies this`lastEncError, this`sendCounts
      ensures var v := old(Outgoing(crypto, options, hasSink, enabled, Keys(), keyIndex,
                                    IvOf(frame.ssrc, frame.timestamp, CountOf(sendCounts, frame.ssrc)), frame));
              && out == (if v.Pass? || v.Deliver? then Some(v.data) else None)
              && lastEncError == (if v.Deliver? then Ok else if v.Refuse? then v.state else old(lastEncError))
              && reports == (if lastEncError != old(lastEncError) then [lastEncError] else [])
              && sendCounts == (if v.Deliver? || (v == Refuse(EncryptionFailed) && ClearBytes(frame.media, frame.data) <= |frame.data|)
                                then Bump(old(sendCounts), frame.ssrc) else old(sendCounts))
    {
      out, reports := None, [];
      var data := frame.data;
      var state: State;
      if !hasSink {
        state := InternalError;
      } else if data == [] {
        if !options.discardWhenNotReady {
          out := Some([]);
        }
        return;
      } else if !enabled {
        out := Some(data);
        return;
      } else if handler == null || !(0 <= keyIndex < handler.slots.Length) || handler.slots[keyIndex].None? {
        state := MissingKey;
      } else {
        var n := GetUnencryptedBytes(frame.media, data);
        if n > |data| {
          state := EncryptionFailed;
        } else {
          var header, trailer := data[..n], [IV_SIZE, keyIndex % 256];
          var iv := MakeIv(frame.ssrc, frame.timestamp, random);
          var sealed := crypto.Seal(handler.slots[keyIndex].value.key, iv, header, data[n..]);
          if sealed.Some? {
            out := Some(header + Protect(frame.media, sealed.value + iv + trailer));
            state := Ok;
          } else {
            state := EncryptionFailed;
          }
        }
      }
      if lastEncError != state {
        lastEncError, reports := state, [state];
      }
    }

    /** ParticipantKeyHandler::DecryptionFailure, whose tolerance is not part of this model: any outcome. */
    method DecryptionFailure() returns (report: bool)
      requires handler != null
      modifies handler`hasValidKey
    {
      report := *;
      handler.hasValidKey := *;
    }

    /** The keyed part of decryptFrame: the window search, and what is reported of it. */
    method OpenFrame(box: Box, index: nat) returns (out: Option<seq<byte>>, reports: seq<State>)
      requires Valid() && handler != null && index < handler.slots.Length && handler.slots[index].Some?
      modifies this`lastDecError, handler, handler.slots
      ensures Valid()
      ensures var hit := Search(crypto, old(handler.slots[index]).value.material, options.window, box);
              if hit.Some? then
                && out == Some(box.header + hit.value.plain) && lastDecError == Ok
                && reports == (if hit.value.k > 0 && old(lastDecError) != KeyRatcheted then [KeyRatcheted] else [])
                              + (if hit.value.k > 0 || old(lastDecError) != Ok then [Ok] else [])
                && handler.slots[..] == old(handler.slots[..])[index := Some(hit.value.keys)]
              else
                && out == None && (lastDecError == old(lastDecError) || lastDecError == DecryptionFailed)
                && reports == (if lastDecError == old(lastDecError) then [] else [DecryptionFailed])
                && handler.slots[..] == old(handler.slots[..])
    {
      out, reports := None, [];
      var plain, ratcheted := handler.OpenBox(index, options.window, box);
      if plain.None? {
        var failed := DecryptionFailure();
        if failed {
          reports := Report(DecryptionFailed);
        }
        return;
      }
      if ratcheted {
        reports := Report(KeyRatcheted);
      }
      var more := Report(Ok);
      out, reports := Some(box.header + plain.value), reports + more;
    }

    /**
      * A frame is forwarded as `Incoming` decides. Every slot keeps its key set, except that a hit after
      * ratcheting moves the one slot used to the key set that opened the frame.
      */
    method DecryptFrame(frame: Frame) returns (out: Option<seq<byte>>, reports: seq<State>)
      requires Valid()
      modifies this`lastDecError, handler, if handler == null then {} else {handler.slots}
      ensures Valid()
      ensures var v := old(Incoming(crypto, options, hasSink, enabled, Keys(), handler != null && handler.hasValidKey,
                                    lastDecError, frame));
              && out == (if v.Pass? || v.Deliver? then Some(v.data) else None)
              && (v.Pass? || v.Drop? ==> lastDecError == old(lastDecError) && reports == [])
              && (v.Refuse? ==> lastDecError == v.state && reports == (if old(lastDecError) == v.state then [] else [v.state]))
              && (v.Unopened? ==> lastDecError == old(lastDecError) || lastDecError == DecryptionFailed)
              && (v.Unopened? ==> reports == (if lastDecError == old(lastDecError) then [] else [DecryptionFailed]))
              && (v.Deliver? ==> lastDecError == Ok)
              && (v.Deliver? ==> reports == (if v.hit > 0 && old(lastDecError) != KeyRatcheted then [KeyRatcheted] else [])
                                            + (if v.hit > 0 || old(lastDecError) != Ok then [Ok] else []))
              && (if v.Deliver?
                  then var got := Unwrap(frame.media, frame.data).value;
                       var keys := old(Keys()).value[got.keyIndex].value;
                       Keys() == Some(old(Keys()).value[got.keyIndex := Some(Search(crypto, keys.material, options.window, got.box).value.keys)])
                  else Keys() == old(Keys()))
    {
      out, reports := None, [];
      var data := frame.data;
      if !hasSink {
        reports := Report(InternalError);
        return;
      }
      if data == [] {
        if !options.discardWhenNotReady {
          out := Some([]);
        }
        return;
      }
      if !enabled {
        out := Some(data);
        return;
      }
      if EndsWith(data, options.magic) {
        out := Some(data[..|data| - |options.magic|]);
        return;
      }
      var got := TakeApart(frame.media, data);
      if got.None? {
        reports := Report(DecryptionFailed);
        return;
      }
      var index := got.value.keyIndex;
      if index >= options.ringSize || handler == null || index >= handler.slots.Length || handler.slots[index].None? {
        reports := Report(MissingKey);
        return;
      }
      if lastDecError == DecryptionFailed && !handler.hasValidKey {
        return;
      }
      out, reports := OpenFrame(got.value.box, index);
    }

    /** onFrameCryptionStateChanged is called only on a change. */
    method Report(state: State) returns (reports: seq<State>)
      modifies this`lastDecError
      ensures lastDecError == state && reports == if old(lastDecError) == state then [] else [state]
    {
      reports := [];
      if lastDecError != state {
        lastDecError, reports := state, [state];
      }
    }
  }

  /** DataPacketCryptor::Decrypt: the same window search, with an empty header. */
  method DecryptPacket(handler: ParticipantKeyHandler?, window: int, iv: seq<byte>, data: seq<byte>, keyIndex: int)
    returns (plain: Option<seq<byte>>)
    requires handler != null ==> handler.Valid()
    modifies handler, if handler == null then {} else {handler.slots}
    ensures handler != null ==> handler.Valid()
    ensures var usable := |iv| == 12 && |data| >= 16 && handler != null
                          && 0 <= keyIndex < handler.slots.Length && old(handler.slots[keyIndex]).Some?;
            && (!usable ==> plain.None?)
            && (usable ==>
                  var hit := Search(handler.crypto, old(handler.slots[keyIndex]).value.material, window, Box(iv, [], data));
                  && plain == (if hit.Some? then Some(hit.value.plain) else None)
                  && handler.slots[..] == (if hit.Some? then old(handler.slots[..])[keyIndex := Some(hit.value.keys)]
                                           else old(handler.slots[..])))
    ensures handler != null && plain.None? ==> handler.slots[..] == old(handler.slots[..])
  {
    if |iv| != IV_SIZE || |data| < TAG_SIZE {
      return None;
    }
    if handler == null || !(0 <= keyIndex < handler.slots.Length) || handler.slots[keyIndex].None? {
      return None;
    }
    var ratcheted;
    plain, ratcheted := handler.OpenBox(keyIndex, window, Box(iv, [], data));
  }
}
