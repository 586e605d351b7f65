/**
  * The encrypted frame: clear header, sealed payload, nonce, two-byte trailer, and for H.264 and H.265
  * emulation prevention over everything after the header. The receiver finds the header again by
  * scanning the frame it received.
  */
module Envelope {
  import opened Wire
  import opened Rbsp
  import opened KeyRing

  datatype VideoCodec = Av1 | Vp8 | H264 | H265 | OtherCodec

  /** The frame's metadata; H265 stands for a build with RTC_ENABLE_H265, OtherCodec for one without. */
  datatype Media = Audio | Video(codec: VideoCodec, keyFrame: bool)
  {
    predicate HasNalUnits() { Video? && (codec == H264 || codec == H265) }
  }

  /** The NAL unit types of coded slices (table 7-1 of ITU-T H.264 and of ITU-T H.265). */
  predicate IsSlice(codec: VideoCodec, first: byte) {
    match codec
    case H264 => first % 32 == 1 || first % 32 == 5
    case H265 => var t := (first / 2) % 64; t <= 9 || 16 <= t <= 21
    case _ => false
  }

  /** A NAL unit of a coded slice starts at offset o, behind a start code 0 0 1. */
  predicate SliceAt(codec: VideoCodec, data: seq<byte>, o: nat) {
    3 <= o < |data| && data[o - 3] == 0 && data[o - 2] == 0 && data[o - 1] == 1 && IsSlice(codec, data[o])
  }

  /** The first slice at or after offset o. */
  function FirstSlice(codec: VideoCodec, data: seq<byte>, o: nat): (r: Option<nat>)
    ensures r.Some? ==> o <= r.value && SliceAt(codec, data, r.value)
    ensures forall k :: o <= k && (r.None? || k < r.value) ==> !SliceAt(codec, data, k)
    decreases |data| - o
  {
    if o >= |data| then None
    else if SliceAt(codec, data, o) then Some(o)
    else FirstSlice(codec, data, o + 1)
  }

  /** The first slice is determined by its properties. */
  lemma FirstSliceIs(codec: VideoCodec, data: seq<byte>, o: nat)
    requires SliceAt(codec, data, o) && forall k :: 0 <= k < o ==> !SliceAt(codec, data, k)
    ensures FirstSlice(codec, data, 0) == Some(o)
  {
  }

  /** get_unencrypted_bytes: an unsigned 8-bit number, even where an offset is added to it. */
  function ClearBytes(media: Media, data: seq<byte>): byte {
    if media.Audio? then 1
    else if media.codec == Vp8 then (if media.keyFrame then 10 else 3)
    else if media.HasNalUnits() then
      var o := FirstSlice(media.codec, data, 0);
      if o.Some? then (o.value + 2) % 256 else 0
    else 0
  }

  method GetUnencryptedBytes(media: Media, data: seq<byte>) returns (n: byte)
    ensures n == ClearBytes(media, data)
  {
    n := 0;
    match media
    case Audio => n := 1;
    case Video(codec, key) =>
      if codec == Vp8 {
        n := if key then 10 else 3;
      } else if codec == H264 || codec == H265 {
        var o := 0;
        while o < |data|
          invariant o <= |data| && FirstSlice(codec, data, 0) == FirstSlice(codec, data, o)
        {
          if 3 <= o && data[o - 3] == 0 && data[o - 2] == 0 && data[o - 1] == 1 && IsSlice(codec, data[o]) {
            return (o + 2) % 256;
          }
          o := o + 1;
        }
      }
  }

  // ----- The envelope -----

  function Protect(media: Media, body: seq<byte>): seq<byte> {
    if media.HasNalUnits() then Escape(body) else body
  }

  function Unprotect(media: Media, d: seq<byte>): seq<byte> {
    if media.HasNalUnits() && NeedsUnescaping(d) then Unescape(d) else d
  }

  /** What the sender puts on the wire, or None if the frame is shorter than its header or sealing fails. */
  function Wrap(c: Crypto, media: Media, data: seq<byte>, key: seq<byte>, iv: seq<byte>, keyIndex: byte): Option<seq<byte>> {
    var n := ClearBytes(media, data);
    if n > |data| then None else
    var sealed := c.Seal(key, iv, data[..n], data[n..]);
    if sealed.None? then None else
    Some(data[..n] + Protect(media, sealed.value + iv + [IV_SIZE, keyIndex]))
  }

  datatype Opened = Opened(box: Box, keyIndex: byte)

  /** How the receiver takes a frame apart, before any key is used. */
  function Unwrap(media: Media, data: seq<byte>): Option<Opened> {
    var n := ClearBytes(media, data);
    if n > |data| then None else Split(data[..n], Unprotect(media, data[n..]))
  }

  /** The bytes after the header: sealed payload, nonce, nonce length, key index. */
  function Split(header: seq<byte>, body: seq<byte>): Option<Opened> {
    var size := |body|;
    if size < 2 + IV_SIZE + TAG_SIZE || body[size - 2] != IV_SIZE then None else
    Some(Opened(Box(body[size - 2 - IV_SIZE..size - 2], header, body[..size - 2 - IV_SIZE]), body[size - 1]))
  }

  lemma SplitJoined(header: seq<byte>, sealed: seq<byte>, iv: seq<byte>, keyIndex: byte)
    requires |iv| == IV_SIZE && |sealed| >= TAG_SIZE
    ensures Split(header, sealed + iv + [IV_SIZE, keyIndex]) == Some(Opened(Box(iv, header, sealed), keyIndex))
  {
    var body := sealed + iv + [IV_SIZE, keyIndex];
    assert body[|sealed|..|sealed| + IV_SIZE] == iv && body[..|sealed|] == sealed;
  }

  lemma UnprotectProtect(media: Media, body: seq<byte>)
    ensures Unprotect(media, Protect(media, body)) == body
  {
    GuardIsExact(body);
  }

  /** The condition under which both ends agree on the length of the clear header. */
  predicate HeaderFits(media: Media, data: seq<byte>) {
    media.HasNalUnits() ==>
      var o := FirstSlice(media.codec, data, 0);
      o.Some? ==> o.value + 2 < 256 || (o.value + 2) % 256 == 0
  }

  /** No slice starts inside protected bytes that follow a header without a slice of their own. */
  lemma NoSliceInProtected(codec: VideoCodec, header: seq<byte>, body: seq<byte>, k: nat)
    requires k >= |header| + 3
    ensures !SliceAt(codec, header + Escape(body), k)
  {
    var d := Escape(body);
    if k < |header + d| {
      EscapeHasNoStartCode(body, k - 3 - |header|, 1);
      assert (header + d)[k - 3] == d[k - 3 - |header|] && (header + d)[k - 2] == d[k - 2 - |header|]
             && (header + d)[k - 1] == d[k - 1 - |header|];
    }
  }

  /**
    * Header agreement is exact: the receiver recomputes the sender's header length if and only if the
    * first slice offset plus 2 fits in 8 bits or is a multiple of 256 (an empty header).
    */
  lemma HeaderAgreement(media: Media, data: seq<byte>, body: seq<byte>)
    requires ClearBytes(media, data) <= |data|
    ensures var n := ClearBytes(media, data);
            ClearBytes(media, data[..n] + Protect(media, body)) == n <==> HeaderFits(media, data)
  {
    if media.HasNalUnits() {
      var codec, n: int := media.codec, ClearBytes(media, data);
      var header, sent := data[..n], data[..n] + Escape(body);
      var o := FirstSlice(codec, data, 0);
      assert forall k :: 0 <= k < n ==> sent[k] == data[k];
      if n == 0 {
        forall k | 0 <= k ensures !SliceAt(codec, sent, k) {
          if k >= 3 {
            NoSliceInProtected(codec, header, body, k);
          }
        }
        assert FirstSlice(codec, sent, 0) == None;
      } else if o.value + 2 < 256 {
        forall k | 0 <= k < o.value ensures !SliceAt(codec, sent, k) {
          assert !SliceAt(codec, data, k);
        }
        FirstSliceIs(codec, sent, o.value);
      } else {
        var found := FirstSlice(codec, sent, 0);
        if found.Some? {
          if found.value >= n + 3 {
            NoSliceInProtected(codec, header, body, found.value);
          }
          assert found.value < n ==> SliceAt(codec, data, found.value);
          assert n <= found.value < n + 3;
        }
      }
    }
  }

  /** An H.264 frame whose slice starts at byte 303: the sender leaves 49 bytes clear, and no receiver finds that number again. */
  lemma HeaderCanDisagree(body: seq<byte>)
    ensures var media := Video(H264, true);
            var data: seq<byte> := Filler(300) + [0, 0, 1, 0x65, 0x88];
            && FirstSlice(H264, data, 0) == Some(303) && ClearBytes(media, data) == 49 && !HeaderFits(media, data)
            && ClearBytes(media, data[..49] + Protect(media, body)) != 49
  {
    var data: seq<byte> := Filler(300) + [0, 0, 1, 0x65, 0x88];
    assert data[300] == 0 && data[301] == 0 && data[302] == 1 && data[303] == 0x65;
    FirstSliceIs(H264, data, 303);
    HeaderAgreement(Video(H264, true), data, body);
  }

  function Filler(n: nat): (s: seq<byte>)
    ensures |s| == n && forall i :: 0 <= i < n ==> s[i] == 255
  {
    seq(n, _ => 255)
  }

  /** With an agreed header, the receiver gets back every part the sender put in. */
  lemma UnwrapWrap(c: Crypto, media: Media, data: seq<byte>, key: seq<byte>, iv: seq<byte>, keyIndex: byte)
    requires c.Valid() && |iv| == IV_SIZE && HeaderFits(media, data)
    requires Wrap(c, media, data, key, iv, keyIndex).Some?
    ensures var n := ClearBytes(media, data);
            && n <= |data| && c.Seal(key, iv, data[..n], data[n..]).Some?
            && Unwrap(media, Wrap(c, media, data, key, iv, keyIndex).value) ==
               Some(Opened(Box(iv, data[..n], c.Seal(key, iv, data[..n], data[n..]).value), keyIndex))
  {
    var n := ClearBytes(media, data);
    var sealed := c.Seal(key, iv, data[..n], data[n..]).value;
    var body := sealed + iv + [IV_SIZE, keyIndex];
    var sent := data[..n] + Protect(media, body);
    HeaderAgreement(media, data, body);
    UnprotectProtect(media, body);
    assert sent[n..] == Protect(media, body) && sent[..n] == data[..n];
    SplitJoined(data[..n], sealed, iv, keyIndex);
  }

  /**
    * The frame round trip: for every frame, codec and nonce, the receiver that holds the sender's key
    * material at the sender's index opens the frame at once, with no ratcheting, to the original bytes.
    */
  lemma FrameRoundTrip(c: Crypto, media: Media, data: seq<byte>, keys: KeySet, iv: seq<byte>, keyIndex: byte, window: int)
    requires c.Valid() && |iv| == IV_SIZE && HeaderFits(media, data)
    requires c.Derive(keys.material) == Some(keys.key)
    requires Wrap(c, media, data, keys.key, iv, keyIndex).Some?
    ensures var got := Unwrap(media, Wrap(c, media, data, keys.key, iv, keyIndex).value);
            && got.Some? && got.value.keyIndex == keyIndex
            && var hit := Search(c, keys.material, window, got.value.box);
            && hit.Some? && hit.value.k == 0 && hit.value.keys == keys
            && got.value.box.header + hit.value.plain == data
  {
    var n := ClearBytes(media, data);
    var header, plain := data[..n], data[n..];
    var box := Box(iv, header, c.Seal(keys.key, iv, header, plain).value);
    assert Unwrap(media, Wrap(c, media, data, keys.key, iv, keyIndex).value) == Some(Opened(box, keyIndex)) by {
      UnwrapWrap(c, media, data, keys.key, iv, keyIndex);
    }
    assert Search(c, keys.material, window, box) == Some(Hit(0, keys, plain)) by {
      SealedIsFound(c, keys, iv, header, plain, window);
    }
    Rejoined(data, n);
  }

  lemma Rejoined(data: seq<byte>, n: nat)
    requires n <= |data|
    ensures data[..n] + data[n..] == data
  {
  }

  lemma SealedIsFound(c: Crypto, keys: KeySet, iv: seq<byte>, header: seq<byte>, plain: seq<byte>, window: int)
    requires c.Valid() && c.Derive(keys.material) == Some(keys.key) && c.Seal(keys.key, iv, header, plain).Some?
    ensures Search(c, keys.material, window, Box(iv, header, c.Seal(keys.key, iv, header, plain).value)) == Some(Hit(0, keys, plain))
  {
    SearchHitsAtOnce(c, keys, window, Box(iv, header, c.Seal(keys.key, iv, header, plain).value), plain);
  }

  lemma WrapIsNotEmpty(c: Crypto, media: Media, data: seq<byte>, key: seq<byte>, iv: seq<byte>, keyIndex: byte)
    requires Wrap(c, media, data, key, iv, keyIndex).Some?
    ensures Wrap(c, media, data, key, iv, keyIndex).value != []
  {
    var n := ClearBytes(media, data);
    EscapeOnlyAdds(0, c.Seal(key, iv, data[..n], data[n..]).value + iv + [IV_SIZE, keyIndex]);
  }
}
