/**
  * The bounded raw-DEFLATE reader (InflateRawStream).
  *
  * zlib is not part of this model. `Codec` stands for the decoder of section 3.2 of RFC 1951 as a
  * function of the bytes consumed so far, and `MayInflate` is what one call of zlib's inflate may do: any
  * split of the work into calls that the promises of zlib.h allow.
  */
module Inflate {
  import opened Wire

  /** What a decoder that has consumed exactly `s` has determined. */
  datatype Codec = Codec(
    decode: seq<byte> -> seq<byte>,
    ends: seq<byte> -> bool,
    fails: seq<byte> -> bool)
  {
    /** Every output byte determined by s. */
    function Out(s: seq<byte>): seq<byte> { decode(s) }

    /** s ends with the end of the final block. */
    predicate Complete(s: seq<byte>) { ends(s) }

    /** s ends with the byte that reveals a format error. */
    predicate Bad(s: seq<byte>) { fails(s) }

    ghost predicate Extends(s: seq<byte>, b: byte) { Out(s) <= Out(s + [b]) }

    /** The decoder ends or fails having read the first n bytes of s. */
    ghost predicate Stops(s: seq<byte>, n: nat)
      requires n <= |s|
    {
      Complete(s[..n]) || Bad(s[..n])
    }

    /** Output already determined never changes, and a complete stream is not an erroneous one. */
    ghost predicate Valid() {
      && Out([]) == [] && !Complete([]) && !Bad([])
      && (forall s, b :: Extends(s, b))
      && (forall s :: Complete(s) ==> !Bad(s))
    }
  }

  lemma OutMonotone(c: Codec, s: seq<byte>, t: seq<byte>)
    requires c.Valid()
    ensures c.Out(s) <= c.Out(s + t)
    decreases |t|
  {
    if t == [] {
      assert s + t == s;
    } else {
      OutMonotone(c, s, t[..|t| - 1]);
      assert s + t == (s + t[..|t| - 1]) + [t[|t| - 1]];
      assert c.Extends(s + t[..|t| - 1], t[|t| - 1]);
    }
  }

  /** The decoder stops on nothing strictly between the prefix of length `from` and `s` itself. */
  ghost predicate RunsThrough(c: Codec, s: seq<byte>, from: nat)
    requires from <= |s|
  {
    forall n :: from <= n < |s| ==> !c.Stops(s, n)
  }

  /** A total input `s` that a reader limited to `limit` output bytes must take to its end. */
  ghost predicate Accepts(c: Codec, limit: int, s: seq<byte>, from: nat)
    requires from <= |s|
  {
    RunsThrough(c, s, from) && !c.Bad(s) && |c.Out(s)| <= limit
  }

  lemma RunsThroughExtends(c: Codec, from: nat, s: seq<byte>, t: seq<byte>)
    requires from <= |s| && RunsThrough(c, s, from) && RunsThrough(c, s + t, |s|)
    ensures RunsThrough(c, s + t, from)
  {
    forall n | from <= n < |s + t| ensures !c.Stops(s + t, n) {
      if n < |s| {
        assert (s + t)[..n] == s[..n] && !c.Stops(s, n);
      }
    }
  }

  /** An error, an early end of stream, or too much output in a part of the input refutes the whole. */
  lemma PartRefutesWhole(c: Codec, limit: int, from: nat, s: seq<byte>, rest: seq<byte>)
    requires c.Valid() && from <= |s|
    requires c.Bad(s) || (c.Complete(s) && rest != []) || |c.Out(s)| > limit
    ensures !Accepts(c, limit, s + rest, from)
  {
    OutMonotone(c, s, rest);
    assert (s + rest)[..|s|] == s && (c.Stops(s + rest, |s|) <==> c.Complete(s) || c.Bad(s));
    assert rest == [] ==> s + rest == s;
  }

  datatype Status = ZOk | ZStreamEnd | ZBufError | ZError

  /**
    * What one call of inflate may do when `fed` was consumed and `delivered` output bytes were handed
    * out before it: it takes a prefix of `input`, never reads past a stop, hands out the next bytes
    * of the output, makes progress on Z_OK and withholds output, or news of an error, only when `room`
    * is used up.
    */
  ghost predicate MayInflate(c: Codec, fed: seq<byte>, delivered: nat, input: seq<byte>, room: nat,
                             status: Status, taken: nat, given: seq<byte>)
  {
    && taken <= |input| && |given| <= room
    && RunsThrough(c, fed + input[..taken], |fed|)
    && var now := fed + input[..taken];
    && (status == ZError ==> c.Bad(now))
    && (c.Bad(now) && status != ZError ==> status == ZOk && |given| == room)
    && delivered + |given| <= |c.Out(now)|
    && given == c.Out(now)[delivered..delivered + |given|]
    && match status
       case ZOk =>
         && taken + |given| > 0
         && (|given| < room ==> |c.Out(now)| == delivered + |given| && !c.Complete(now))
       case ZStreamEnd => c.Complete(now) && |c.Out(now)| == delivered + |given|
       case ZBufError => input == [] && given == [] && |c.Out(now)| == delivered && !c.Complete(now)
       case ZError => true
  }

  /** One call of inflate. The body is one admissible behaviour; callers may rely on `MayInflate` only. */
  method InflateCall(c: Codec, fed: seq<byte>, delivered: nat, input: seq<byte>, room: nat)
    returns (status: Status, taken: nat, given: seq<byte>)
    requires c.Valid() && 0 < room && delivered <= |c.Out(fed)|
    ensures MayInflate(c, fed, delivered, input, room, status, taken, given)
  {
    taken := if delivered == |c.Out(fed)| && input != [] && !c.Complete(fed) && !c.Bad(fed) then 1 else 0;
    var now := fed + input[..taken];
    OutMonotone(c, fed, input[..taken]);
    assert fed + input[..0] == fed;
    assert RunsThrough(c, now, |fed|) by {
      assert taken == 1 ==> now[..|fed|] == fed;
    }
    if c.Bad(now) {
      return ZError, taken, [];
    }
    given := c.Out(now)[delivered..delivered + Min(room, |c.Out(now)| - delivered)];
    status := if c.Complete(now) && |c.Out(now)| == delivered + |given| then ZStreamEnd
              else if taken == 0 && given == [] then ZBufError
              else ZOk;
  }

  /** Between two calls of one write: nothing was skipped, and what was appended is true output. */
  ghost predicate Reading(c: Codec, from: nat, first: nat, fed: seq<byte>, delivered: nat, appended: seq<byte>) {
    && from <= |fed| && RunsThrough(c, fed, from)
    && first <= delivered <= |c.Out(fed)|
    && appended == c.Out(fed)[first..delivered]
  }

  lemma ReadingContinues(c: Codec, from: nat, first: nat, fed: seq<byte>, delivered: nat, appended: seq<byte>,
                         input: seq<byte>, room: nat, status: Status, taken: nat, given: seq<byte>)
    requires c.Valid() && Reading(c, from, first, fed, delivered, appended)
    requires MayInflate(c, fed, delivered, input, room, status, taken, given)
    ensures Reading(c, from, first, fed + input[..taken], delivered, appended)
    ensures Reading(c, from, first, fed + input[..taken], delivered + |given|, appended + given)
  {
    OutMonotone(c, fed, input[..taken]);
    RunsThroughExtends(c, from, fed, input[..taken]);
  }

  const BUFFER_SIZE: u64 := 16 * 1024

  /** An inflater owned through a unique_ptr, between two uses. */
  datatype Inflater = Inflater(finished: bool, outputSize: u64, fed: seq<byte>, delivered: nat)
  {
    /** No write was refused so far: everything fed was decoded, delivered and counted. */
    ghost predicate Intact(c: Codec, limit: int) {
      && outputSize == delivered == |c.Out(fed)| <= limit
      && finished == c.Complete(fed) && !c.Bad(fed)
    }
  }

  const FreshInflater := Inflater(false, 0, [], 0)

  class InflateRawStream {
    const codec: Codec
    const maximumOutputSize: u64
    const valid: bool
    var finished: bool
    var outputSize: u64
    // The part of z_stream that matters: input consumed and output handed out since creation.
    var fed: seq<byte>
    var delivered: nat

    ghost predicate Valid()
      reads this
    {
      && codec.Valid()
      && outputSize <= maximumOutputSize
      && delivered <= |codec.Out(fed)|
    }

    function Snapshot(): Inflater
      reads this
    {
      Inflater(finished, outputSize, fed, delivered)
    }

    ghost predicate Intact()
      reads this
    {
      Valid() && Snapshot().Intact(codec, maximumOutputSize)
    }

    /** A new reader is `Resume` of `FreshInflater`; any other one continues where it was left. */
    constructor Resume(codec: Codec, maximumOutputSize: u64, initialised: bool, state: Inflater)
      requires codec.Valid() && state.Intact(codec, maximumOutputSize)
      ensures Intact() && Snapshot() == state && valid == initialised
      ensures this.codec == codec && this.maximumOutputSize == maximumOutputSize
    {
      this.codec, this.maximumOutputSize, valid := codec, maximumOutputSize, initialised;
      finished, outputSize, fed, delivered := state.finished, state.outputSize, state.fed, state.delivered;
    }

    /** `inflate(&stream_, Z_NO_FLUSH)` with `input` left to read and `room` bytes of output space. */
    method CallInflate(input: seq<byte>, room: nat, ghost from: nat, ghost first: nat, ghost appended: seq<byte>)
      returns (status: Status, rest: seq<byte>, given: seq<byte>)
      requires Valid() && 0 < room
      modifies this`fed, this`delivered
      ensures Valid() && fed + rest == old(fed) + input && (rest == [] ==> fed == old(fed) + input)
      ensures |given| <= room && delivered == old(delivered) + |given|
      ensures |rest| <= |input| && (status == ZOk ==> |rest| < |input| + |given|)
      ensures status == ZError ==> codec.Bad(fed)
      ensures codec.Bad(fed) && status != ZError ==> status == ZOk && |given| == room
      ensures (status == ZOk && |given| < room) || status == ZBufError ==>
                |codec.Out(fed)| == delivered && !codec.Complete(fed)
      ensures status == ZStreamEnd ==> |codec.Out(fed)| == delivered && codec.Complete(fed)
      ensures status == ZBufError ==> rest == []
      ensures Reading(codec, from, first, old(fed), old(delivered), appended) ==>
                && Reading(codec, from, first, fed, old(delivered), appended)
                && Reading(codec, from, first, fed, delivered, appended + given)
    {
      var taken;
      status, taken, given := InflateCall(codec, fed, delivered, input, room);
      if Reading(codec, from, first, fed, delivered, appended) {
        ReadingContinues(codec, from, first, fed, delivered, appended, input, room, status, taken, given);
      }
      assert input[..taken] + input[taken..] == input;
      fed, rest, delivered := fed + input[..taken], input[taken..], delivered + |given|;
    }

    /**
      * The limit is exact: while no write was refused, a write succeeds if and only if the whole
      * input, with this piece, decodes without a stop before its end and without passing the limit.
      * Whatever is appended continues the true output, and the limit is never passed.
      */
    method Write(data: seq<byte>) returns (ok: bool, appended: seq<byte>)
      requires Valid()
      modifies this
      ensures Valid()
      ensures old(Intact()) && maximumOutputSize < TWO_64 - 1 ==>
                (ok <==> valid && !old(finished) && |data| < TWO_32 &&
                         Accepts(codec, maximumOutputSize, old(fed) + data, |old(fed)|))
      ensures old(Intact()) && ok ==> Intact() && fed == old(fed) + data
      ensures old(Intact()) ==> old(outputSize) <= outputSize <= |codec.Out(fed)| &&
                                appended == codec.Out(fed)[old(outputSize)..outputSize]
      ensures maximumOutputSize == TWO_64 - 1 && old(outputSize) == 0 ==> !ok
    {
      appended := [];
      if !valid || finished || |data| >= TWO_32 {
        return false, [];
      }
      var rest := data;
      ghost var total, from, first, intact := fed + data, |fed|, outputSize, Intact();
      while true
        invariant Valid() && !finished && fed + rest == total
        invariant intact ==> outputSize == delivered && Reading(codec, from, first, fed, delivered, appended)
        invariant maximumOutputSize == TWO_64 - 1 && first == 0 ==> outputSize == 0
        decreases |rest| + |codec.Out(total)| - delivered
      {
        var room := Min(BUFFER_SIZE, Add64(Sub64(maximumOutputSize, outputSize), 1));
        if room == 0 {
          return false, appended;
        }
        var status, given;
        status, rest, given := CallInflate(rest, room, from, first, appended);
        OutMonotone(codec, fed, rest);
        if status == ZError || |given| > Sub64(maximumOutputSize, outputSize) {
          if intact {
            PartRefutesWhole(codec, maximumOutputSize, from, fed, rest);
          }
          return false, appended;
        }
        appended := appended + given;
        outputSize := Add64(outputSize, |given|);
        if status == ZStreamEnd || (status == ZBufError && given == []) {
          finished := status == ZStreamEnd;
          if intact && rest != [] {
            PartRefutesWhole(codec, maximumOutputSize, from, fed, rest);
          }
          return rest == [], appended;
        }
        if rest == [] && |given| < room {
          return true, appended;
        }
      }
    }
  }

  /** Every write of `pieces`, one after the other into a fresh reader, succeeds (by `Write`'s contract). */
  ghost predicate WritesSucceed(c: Codec, limit: int, pieces: seq<seq<byte>>) {
    pieces != [] ==>
      var before := pieces[..|pieces| - 1];
      && WritesSucceed(c, limit, before)
      && !c.Complete(Concat(before)) && |pieces[|pieces| - 1]| < TWO_32
      && Accepts(c, limit, Concat(before) + pieces[|pieces| - 1], |Concat(before)|)
  }

  /** No empty write comes when the stream is complete, where every write is refused. */
  ghost predicate NoneAfterEnd(c: Codec, pieces: seq<seq<byte>>) {
    forall i :: 0 <= i < |pieces| && pieces[i] == [] ==> !c.Complete(Concat(pieces[..i]))
  }

  /** Cutting the input differently changes nothing: the whole input decides, but for an empty write after its end. */
  lemma {:induction false} SplitDoesNotMatter(c: Codec, limit: nat, pieces: seq<seq<byte>>)
    requires c.Valid()
    requires forall i :: 0 <= i < |pieces| ==> |pieces[i]| < TWO_32
    ensures WritesSucceed(c, limit, pieces) <==> Accepts(c, limit, Concat(pieces), 0) && NoneAfterEnd(c, pieces)
  {
    if pieces != [] {
      var before, last := pieces[..|pieces| - 1], pieces[|pieces| - 1];
      SplitDoesNotMatter(c, limit, before);
      NoneAfterEndOfFront(c, pieces);
      LastPiece(c, limit, Concat(before), last);
    }
  }

  lemma NoneAfterEndOfFront(c: Codec, pieces: seq<seq<byte>>)
    requires pieces != []
    ensures var before, last := pieces[..|pieces| - 1], pieces[|pieces| - 1];
            NoneAfterEnd(c, pieces) <==> NoneAfterEnd(c, before) && (last == [] ==> !c.Complete(Concat(before)))
  {
    var before := pieces[..|pieces| - 1];
    assert forall i :: 0 <= i <= |before| ==> pieces[..i] == before[..i];
    assert before[..|before|] == before;
    assert forall i :: 0 <= i < |before| ==> before[i] == pieces[i];
  }

  /** One more write of a whole. */
  lemma LastPiece(c: Codec, limit: nat, s: seq<byte>, last: seq<byte>)
    requires c.Valid()
    ensures Accepts(c, limit, s, 0) && !c.Complete(s) && Accepts(c, limit, s + last, |s|) <==>
            Accepts(c, limit, s + last, 0) && (last == [] ==> !c.Complete(s))
  {
    OutMonotone(c, s, last);
    assert (s + last)[..|s|] == s && (last == [] ==> s + last == s);
    if Accepts(c, limit, s, 0) && !c.Complete(s) && Accepts(c, limit, s + last, |s|) {
      RunsThroughExtends(c, 0, s, last);
    }
    if Accepts(c, limit, s + last, 0) {
      assert last != [] ==> !c.Stops(s + last, |s|);
      forall n | 0 <= n < |s| ensures !c.Stops(s, n) {
        assert (s + last)[..n] == s[..n] && !c.Stops(s + last, n);
      }
    }
  }
}
