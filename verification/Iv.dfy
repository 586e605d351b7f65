/** The nonces of makeIv and when two of them coincide (section 3.1 of RFC 5116). */
module Iv {
  import opened Wire
  import opened Machines

  /** ByteBufferWriter::WriteUInt32: big-endian. */
  function BigEndian(n: u32): seq<byte> {
    var q := n / 256;
    var r := q / 256;
    [r / 256, r % 256, q % 256, n % 256]
  }

  lemma BigEndianIsInjective(a: u32, b: u32)
    requires BigEndian(a) == BigEndian(b)
    ensures a == b
  {
    var x, y := BigEndian(a), BigEndian(b);
    assert x[0] == y[0] && x[1] == y[1] && x[2] == y[2] && x[3] == y[3];
    assert a / 256 / 256 == b / 256 / 256;
    assert a / 256 == b / 256;
  }

  function IvOf(ssrc: u32, timestamp: u32, count: u32): seq<byte> {
    BigEndian(ssrc) + BigEndian(timestamp) + BigEndian(Sub32(timestamp, count % 0xFFFF))
  }

  /** Two nonces coincide exactly when stream and timestamp do and the counts agree modulo 65535. */
  lemma IvCoincidence(ssrc: u32, t: u32, n: u32, ssrc': u32, t': u32, n': u32)
    ensures IvOf(ssrc, t, n) == IvOf(ssrc', t', n') <==> ssrc == ssrc' && t == t' && n % 0xFFFF == n' % 0xFFFF
  {
    var iv, iv' := IvOf(ssrc, t, n), IvOf(ssrc', t', n');
    if iv == iv' {
      assert iv[..4] == BigEndian(ssrc) && iv[4..8] == BigEndian(t) && iv[8..] == BigEndian(Sub32(t, n % 0xFFFF));
      assert iv'[..4] == BigEndian(ssrc') && iv'[4..8] == BigEndian(t') && iv'[8..] == BigEndian(Sub32(t', n' % 0xFFFF));
      BigEndianIsInjective(ssrc, ssrc');
      BigEndianIsInjective(t, t');
      BigEndianIsInjective(Sub32(t, n % 0xFFFF), Sub32(t', n' % 0xFFFF));
    }
  }

  // ----- Runs -----

  function Wrap32(n: nat): u32 {
    n % 0x1_0000_0000
  }

  lemma WrapSuccessor(n: nat)
    ensures Wrap32(Wrap32(n) + 1) == Wrap32(n + 1)
    ensures n < TWO_32 ==> Wrap32(n) == n
  {
  }

  lemma NearbyCountsDiffer(m: nat, n: nat)
    requires m < n && n - m < 0xFFFF
    ensures m % 0xFFFF != n % 0xFFFF
  {
  }

  datatype Call = Call(ssrc: u32, timestamp: u32)

  function CountOf(counts: map<u32, u32>, ssrc: u32): u32 {
    if ssrc in counts then counts[ssrc] else 0
  }

  /** send_counts_ after one more call; the 32-bit counter wraps. */
  function Bump(counts: map<u32, u32>, ssrc: u32): map<u32, u32> {
    counts[ssrc := Wrap32(CountOf(counts, ssrc) + 1)]
  }

  type Nonce = (u32, u32, u32) -> seq<byte>

  /** makeIv as a machine: the nonce of a call uses the count kept for its stream. */
  function Calls(nonce: Nonce): (map<u32, u32>, Call) -> Outcome<map<u32, u32>, seq<byte>> {
    (counts: map<u32, u32>, call: Call) =>
      Outcome(Bump(counts, call.ssrc), [nonce(call.ssrc, call.timestamp, CountOf(counts, call.ssrc))])
  }

  /** The number of calls on one stream. */
  function CallsOn(calls: seq<Call>, ssrc: u32): nat {
    if calls == [] then 0 else
    CallsOn(calls[..|calls| - 1], ssrc) + if calls[|calls| - 1].ssrc == ssrc then 1 else 0
  }

  /** Each stream's counter is the number of its calls, modulo 2^32. */
  lemma {:induction false} CountsAfter(nonce: Nonce, calls: seq<Call>, ssrc: u32)
    ensures CountOf(Run(Calls(nonce), map[], calls).state, ssrc) == Wrap32(CallsOn(calls, ssrc))
  {
    if calls != [] {
      var before, last := calls[..|calls| - 1], calls[|calls| - 1];
      CountsAfter(nonce, before, ssrc);
      WrapSuccessor(CallsOn(before, ssrc));
      var counts := Run(Calls(nonce), map[], before).state;
      assert Calls(nonce)(counts, last).state == Bump(counts, last.ssrc);
    }
  }

  /** The i-th nonce of a run is made in the state after the first i calls. */
  lemma {:induction false} NonceAt(nonce: Nonce, calls: seq<Call>, i: nat)
    requires i < |calls|
    ensures var r := Run(Calls(nonce), map[], calls);
            && |r.events| == |calls|
            && r.events[i] == nonce(calls[i].ssrc, calls[i].timestamp,
                                    CountOf(Run(Calls(nonce), map[], calls[..i]).state, calls[i].ssrc))
  {
    var before := calls[..|calls| - 1];
    if i < |before| {
      NonceAt(nonce, before, i);
      assert before[..i] == calls[..i];
    } else if before != [] {
      NonceAt(nonce, before, 0);
    }
  }

  lemma {:induction false} CallsOnGrows(calls: seq<Call>, i: nat, j: nat, ssrc: u32)
    requires i < j <= |calls| && calls[i].ssrc == ssrc
    ensures CallsOn(calls[..i], ssrc) < CallsOn(calls[..j], ssrc)
    decreases j
  {
    assert calls[..j][..j - 1] == calls[..j - 1];
    if i < j - 1 {
      CallsOnGrows(calls, i, j - 1, ssrc);
    }
  }

  /** Two nonces of a run coincide exactly when stream and timestamp do and the wrapped counts agree modulo 65535. */
  lemma CoincidenceInRun(calls: seq<Call>, i: nat, j: nat)
    requires i < |calls| && j < |calls|
    ensures var ivs := Run(Calls(IvOf), map[], calls).events;
            && |ivs| == |calls|
            && (ivs[i] == ivs[j] <==>
                calls[i] == calls[j]
                && Wrap32(CallsOn(calls[..i], calls[i].ssrc)) % 0xFFFF == Wrap32(CallsOn(calls[..j], calls[j].ssrc)) % 0xFFFF)
  {
    var a, b := calls[i], calls[j];
    NonceAt(IvOf, calls, i);
    NonceAt(IvOf, calls, j);
    CountsAfter(IvOf, calls[..i], a.ssrc);
    CountsAfter(IvOf, calls[..j], b.ssrc);
    IvCoincidence(a.ssrc, a.timestamp, Wrap32(CallsOn(calls[..i], a.ssrc)), b.ssrc, b.timestamp, Wrap32(CallsOn(calls[..j], b.ssrc)));
  }

  /**
    * Distinctness: in any run, for any timestamps, the nonces of two calls differ if the streams differ,
    * or if fewer than 65535 calls of the stream lie between and the later count is below 2^32.
    */
  lemma IvsAreDistinct(calls: seq<Call>, i: nat, j: nat)
    requires i < j < |calls|
    requires calls[i].ssrc == calls[j].ssrc ==>
               && CallsOn(calls[..j], calls[j].ssrc) < 0x1_0000_0000
               && CallsOn(calls[..j], calls[j].ssrc) - CallsOn(calls[..i], calls[j].ssrc) < 0xFFFF
    ensures var ivs := Run(Calls(IvOf), map[], calls).events;
            |ivs| == |calls| && ivs[i] != ivs[j]
  {
    CoincidenceInRun(calls, i, j);
    if calls[i].ssrc == calls[j].ssrc {
      var m, n := CallsOn(calls[..i], calls[i].ssrc), CallsOn(calls[..j], calls[j].ssrc);
      CallsOnGrows(calls, i, j, calls[i].ssrc);
      WrapSuccessor(m);
      WrapSuccessor(n);
      NearbyCountsDiffer(m, n);
    }
  }

  lemma {:induction false} CallsOnAlike(calls: seq<Call>, call: Call)
    requires forall k :: 0 <= k < |calls| ==> calls[k] == call
    ensures CallsOn(calls, call.ssrc) == |calls|
  {
    if calls != [] {
      CallsOnAlike(calls[..|calls| - 1], call);
    }
  }

  /** The bound is real: in a run of more than 2^32 calls alike, two consecutive ones repeat a nonce when the counter wraps. */
  lemma WrapRepeatsIv(calls: seq<Call>)
    requires |calls| > 0x1_0000_0000 && forall k :: 0 <= k < |calls| ==> calls[k] == calls[0]
    ensures var ivs := Run(Calls(IvOf), map[], calls).events;
            |ivs| == |calls| && ivs[0xFFFF_FFFF] == ivs[0x1_0000_0000]
  {
    var i, j := 0xFFFF_FFFF, 0x1_0000_0000;
    CallsOnAlike(calls[..i], calls[0]);
    CallsOnAlike(calls[..j], calls[0]);
    CoincidenceInRun(calls, i, j);
    assert Wrap32(0xFFFF_FFFF) % 0xFFFF == 0 && Wrap32(0x1_0000_0000) % 0xFFFF == 0;
  }

  /** The number that four bytes stand for, the first being the most significant. */
  function Big(b: seq<byte>): int
    requires |b| == 4
  {
    var a: int, b': int, c: int, d: int := b[0], b[1], b[2], b[3];
    ((a * 256 + b') * 256 + c) * 256 + d
  }

  lemma BigOfBigEndian(n: u32)
    ensures Big(BigEndian(n)) == n
  {
  }

  /** The layout of a nonce: SSRC, timestamp, and the timestamp less the count modulo 65535, in 32-bit arithmetic. */
  lemma IvLayout(ssrc: u32, timestamp: u32, count: u32)
    ensures var iv := IvOf(ssrc, timestamp, count);
            && |iv| == 12 && Big(iv[..4]) == ssrc && Big(iv[4..8]) == timestamp
            && (Big(iv[8..12]) - (timestamp - count % 0xFFFF)) % 0x1_0000_0000 == 0
  {
    var iv := IvOf(ssrc, timestamp, count);
    assert iv[..4] == BigEndian(ssrc) && iv[4..8] == BigEndian(timestamp) && iv[8..12] == BigEndian(Sub32(timestamp, count % 0xFFFF));
    BigOfBigEndian(ssrc);
    BigOfBigEndian(timestamp);
    BigOfBigEndian(Sub32(timestamp, count % 0xFFFF));
  }
}
