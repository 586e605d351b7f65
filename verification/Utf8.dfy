/** Text that crosses the wire in an RPC error: cut to a length without cutting a character (RFC 3629). */
module Utf8 {
  import opened Wire

  /** UTF8-tail of section 4 of RFC 3629: a byte of the form 10xxxxxx. */
  predicate IsTail(b: byte) { 0x80 <= b <= 0xBF }

  predicate Tails(s: seq<byte>, from: nat, to: nat)
    requires to <= |s|
  {
    forall i :: from <= i < to ==> IsTail(s[i])
  }

  /** The length a first byte announces; 0 for a byte that starts no character. */
  function Announced(first: byte): nat {
    if first <= 0x7F then 1
    else if 0xC2 <= first <= 0xDF then 2
    else if 0xE0 <= first <= 0xEF then 3
    else if 0xF0 <= first <= 0xF4 then 4
    else 0
  }

  /** The bounds that rule out overlong forms, surrogates and numbers above 10FFFF. */
  predicate SecondFits(first: byte, second: byte) {
    && (first == 0xE0 ==> 0xA0 <= second)
    && (first == 0xED ==> second <= 0x9F)
    && (first == 0xF0 ==> 0x90 <= second)
    && (first == 0xF4 ==> second <= 0x8F)
  }

  /** UTF8-char of section 4 of RFC 3629 at the front of the text. */
  predicate StartsWithChar(s: seq<byte>) {
    s != [] &&
    var n := Announced(s[0]);
    && 0 < n <= |s|
    && Tails(s, 1, n)
    && (n >= 2 ==> SecondFits(s[0], s[1]))
  }

  /** UTF8-octets: characters one after the other. */
  predicate Valid(s: seq<byte>) {
    s == [] || (StartsWithChar(s) && Valid(s[Announced(s[0])..]))
  }

  // ----- The same by scalar values (section 3 of RFC 3629) -----

  /** A Unicode scalar value: up to 10FFFF and no surrogate. */
  predicate IsScalar(v: int) { 0 <= v < 0x110000 && !(0xD800 <= v <= 0xDFFF) }

  function Encoding(v: int): seq<byte>
    requires IsScalar(v)
  {
    if v < 0x80 then [v]
    else if v < 0x800 then [0xC0 + v / 64, 0x80 + v % 64]
    else if v < 0x10000 then [0xE0 + v / 4096, 0x80 + (v / 64) % 64, 0x80 + v % 64]
    else [0xF0 + v / 262144, 0x80 + (v / 4096) % 64, 0x80 + (v / 64) % 64, 0x80 + v % 64]
  }

  /** What the character at the front stands for. */
  function Scalar(s: seq<byte>): int
    requires StartsWithChar(s)
  {
    var a: int, n := s[0], Announced(s[0]);
    if n == 1 then a
    else
      var b: int := s[1] - 0x80;
      if n == 2 then (a - 0xC0) * 64 + b
      else
        var c: int := s[2] - 0x80;
        if n == 3 then (a - 0xE0) * 4096 + b * 64 + c
        else var d: int := s[3] - 0x80; (a - 0xF0) * 262144 + b * 4096 + c * 64 + d
  }

  lemma EncodingIsChar(v: int, rest: seq<byte>)
    requires IsScalar(v)
    ensures StartsWithChar(Encoding(v) + rest) && Announced(Encoding(v)[0]) == |Encoding(v)|
  {
    var s := Encoding(v) + rest;
    assert forall i :: 0 <= i < |Encoding(v)| ==> s[i] == Encoding(v)[i];
  }

  /** The parts of a number in base 64. */
  lemma InBase64(a: nat, b: nat, c: nat, d: nat)
    requires b < 64 && c < 64 && d < 64
    ensures var v := a * 262144 + b * 4096 + c * 64 + d;
            v / 262144 == a && v / 4096 == a * 64 + b && (v / 4096) % 64 == b && (v / 64) % 64 == c && v % 64 == d
  {
    var x := a * 64 + b;
    var y := x * 64 + c;
    Base64Step(y, d);
    Base64Step(x, c);
    Base64Step(a, b);
    Twice64(y * 64 + d, y, x, a);
  }

  lemma Base64Step(x: nat, r: nat)
    requires r < 64
    ensures (x * 64 + r) / 64 == x && (x * 64 + r) % 64 == r
  {
  }

  lemma Twice64(v: nat, y: nat, x: nat, a: nat)
    requires v / 64 == y && y / 64 == x && x / 64 == a
    ensures v / 4096 == x && v / 262144 == a
  {
  }

  lemma CharIsEncoding(s: seq<byte>)
    requires StartsWithChar(s)
    ensures IsScalar(Scalar(s)) && Encoding(Scalar(s)) == s[..Announced(s[0])]
  {
    var n := Announced(s[0]);
    assert forall i :: 1 <= i < n ==> IsTail(s[i]);
    if n == 2 {
      InBase64(0, 0, s[0] - 0xC0, s[1] - 0x80);
      assert Encoding(Scalar(s)) == [s[0], s[1]];
    } else if n == 3 {
      ThreeBytes(s);
    } else if n == 4 {
      FourBytes(s);
    }
  }

  lemma ThreeBytes(s: seq<byte>)
    requires StartsWithChar(s) && Announced(s[0]) == 3 && IsTail(s[1]) && IsTail(s[2])
    ensures IsScalar(Scalar(s)) && Encoding(Scalar(s)) == s[..3]
  {
    var a: int, b: int, c: int := s[0] - 0xE0, s[1] - 0x80, s[2] - 0x80;
    var v := Scalar(s);
    InBase64(0, a, b, c);
    assert v == a * 4096 + b * 64 + c && 0x800 <= v < 0x10000 && IsScalar(v);
    assert Encoding(v) == [s[0], s[1], s[2]];
  }

  lemma FourBytes(s: seq<byte>)
    requires StartsWithChar(s) && Announced(s[0]) == 4 && IsTail(s[1]) && IsTail(s[2]) && IsTail(s[3])
    ensures IsScalar(Scalar(s)) && Encoding(Scalar(s)) == s[..4]
  {
    var a: int, b: int, c: int, d: int := s[0] - 0xF0, s[1] - 0x80, s[2] - 0x80, s[3] - 0x80;
    var v := Scalar(s);
    InBase64(a, b, c, d);
    assert v == a * 262144 + b * 4096 + c * 64 + d && 0x10000 <= v < 0x110000;
    assert Encoding(v) == [s[0], s[1], s[2], s[3]];
  }

  function EncodingOfAll(values: seq<int>): seq<byte>
    requires forall i :: 0 <= i < |values| ==> IsScalar(values[i])
  {
    if values == [] then [] else Encoding(values[0]) + EncodingOfAll(values[1..])
  }

  /** Valid text is exactly the encoding of scalar values. */
  lemma {:induction false} EncodingsAreValid(values: seq<int>)
    requires forall i :: 0 <= i < |values| ==> IsScalar(values[i])
    ensures Valid(EncodingOfAll(values))
  {
    if values != [] {
      var rest := EncodingOfAll(values[1..]);
      EncodingsAreValid(values[1..]);
      EncodingIsChar(values[0], rest);
      assert (Encoding(values[0]) + rest)[|Encoding(values[0])|..] == rest;
    }
  }

  lemma {:induction false} ValidIsEncoding(s: seq<byte>) returns (values: seq<int>)
    requires Valid(s)
    ensures (forall i :: 0 <= i < |values| ==> IsScalar(values[i])) && EncodingOfAll(values) == s
    decreases |s|
  {
    if s == [] {
      values := [];
    } else {
      var n := Announced(s[0]);
      CharIsEncoding(s);
      var rest := ValidIsEncoding(s[n..]);
      values := [Scalar(s)] + rest;
      assert values[1..] == rest && s[..n] + s[n..] == s;
    }
  }

  // ----- Cutting -----

  /** The text is not cut inside a character at k. */
  predicate Boundary(s: seq<byte>, k: nat)
    requires k <= |s|
  {
    k == 0 || k == |s| || !IsTail(s[k])
  }

  /** Of a valid text, the valid prefixes are those that end at a boundary. */
  lemma {:induction false} ValidPrefixes(s: seq<byte>, k: nat)
    requires Valid(s) && k <= |s|
    ensures Valid(s[..k]) <==> Boundary(s, k)
    decreases |s|
  {
    if 0 < k < |s| {
      var n := Announced(s[0]);
      if k >= n {
        assert s[..k][n..] == s[n..][..k - n];
        ValidPrefixes(s[n..], k - n);
        assert k == n ==> !IsTail(s[n..][0]);
      }
    } else {
      assert s[..|s|] == s;
    }
  }

  method TruncateUtf8(value: seq<byte>, maximum: nat) returns (r: seq<byte>)
    ensures r <= value && |r| <= maximum && Boundary(value, |r|)
    ensures forall k :: |r| < k <= maximum && k <= |value| ==> !Boundary(value, k)
    ensures Valid(value) ==> Valid(r) && forall k :: |r| < k <= maximum && k <= |value| ==> !Valid(value[..k])
  {
    if |value| <= maximum {
      return value;
    }
    var end := maximum;
    while end > 0 && IsTail(value[end])
      invariant 0 <= end <= maximum
      invariant forall k :: end < k <= maximum ==> IsTail(value[k])
    {
      end := end - 1;
    }
    r := value[..end];
    if Valid(value) {
      forall k | end <= k <= maximum ensures Valid(value[..k]) <==> Boundary(value, k) {
        ValidPrefixes(value, k);
      }
    }
  }

  // ----- The answer to a call -----

  datatype RpcError = RpcError(code: int, message: seq<byte>, data: seq<byte>)

  datatype RpcResult = Success(payload: seq<byte>) | Failure(error: RpcError)

  const MAX_PAYLOAD_BYTES := 15360
  const MAX_MESSAGE_BYTES := 256
  const RESPONSE_PAYLOAD_TOO_LARGE := 1504

  /** r is the longest prefix of a valid text that is valid and at most so long. */
  ghost predicate Longest(r: seq<byte>, value: seq<byte>, maximum: nat) {
    && r <= value && |r| <= maximum
    && (Valid(value) ==> Valid(r) && forall k :: |r| < k <= maximum && k <= |value| ==> !Valid(value[..k]))
  }

  /** SendRpcResponse: the response that is put into the packet. */
  method SendRpcResponse(result: RpcResult, tooLarge: seq<byte>) returns (sent: RpcResult)
    ensures sent.Success? <==> result.Success? && |result.payload| <= 15360
    ensures sent.Success? ==> sent == result
    ensures result.Success? && sent.Failure? ==> sent.error == RpcError(1504, tooLarge, [])
    ensures result.Failure? ==>
              && sent.error.code == result.error.code
              && Longest(sent.error.message, result.error.message, 256)
              && Longest(sent.error.data, result.error.data, 15360)
  {
    if result.Failure? {
      var message := TruncateUtf8(result.error.message, MAX_MESSAGE_BYTES);
      var data := TruncateUtf8(result.error.data, MAX_PAYLOAD_BYTES);
      return Failure(RpcError(result.error.code, message, data));
    }
    if |result.payload| > MAX_PAYLOAD_BYTES {
      return Failure(RpcError(RESPONSE_PAYLOAD_TOO_LARGE, tooLarge, []));
    }
    return result;
  }
}
