/** Percent-encoding (sections 2.1 and 2.3 of RFC 3986): Url::Encode and Url::Decode. */
module Percent {
  import opened Wire

  /** A char of C++: one octet. */
  type octet = c: char | c as int < 256

  predicate IsDigit(c: char) { '0' <= c <= '9' }

  predicate IsHexDigit(c: char) { IsDigit(c) || 'A' <= c <= 'F' || 'a' <= c <= 'f' }

  predicate IsAlphaNumeric(c: char) { IsDigit(c) || 'A' <= c <= 'Z' || 'a' <= c <= 'z' }

  predicate ShouldEncode(c: char) { !IsAlphaNumeric(c) && c !in {'-', '.', '_', '~'} }

  const Hex := "0123456789ABCDEF"

  function HexValue(c: char): (n: nat)
    requires IsHexDigit(c)
    ensures n < 16
  {
    if IsDigit(c) then c as int - '0' as int
    else if c <= 'F' then c as int - 'A' as int + 10
    else c as int - 'a' as int + 10
  }

  /** The image of one octet; octets in `keep` are left as they are. */
  function Image(c: octet, keep: set<char>): string {
    if ShouldEncode(c) && c !in keep then ['%', Hex[c as int / 16], Hex[c as int % 16]] else [c]
  }

  function Encoded(value: seq<octet>, keep: set<char>): string {
    if value == [] then [] else Image(value[0], keep) + Encoded(value[1..], keep)
  }

  function Decoded(value: string): Option<string> {
    if value == [] then Some([])
    else if value[0] == '%' then
      if |value| < 3 || !IsHexDigit(value[1]) || !IsHexDigit(value[2]) then None
      else Prepend([(HexValue(value[1]) * 16 + HexValue(value[2])) as char], Decoded(value[3..]))
    else if value[0] == '+' then Prepend([' '], Decoded(value[1..]))
    else Prepend([value[0]], Decoded(value[1..]))
  }

  function Prepend(first: string, rest: Option<string>): (r: Option<string>)
    ensures first == [] ==> r == rest
  {
    assert rest.Some? && first == [] ==> first + rest.value == rest.value;
    if rest.None? then None else Some(first + rest.value)
  }

  lemma PrependTwice(first: string, second: string, rest: Option<string>)
    ensures Prepend(first, Prepend(second, rest)) == Prepend(first + second, rest)
  {
    assert rest.Some? ==> first + (second + rest.value) == first + second + rest.value;
  }

  lemma AppendAll(a: string, b: string, c: string)
    ensures a + (b + c) == a + b + c
  {
  }

  // ----- The loops -----

  method Encode(value: seq<octet>, doNotEncodeSymbols: string) returns (encoded: string)
    ensures encoded == Encoded(value, set c | c in doNotEncodeSymbols)
  {
    var keep := set c | c in doNotEncodeSymbols;
    encoded := "";
    for i := 0 to |value|
      invariant encoded + Encoded(value[i..], keep) == Encoded(value, keep)
    {
      var c := value[i];
      assert value[i..][1..] == value[i + 1..];
      var piece := [c];
      if ShouldEncode(c) && c !in keep {
        piece := ['%', Hex[c as int / 16], Hex[c as int % 16]];
      }
      AppendAll(encoded, piece, Encoded(value[i + 1..], keep));
      encoded := encoded + piece;
    }
  }

  method Decode(value: string) returns (r: Option<string>)
    ensures r == Decoded(value)
  {
    var decoded := "";
    var i := 0;
    assert value[0..] == value;
    while i < |value|
      invariant i <= |value|
      invariant Decoded(value) == Prepend(decoded, Decoded(value[i..]))
    {
      var c := value[i];
      assert value[i..][1..] == value[i + 1..];
      if c == '%' {
        if |value| - i < 3 || !IsHexDigit(value[i + 1]) || !IsHexDigit(value[i + 2]) {
          return None;
        }
        assert value[i..][3..] == value[i + 3..];
        var octet := [(HexValue(value[i + 1]) * 16 + HexValue(value[i + 2])) as char];
        PrependTwice(decoded, octet, Decoded(value[i + 3..]));
        decoded := decoded + octet;
        i := i + 2;
      } else if c == '+' {
        PrependTwice(decoded, [' '], Decoded(value[i + 1..]));
        decoded := decoded + [' '];
      } else {
        PrependTwice(decoded, [c], Decoded(value[i + 1..]));
        decoded := decoded + [c];
      }
      i := i + 1;
    }
    assert value[i..] == [] && decoded + [] == decoded;
    return Some(decoded);
  }

  // ----- The round trip -----

  lemma DecodeEncodedOctet(c: octet, rest: string)
    requires ShouldEncode(c)
    ensures Decoded(Image(c, {}) + rest) == Prepend([c], Decoded(rest))
  {
    var whole := Image(c, {}) + rest;
    assert whole[3..] == rest && whole[0] == '%' && whole[1] == Hex[c as int / 16] && whole[2] == Hex[c as int % 16];
    HexRoundTrip(c as int / 16);
    HexRoundTrip(c as int % 16);
  }

  lemma HexRoundTrip(n: nat)
    requires n < 16
    ensures IsHexDigit(Hex[n]) && HexValue(Hex[n]) == n
  {
  }

  /** Decoding never gives more characters than were encoded, whatever is kept. */
  lemma {:induction false} DecodedIsNoLonger(value: seq<octet>, keep: set<char>)
    ensures var d := Decoded(Encoded(value, keep)); d.Some? ==> |d.value| <= |value|
    decreases |value|
  {
    if value != [] {
      var rest := Encoded(value[1..], keep);
      DecodedIsNoLonger(value[1..], keep);
      if ShouldEncode(value[0]) && value[0] !in keep {
        DecodeEncodedOctet(value[0], rest);
      } else {
        assert Encoded(value, keep) == [value[0]] + rest;
        if value[0] == '%' && Decoded(Encoded(value, keep)).Some? {
          HexDigitsAreThemselves(value, keep);
          DecodedIsNoLonger(value[3..], keep);
        }
      }
    }
  }

  /** Two hexadecimal digits behind a kept '%' come from two digits of the input. */
  lemma HexDigitsAreThemselves(value: seq<octet>, keep: set<char>)
    requires value != [] && value[0] == '%' && '%' in keep
    requires var e := Encoded(value, keep); |e| >= 3 && IsHexDigit(e[1]) && IsHexDigit(e[2])
    ensures |value| >= 3 && Encoded(value, keep)[3..] == Encoded(value[3..], keep)
    ensures Encoded(value, keep)[1..3] == value[1..3]
  {
    var rest := Encoded(value[1..], keep);
    assert Encoded(value, keep) == [value[0]] + rest;
    assert |value| > 1 && Image(value[1], keep) == [value[1]];
    var last := Encoded(value[2..], keep);
    assert value[1..][1..] == value[2..];
    assert rest == [value[1]] + last;
    assert |value| > 2 && Image(value[2], keep) == [value[2]];
    assert value[2..][1..] == value[3..];
    assert last == [value[2]] + Encoded(value[3..], keep);
  }

  /** A '%' or '+' that is kept comes back as something else. */
  predicate Ambiguous(value: seq<octet>, keep: set<char>) {
    exists i :: 0 <= i < |value| && value[i] in {'%', '+'} && value[i] in keep
  }

  lemma AmbiguousTail(value: seq<octet>, keep: set<char>)
    requires value != []
    ensures Ambiguous(value, keep) <==> (value[0] in {'%', '+'} && value[0] in keep) || Ambiguous(value[1..], keep)
  {
    if Ambiguous(value, keep) {
      var i :| 0 <= i < |value| && value[i] in {'%', '+'} && value[i] in keep;
      assert i > 0 ==> value[1..][i - 1] == value[i];
    }
    if Ambiguous(value[1..], keep) {
      var i :| 0 <= i < |value[1..]| && value[1..][i] in {'%', '+'} && value[1..][i] in keep;
      assert value[i + 1] == value[1..][i];
    }
  }

  /** Decode undoes Encode exactly when no '%' or '+' of the value was asked to be left alone. */
  lemma {:induction false} PercentRoundTrip(value: seq<octet>, keep: set<char>)
    ensures Decoded(Encoded(value, keep)) == Some(value) <==> !Ambiguous(value, keep)
  {
    if value != [] {
      var rest := Encoded(value[1..], keep);
      PercentRoundTrip(value[1..], keep);
      AmbiguousTail(value, keep);
      assert value == [value[0]] + value[1..];
      if ShouldEncode(value[0]) && value[0] !in keep {
        DecodeEncodedOctet(value[0], rest);
      } else {
        assert Encoded(value, keep) == [value[0]] + rest && (Encoded(value, keep))[1..] == rest;
        if value[0] == '%' {
          KeptPercentIsLost(value, keep);
        }
      }
    }
  }

  lemma KeptPercentIsLost(value: seq<octet>, keep: set<char>)
    requires value != [] && value[0] == '%' && '%' in keep
    ensures Decoded(Encoded(value, keep)) != Some(value)
  {
    var whole := Encoded(value, keep);
    assert whole == ['%'] + Encoded(value[1..], keep);
    if Decoded(whole).Some? {
      HexDigitsAreThemselves(value, keep);
      DecodedIsNoLonger(value[3..], keep);
    }
  }

  predicate IsUnreserved(c: char) { !ShouldEncode(c) }

  /** What a component may hold without ending or splitting another one. */
  lemma {:induction false} EncodedIsSafe(value: seq<octet>)
    ensures forall c :: c in Encoded(value, {}) ==> IsUnreserved(c) || c == '%'
  {
    if value != [] {
      EncodedIsSafe(value[1..]);
      HexRoundTrip(value[0] as int / 16);
      HexRoundTrip(value[0] as int % 16);
    }
  }

  // ----- Character by character -----

  /** Digit d in either case. */
  predicate IsHexOf(c: char, d: nat) { d < 16 && (c == "0123456789ABCDEF"[d] || c == "0123456789abcdef"[d]) }

  lemma HexOfEitherCase(c: char, d: nat)
    requires IsHexOf(c, d)
    ensures IsHexDigit(c) && HexValue(c) == d
  {
  }

  /** How a text decodes: an escape in either case is its octet, '+' is a space, any other character is itself. */
  lemma DecodesEach(hi: char, lo: char, a: nat, b: nat, c: char, rest: string)
    ensures IsHexOf(hi, a) && IsHexOf(lo, b) ==> Decoded(['%', hi, lo] + rest) == Prepend([(16 * a + b) as char], Decoded(rest))
    ensures Decoded(['+'] + rest) == Prepend([' '], Decoded(rest))
    ensures c != '%' && c != '+' ==> Decoded([c] + rest) == Prepend([c], Decoded(rest))
  {
    var escape := ['%', hi, lo] + rest;
    assert escape[3..] == rest && escape[1] == hi && escape[2] == lo;
    if IsHexOf(hi, a) && IsHexOf(lo, b) {
      HexOfEitherCase(hi, a);
      HexOfEitherCase(lo, b);
    }
    assert (['+'] + rest)[1..] == rest && ([c] + rest)[1..] == rest;
  }

  /** A '%' without two hexadecimal digits behind it is refused. */
  lemma RefusesBrokenEscape(rest: string)
    requires |rest| < 2 || (forall d :: 0 <= d < 16 ==> !IsHexOf(rest[0], d)) || (forall d :: 0 <= d < 16 ==> !IsHexOf(rest[1], d))
    ensures Decoded(['%'] + rest) == None
  {
    var text := ['%'] + rest;
    if |rest| >= 2 {
      assert text[1] == rest[0] && text[2] == rest[1];
      HexHasDigit(rest[0]);
      HexHasDigit(rest[1]);
    }
  }

  lemma HexHasDigit(c: char)
    ensures IsHexDigit(c) ==> exists d :: 0 <= d < 16 && IsHexOf(c, d)
  {
    if IsHexDigit(c) {
      assert IsHexOf(c, HexValue(c));
    }
  }

  /** How a text is encoded: letters, digits and "-._~" are themselves, any other octet is escaped in upper case. */
  lemma EncodesEach(c: octet, rest: seq<octet>)
    ensures var plain := 'a' <= c <= 'z' || 'A' <= c <= 'Z' || '0' <= c <= '9' || c in "-._~";
            Encoded([c] + rest, {}) ==
            (if plain then [c] else ['%', "0123456789ABCDEF"[c as int / 16], "0123456789ABCDEF"[c as int % 16]]) + Encoded(rest, {})
  {
    assert ([c] + rest)[1..] == rest;
  }
}
