/**
  * What the Url constructor and the printers compute, on values. Text that the source walks with iterators
  * is a sequence here, and an iterator is the text that is left.
  */
module UrlParts {
  import opened Ordering
  import opened Percent

  datatype Failure = InvalidArgument | OutOfRange

  datatype Result<T> = Ok(value: T) | Err(error: Failure)

  /** The fields of Url. Path, names and values of parameters are percent-encoded. */
  datatype Parts = Parts(scheme: string, host: string, port: nat, path: string, params: map<string, string>)

  const NoParts := Parts("", "", 0, "", map[])

  // ----- Searching -----

  /** Where std::find_if stops. */
  function Upto(text: string, stop: char -> bool): (n: nat)
    ensures n <= |text|
    ensures forall i :: 0 <= i < n ==> !stop(text[i])
    ensures n < |text| ==> stop(text[n])
  {
    if text == [] || stop(text[0]) then 0 else 1 + Upto(text[1..], stop)
  }

  predicate Free(text: string, stop: char -> bool) { forall c :: c in text ==> !stop(c) }

  predicate Stops(rest: string, stop: char -> bool) { rest == [] || stop(rest[0]) }

  lemma {:induction false} UptoIs(text: string, rest: string, stop: char -> bool)
    requires Free(text, stop) && Stops(rest, stop)
    ensures Upto(text + rest, stop) == |text|
    ensures (text + rest)[..|text|] == text && (text + rest)[|text|..] == rest
  {
    if text == [] {
      assert text + rest == rest;
    } else {
      assert text[0] in text && (text + rest)[1..] == text[1..] + rest;
      UptoIs(text[1..], rest, stop);
    }
  }

  lemma BeforeIsFree(text: string, stop: char -> bool)
    ensures Free(text[..Upto(text, stop)], stop) && Stops(text[Upto(text, stop)..], stop)
  {
  }

  predicate MarkAt(text: string, i: nat) {
    i + 3 <= |text| && text[i] == ':' && text[i + 1] == '/' && text[i + 2] == '/'
  }

  /** std::string::find("://"), with the length of the text for npos. */
  function FindMark(text: string, from: nat): (i: nat)
    requires from <= |text|
    ensures from <= i <= |text|
    ensures forall j :: from <= j < i ==> !MarkAt(text, j)
    ensures i < |text| ==> MarkAt(text, i)
    decreases |text| - from
  {
    if from == |text| || MarkAt(text, from) then from else FindMark(text, from + 1)
  }

  predicate EndsHost(c: char) { c in {'/', '?', ':'} }

  predicate EndsPort(c: char) { !IsDigit(c) }

  predicate EndsPath(c: char) { c in {'?', '#'} }

  predicate EndsQuery(c: char) { c == '#' }

  predicate EndsField(c: char) { c == '&' }

  predicate EndsName(c: char) { c == '=' }

  // ----- Parsing -----

  function Lower(c: char): char { if 'A' <= c <= 'Z' then (c as int + 32) as char else c }

  function ToLower(text: string): (r: string)
    ensures |r| == |text| && forall i :: 0 <= i < |r| ==> r[i] == Lower(text[i])
  {
    seq(|text|, i requires 0 <= i < |text| => Lower(text[i]))
  }

  /** std::stoi of decimal digits, before its range check. */
  function Number(digits: string): nat
    requires forall c :: c in digits ==> IsDigit(c)
  {
    if digits == [] then 0 else
    assert digits[|digits| - 1] in digits;
    10 * Number(digits[..|digits| - 1]) + HexValue(digits[|digits| - 1])
  }

  function Parse(url: string): Result<Parts> {
    var mark := FindMark(url, 0);
    if mark < |url| then ParseHost(NoParts.(scheme := ToLower(url[..mark])), url[mark + 3..])
    else ParseHost(NoParts, url)
  }

  function ParseHost(parts: Parts, rest: string): Result<Parts> {
    var end := Upto(rest, EndsHost);
    ParsePort(parts.(host := rest[..end]), rest[end..])
  }

  function ParsePort(parts: Parts, rest: string): Result<Parts> {
    if rest == [] || rest[0] != ':' then ParsePath(parts, rest)
    else
      var end := Upto(rest[1..], EndsPort);
      ParseDigits(parts, rest[1..][..end], rest[1..][end..])
  }

  function ParseDigits(parts: Parts, digits: string, rest: string): Result<Parts>
    requires forall c :: c in digits ==> IsDigit(c)
  {
    if digits == [] then Err(InvalidArgument)
    else if Number(digits) > 65535 then Err(OutOfRange)
    else ParsePath(parts.(port := Number(digits)), rest)
  }

  function ParsePath(parts: Parts, rest: string): Result<Parts> {
    if rest == [] then Ok(parts)
    else if rest[0] == '/' then
      var end := Upto(rest[1..], EndsPath);
      Ok(ParseQuery(parts.(path := rest[1..][..end]), rest[1..][end..]))
    else if rest[0] == '?' then Ok(ParseQuery(parts, rest))
    else Err(InvalidArgument)
  }

  function ParseQuery(parts: Parts, rest: string): Parts {
    if rest == [] || rest[0] != '?' then parts
    else parts.(params := AddQuery(parts.params, rest[1..][..Upto(rest[1..], EndsQuery)]))
  }

  /** AppendQueryParameters. */
  function AddQuery(params: map<string, string>, query: string): map<string, string> {
    AddFields(params, Skip(query))
  }

  /** A text without a question mark at its front. */
  function Skip(text: string): string { if text != [] && text[0] == '?' then text[1..] else text }

  function AddFields(params: map<string, string>, text: string): map<string, string>
    decreases |text|
  {
    var end := Upto(text, EndsField);
    var now := AddField(params, text[..end]);
    if end == |text| then now else AddFields(now, text[end + 1..])
  }

  function AddField(params: map<string, string>, field: string): map<string, string> {
    var equals := Upto(field, EndsName);
    if equals == 0 then params
    else params[field[..equals] := if equals == |field| then "" else field[equals + 1..]]
  }

  // ----- Printing -----

  function Digits(n: nat): (r: seq<octet>)
    ensures r != [] && forall c :: c in r ==> IsDigit(c)
    ensures Number(r) == n
  {
    var last := [(n % 10 + '0' as int) as char];
    if n < 10 then last else
    var first := Digits(n / 10);
    assert (first + last)[..|first|] == first;
    first + last
  }

  function PrintPath(path: string): string {
    if path == [] then [] else if path[0] != '/' then "/" + path else path
  }

  function PrintPort(port: nat): string { if port == 0 then [] else ":" + Digits(port) }

  function PrintScheme(scheme: string): string { if scheme == [] then [] else scheme + "://" }

  /** GetUrlWithoutQuery(false). */
  function PrintHead(parts: Parts): string {
    PrintScheme(parts.scheme) + parts.host + PrintPort(parts.port) + PrintPath(parts.path)
  }

  function Pairs(params: map<string, string>, order: seq<string>, separator: char): string
    requires forall k :: k in order ==> k in params
  {
    if order == [] then []
    else [separator] + order[0] + "=" + params[order[0]] + Pairs(params, order[1..], '&')
  }

  ghost function PrintQuery(params: map<string, string>): string {
    Pairs(params, InOrder(params.Keys), '?')
  }

  ghost function Print(parts: Parts): string { PrintHead(parts) + PrintQuery(parts.params) }
}
