/** Printing a URL that was parsed and parsing it again: what comes back, exactly. */
module UrlRoundTrip {
  import opened Ordering
  import opened Percent
  import opened UrlParts

  // ----- What parsing establishes -----

  predicate NameFits(name: string) {
    name != [] && Free(name, EndsName) && Free(name, EndsField) && Free(name, EndsQuery)
  }

  predicate ValueFits(value: string) { Free(value, EndsField) && Free(value, EndsQuery) }

  predicate ParamsFit(params: map<string, string>) {
    forall k :: k in params ==> NameFits(k) && ValueFits(params[k])
  }

  /** Lower case, and the first "://" behind it is the one that ends it. */
  predicate SchemeFits(scheme: string) {
    ToLower(scheme) == scheme && FindMark(scheme + "://", 0) == |scheme|
  }

  predicate Fits(parts: Parts) {
    && SchemeFits(parts.scheme)
    && Free(parts.host, EndsHost)
    && parts.port <= 65535
    && Free(parts.path, EndsPath)
    && ParamsFit(parts.params)
  }

  lemma FreeOfPart(text: string, from: nat, to: nat, stop: char -> bool)
    requires from <= to <= |text| && Free(text, stop)
    ensures Free(text[from..to], stop)
  {
  }

  lemma {:induction false} AddFieldsFits(params: map<string, string>, text: string)
    requires ParamsFit(params) && Free(text, EndsQuery)
    ensures ParamsFit(AddFields(params, text))
    decreases |text|
  {
    var end := Upto(text, EndsField);
    BeforeIsFree(text, EndsField);
    FreeOfPart(text, 0, end, EndsQuery);
    AddFieldFits(params, text[..end]);
    if end < |text| {
      FreeOfPart(text, end + 1, |text|, EndsQuery);
      AddFieldsFits(AddField(params, text[..end]), text[end + 1..]);
    }
  }

  lemma AddFieldFits(params: map<string, string>, field: string)
    requires ParamsFit(params) && Free(field, EndsField) && Free(field, EndsQuery)
    ensures ParamsFit(AddField(params, field))
  {
    BeforeIsFree(field, EndsName);
  }

  lemma ParseQueryFits(parts: Parts, rest: string)
    requires Fits(parts)
    ensures Fits(ParseQuery(parts, rest))
  {
    if rest != [] && rest[0] == '?' {
      BeforeIsFree(rest[1..], EndsQuery);
      var query := rest[1..][..Upto(rest[1..], EndsQuery)];
      AddFieldsFits(parts.params, Skip(query));
    }
  }

  lemma ParsePathFits(parts: Parts, rest: string)
    requires Fits(parts)
    ensures var r := ParsePath(parts, rest); r.Ok? ==> Fits(r.value)
  {
    if rest != [] && rest[0] == '/' {
      BeforeIsFree(rest[1..], EndsPath);
      var end := Upto(rest[1..], EndsPath);
      ParseQueryFits(parts.(path := rest[1..][..end]), rest[1..][end..]);
    } else {
      ParseQueryFits(parts, rest);
    }
  }

  lemma ParseHostFits(parts: Parts, rest: string)
    requires Fits(parts)
    ensures var r := ParseHost(parts, rest); r.Ok? ==> Fits(r.value)
  {
    var end := Upto(rest, EndsHost);
    BeforeIsFree(rest, EndsHost);
    var now, left := parts.(host := rest[..end]), rest[end..];
    if left == [] || left[0] != ':' {
      ParsePathFits(now, left);
    } else {
      var digits := left[1..][..Upto(left[1..], EndsPort)];
      if Number(digits) <= 65535 {
        ParsePathFits(now.(port := Number(digits)), left[1..][Upto(left[1..], EndsPort)..]);
      }
    }
  }

  lemma LowerKeepsMarks(text: string, url: string, j: nat)
    requires |text| <= |url| && forall i :: 0 <= i < |text| ==> text[i] == Lower(url[i])
    ensures MarkAt(text, j) ==> MarkAt(url, j)
  {
  }

  lemma FirstMarkIs(text: string, mark: nat)
    requires MarkAt(text, mark) && forall j :: 0 <= j < mark ==> !MarkAt(text, j)
    ensures FindMark(text, 0) == mark
  {
  }

  lemma LowerTwice(text: string)
    ensures ToLower(ToLower(text)) == ToLower(text)
  {
  }

  lemma LowerBeforeMark(url: string, mark: nat)
    requires MarkAt(url, mark) && forall j :: 0 <= j < mark ==> !MarkAt(url, j)
    ensures FindMark(ToLower(url[..mark]) + "://", 0) == mark
  {
    var again := ToLower(url[..mark]) + "://";
    assert MarkAt(again, mark);
    forall j | 0 <= j < mark ensures !MarkAt(again, j) {
      LowerKeepsMarks(again, url, j);
    }
    FirstMarkIs(again, mark);
  }

  /** The text before the first "://", in lower case, is a scheme that fits. */
  lemma SchemeIsFound(url: string)
    requires FindMark(url, 0) < |url|
    ensures SchemeFits(ToLower(url[..FindMark(url, 0)]))
  {
    LowerTwice(url[..FindMark(url, 0)]);
    LowerBeforeMark(url, FindMark(url, 0));
  }

  lemma ParseFits(url: string)
    ensures Parse(url).Ok? ==> Fits(Parse(url).value)
  {
    var mark := FindMark(url, 0);
    if mark < |url| {
      SchemeIsFound(url);
      ParseHostFits(NoParts.(scheme := ToLower(url[..mark])), url[mark + 3..]);
    } else {
      assert [] + "://" == "://";
      ParseHostFits(NoParts, url);
    }
  }

  // ----- Parsing what was printed, piece by piece -----

  lemma SchemeComesBack(scheme: string, rest: string)
    requires SchemeFits(scheme) && scheme != []
    ensures Parse(PrintScheme(scheme) + rest) == ParseHost(NoParts.(scheme := scheme), rest)
  {
    var url := scheme + "://" + rest;
    forall j | 0 <= j < |scheme| ensures !MarkAt(url, j) {
      assert !MarkAt(scheme + "://", j);
    }
    assert MarkAt(url, |scheme|);
    assert url[..|scheme|] == scheme && url[|scheme| + 3..] == rest;
  }

  lemma HostComesBack(parts: Parts, host: string, rest: string)
    requires Free(host, EndsHost) && Stops(rest, EndsHost)
    ensures ParseHost(parts, host + rest) == ParsePort(parts.(host := host), rest)
  {
    UptoIs(host, rest, EndsHost);
  }

  lemma DigitsComeBack(parts: Parts, digits: string, rest: string)
    requires digits != [] && (forall c :: c in digits ==> IsDigit(c)) && Number(digits) <= 65535
    requires rest == [] || rest[0] in {'/', '?'}
    ensures ParsePort(parts, ":" + digits + rest) == ParsePath(parts.(port := Number(digits)), rest)
  {
    AfterFirst(':', digits, rest);
    DigitsEnd(digits, rest);
  }

  lemma AfterFirst(c: char, text: string, rest: string)
    ensures var whole := [c] + text + rest; whole != [] && whole[0] == c && whole[1..] == text + rest
  {
  }

  lemma DigitsEnd(digits: string, rest: string)
    requires (forall c :: c in digits ==> IsDigit(c)) && (rest == [] || rest[0] in {'/', '?'})
    ensures Upto(digits + rest, EndsPort) == |digits|
    ensures (digits + rest)[..|digits|] == digits && (digits + rest)[|digits|..] == rest
  {
    UptoIs(digits, rest, EndsPort);
  }

  lemma PortComesBack(parts: Parts, port: nat, rest: string)
    requires parts.port == 0 && port <= 65535
    requires rest == [] || rest[0] in {'/', '?'}
    ensures ParsePort(parts, PrintPort(port) + rest) == ParsePath(parts.(port := port), rest)
  {
    if port == 0 {
      assert PrintPort(port) + rest == rest;
    } else {
      DigitsComeBack(parts, Digits(port), rest);
    }
  }

  function DropSlash(path: string): string { if path != [] && path[0] == '/' then path[1..] else path }

  lemma PathComesBack(parts: Parts, path: string, rest: string)
    requires parts.path == [] && Free(path, EndsPath)
    requires rest == [] || rest[0] == '?'
    ensures ParsePath(parts, PrintPath(path) + rest) == Ok(ParseQuery(parts.(path := DropSlash(path)), rest))
  {
    if path == [] {
      assert PrintPath(path) + rest == rest;
    } else {
      assert PrintPath(path) == "/" + DropSlash(path);
      AfterFirst('/', DropSlash(path), rest);
      UptoIs(DropSlash(path), rest, EndsPath);
    }
  }

  /** What the parameters become: a '?' at the very front of the query is taken for a second question mark. */
  ghost function Slip(params: map<string, string>): map<string, string> {
    if params == map[] then map[] else
    var first := Smallest(params.Keys);
    AddPair(map[], Skip(first), params[first]) + (params - {first})
  }

  lemma SlipIsSame(params: map<string, string>)
    requires ParamsFit(params) && (params != map[] ==> Skip(Smallest(params.Keys)) == Smallest(params.Keys))
    ensures Slip(params) == params
  {
    if params != map[] {
      assert NameFits(Smallest(params.Keys));
    }
  }

  function AddPair(params: map<string, string>, name: string, value: string): map<string, string> {
    if name == [] then params else params[name := value]
  }

  lemma FieldComesBack(params: map<string, string>, name: string, value: string)
    requires Free(name, EndsName)
    ensures AddField(params, name + "=" + value) == AddPair(params, name, value)
  {
    assert name + "=" + value == name + ("=" + value);
    UptoIs(name, "=" + value, EndsName);
    assert (name + "=" + value)[|name| + 1..] == value;
  }

  lemma FirstFieldIsAdded(params: map<string, string>, field: string, rest: string)
    requires Free(field, EndsField) && Stops(rest, EndsField)
    ensures var now := AddField(params, field);
            AddFields(params, field + rest) == if rest == [] then now else AddFields(now, rest[1..])
  {
    UptoIs(field, rest, EndsField);
    if rest != [] {
      assert (field + rest)[|field| + 1..] == rest[1..];
    }
  }

  lemma FirstFieldComesBack(params: map<string, string>, name: string, value: string, rest: string)
    requires Free(name, EndsName) && Free(name, EndsField) && Free(value, EndsField) && Stops(rest, EndsField)
    ensures var now := AddPair(params, name, value);
            AddFields(params, name + "=" + value + rest) == if rest == [] then now else AddFields(now, rest[1..])
  {
    FieldComesBack(params, name, value);
    FirstFieldIsAdded(params, name + "=" + value, rest);
  }

  /** A list of parameters is its separator and then the first field and the others. */
  lemma PairsFront(params: map<string, string>, order: seq<string>, separator: char)
    requires order != [] && forall k :: k in order ==> k in params
    ensures var text := Pairs(params, order, separator);
            && text != [] && text[0] == separator
            && text[1..] == order[0] + "=" + params[order[0]] + Pairs(params, order[1..], '&')
  {
  }

  ghost predicate Overlays(back: map<string, string>, start: map<string, string>, params: map<string, string>, order: seq<string>)
    requires forall k :: k in order ==> k in params
  {
    && (forall k :: k in order ==> k in back && back[k] == params[k])
    && (forall k :: k !in order ==> (k in back <==> k in start))
    && (forall k :: k !in order && k in start ==> k in back && back[k] == start[k])
  }

  /** Fields printed in any order are added one after the other; a later one overwrites an earlier. */
  lemma {:induction false} FieldsComeBack(start: map<string, string>, params: map<string, string>, order: seq<string>)
    requires ParamsFit(params) && order != [] && forall k :: k in order ==> k in params
    ensures var back := AddFields(start, Pairs(params, order, '&')[1..]);
            Overlays(back, start, params, order)
    decreases |order|
  {
    var name, value, rest := order[0], params[order[0]], Pairs(params, order[1..], '&');
    PairsFront(params, order, '&');
    FirstFieldComesBack(start, name, value, rest);
    var now := AddPair(start, name, value);
    assert forall k :: k in order <==> k == name || k in order[1..];
    if order[1..] != [] {
      FieldsComeBack(now, params, order[1..]);
    }
  }

  lemma {:induction false} PairsAreFree(params: map<string, string>, order: seq<string>, separator: char)
    requires ParamsFit(params) && separator != '#' && forall k :: k in order ==> k in params
    ensures Free(Pairs(params, order, separator), EndsQuery)
    decreases |order|
  {
    if order != [] {
      PairsAreFree(params, order[1..], '&');
    }
  }

  lemma FirstIsSmallest(keys: set<string>)
    requires keys != {}
    ensures InOrder(keys) != [] && InOrder(keys)[0] == Smallest(keys)
    ensures IsOrder(InOrder(keys)[1..], keys - {Smallest(keys)})
  {
    assert Smallest(keys) in InOrder(keys);
    OrderHead(InOrder(keys), keys);
    LessIsStrict(InOrder(keys)[0], Smallest(keys));
  }

  lemma WholeQuery(query: string)
    requires Free(query, EndsQuery)
    ensures query[..Upto(query, EndsQuery)] == query
  {
    UptoIs(query, [], EndsQuery);
    assert query + [] == query;
  }

  lemma QueryComesBack(parts: Parts, params: map<string, string>)
    requires parts.params == map[] && ParamsFit(params)
    ensures ParseQuery(parts, PrintQuery(params)) == parts.(params := Slip(params))
  {
    var order := InOrder(params.Keys);
    if order == [] {
      assert forall k :: k in params ==> k in order;
    } else {
      assert order[0] in order;
      FirstIsSmallest(params.Keys);
      PairsFront(params, order, '?');
      PairsAreFree(params, order, '?');
      FreeOfPart(PrintQuery(params), 1, |PrintQuery(params)|, EndsQuery);
      WholeQuery(PrintQuery(params)[1..]);
      FrontOfQuery(params, order[0], order[1..]);
    }
  }

  lemma FrontOfQuery(params: map<string, string>, first: string, others: seq<string>)
    requires ParamsFit(params) && params != map[] && first == Smallest(params.Keys)
    requires IsOrder(others, params.Keys - {first})
    ensures AddQuery(map[], first + "=" + params[first] + Pairs(params, others, '&')) == Slip(params)
  {
    assert NameFits(first);
    SkipAtFront(first, params[first], Pairs(params, others, '&'));
    QueryFrom(params, first, Skip(first), others);
  }

  lemma SkipAtFront(name: string, value: string, rest: string)
    requires name != []
    ensures Skip(name + "=" + value + rest) == Skip(name) + "=" + value + rest
  {
  }

  /** A first field under some name, then all other parameters. */
  lemma QueryFrom(params: map<string, string>, first: string, name: string, others: seq<string>)
    requires ParamsFit(params) && first in params && Free(name, EndsName) && Free(name, EndsField)
    requires IsOrder(others, params.Keys - {first})
    ensures AddFields(map[], name + "=" + params[first] + Pairs(params, others, '&'))
            == AddPair(map[], name, params[first]) + (params - {first})
  {
    var now := AddPair(map[], name, params[first]);
    FirstFieldComesBack(map[], name, params[first], Pairs(params, others, '&'));
    if others == [] {
      forall k | k in params ensures k == first {
        assert k in others <==> k in params.Keys - {first};
      }
      assert params - {first} == map[] && now + map[] == now;
    } else {
      FieldsComeBack(now, params, others);
      OverlayIsMerge(AddFields(now, Pairs(params, others, '&')[1..]), now, params, others, first);
    }
  }

  lemma OverlayIsMerge(
    back: map<string, string>, start: map<string, string>, params: map<string, string>, others: seq<string>, first: string)
    requires forall k :: k in others <==> k in params && k != first
    requires Overlays(back, start, params, others)
    ensures back == start + (params - {first})
  {
  }

  // ----- The scheme of a URL without one -----

  predicate Markless(text: string) { forall j :: 0 <= j < |text| ==> !MarkAt(text, j) }

  /** No "://" can lie across the border of two texts. */
  predicate Seam(left: string, right: string) {
    right == [] || right[0] != '/' || left == [] || left[|left| - 1] !in {':', '/'}
  }

  lemma MarklessParts(left: string, right: string)
    requires Seam(left, right)
    ensures Markless(left + right) <==> Markless(left) && Markless(right)
  {
    var whole := left + right;
    forall j | 0 <= j < |left| ensures MarkAt(whole, j) <==> MarkAt(left, j) {
      MarkInLeft(left, right, j);
    }
    forall j | 0 <= j < |right| ensures MarkAt(whole, |left| + j) <==> MarkAt(right, j) {
    }
    if Markless(left) && Markless(right) {
      forall j | 0 <= j < |whole| ensures !MarkAt(whole, j) {
        assert j >= |left| ==> !MarkAt(right, j - |left|);
      }
    }
  }

  lemma MarkInLeft(left: string, right: string, j: nat)
    requires Seam(left, right) && j < |left|
    ensures MarkAt(left + right, j) <==> MarkAt(left, j)
  {
  }

  lemma MarklessPair(separator: char, name: string, value: string, rest: string)
    requires separator in {'?', '&'} && (rest == [] || rest[0] == '&')
    ensures Markless([separator] + name + "=" + value + rest) <==> Markless(name) && Markless(value) && Markless(rest)
  {
    MarklessParts([separator], name);
    MarklessParts([separator] + name, "=");
    MarklessParts([separator] + name + "=", value);
    MarklessParts([separator] + name + "=" + value, rest);
  }

  lemma {:induction false} MarklessPairs(params: map<string, string>, order: seq<string>, separator: char)
    requires separator in {'?', '&'} && forall k :: k in order ==> k in params
    ensures Markless(Pairs(params, order, separator)) <==> forall k :: k in order ==> Markless(k) && Markless(params[k])
    decreases |order|
  {
    if order != [] {
      MarklessPairs(params, order[1..], '&');
      MarklessPair(separator, order[0], params[order[0]], Pairs(params, order[1..], '&'));
      assert forall k :: k in order <==> k == order[0] || k in order[1..];
    }
  }

  predicate MarkFree(parts: Parts) {
    Markless(parts.path) && forall k :: k in parts.params ==> Markless(k) && Markless(parts.params[k])
  }

  lemma MarklessPath(path: string)
    ensures Markless(PrintPath(path)) <==> Markless(path)
  {
    if path != [] && path[0] != '/' {
      MarklessParts("/", path);
    }
  }

  lemma MarklessAuthority(host: string, port: nat)
    requires Free(host, EndsHost)
    ensures var authority := host + PrintPort(port);
            Markless(authority) && (authority != [] ==> authority[|authority| - 1] !in {':', '/'})
  {
    var authority, digits := host + PrintPort(port), Digits(port);
    assert forall i :: 0 <= i < |digits| ==> IsDigit(digits[i]) by {
      assert forall i :: 0 <= i < |digits| ==> digits[i] in digits;
    }
    assert forall i :: 0 <= i < |host| ==> !EndsHost(host[i]) by {
      assert forall i :: 0 <= i < |host| ==> host[i] in host;
    }
    assert forall i :: 0 <= i < |authority| ==> authority[i] != '/';
  }

  lemma MarklessHead(parts: Parts)
    requires Free(parts.host, EndsHost) && parts.scheme == []
    ensures Markless(PrintHead(parts)) <==> Markless(parts.path)
  {
    var authority := parts.host + PrintPort(parts.port);
    MarklessAuthority(parts.host, parts.port);
    MarklessParts(authority, PrintPath(parts.path));
    MarklessPath(parts.path);
    HeadWithoutScheme(parts);
  }

  lemma HeadWithoutScheme(parts: Parts)
    requires parts.scheme == []
    ensures PrintHead(parts) == parts.host + PrintPort(parts.port) + PrintPath(parts.path)
  {
    assert [] + parts.host == parts.host;
  }

  lemma MarklessPrint(parts: Parts)
    requires Fits(parts) && parts.scheme == []
    ensures Markless(Print(parts)) <==> MarkFree(parts)
  {
    MarklessHead(parts);
    MarklessParts(PrintHead(parts), PrintQuery(parts.params));
    MarklessPairs(parts.params, InOrder(parts.params.Keys), '?');
  }

  // ----- The whole URL -----

  ghost function Reparsed(parts: Parts): Parts {
    parts.(path := DropSlash(parts.path), params := Slip(parts.params))
  }

  /** The text behind the scheme. */
  ghost function PrintRest(parts: Parts): string {
    parts.host + (PrintPort(parts.port) + (PrintPath(parts.path) + PrintQuery(parts.params)))
  }

  lemma RestComesBack(parts: Parts)
    requires Fits(parts)
    ensures ParseHost(NoParts.(scheme := parts.scheme), PrintRest(parts)) == Ok(Reparsed(parts))
  {
    var query := PrintQuery(parts.params);
    var path := PrintPath(parts.path) + query;
    var start := NoParts.(scheme := parts.scheme);
    HostComesBack(start, parts.host, PrintPort(parts.port) + path);
    PortComesBack(start.(host := parts.host), parts.port, path);
    PathComesBack(start.(host := parts.host, port := parts.port), parts.path, query);
    QueryComesBack(start.(host := parts.host, port := parts.port, path := DropSlash(parts.path)), parts.params);
  }

  lemma PrintSplits(parts: Parts)
    ensures Print(parts) == PrintScheme(parts.scheme) + PrintRest(parts)
    ensures parts.scheme == [] ==> Print(parts) == PrintRest(parts)
  {
    Regroup(PrintScheme(parts.scheme), parts.host, PrintPort(parts.port), PrintPath(parts.path), PrintQuery(parts.params));
    assert [] + PrintRest(parts) == PrintRest(parts);
  }

  lemma Regroup(a: string, b: string, c: string, d: string, e: string)
    ensures a + b + c + d + e == a + (b + (c + (d + e)))
  {
  }

  lemma ParseWithoutMark(url: string)
    requires Markless(url)
    ensures Parse(url) == ParseHost(NoParts, url)
  {
  }

  lemma ParseWithMark(url: string)
    requires !Markless(url) && !MarkAt(url, 0)
    ensures Parse(url).Ok? ==> Parse(url).value.scheme != []
  {
    assert 0 < FindMark(url, 0) < |url|;
  }

  /**
    * Parsing a printed URL gives back everything but a leading slash of the path and a question mark at
    * the front of the query, provided the first "://" is the scheme's; otherwise a scheme appears.
    */
  lemma PrintedUrlComesBack(parts: Parts)
    requires Fits(parts)
    ensures parts.scheme != [] || MarkFree(parts) ==> Parse(Print(parts)) == Ok(Reparsed(parts))
    ensures parts.scheme == [] && !MarkFree(parts) && Parse(Print(parts)).Ok? ==> Parse(Print(parts)).value.scheme != []
  {
    RestComesBack(parts);
    PrintSplits(parts);
    if parts.scheme != [] {
      SchemeComesBack(parts.scheme, PrintRest(parts));
    } else {
      MarklessPrint(parts);
      if MarkFree(parts) {
        ParseWithoutMark(Print(parts));
        assert NoParts.(scheme := parts.scheme) == NoParts;
      } else {
        NoMarkAtFront(parts);
        ParseWithMark(Print(parts));
      }
    }
  }

  lemma NoMarkAtFront(parts: Parts)
    requires Fits(parts)
    ensures !MarkAt(PrintRest(parts), 0)
  {
    var rest := PrintRest(parts);
    if parts.host != [] {
      assert rest[0] == parts.host[0] && parts.host[0] in parts.host;
    } else if parts.port != 0 {
      assert rest[1] == Digits(parts.port)[0] && Digits(parts.port)[0] in Digits(parts.port);
    }
  }
}
