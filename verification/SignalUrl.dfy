/** The Url class and the address of the signalling connection. */
module SignalUrl {
  import opened Wire
  import opened Ordering
  import opened Percent
  import opened UrlParts
  import opened UrlRoundTrip

  lemma FieldAt(params: map<string, string>, query: string, position: nat, end: nat)
    requires position <= |query| && end == position + Upto(query[position..], EndsField)
    ensures var now := AddField(params, query[position..end]);
            AddFields(params, query[position..]) == if end == |query| then now else AddFields(now, query[end + 1..])
  {
    var rest := query[position..];
    assert rest[..end - position] == query[position..end];
    if end < |query| {
      assert rest[end - position + 1..] == query[end + 1..];
    }
  }

  class Url {
    var scheme: string
    var host: string
    var port: nat
    var path: string
    var params: map<string, string>

    ghost function Value(): Parts
      reads this
    {
      Parts(scheme, host, port, path, params)
    }

    constructor ()
      ensures Value() == NoParts
    {
      scheme, host, port, path, params := "", "", 0, "", map[];
    }

    /** The parsing constructor, on an object just created; its exceptions are results. */
    method Read(url: string) returns (failure: Option<Failure>)
      requires Value() == NoParts
      modifies this
      ensures Parse(url) == if failure.None? then Ok(Value()) else Err(failure.value)
    {
      var rest := url;
      var mark := FindMark(url, 0);
      if mark < |url| {
        scheme := ToLower(url[..mark]);
        rest := url[mark + 3..];
      }
      var end := Upto(rest, EndsHost);
      host := rest[..end];
      rest := rest[end..];
      if rest == [] {
        return None;
      }
      if rest[0] == ':' {
        rest := rest[1..];
        end := Upto(rest, EndsPort);
        if end == 0 {
          return Some(InvalidArgument);
        }
        var number := Number(rest[..end]);
        if number > 65535 {
          return Some(OutOfRange);
        }
        port := number;
        rest := rest[end..];
      }
      failure := ReadPath(rest);
    }

    method ReadPath(text: string) returns (failure: Option<Failure>)
      requires path == []
      modifies this`path, this`params
      ensures ParsePath(old(Value()), text) == if failure.None? then Ok(Value()) else Err(failure.value)
    {
      var rest, end := text, 0;
      if rest == [] {
        return None;
      }
      if rest[0] != '/' && rest[0] != '?' {
        return Some(InvalidArgument);
      }
      if rest[0] == '/' {
        rest := rest[1..];
        end := Upto(rest, EndsPath);
        path := rest[..end];
        rest := rest[end..];
      }
      if rest != [] && rest[0] == '?' {
        rest := rest[1..];
        AppendQueryParameters(rest[..Upto(rest, EndsQuery)]);
      }
      return None;
    }

    /** The text between two separators. */
    method AppendField(field: string)
      modifies this`params
      ensures params == AddField(old(params), field)
    {
      var nameEnd := Upto(field, EndsName);
      if nameEnd > 0 {
        params := params[field[..nameEnd] := if nameEnd == |field| then "" else field[nameEnd + 1..]];
      }
    }

    method AppendQueryParameters(query: string)
      modifies this`params
      ensures params == AddQuery(old(params), query)
    {
      var position := if query != [] && query[0] == '?' then 1 else 0;
      assert query[0..] == query;
      ghost var goal := AddFields(params, query[position..]);
      while position <= |query|
        invariant position <= |query|
        invariant goal == AddFields(params, query[position..])
        decreases |query| - position
      {
        var end := position + Upto(query[position..], EndsField);
        FieldAt(params, query, position, end);
        AppendField(query[position..end]);
        if end == |query| {
          break;
        }
        position := end + 1;
      }
    }

    method AppendQueryParameter(name: string, value: string)
      modifies this`params
      ensures params == old(params)[name := value]
    {
      params := params[name := value];
    }

    /** FormatEncodedUrlQueryParameters, over the parameters of this object. */
    method FormatQuery() returns (query: string)
      ensures query == PrintQuery(params)
    {
      query := "";
      var order := Visit(params.Keys);
      var separator := '?';
      for i := 0 to |order|
        invariant query + Pairs(params, order[i..], separator) == PrintQuery(params)
      {
        assert order[i] in order && order[i..][1..] == order[i + 1..];
        var pair := [separator] + order[i] + "=" + params[order[i]];
        assert query + (pair + Pairs(params, order[i + 1..], '&')) == query + pair + Pairs(params, order[i + 1..], '&');
        query := query + pair;
        separator := '&';
      }
    }

    method GetUrlWithoutQuery() returns (url: string)
      ensures url == PrintHead(Value())
    {
      url := "";
      if scheme != [] {
        url := scheme + "://";
      }
      url := url + host;
      var portText := "";
      if port != 0 {
        portText := ":" + Digits(port);
      }
      url := url + portText;
      var pathText := "";
      if path != [] {
        pathText := if path[0] != '/' then "/" + path else path;
      }
      url := url + pathText;
    }

    method GetAbsoluteUrl() returns (url: string)
      ensures url == Print(Value())
    {
      var head := GetUrlWithoutQuery();
      var query := FormatQuery();
      url := head + query;
    }
  }

  // ----- The address of the signalling connection -----

  datatype SignalOptions = SignalOptions(
    autoSubscribe: bool, adaptiveStream: bool, reconnect: bool, reconnectReason: int,
    participantSid: seq<octet>, sdk: seq<octet>, sdkVersion: seq<octet>)

  /** std::to_string of a signed number. */
  function Decimal(n: int): seq<octet> {
    if n < 0 then "-" + Digits(-n) else Digits(n)
  }

  const One: seq<octet> := "1"
  const Zero: seq<octet> := "0"
  const DefaultSdk: seq<octet> := "cpp"
  const DefaultSdkVersion: seq<octet> := "0.0.1"
  const ProtocolVersion: seq<octet> := "15"

  /** The parameters that describe a connection, before encoding. */
  function Described(token: seq<octet>, o: SignalOptions): map<string, seq<octet>> {
    DescribedAgain(DescribedClient(token, o), o)
  }

  function DescribedClient(token: seq<octet>, o: SignalOptions): map<string, seq<octet>> {
    var always: map<string, seq<octet>> := map[
      "access_token" := token,
      "auto_subscribe" := if o.autoSubscribe then One else Zero,
      "sdk" := if o.sdk == [] then DefaultSdk else o.sdk,
      "version" := if o.sdkVersion == [] then DefaultSdkVersion else o.sdkVersion,
      "protocol" := ProtocolVersion];
    Put(always, o.adaptiveStream, "adaptive_stream", One)
  }

  /** A connection that is taken up again says so, and whose it was. */
  function DescribedAgain(client: map<string, seq<octet>>, o: SignalOptions): map<string, seq<octet>> {
    if !o.reconnect then client else
    var again := client["reconnect" := One];
    var named := Put(again, o.participantSid != [], "sid", o.participantSid);
    Put(named, o.reconnectReason != 0, "reconnect_reason", Decimal(o.reconnectReason))
  }

  function Put(plain: map<string, seq<octet>>, present: bool, name: string, value: seq<octet>): map<string, seq<octet>> {
    if present then plain[name := value] else plain
  }

  function EncodeAll(plain: map<string, seq<octet>>): map<string, string> {
    map k | k in plain :: Encoded(plain[k], {})
  }

  /** A parsed address with the given parameters set. */
  function With(base: Parts, plain: map<string, seq<octet>>): Parts {
    base.(params := base.params + EncodeAll(plain))
  }

  lemma WithOneMore(base: Parts, plain: map<string, seq<octet>>, name: string, value: seq<octet>)
    ensures With(base, plain[name := value]).params == With(base, plain).params[name := Encoded(value, {})]
  {
  }


  method SetParameter(request: Url, name: string, value: seq<octet>, ghost base: Parts, ghost plain: map<string, seq<octet>>)
    requires request.Value() == With(base, plain)
    modifies request`params
    ensures request.Value() == With(base, plain[name := value])
  {
    var encoded := Encode(value, "");
    assert (set c | c in "") == {};
    WithOneMore(base, plain, name, value);
    request.AppendQueryParameter(name, encoded);
  }

  /** The parameters that do not depend on whether the connection is taken up again. */
  method DescribeClient(request: Url, token: seq<octet>, o: SignalOptions, ghost base: Parts)
    requires request.Value() == With(base, map[])
    modifies request`params
    ensures request.Value() == With(base, DescribedClient(token, o))
  {
    ghost var plain: map<string, seq<octet>> := map[];
    SetParameter(request, "access_token", token, base, plain);
    plain := plain["access_token" := token];
    SetParameter(request, "auto_subscribe", if o.autoSubscribe then One else Zero, base, plain);
    plain := plain["auto_subscribe" := if o.autoSubscribe then One else Zero];
    SetParameter(request, "sdk", if o.sdk == [] then DefaultSdk else o.sdk, base, plain);
    plain := plain["sdk" := if o.sdk == [] then DefaultSdk else o.sdk];
    SetParameter(request, "version", if o.sdkVersion == [] then DefaultSdkVersion else o.sdkVersion, base, plain);
    plain := plain["version" := if o.sdkVersion == [] then DefaultSdkVersion else o.sdkVersion];
    SetParameter(request, "protocol", ProtocolVersion, base, plain);
    plain := plain["protocol" := ProtocolVersion];
    if o.adaptiveStream {
      SetParameter(request, "adaptive_stream", One, base, plain);
    }
  }

  /** What BuildSignalUrl promises: the base with its parameters set, or the error of parsing the base. */
  ghost function Built(url: string, token: seq<octet>, o: SignalOptions): Result<string> {
    match Parse(url)
    case Ok(base) => Ok(Print(With(base, Described(token, o))))
    case Err(e) => Err(e)
  }

  method BuildSignalUrl(url: string, token: seq<octet>, o: SignalOptions) returns (r: Result<string>)
    ensures r == Built(url, token, o)
  {
    var request := new Url();
    var failure := request.Read(url);
    if failure.Some? {
      return Err(failure.value);
    }
    ghost var base := request.Value();
    assert base.params + EncodeAll(map[]) == base.params;
    DescribeClient(request, token, o, base);
    if o.reconnect {
      ghost var plain := DescribedClient(token, o);
      SetParameter(request, "reconnect", One, base, plain);
      plain := plain["reconnect" := One];
      if o.participantSid != [] {
        SetParameter(request, "sid", o.participantSid, base, plain);
      }
      plain := Put(plain, o.participantSid != [], "sid", o.participantSid);
      if o.reconnectReason != 0 {
        SetParameter(request, "reconnect_reason", Decimal(o.reconnectReason), base, plain);
      }
    }
    var text := request.GetAbsoluteUrl();
    return Ok(text);
  }

  // ----- Parsing the address again -----

  predicate PlainName(name: string) {
    name != [] && forall i :: 0 <= i < |name| ==> 'a' <= name[i] <= 'z' || name[i] == '_'
  }

  lemma DescribedNamesArePlain(token: seq<octet>, o: SignalOptions)
    ensures forall k :: k in Described(token, o) ==> PlainName(k)
  {
    assert PlainName("access_token");
    assert PlainName("auto_subscribe");
    assert PlainName("sdk") && PlainName("version") && PlainName("protocol");
    assert PlainName("adaptive_stream");
    assert PlainName("reconnect") && PlainName("sid");
    assert PlainName("reconnect_reason");
  }

  lemma PlainNameFits(name: string)
    requires PlainName(name)
    ensures NameFits(name) && Markless(name) && Less("?", name)
  {
  }

  lemma EncodedFits(value: seq<octet>)
    ensures ValueFits(Encoded(value, {})) && Markless(Encoded(value, {}))
  {
    EncodedIsSafe(value);
    var text := Encoded(value, {});
    assert forall i :: 0 <= i < |text| ==> text[i] in text;
  }

  lemma WithFits(base: Parts, plain: map<string, seq<octet>>)
    requires Fits(base) && forall k :: k in plain ==> PlainName(k)
    ensures Fits(With(base, plain))
  {
    var now := With(base, plain).params;
    forall k | k in now ensures NameFits(k) && ValueFits(now[k]) {
      if k in plain {
        PlainNameFits(k);
        EncodedFits(plain[k]);
      }
    }
  }

  /** No "://" in the path or in a parameter that is not replaced. */
  predicate KeepsNoMark(base: Parts, names: set<string>) {
    Markless(base.path) && forall k :: k in base.params && k !in names ==> Markless(k) && Markless(base.params[k])
  }

  lemma WithKeepsMarks(base: Parts, plain: map<string, seq<octet>>)
    requires forall k :: k in plain ==> PlainName(k)
    ensures MarkFree(With(base, plain)) <==> KeepsNoMark(base, plain.Keys)
  {
    var now := With(base, plain).params;
    forall k | k in plain ensures k in now && Markless(k) && Markless(now[k]) {
      PlainNameFits(k);
      EncodedFits(plain[k]);
    }
    assert forall k :: k in base.params && k !in plain ==> k in now && now[k] == base.params[k];
    assert forall k :: k in now && k !in plain ==> k in base.params && now[k] == base.params[k];
  }

  /** The first name, in the order they are printed, starts with a question mark. */
  ghost predicate Slips(params: map<string, string>) {
    params != map[] && Smallest(params.Keys) != [] && Smallest(params.Keys)[0] == '?'
  }

  lemma QuestionMarkIsLess(name: string, plain: string)
    requires name != [] && name[0] == '?' && PlainName(plain)
    ensures Less(name, plain) && name != plain
  {
  }

  lemma WithSlips(base: Parts, plain: map<string, seq<octet>>)
    requires forall k :: k in plain ==> PlainName(k)
    ensures var now := With(base, plain).params;
            Slips(now) <==> Slips(base.params)
    ensures var now := With(base, plain).params;
            Slips(now) ==> Smallest(now.Keys) == Smallest(base.params.Keys)
  {
    var now := With(base, plain).params;
    assert now.Keys == base.params.Keys + plain.Keys;
    if Slips(base.params) {
      var first := Smallest(base.params.Keys);
      forall k | k in plain ensures Less(first, k) {
        QuestionMarkIsLess(first, k);
      }
      LessIsStrict(first, Smallest(now.Keys));
    } else if Slips(now) {
      var first := Smallest(now.Keys);
      assert first in base.params.Keys;
      LessIsStrict(first, Smallest(base.params.Keys));
    }
  }

  predicate SameAddress(a: Parts, b: Parts) {
    a.scheme == b.scheme && a.host == b.host && a.port == b.port && a.path == b.path
  }

  /** Every parameter that was set reads back as the string it was set to. */
  predicate Carries(parts: Parts, plain: map<string, seq<octet>>) {
    forall k :: k in plain ==> k in parts.params && Decoded(parts.params[k]) == Some(plain[k])
  }

  /** The parameters other than the given ones are the same. */
  ghost predicate SameOthers(a: Parts, b: Parts, names: set<string>) {
    forall k :: k !in names ==> (k in a.params <==> k in b.params) && (k in a.params ==> a.params[k] == b.params[k])
  }

  predicate LeadingSlash(path: string) { path != [] && path[0] == '/' }

  lemma SetParametersRead(base: Parts, plain: map<string, seq<octet>>)
    requires forall k :: k in plain ==> PlainName(k)
    ensures Carries(Reparsed(With(base, plain)), plain)
  {
    var now := With(base, plain).params;
    forall k | k in plain ensures k in Slip(now) && Decoded(Slip(now)[k]) == Some(plain[k]) {
      assert k in now && now[k] == Encoded(plain[k], {});
      PercentRoundTrip(plain[k], {});
      if Slips(now) {
        QuestionMarkIsLess(Smallest(now.Keys), k);
      }
    }
  }

  lemma OtherParametersRead(base: Parts, plain: map<string, seq<octet>>)
    requires Fits(base) && forall k :: k in plain ==> PlainName(k)
    ensures SameOthers(base, Reparsed(With(base, plain)), plain.Keys) <==> !Slips(base.params)
  {
    var now := With(base, plain).params;
    WithSlips(base, plain);
    if Slips(now) {
      var first := Smallest(now.Keys);
      assert first !in plain by {
        if first in plain {
          QuestionMarkIsLess(first, first);
        }
      }
      assert first in base.params && first !in Slip(now);
    } else {
      WithFits(base, plain);
      SlipIsSame(now);
    }
  }

  /**
    * Parsing the address that BuildSignalUrl made. With a scheme it always parses, scheme, host and port
    * are the base's, and every parameter that was set decodes to the given string. The whole address and
    * all other parameters come back exactly when the path has no leading slash of its own and no
    * question mark starts the first parameter's name; a base without scheme must hold no "://".
    */
  lemma SignalUrlRoundTrip(url: string, token: seq<octet>, o: SignalOptions)
    requires Parse(url).Ok?
    ensures var base, plain := Parse(url).value, Described(token, o);
            var back := Parse(Built(url, token, o).value);
            base.scheme != [] || KeepsNoMark(base, plain.Keys) ==>
              && back.Ok? && Carries(back.value, plain)
              && back.value.scheme == base.scheme && back.value.host == base.host && back.value.port == base.port
    ensures var base, plain := Parse(url).value, Described(token, o);
            var back := Parse(Built(url, token, o).value);
            (back.Ok? && SameAddress(base, back.value) && SameOthers(base, back.value, plain.Keys))
            <==>
            && (base.scheme != [] || KeepsNoMark(base, plain.Keys))
            && !LeadingSlash(base.path)
            && !Slips(base.params)
  {
    var base, plain := Parse(url).value, Described(token, o);
    ParseFits(url);
    DescribedNamesArePlain(token, o);
    WithFits(base, plain);
    WithKeepsMarks(base, plain);
    PrintedUrlComesBack(With(base, plain));
    SetParametersRead(base, plain);
    OtherParametersRead(base, plain);
  }

  lemma WsFits()
    ensures SchemeFits("ws")
  {
    var text := "ws" + "://";
    assert MarkAt(text, 2) && !MarkAt(text, 0) && !MarkAt(text, 1);
    FirstMarkIs(text, 2);
    assert ToLower("ws") == "ws";
  }

  lemma ParseShort(rest: string)
    requires Stops(rest, EndsHost)
    ensures Parse("ws" + "://" + ("h" + rest)) == ParsePort(Parts("ws", "h", 0, "", map[]), rest)
  {
    WsFits();
    SchemeComesBack("ws", "h" + rest);
    HostComesBack(Parts("ws", "", 0, "", map[]), "h", rest);
  }

  /** A path with a slash of its own loses it, whatever is set. */
  lemma DoubleSlashIsLost(token: seq<octet>, o: SignalOptions)
    ensures Parse("ws" + "://" + ("h" + "//p")) == Ok(Parts("ws", "h", 0, "/p", map[]))
    ensures var back := Parse(Built("ws" + "://" + ("h" + "//p"), token, o).value);
            back.Ok? && back.value.path == "p"
  {
    ParseShort("//p");
    assert "//p"[1..] == "/p" && "/p" + [] == "/p";
    UptoIs("/p", [], EndsPath);
    ReadAgain("ws" + "://" + ("h" + "//p"), token, o);
  }

  lemma ParseOddName()
    ensures Parse("ws" + "://" + ("h" + "?&?b")) == Ok(Parts("ws", "h", 0, "", map["?b" := ""]))
  {
    ParseShort("?&?b");
    assert "?&?b"[1..] == "&?b" && "&?b" + [] == "&?b";
    UptoIs("&?b", [], EndsQuery);
    OddFields();
  }

  lemma OddFields()
    ensures AddFields(map[], "&?b") == map["?b" := ""]
  {
    assert "" + "&?b" == "&?b" && "&?b"[1..] == "?b" && "?b" + [] == "?b";
    FirstFieldIsAdded(map[], "", "&?b");
    FirstFieldIsAdded(map[], "?b", "");
    UptoIs("?b", [], EndsName);
  }

  /** A name that starts with a question mark and is printed first loses it. */
  lemma QuestionMarkIsLost(token: seq<octet>, o: SignalOptions)
    ensures Parse("ws" + "://" + ("h" + "?&?b")) == Ok(Parts("ws", "h", 0, "", map["?b" := ""]))
    ensures var back := Parse(Built("ws" + "://" + ("h" + "?&?b"), token, o).value);
            back.Ok? && "?b" !in back.value.params
  {
    ParseOddName();
    ReadAgain("ws" + "://" + ("h" + "?&?b"), token, o);
    FirstNameSlips(Parts("ws", "h", 0, "", map["?b" := ""]), token, o);
  }

  lemma FirstNameSlips(base: Parts, token: seq<octet>, o: SignalOptions)
    requires base.params == map["?b" := ""]
    ensures "?b" !in Reparsed(With(base, Described(token, o))).params
  {
    DescribedNamesArePlain(token, o);
    WithSlips(base, Described(token, o));
    assert "?b" in base.params.Keys && Smallest(base.params.Keys) == "?b";
  }

  lemma ReadAgain(url: string, token: seq<octet>, o: SignalOptions)
    requires Parse(url).Ok? && Parse(url).value.scheme != []
    ensures Parse(Built(url, token, o).value) == Ok(Reparsed(With(Parse(url).value, Described(token, o))))
  {
    ParseFits(url);
    DescribedNamesArePlain(token, o);
    WithFits(Parse(url).value, Described(token, o));
    PrintedUrlComesBack(With(Parse(url).value, Described(token, o)));
  }
}
