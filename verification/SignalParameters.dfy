/** The parameters of the address of the signalling connection, by name. */
module SignalParameters {
  import opened Wire
  import opened Percent
  import opened UrlParts
  import opened UrlRoundTrip
  import opened SignalUrl

  /** What a parameter of a parsed address decodes to. */
  function Reads(parts: Parts, name: string): Option<string> {
    if name in parts.params then Decoded(parts.params[name]) else None
  }

  lemma ShortNames()
    ensures |"sdk"| == 3 && |"sid"| == 3 && "sdk" != "sid"
    ensures |"version"| == 7 && |"protocol"| == 8 && |"reconnect"| == 9
    ensures |"access_token"| == 12 && |"auto_subscribe"| == 14 && |"adaptive_stream"| == 15 && |"reconnect_reason"| == 16
  {
    assert "sdk"[1] != "sid"[1];
  }

  /** What always describes a connection. */
  lemma ClientByName(token: seq<octet>, o: SignalOptions)
    ensures var d := DescribedClient(token, o);
            && "access_token" in d && d["access_token"] == token
            && "auto_subscribe" in d && d["auto_subscribe"] == (if o.autoSubscribe then "1" else "0")
            && "sdk" in d && d["sdk"] == (if o.sdk == [] then "cpp" else o.sdk)
            && "version" in d && d["version"] == (if o.sdkVersion == [] then "0.0.1" else o.sdkVersion)
            && "protocol" in d && d["protocol"] == "15"
            && ("adaptive_stream" in d <==> o.adaptiveStream) && (o.adaptiveStream ==> d["adaptive_stream"] == "1")
            && "reconnect" !in d && "sid" !in d && "reconnect_reason" !in d
  {
    ShortNames();
  }

  /** What a connection that is taken up again adds. */
  lemma AgainByName(client: map<string, seq<octet>>, o: SignalOptions, name: string)
    requires "reconnect" !in client && "sid" !in client && "reconnect_reason" !in client
    ensures var d := DescribedAgain(client, o);
            && (name !in {"reconnect", "sid", "reconnect_reason"} ==> (name in d <==> name in client) && (name in d ==> d[name] == client[name]))
            && ("reconnect" in d <==> o.reconnect) && (o.reconnect ==> d["reconnect"] == "1")
            && ("sid" in d <==> o.reconnect && o.participantSid != []) && ("sid" in d ==> d["sid"] == o.participantSid)
            && ("reconnect_reason" in d <==> o.reconnect && o.reconnectReason != 0)
            && ("reconnect_reason" in d ==> d["reconnect_reason"] == Decimal(o.reconnectReason))
  {
    ShortNames();
  }

  /** The usual decimal text of a number other than 0. */
  predicate IsDecimal(text: string, n: int) {
    if n < 0 then text != [] && text[0] == '-' && IsDecimal(text[1..], -n)
    else text != [] && text[0] != '0' && (forall c :: c in text ==> IsDigit(c)) && Number(text) == n
  }

  lemma {:induction false} NoLeadingZero(n: nat)
    requires n > 0
    ensures Digits(n) != [] && Digits(n)[0] != '0'
  {
    if n >= 10 {
      NoLeadingZero(n / 10);
    }
  }

  lemma DecimalIsUsual(n: int)
    requires n != 0
    ensures IsDecimal(Decimal(n), n)
  {
    if n < 0 {
      NoLeadingZero(-n);
      assert Decimal(n)[1..] == Digits(-n);
    } else {
      NoLeadingZero(n);
    }
  }

  /**
    * The address that BuildSignalUrl makes from a base with a scheme, read again: the token, the
    * description of the client, and how the connection is taken up again, each under its name; a
    * parameter that does not apply is as in the base.
    */
  lemma SignalUrlParameters(url: string, token: seq<octet>, o: SignalOptions)
    requires Parse(url).Ok? && Parse(url).value.scheme != []
    ensures Parse(Built(url, token, o).value).Ok?
    ensures var base, back := Parse(url).value, Parse(Built(url, token, o).value).value;
            && Reads(back, "access_token") == Some(token)
            && Reads(back, "auto_subscribe") == Some(if o.autoSubscribe then "1" else "0")
            && Reads(back, "sdk") == Some(if o.sdk == [] then "cpp" else o.sdk)
            && Reads(back, "version") == Some(if o.sdkVersion == [] then "0.0.1" else o.sdkVersion)
            && Reads(back, "protocol") == Some("15")
            && (o.adaptiveStream ==> Reads(back, "adaptive_stream") == Some("1"))
            && (o.reconnect ==> Reads(back, "reconnect") == Some("1"))
            && (o.reconnect && o.participantSid != [] ==> Reads(back, "sid") == Some(o.participantSid))
            && (o.reconnect && o.reconnectReason != 0 ==>
                  Reads(back, "reconnect_reason").Some? && IsDecimal(Reads(back, "reconnect_reason").value, o.reconnectReason))
            && (!Slips(base.params) ==>
                  && (!o.adaptiveStream ==> SameIn(base, back, "adaptive_stream"))
                  && (!o.reconnect ==> SameIn(base, back, "reconnect"))
                  && (!(o.reconnect && o.participantSid != []) ==> SameIn(base, back, "sid"))
                  && (!(o.reconnect && o.reconnectReason != 0) ==> SameIn(base, back, "reconnect_reason")))
  {
    var base, plain := Parse(url).value, Described(token, o);
    SignalUrlRoundTrip(url, token, o);
    var back := Parse(Built(url, token, o).value).value;
    ClientByName(token, o);
    ShortNames();
    NamesDescribed(token, o);
    assert forall k :: k in plain ==> Reads(back, k) == Some(plain[k]);
    if o.reconnectReason != 0 {
      DecimalIsUsual(o.reconnectReason);
    }
    if !Slips(base.params) {
      OthersAsInBase(url, token, o);
    }
  }

  /** The same value, or none, under a name. */
  predicate SameIn(a: Parts, b: Parts, name: string) {
    (name in a.params <==> name in b.params) && (name in a.params ==> a.params[name] == b.params[name])
  }

  lemma NamesDescribed(token: seq<octet>, o: SignalOptions)
    ensures var d, client := Described(token, o), DescribedClient(token, o);
            && (forall name :: name in client ==> name in d && d[name] == client[name])
            && ("adaptive_stream" in d <==> o.adaptiveStream)
            && ("reconnect" in d <==> o.reconnect) && (o.reconnect ==> d["reconnect"] == "1")
            && ("sid" in d <==> o.reconnect && o.participantSid != []) && ("sid" in d ==> d["sid"] == o.participantSid)
            && ("reconnect_reason" in d <==> o.reconnect && o.reconnectReason != 0)
            && ("reconnect_reason" in d ==> d["reconnect_reason"] == Decimal(o.reconnectReason))
  {
    var client := DescribedClient(token, o);
    ClientByName(token, o);
    ShortNames();
    AgainByName(client, o, "adaptive_stream");
    forall name | name in client ensures name in Described(token, o) && Described(token, o)[name] == client[name] {
      AgainByName(client, o, name);
    }
  }

  lemma OthersAsInBase(url: string, token: seq<octet>, o: SignalOptions)
    requires Parse(url).Ok? && Parse(url).value.scheme != [] && !Slips(Parse(url).value.params)
    ensures Parse(Built(url, token, o).value).Ok?
    ensures forall name :: name !in Described(token, o) ==> SameIn(Parse(url).value, Parse(Built(url, token, o).value).value, name)
  {
    var base, plain := Parse(url).value, Described(token, o);
    ParseFits(url);
    DescribedNamesArePlain(token, o);
    ReadAgain(url, token, o);
    OtherParametersRead(base, plain);
  }
}
