/** What the text of a URL means: its parts in order, its parameters field by field, and which ports are refused. */
module UrlText {
  import opened Percent
  import opened UrlParts
  import opened UrlRoundTrip

  // ----- Parameters -----

  /** A field of a query: a name alone, or a name and a value. */
  datatype Field = Flag(name: string) | Pair(name: string, value: string)

  function TextOf(f: Field): string { if f.Flag? then f.name else f.name + "=" + f.value }

  function TextOfAll(fields: seq<Field>): string {
    if fields == [] then [] else if |fields| == 1 then TextOf(fields[0]) else TextOf(fields[0]) + "&" + TextOfAll(fields[1..])
  }

  predicate FieldFits(f: Field) {
    && (forall c :: c in f.name ==> c != '&' && c != '=' && c != '#')
    && (f.Pair? ==> forall c :: c in f.value ==> c != '&' && c != '#')
  }

  /** Field i is the last one with this name. */
  predicate LastOf(fields: seq<Field>, name: string, i: nat) {
    i < |fields| && fields[i].name == name && forall j :: i < j < |fields| ==> fields[j].name != name
  }

  function ValueOf(f: Field): string { if f.Flag? then "" else f.value }

  /** The parameters of a query: for each name that is not empty the value of its last field; a flag has the empty value. */
  ghost predicate Holds(params: map<string, string>, start: map<string, string>, fields: seq<Field>) {
    && (forall name, i: nat :: name != "" && LastOf(fields, name, i) ==> name in params && params[name] == ValueOf(fields[i]))
    && (forall name :: name == "" || (forall i :: 0 <= i < |fields| ==> fields[i].name != name) ==>
          (name in params <==> name in start) && (name in start ==> params[name] == start[name]))
  }

  lemma FieldIsAdded(params: map<string, string>, f: Field)
    requires FieldFits(f)
    ensures AddField(params, TextOf(f)) == if f.name == "" then params else params[f.name := ValueOf(f)]
    ensures Free(TextOf(f), EndsField) && Free(TextOf(f), EndsQuery)
  {
    assert Free(f.name, EndsName);
    if f.Flag? {
      UptoIs(f.name, [], EndsName);
      assert f.name + [] == f.name;
    } else {
      FieldComesBack(params, f.name, f.value);
    }
  }

  function Taking(start: map<string, string>, f: Field): map<string, string> {
    if f.name == "" then start else start[f.name := ValueOf(f)]
  }

  /** The first field is taken, and then the others. */
  lemma FrontOfFields(start: map<string, string>, f: Field, rest: seq<Field>)
    requires FieldFits(f)
    ensures AddFields(start, TextOfAll([f] + rest)) == if rest == [] then Taking(start, f) else AddFields(Taking(start, f), TextOfAll(rest))
  {
    FieldIsAdded(start, f);
    FrontText(f, rest);
    var tail := if rest == [] then [] else "&" + TextOfAll(rest);
    FirstFieldIsAdded(start, TextOf(f), tail);
    assert rest != [] ==> tail[1..] == TextOfAll(rest);
  }

  lemma FrontText(f: Field, rest: seq<Field>)
    ensures TextOfAll([f] + rest) == TextOf(f) + if rest == [] then [] else "&" + TextOfAll(rest)
  {
    assert ([f] + rest)[1..] == rest;
    if rest == [] {
      assert TextOf(f) + [] == TextOf(f);
    } else {
      AppendAll(TextOf(f), "&", TextOfAll(rest));
    }
  }

  lemma {:induction false} FieldsAreAdded(start: map<string, string>, fields: seq<Field>)
    requires fields != [] && forall i :: 0 <= i < |fields| ==> FieldFits(fields[i])
    ensures Holds(AddFields(start, TextOfAll(fields)), start, fields)
    decreases |fields|
  {
    var f, rest := fields[0], fields[1..];
    assert fields == [f] + rest && FieldFits(f);
    FrontOfFields(start, f, rest);
    if |fields| == 1 {
      HoldsOne(start, fields);
    } else {
      FieldsAreAdded(Taking(start, f), rest);
      HoldsMore(AddFields(start, TextOfAll(fields)), start, Taking(start, f), fields);
    }
  }

  lemma HoldsOne(start: map<string, string>, fields: seq<Field>)
    requires |fields| == 1
    ensures Holds(Taking(start, fields[0]), start, fields)
  {
  }

  lemma HoldsMore(params: map<string, string>, start: map<string, string>, now: map<string, string>, fields: seq<Field>)
    requires |fields| > 1 && now == Taking(start, fields[0])
    requires Holds(params, now, fields[1..])
    ensures Holds(params, start, fields)
  {
    var rest := fields[1..];
    assert forall j :: 0 <= j < |rest| ==> rest[j] == fields[j + 1];
    forall name, i: nat | name != "" && LastOf(fields, name, i) ensures name in params && params[name] == ValueOf(fields[i]) {
      if i > 0 {
        assert LastOf(rest, name, i - 1);
      } else {
        forall j | 0 <= j < |rest| ensures rest[j].name != name {
          assert fields[j + 1].name != name;
        }
      }
    }
    forall name | name == "" || (forall i :: 0 <= i < |fields| ==> fields[i].name != name)
      ensures (name in params <==> name in start) && (name in start ==> params[name] == start[name])
    {
      if name != "" {
        assert fields[0].name != name;
        assert forall j :: 0 <= j < |rest| ==> rest[j].name != name;
      }
    }
  }

  // ----- The parts of the text -----

  /** "://" does not begin inside the scheme. */
  predicate NoEarlierMark(scheme: string) { forall j :: 0 <= j < |scheme| ==> !MarkAt(scheme + "://", j) }

  predicate AllDigits(text: string) { forall c :: c in text ==> '0' <= c <= '9' }

  /**
    * A scheme in any case, host, port, path, query and fragment in their places are the parts of the URL:
    * the scheme in lower case, port 0 for none, and what the fields of the query say.
    */
  lemma ParseOfText(scheme: string, host: string, digits: string, hasPath: bool, path: string, fields: seq<Field>, fragment: string)
    requires NoEarlierMark(scheme) && (forall c :: c in host ==> c !in "/?:") && (forall c :: c in path ==> c !in "?#")
    requires AllDigits(digits) && Number(digits) <= 65535
    requires forall i :: 0 <= i < |fields| ==> FieldFits(fields[i])
    requires fields != [] ==> TextOfAll(fields) == [] || TextOfAll(fields)[0] != '?'
    requires fragment == [] || fragment[0] == '#'
    requires !hasPath ==> path == [] && (fields != [] || fragment == [])
    ensures var port := if digits == [] then [] else ":" + digits;
            var query := if fields == [] then [] else "?" + TextOfAll(fields);
            var r := Parse(scheme + "://" + (host + (port + ((if hasPath then "/" + path else []) + (query + fragment)))));
            && r.Ok? && r.value.scheme == ToLower(scheme) && r.value.host == host && r.value.path == path
            && r.value.port == Number(digits) && Holds(r.value.params, map[], fields)
  {
    var rest := (if fields == [] then [] else "?" + TextOfAll(fields)) + fragment;
    var port, slash := if digits == [] then [] else ":" + digits, (if hasPath then "/" + path else []) + rest;
    var start := NoParts.(scheme := ToLower(scheme));
    var named := start.(host := host, port := Number(digits));
    SchemeOfText(scheme, host + (port + slash));
    HostComesBack(start, host, port + slash);
    PortOfText(start.(host := host), digits, slash);
    PathOfText(named, hasPath, path, rest);
    QueryOfText(named.(path := path), fields, fragment);
  }

  lemma SchemeOfText(scheme: string, rest: string)
    requires NoEarlierMark(scheme)
    ensures Parse(scheme + "://" + rest) == ParseHost(NoParts.(scheme := ToLower(scheme)), rest)
  {
    var url := scheme + "://" + rest;
    forall j | 0 <= j < |scheme| ensures !MarkAt(url, j) {
      assert !MarkAt(scheme + "://", j);
    }
    assert MarkAt(url, |scheme|);
    FirstMarkIs(url, |scheme|);
    assert url[..|scheme|] == scheme && url[|scheme| + 3..] == rest;
  }

  lemma PortOfText(parts: Parts, digits: string, rest: string)
    requires parts.port == 0 && AllDigits(digits) && Number(digits) <= 65535 && (rest == [] || rest[0] in "/?")
    ensures ParsePort(parts, (if digits == [] then [] else ":" + digits) + rest) == ParsePath(parts.(port := Number(digits)), rest)
  {
    if digits == [] {
      assert [] + rest == rest;
    } else {
      DigitsComeBack(parts, digits, rest);
    }
  }

  lemma PathOfText(parts: Parts, hasPath: bool, path: string, rest: string)
    requires parts.path == [] && (forall c :: c in path ==> c !in "?#") && (rest == [] || rest[0] in "?#")
    requires !hasPath ==> path == [] && (rest == [] || rest[0] == '?')
    ensures ParsePath(parts, (if hasPath then "/" + path else []) + rest) == Ok(ParseQuery(parts.(path := path), rest))
  {
    if hasPath {
      AfterFirst('/', path, rest);
      UptoIs(path, rest, EndsPath);
    } else {
      assert [] + rest == rest;
    }
  }

  lemma QueryOfText(parts: Parts, fields: seq<Field>, fragment: string)
    requires parts.params == map[] && forall i :: 0 <= i < |fields| ==> FieldFits(fields[i])
    requires fields != [] ==> TextOfAll(fields) == [] || TextOfAll(fields)[0] != '?'
    requires fragment == [] || fragment[0] == '#'
    ensures var r := ParseQuery(parts, (if fields == [] then [] else "?" + TextOfAll(fields)) + fragment);
            r == parts.(params := r.params) && Holds(r.params, map[], fields)
  {
    if fields == [] {
      assert [] + fragment == fragment;
    } else {
      var text := TextOfAll(fields);
      AfterFirst('?', text, fragment);
      FieldsAreFree(fields);
      UptoIs(text, fragment, EndsQuery);
      FieldsAreAdded(map[], fields);
    }
  }

  lemma {:induction false} FieldsAreFree(fields: seq<Field>)
    requires forall i :: 0 <= i < |fields| ==> FieldFits(fields[i])
    ensures Free(TextOfAll(fields), EndsQuery)
    decreases |fields|
  {
    if fields != [] {
      assert FieldFits(fields[0]);
      FieldsAreFree(fields[1..]);
      FieldIsAdded(map[], fields[0]);
    }
  }

  // ----- Ports that are refused -----

  /** A colon without digits, a number above 65535, and anything but a path or a query behind the port. */
  lemma PortsRefused(scheme: string, host: string, digits: string, rest: string)
    requires NoEarlierMark(scheme) && (forall c :: c in host ==> c !in "/?:") && AllDigits(digits)
    requires rest == [] || !('0' <= rest[0] <= '9')
    ensures var r := Parse(scheme + "://" + (host + (":" + digits + rest)));
            && (digits == [] ==> r == Err(InvalidArgument))
            && (Number(digits) > 65535 ==> r == Err(OutOfRange))
            && (digits != [] && Number(digits) <= 65535 && rest != [] && rest[0] !in "/?" ==> r == Err(InvalidArgument))
  {
    var start := NoParts.(scheme := ToLower(scheme));
    SchemeOfText(scheme, host + (":" + digits + rest));
    HostComesBack(start, host, ":" + digits + rest);
    AfterFirst(':', digits, rest);
    UptoIs(digits, rest, EndsPort);
  }

  /** Numbers are decimal. */
  lemma NumberIsDecimal(digits: string, d: char)
    requires AllDigits(digits) && '0' <= d <= '9'
    ensures Number(digits + [d]) == 10 * Number(digits) + (d as int - '0' as int)
  {
    assert (digits + [d])[..|digits|] == digits;
  }
}
