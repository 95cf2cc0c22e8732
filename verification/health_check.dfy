/**
 * Health-check tags (process/health/check.go): the tag a check is serialised
 * under, and the JSON decoder that reads `{"type": ..., "check": ...}` and
 * installs the check named by the tag. The checks themselves (probing a
 * process, a TCP port or an HTTP route) are not part of this model; only
 * their fields are.
 */
module HealthCheck {
  import opened Results
  import opened Json
  import AppConfig

  /** The three check implementations with their JSON fields; Unknown is any other implementation. */
  datatype CheckKind =
    | Process
    | Tcp(ipv4: bool)
    | Http(requestMethod: string, url: string)
    | Unknown(name: string)

  /** A check held in the HealthCheck interface, as a value or through a pointer. */
  datatype Check = Check(kind: CheckKind, byPointer: bool)

  /** SerializableHealthCheck: the tag and the check (None is a nil interface). */
  datatype Serializable = Serializable(tag: string, check: Option<Check>)

  function TagOf(kind: CheckKind): string {
    match kind
    case Process => "process"
    case Tcp(_) => "tcp"
    case Http(_, _) => "http"
    case Unknown(_) => ""
  }

  /**
   * GetTypeFromHealthCheck: the type switch lists the value types, so a check
   * held through a pointer is not recognised.
   */
  function GetTypeFromHealthCheck(c: Check): (r: Result<string, string>)
    ensures r.Ok? <==> !c.byPointer && !c.kind.Unknown?
  {
    if c.byPointer || c.kind.Unknown? then Err("did not recognize healthcheck type")
    else Ok(TagOf(c.kind))
  }

  /** Each value check maps to its own tag, and the three tags differ. */
  lemma TypeTags(c: Check, d: Check)
    requires GetTypeFromHealthCheck(c).Ok? && GetTypeFromHealthCheck(d).Ok?
    ensures GetTypeFromHealthCheck(c).value in {"process", "tcp", "http"}
    ensures GetTypeFromHealthCheck(c).value == GetTypeFromHealthCheck(d).value <==> c.kind.Process? == d.kind.Process? && c.kind.Tcp? == d.kind.Tcp?
  {
  }

  // ---------------------------------------------------------------------
  // Decoding

  /** The zero value of the check a tag names, or None for an unrecognised tag. */
  function ZeroOf(tag: string): (r: Option<CheckKind>)
    ensures r.Some? <==> tag == "process" || tag == "http" || tag == "tcp"
    ensures r.Some? ==> TagOf(r.value) == tag
  {
    if tag == "process" then Some(Process)
    else if tag == "http" then Some(Http("", ""))
    else if tag == "tcp" then Some(Tcp(false))
    else None
  }

  function StructName(kind: CheckKind): string {
    match kind
    case Process => "ProcessHealthCheck"
    case Tcp(_) => "TcpHealthCheck"
    case Http(_, _) => "HttpHealthCheck"
    case Unknown(name) => name
  }

  function FieldError(v: Json, structName: string, key: string, goType: string): string {
    "json: cannot unmarshal " + AppConfig.KindName(v) + " into Go struct field " + structName + "." + key + " of type " + goType
  }

  /** A string field: absent or null leaves the current value. */
  function StringMember(fields: map<string, Json>, key: string, current: string, structName: string): (r: Result<string, string>)
    ensures key !in fields ==> r == Ok(current)
  {
    if key !in fields then Ok(current)
    else match fields[key]
      case JNull => Ok(current)
      case JString(s) => Ok(s)
      case _ => Err(FieldError(fields[key], structName, key, "string"))
  }

  /**
   * json.Unmarshal of `src` into the check a tag installed: null changes
   * nothing, an object sets the fields it names, anything else is an error.
   */
  function DecodeInto(kind: CheckKind, src: Json): (r: Result<CheckKind, string>)
    ensures r.Ok? ==> TagOf(r.value) == TagOf(kind)
    ensures src.JNull? ==> r == Ok(kind)
  {
    if src.JNull? then Ok(kind)
    else if !src.JObject? then
      Err("json: cannot unmarshal " + AppConfig.KindName(src) + " into Go value of type health." + StructName(kind))
    else
      var fields := src.fields;
      match kind
      case Process => Ok(Process)
      case Unknown(_) => Ok(kind)
      case Tcp(ipv4) =>
        if "ipv4" !in fields || fields["ipv4"].JNull? then Ok(kind)
        else if fields["ipv4"].JBool? then Ok(Tcp(fields["ipv4"].b))
        else Err(FieldError(fields["ipv4"], "TcpHealthCheck", "ipv4", "bool"))
      case Http(requestMethod, url) =>
        var m := StringMember(fields, "method", requestMethod, "HttpHealthCheck");
        if m.Err? then Err(m.error)
        else
          var u := StringMember(fields, "url", url, "HttpHealthCheck");
          if u.Err? then Err(u.error)
          else Ok(Http(m.value, u.value))
  }

  /** The first decode, into `{Type string; Check json.RawMessage}`: the tag, or an error. */
  function ReadTag(data: Json): (r: Result<string, string>)
    ensures data.JNull? ==> r == Ok("")
    ensures data.JObject? && "type" !in data.fields ==> r == Ok("")
  {
    if data.JNull? then Ok("")
    else if !data.JObject? then
      Err("json: cannot unmarshal " + AppConfig.KindName(data) + " into Go value of type struct")
    else if "type" !in data.fields then Ok("")
    else match data.fields["type"]
      case JNull => Ok("")
      case JString(t) => Ok(t)
      case _ => Err(FieldError(data.fields["type"], "", "type", "string"))
  }

  /**
   * SerializableHealthCheck.UnmarshalJSON as written: after the tag installs
   * a check, the whole input, not its "check" member, is decoded into it.
   * The result is the receiver after the call and the error, if any.
   */
  function Unmarshal(data: Json, into: Serializable): (r: (Serializable, Option<string>))
  {
    UnmarshalFrom(data, into, data)
  }

  /** UnmarshalJSON decoding the "check" member into the installed check, as the struct's layout intends. */
  function UnmarshalFixed(data: Json, into: Serializable): (r: (Serializable, Option<string>))
  {
    if data.JObject? && "check" in data.fields then UnmarshalFrom(data, into, data.fields["check"])
    else if ReadTag(data).Err? || ZeroOf(ReadTag(data).value).None? then UnmarshalFrom(data, into, JNull)
    else
      var t := ReadTag(data).value;
      (into.(tag := t, check := Some(Check(ZeroOf(t).value, true))), Some("unexpected end of JSON input"))
  }

  /** The decoder's steps, with `src` the JSON the installed check is decoded from. */
  function UnmarshalFrom(data: Json, into: Serializable, src: Json): (r: (Serializable, Option<string>))
    ensures ReadTag(data).Err? ==> r == (into, Some(ReadTag(data).error))
    ensures ReadTag(data).Ok? ==> r.0.tag == ReadTag(data).value
    ensures ReadTag(data) == Ok("") ==> r.1 == Some("health check didn't have a type")
    ensures ReadTag(data).Ok? && ReadTag(data).value != "" && ZeroOf(ReadTag(data).value).None? ==>
      r.1 == Some("found unrecognized health check type: '" + ReadTag(data).value + "'")
    ensures ReadTag(data).Ok? && ZeroOf(ReadTag(data).value).None? ==> r.0.check == into.check
    ensures ReadTag(data).Ok? && ZeroOf(ReadTag(data).value).Some? ==>
      r.0.check.Some? && r.0.check.value.byPointer && TagOf(r.0.check.value.kind) == ReadTag(data).value
  {
    var t := ReadTag(data);
    if t.Err? then (into, Some(t.error))
    else
      var s1 := into.(tag := t.value);
      var zero := ZeroOf(t.value);
      if zero.None? then
        if t.value == "" then (s1, Some("health check didn't have a type"))
        else (s1, Some("found unrecognized health check type: '" + t.value + "'"))
      else
        var decoded := DecodeInto(zero.value, src);
        match decoded
        case Err(e) => (s1.(check := Some(Check(zero.value, true))), Some(e))
        case Ok(k) => (s1.(check := Some(Check(k, true))), None)
  }

  /** Only the three tags decode; an empty tag and any other tag are refused with their own messages. */
  lemma UnmarshalTags(data: Json, into: Serializable)
    requires ReadTag(data).Ok?
    ensures var t := ReadTag(data).value;
      Unmarshal(data, into).1.None? ==> t == "process" || t == "http" || t == "tcp"
  {
  }

  /**
   * A check the decoder installs is held through a pointer, which
   * GetTypeFromHealthCheck does not recognise: decoding never gives back a
   * check that can be tagged again.
   */
  lemma DecodedChecksHaveNoTag(data: Json, into: Serializable)
    requires Unmarshal(data, into).1.None?
    ensures Unmarshal(data, into).0.check.Some?
    ensures GetTypeFromHealthCheck(Unmarshal(data, into).0.check.value).Err?
  {
  }

  // ---------------------------------------------------------------------
  // The "check" member is ignored

  /** The JSON the default encoder writes for a tagged check. */
  function Encode(kind: CheckKind): (j: Json)
    requires !kind.Unknown?
    ensures j.JObject? && "type" in j.fields && "check" in j.fields
  {
    var body := match kind
      case Process => map[]
      case Tcp(ipv4) => map["ipv4" := JBool(ipv4)]
      case Http(requestMethod, url) => map["method" := JString(requestMethod), "url" := JString(url)]
      case Unknown(_) => map[];
    JObject(map["type" := JString(TagOf(kind)), "check" := JObject(body)])
  }

  /** As written, the "check" member has no influence on the decoded check. */
  lemma CheckMemberIgnored(fields: map<string, Json>, body: Json, into: Serializable)
    ensures Unmarshal(JObject(fields["check" := body]), into) == Unmarshal(JObject(fields["check" := JNull]), into)
  {
    var d1 := JObject(fields["check" := body]);
    var d2 := JObject(fields["check" := JNull]);
    assert ReadTag(d1) == ReadTag(d2);
    if ReadTag(d1).Ok? && ZeroOf(ReadTag(d1).value).Some? {
      var z := ZeroOf(ReadTag(d1).value).value;
      DecodeIgnoresCheckKey(z, fields, body);
    }
  }

  lemma DecodeIgnoresCheckKey(kind: CheckKind, fields: map<string, Json>, body: Json)
    ensures DecodeInto(kind, JObject(fields["check" := body])) == DecodeInto(kind, JObject(fields["check" := JNull]))
  {
    var f1 := fields["check" := body];
    var f2 := fields["check" := JNull];
    assert "ipv4" in f1 <==> "ipv4" in f2;
    assert "ipv4" in f1 ==> f1["ipv4"] == f2["ipv4"];
    assert StringMember(f1, "method", "", "HttpHealthCheck") == StringMember(f2, "method", "", "HttpHealthCheck");
  }

  /** An encoded TCP check over IPv4 decodes, as written, to a check over IPv6: its field is lost. */
  lemma TcpFieldLost(into: Serializable)
    ensures Unmarshal(Encode(Tcp(true)), into) == (into.(tag := "tcp", check := Some(Check(Tcp(false), true))), None)
  {
    var j := Encode(Tcp(true));
    assert ReadTag(j) == Ok("tcp");
    assert "ipv4" !in j.fields;
  }

  /** With the "check" member decoded, every encoded check comes back with its fields, behind a pointer. */
  lemma FixedRoundTrip(kind: CheckKind, into: Serializable)
    requires !kind.Unknown?
    ensures UnmarshalFixed(Encode(kind), into) == (into.(tag := TagOf(kind), check := Some(Check(kind, true))), None)
  {
    var j := Encode(kind);
    assert ReadTag(j) == Ok(TagOf(kind));
    assert ZeroOf(TagOf(kind)).Some?;
  }
}
