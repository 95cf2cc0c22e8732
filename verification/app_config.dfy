/**
 * An app's robin.app.json (project/app_config.go): the daemon entry point,
 * which may be given per platform; the six fields that are serialised; where
 * the files an app names are fetched from; and how loading a config normalises
 * its location and checks its required fields.
 *
 * The platform ("GOOS/GOARCH"), the project path and every file, HTTP and JSON
 * text read are parameters.
 */
module AppConfig {
  import opened Results
  import opened Strs
  import opened Json
  import GoPath
  import Urls

  // ---------------------------------------------------------------------
  // Go's []string in encoding/json

  /** One element of a []string: a string, or null, which leaves the element "". */
  function StringElem(j: Json): (r: Option<string>)
    ensures r.Some? <==> j.JString? || j.JNull?
  {
    match j
    case JString(s) => Some(s)
    case JNull => Some("")
    case _ => None
  }

  predicate AllStringElems(items: seq<Json>) {
    forall i :: 0 <= i < |items| ==> StringElem(items[i]).Some?
  }

  /** A JSON value read into a Go []string: null is the nil slice, an array must hold strings or nulls. */
  function StringList(j: Json): (r: Option<seq<string>>)
    ensures r.Some? <==> j.JNull? || (j.JArray? && AllStringElems(j.items))
    ensures r.Some? && j.JArray? ==> |r.value| == |j.items|
    ensures r.Some? && j.JArray? ==> forall i :: 0 <= i < |j.items| ==> StringElem(j.items[i]) == Some(r.value[i])
  {
    match j
    case JNull => Some([])
    case JArray(items) =>
      if AllStringElems(items) then Some(seq(|items|, i requires 0 <= i < |items| && AllStringElems(items) => StringElem(items[i]).value))
      else None
    case _ => None
  }

  /** A []string as encoding/json writes it. */
  function EncodeList(ss: seq<string>): (r: Json)
    ensures r.JArray? && |r.items| == |ss|
    ensures forall i :: 0 <= i < |ss| ==> r.items[i] == JString(ss[i])
  {
    JArray(seq(|ss|, i requires 0 <= i < |ss| => JString(ss[i])))
  }

  /** Reading back a written list gives the list. */
  lemma StringListEncode(ss: seq<string>)
    ensures StringList(EncodeList(ss)) == Some(ss)
  {
    var j := EncodeList(ss);
    assert AllStringElems(j.items) by {
      forall i | 0 <= i < |j.items|
        ensures StringElem(j.items[i]).Some?
      {
        assert j.items[i] == JString(ss[i]);
      }
    }
    var r := StringList(j).value;
    assert |r| == |ss|;
    forall i | 0 <= i < |ss|
      ensures r[i] == ss[i]
    {
      assert StringElem(j.items[i]) == Some(r[i]);
      assert j.items[i] == JString(ss[i]);
    }
    assert r == ss;
  }

  // ---------------------------------------------------------------------
  // serializableDaemonEntrypoint.UnmarshalJSON

  function NoPlatformEntry(platform: string): string {
    "daemon map does not contain an entry for the current platform '" + platform + "'"
  }

  const BadEntrypoint := "failed to unmarshal daemon entrypoint (expected either a string array or a map)"

  /** Whether a JSON value reads into a Go map[string][]string. */
  predicate IsListMap(j: Json) {
    j.JObject? && forall k :: k in j.fields ==> StringList(j.fields[k]).Some?
  }

  /** The daemon entry point: a string list as it is, or the non-nil list a map gives for this platform. */
  function DecodeDaemon(j: Json, platform: string): (r: Result<seq<string>, string>)
  {
    var list := StringList(j);
    if list.Some? then Ok(list.value)
    else if IsListMap(j) then
      if platform !in j.fields || j.fields[platform].JNull? then Err(NoPlatformEntry(platform))
      else Ok(StringList(j.fields[platform]).value)
    else Err(BadEntrypoint)
  }

  /** A string array is taken as it is, whatever the platform. */
  lemma DaemonArray(ss: seq<string>, platform: string)
    ensures DecodeDaemon(EncodeList(ss), platform) == Ok(ss)
  {
    StringListEncode(ss);
  }

  /** A map gives the list under this platform's key. */
  lemma DaemonMapEntry(m: map<string, seq<string>>, platform: string)
    requires platform in m
    ensures DecodeDaemon(JObject(map k | k in m :: EncodeList(m[k])), platform) == Ok(m[platform])
  {
    var j := JObject(map k | k in m :: EncodeList(m[k]));
    forall k | k in j.fields
      ensures StringList(j.fields[k]).Some?
    {
      StringListEncode(m[k]);
    }
    StringListEncode(m[platform]);
  }

  /** A map without a non-null entry for this platform is refused, naming the platform. */
  lemma DaemonMapMissing(j: Json, platform: string)
    requires IsListMap(j)
    requires platform !in j.fields || j.fields[platform].JNull?
    ensures DecodeDaemon(j, platform) == Err(NoPlatformEntry(platform))
  {
  }

  /** The decoder only succeeds on a string list or a map of string lists. */
  lemma DaemonShapes(j: Json, platform: string)
    ensures DecodeDaemon(j, platform).Ok? ==> StringList(j).Some? || IsListMap(j)
    ensures !j.JNull? && !j.JArray? && !j.JObject? ==> DecodeDaemon(j, platform) == Err(BadEntrypoint)
  {
  }

  // ---------------------------------------------------------------------
  // RobinAppConfig and its JSON form

  datatype AppConfig = AppConfig(
    configPath: Urls.Url,
    id: string,
    name: string,
    pageIcon: string,
    page: string,
    files: seq<string>,
    daemon: seq<string>)

  /** A config read from `configPath` before any field is decoded. */
  function Blank(configPath: Urls.Url): AppConfig {
    AppConfig(configPath, "", "", "", "", [], [])
  }

  /** RobinAppConfig.MarshalJSON: the six fields under their JSON names; the config path is not written. */
  function Marshal(c: AppConfig): (r: Json)
    ensures r.JObject?
  {
    JObject(map[
      "id" := JString(c.id),
      "name" := JString(c.name),
      "pageIcon" := JString(c.pageIcon),
      "page" := JString(c.page),
      "files" := EncodeList(c.files),
      "daemon" := EncodeList(c.daemon)])
  }

  /** A string field: absent and null leave "", anything but a string is a type error. */
  function StringField(j: Json, key: string): (r: Option<string>)
    requires j.JObject?
    ensures key !in j.fields ==> r == Some("")
  {
    if key in j.fields then StringElem(j.fields[key]) else Some("")
  }

  function ListField(j: Json, key: string): (r: Option<seq<string>>)
    requires j.JObject?
    ensures key !in j.fields ==> r == Some([])
  {
    if key in j.fields then StringList(j.fields[key]) else Some([])
  }

  function TypeError(key: string): string {
    "json: cannot unmarshal into Go struct field serializableRobinAppConfig." + key
  }

  /** The name JSON gives to the kind of a value, as encoding/json's errors print it. */
  function KindName(j: Json): string {
    match j
    case JNull => "null"
    case JBool(_) => "bool"
    case JNumber(_) => "number"
    case JString(_) => "string"
    case JArray(_) => "array"
    case JObject(_) => "object"
  }

  /**
   * RobinAppConfig.UnmarshalJSON: the six fields are read into a fresh
   * serializable config and copied over; the config path is left alone. A
   * daemon error wins over type errors, as encoding/json returns it at once.
   */
  function Unmarshal(c: AppConfig, j: Json, platform: string): (r: Result<AppConfig, string>)
    ensures r.Ok? ==> r.value.configPath == c.configPath
    ensures j.JNull? ==> r == Ok(Blank(c.configPath))
  {
    if j.JNull? then Ok(Blank(c.configPath))
    else if !j.JObject? then
      Err("json: cannot unmarshal " + KindName(j) + " into Go value of type project.serializableRobinAppConfig")
    else
      var daemon := if "daemon" in j.fields then DecodeDaemon(j.fields["daemon"], platform) else Ok([]);
      var id := StringField(j, "id");
      var name := StringField(j, "name");
      var pageIcon := StringField(j, "pageIcon");
      var page := StringField(j, "page");
      var files := ListField(j, "files");
      if daemon.Err? then Err(daemon.error)
      else if id.None? then Err(TypeError("id"))
      else if name.None? then Err(TypeError("name"))
      else if pageIcon.None? then Err(TypeError("pageIcon"))
      else if page.None? then Err(TypeError("page"))
      else if files.None? then Err(TypeError("files"))
      else Ok(AppConfig(c.configPath, id.value, name.value, pageIcon.value, page.value, files.value, daemon.value))
  }

  /** Whatever config receives it, a marshalled config reads back to the same six fields. */
  lemma UnmarshalMarshal(into: AppConfig, c: AppConfig, platform: string)
    ensures Unmarshal(into, Marshal(c), platform) == Ok(c.(configPath := into.configPath))
  {
    MarshalStrings(c);
    MarshalLists(c);
    DaemonArray(c.daemon, platform);
    StringListEncode(c.files);
  }

  /** The four string fields of a marshalled config, each under its own key. */
  lemma MarshalStrings(c: AppConfig)
    ensures var j := Marshal(c);
      && StringField(j, "id") == Some(c.id) && StringField(j, "name") == Some(c.name)
      && StringField(j, "pageIcon") == Some(c.pageIcon) && StringField(j, "page") == Some(c.page)
  {
  }

  /** The two list fields of a marshalled config, each under its own key. */
  lemma MarshalLists(c: AppConfig)
    ensures var j := Marshal(c);
      && "daemon" in j.fields && j.fields["daemon"] == EncodeList(c.daemon)
      && "files" in j.fields && j.fields["files"] == EncodeList(c.files)
  {
  }

  /** Marshalling a read-back config gives the same JSON: the fields written are the fields read. */
  lemma MarshalUnmarshal(into: AppConfig, c: AppConfig, platform: string)
    ensures Unmarshal(into, Marshal(c), platform).Ok?
    ensures Marshal(Unmarshal(into, Marshal(c), platform).value) == Marshal(c)
  {
    UnmarshalMarshal(into, c, platform);
  }

  // ---------------------------------------------------------------------
  // resolvePath and ReadFile

  /** RobinAppConfig.resolvePath: where a path an app names is read from. */
  function ResolveFile(c: AppConfig, filePath: string): (r: Urls.Url)
  {
    var parsed := Urls.Parse(filePath);
    if parsed.Ok? && parsed.value.scheme != "" then parsed.value
    else if GoPath.IsAbs(filePath) then Urls.ResolveReference(c.configPath, filePath)
    else Urls.ResolveReference(c.configPath, GoPath.Join([GoPath.Dir(c.configPath.path), filePath]))
  }

  /** A path that parses with a scheme is taken as it parses. */
  lemma ResolveFileWithScheme(c: AppConfig, filePath: string)
    ensures Urls.Parse(filePath).Ok? && Urls.Parse(filePath).value.scheme != "" ==>
      ResolveFile(c, filePath) == Urls.Parse(filePath).value
  {
  }

  predicate AllPlain(ps: seq<string>) {
    forall i :: 0 <= i < |ps| ==> GoPath.Plain(ps[i])
  }

  /** An absolute path is read from the config's host, at exactly that path. */
  lemma ResolveFileRooted(c: AppConfig, ps: seq<string>)
    requires |ps| >= 1 && AllPlain(ps)
    ensures var r := ResolveFile(c, ['/'] + Join(ps, '/'));
      && r.scheme == c.configPath.scheme && r.host == c.configPath.host && r.user == c.configPath.user
      && r.path == ['/'] + Join(ps, '/') && r.rawQuery == "" && r.fragment == ""
  {
    var f := ['/'] + Join(ps, '/');
    Urls.ParseNoScheme(f);
    Urls.ResolveRootedPlain(c.configPath.path, ps);
  }

  lemma {:induction false} AppendPlain(d: seq<string>, ps: seq<string>)
    requires AllPlain(d) && AllPlain(ps)
    ensures AllPlain(d + ps)
  {
    forall i | 0 <= i < |d + ps|
      ensures GoPath.Plain((d + ps)[i])
    {
      if i < |d| {
        assert (d + ps)[i] == d[i];
      } else {
        assert (d + ps)[i] == ps[i - |d|];
      }
    }
  }

  /** A relative path is read next to the config file: it replaces the config's file name. */
  lemma ResolveFileRelative(c: AppConfig, d: seq<string>, file: string, ps: seq<string>)
    requires GoPath.Plain(file) && AllPlain(d)
    requires c.configPath.path == ['/'] + Join(d + [file], '/')
    requires |ps| >= 1 && AllPlain(ps) && ':' !in Join(ps, '/')
    ensures var r := ResolveFile(c, Join(ps, '/'));
      && r.scheme == c.configPath.scheme && r.host == c.configPath.host && r.user == c.configPath.user
      && r.path == ['/'] + Join(d + ps, '/') && r.rawQuery == "" && r.fragment == ""
  {
    var f := Join(ps, '/');
    Urls.ParseNoScheme(f);
    Urls.JoinPlainHead(ps);
    GoPath.DirOfRootedPlain(d, file);
    GoPath.JoinRootedPlain(d, ps);
    AppendPlain(d, ps);
    Urls.ResolveRootedPlain(c.configPath.path, d + ps);
  }

  /** RobinAppConfig.ReadFile: a file-scheme URL is read from disk, any other through the HTTP cache. */
  function ReadFile(
    c: AppConfig, target: string,
    readLocal: string -> Result<string, string>,
    get: string -> Result<(string, string), string>): (r: Result<(Option<Urls.Url>, string), string>)
  {
    var u := ResolveFile(c, target);
    if u.scheme == "file" then
      var b := readLocal(u.path);
      if b.Err? then Err("failed to read file '" + target + "': " + b.error) else Ok((Some(u), b.value))
    else
      var res := get(Urls.Format(u));
      if res.Err? then Err("failed to read file '" + target + "': " + res.error)
      else
        var last := Urls.Parse(res.value.0);
        Ok((if last.Ok? then Some(last.value) else None, res.value.1))
  }

  /** A file-scheme read never touches the network, and any other read never touches the disk. */
  lemma ReadFileSource(
    c: AppConfig, target: string,
    readLocal: string -> Result<string, string>, readLocal2: string -> Result<string, string>,
    get: string -> Result<(string, string), string>, get2: string -> Result<(string, string), string>)
    ensures ResolveFile(c, target).scheme == "file" ==> ReadFile(c, target, readLocal, get) == ReadFile(c, target, readLocal, get2)
    ensures ResolveFile(c, target).scheme != "file" ==> ReadFile(c, target, readLocal, get) == ReadFile(c, target, readLocal2, get)
  {
  }

  /** A failed read names the requested path; a successful one hands back the body unchanged. */
  lemma ReadFileResult(
    c: AppConfig, target: string,
    readLocal: string -> Result<string, string>,
    get: string -> Result<(string, string), string>)
    ensures var u := ResolveFile(c, target);
      var r := ReadFile(c, target, readLocal, get);
      && (u.scheme == "file" ==> r.Ok? == readLocal(u.path).Ok?)
      && (u.scheme == "file" && r.Ok? ==> r.value == (Some(u), readLocal(u.path).value))
      && (u.scheme != "file" ==> r.Ok? == get(Urls.Format(u)).Ok?)
      && (u.scheme != "file" && r.Ok? ==> r.value.1 == get(Urls.Format(u)).value.1)
      && (r.Err? ==> HasPrefix(r.error, "failed to read file '" + target + "': "))
  {
  }

  // ---------------------------------------------------------------------
  // readRobinAppConfig

  const ConfigFile := "robin.app.json"

  /** How url.Error prints a failed parse. */
  function ParseError(raw: string, msg: string): string {
    "parse \"" + raw + "\": " + msg
  }

  /** The scheme defaults to "file", and a relative file path is anchored at the project. */
  function Anchored(u0: Urls.Url, projectPath: string): (r: Urls.Url)
    ensures r.scheme == (if u0.scheme == "" then "file" else u0.scheme)
    ensures r == u0.(scheme := r.scheme, path := r.path)
    ensures GoPath.IsAbs(u0.path) ==> r.path == u0.path
  {
    var u1 := if u0.scheme == "" then u0.(scheme := "file") else u0;
    if u1.scheme == "file" && !GoPath.IsAbs(u1.path) then
      u1.(path := GoPath.Clean(GoPath.Join([projectPath, u1.path])))
    else u1
  }

  /** Only file and https are allowed, and the path is made to end in robin.app.json. */
  function Finish(u: Urls.Url): (r: Result<Urls.Url, string>)
    ensures r.Ok? <==> u.scheme == "file" || u.scheme == "https"
    ensures r.Ok? ==> r.value == u.(path := r.value.path)
  {
    if u.scheme != "file" && u.scheme != "https" then
      Err("invalid config path scheme '" + u.scheme + "' (only file and https are supported)")
    else if GoPath.Base(u.path) != ConfigFile then Ok(Urls.JoinPath(u, ConfigFile))
    else Ok(u)
  }

  /** The config location as readRobinAppConfig normalises it before reading. */
  function NormalizeConfigPath(configPath: string, projectPath: string): (r: Result<Urls.Url, string>)
  {
    var parsed := Urls.Parse(configPath);
    if parsed.Err? then
      Err("failed to parse config path '" + configPath + "': " + ParseError(configPath, parsed.error))
    else Finish(Anchored(parsed.value, projectPath))
  }

  /** A finished location's last path element is robin.app.json. */
  lemma FinishBase(u: Urls.Url)
    requires Finish(u).Ok?
    ensures GoPath.Base(Finish(u).value.path) == ConfigFile
  {
    assert GoPath.Plain(ConfigFile);
    Urls.JoinPathBase(u, ConfigFile);
  }

  /** A path already ending in robin.app.json is kept as it is. */
  lemma FinishKeeps(u: Urls.Url)
    requires u.scheme == "file" || u.scheme == "https"
    requires GoPath.Base(u.path) == ConfigFile
    ensures Finish(u) == Ok(u)
  {
  }

  /** A normalised location is a file or https URL whose last path element is robin.app.json. */
  lemma NormalizedShape(configPath: string, projectPath: string)
    requires NormalizeConfigPath(configPath, projectPath).Ok?
    ensures var u := NormalizeConfigPath(configPath, projectPath).value;
      (u.scheme == "file" || u.scheme == "https") && GoPath.Base(u.path) == ConfigFile
  {
    FinishBase(Anchored(Urls.Parse(configPath).value, projectPath));
  }

  /** Only the file and https schemes get through; a text without scheme counts as a file. */
  lemma NormalizedSchemes(configPath: string, projectPath: string)
    requires Urls.Parse(configPath).Ok?
    ensures var s := Urls.Parse(configPath).value.scheme;
      NormalizeConfigPath(configPath, projectPath).Ok? <==> s == "" || s == "file" || s == "https"
  {
  }

  /** From an absolute project path, a file config always lands on an absolute path. */
  lemma AnchoredIsAbsolute(u0: Urls.Url, projectPath: string)
    requires GoPath.IsAbs(projectPath)
    requires Anchored(u0, projectPath).scheme == "file"
    ensures GoPath.IsAbs(Anchored(u0, projectPath).path)
  {
    var p := u0.path;
    if !GoPath.IsAbs(p) {
      GoPath.JoinPair(projectPath, p);
      GoPath.CleanRooted(projectPath + "/" + p);
      GoPath.CleanRooted(GoPath.Join([projectPath, p]));
    }
  }

  /** Appending robin.app.json keeps an absolute path absolute. */
  lemma FinishIsAbsolute(u: Urls.Url)
    requires GoPath.IsAbs(u.path) && Finish(u).Ok?
    ensures GoPath.IsAbs(Finish(u).value.path)
  {
    assert HasPrefix(u.path, "/");
    GoPath.JoinPair(u.path, ConfigFile);
    GoPath.CleanRooted(u.path + "/" + ConfigFile);
  }

  /** From an absolute project path, a file config always lands on an absolute path. */
  lemma NormalizedFileIsAbsolute(configPath: string, projectPath: string)
    requires GoPath.IsAbs(projectPath)
    requires NormalizeConfigPath(configPath, projectPath).Ok?
    requires NormalizeConfigPath(configPath, projectPath).value.scheme == "file"
    ensures GoPath.IsAbs(NormalizeConfigPath(configPath, projectPath).value.path)
  {
    var a := Anchored(Urls.Parse(configPath).value, projectPath);
    AnchoredIsAbsolute(Urls.Parse(configPath).value, projectPath);
    FinishIsAbsolute(a);
  }

  /** The first missing required field, checked in the order id, page, pageIcon, name. */
  function Validate(c: AppConfig): (r: Option<string>)
  {
    if c.id == "" then Some("'id' is required")
    else if c.page == "" then Some("'page' is required")
    else if c.pageIcon == "" then Some("'pageIcon' is required")
    else if c.name == "" then Some("'name' is required")
    else None
  }

  /** A config passes exactly when the four required fields are all non-empty. */
  lemma ValidateIff(c: AppConfig)
    ensures Validate(c).None? <==> c.id != "" && c.page != "" && c.pageIcon != "" && c.name != ""
  {
  }

  /** Each error names the first empty field in check order. */
  lemma ValidateFirst(c: AppConfig)
    ensures Validate(c) == Some("'id' is required") <==> c.id == ""
    ensures Validate(c) == Some("'page' is required") <==> c.id != "" && c.page == ""
    ensures Validate(c) == Some("'pageIcon' is required") <==> c.id != "" && c.page != "" && c.pageIcon == ""
    ensures Validate(c) == Some("'name' is required") <==> c.id != "" && c.page != "" && c.pageIcon != "" && c.name == ""
  {
  }

  datatype LoadOutcome = Loaded(config: AppConfig) | LoadFailed(error: string) | LoadPanicked

  /** Reading and parsing the file at a normalised location. */
  function ReadConfigJson(
    u: Urls.Url, readLocal: string -> Result<string, string>, fetch: Urls.Url -> Result<string, string>,
    decode: string -> Result<Json, string>): (r: Result<Json, string>)
    ensures r.Err? ==> HasPrefix(r.error, "failed to read robin.app.json: ") || HasPrefix(r.error, "failed to parse robin.app.json: ")
  {
    var buf := if u.scheme == "file" then readLocal(u.path) else fetch(u);
    if buf.Err? then Err("failed to read robin.app.json: " + buf.error)
    else
      var j := decode(buf.value);
      if j.Err? then Err("failed to parse robin.app.json: " + j.error) else Ok(j.value)
  }

  /**
   * The decoding step as written. JSON null, decoded through the
   * `**RobinAppConfig` that `json.Unmarshal(buf, &appConfig)` receives, sets
   * the receiver pointer to nil, so the required-field check dereferences nil.
   */
  function LoadFrom(u: Urls.Url, j: Json, platform: string): (r: LoadOutcome)
  {
    if j.JNull? then LoadPanicked
    else LoadFromFixed(u, j, platform)
  }

  /** The decoding step with JSON null read as a config without fields. */
  function LoadFromFixed(u: Urls.Url, j: Json, platform: string): (r: LoadOutcome)
  {
    var c := Unmarshal(Blank(u), j, platform);
    if c.Err? then LoadFailed("failed to parse robin.app.json: " + c.error)
    else
      var v := Validate(c.value);
      if v.Some? then LoadFailed(v.value) else Loaded(c.value)
  }

  /** readRobinAppConfig as written. */
  function LoadConfig(
    configPath: string, projectPath: Result<string, string>,
    readLocal: string -> Result<string, string>, fetch: Urls.Url -> Result<string, string>,
    decode: string -> Result<Json, string>, platform: string): (r: LoadOutcome)
  {
    if projectPath.Err? then LoadFailed("failed to get project path: " + projectPath.error)
    else
      var u := NormalizeConfigPath(configPath, projectPath.value);
      if u.Err? then LoadFailed(u.error)
      else
        var j := ReadConfigJson(u.value, readLocal, fetch, decode);
        if j.Err? then LoadFailed(j.error) else LoadFrom(u.value, j.value, platform)
  }

  /** readRobinAppConfig with JSON null read as a config without fields. */
  function LoadConfigFixed(
    configPath: string, projectPath: Result<string, string>,
    readLocal: string -> Result<string, string>, fetch: Urls.Url -> Result<string, string>,
    decode: string -> Result<Json, string>, platform: string): (r: LoadOutcome)
  {
    if projectPath.Err? then LoadFailed("failed to get project path: " + projectPath.error)
    else
      var u := NormalizeConfigPath(configPath, projectPath.value);
      if u.Err? then LoadFailed(u.error)
      else
        var j := ReadConfigJson(u.value, readLocal, fetch, decode);
        if j.Err? then LoadFailed(j.error) else LoadFromFixed(u.value, j.value, platform)
  }

  /** A robin.app.json holding `null` panics instead of reporting a missing id. */
  lemma NullConfigPanics(
    configPath: string, projectPath: string,
    readLocal: string -> Result<string, string>, fetch: Urls.Url -> Result<string, string>,
    decode: string -> Result<Json, string>, platform: string)
    ensures NormalizeConfigPath(configPath, projectPath).Ok?
      && ReadConfigJson(NormalizeConfigPath(configPath, projectPath).value, readLocal, fetch, decode) == Ok(JNull)
      ==> LoadConfig(configPath, Ok(projectPath), readLocal, fetch, decode, platform) == LoadPanicked
  {
  }

  /** A config that decodes is checked: loaded means valid, and located where normalisation put it. */
  lemma LoadFromFixedSound(u: Urls.Url, j: Json, platform: string)
    ensures !LoadFromFixed(u, j, platform).LoadPanicked?
    ensures LoadFromFixed(u, j, platform).Loaded? ==>
      Validate(LoadFromFixed(u, j, platform).config).None? && LoadFromFixed(u, j, platform).config.configPath == u
  {
  }

  /** The corrected loader never panics, and a loaded config is valid and located by the normalised path. */
  lemma LoadConfigFixedSound(
    configPath: string, projectPath: Result<string, string>,
    readLocal: string -> Result<string, string>, fetch: Urls.Url -> Result<string, string>,
    decode: string -> Result<Json, string>, platform: string)
    ensures var r := LoadConfigFixed(configPath, projectPath, readLocal, fetch, decode, platform);
      && !r.LoadPanicked?
      && (r.Loaded? ==>
            projectPath.Ok? && Validate(r.config).None?
            && NormalizeConfigPath(configPath, projectPath.value) == Ok(r.config.configPath))
  {
    if projectPath.Ok? {
      var u := NormalizeConfigPath(configPath, projectPath.value);
      if u.Ok? {
        var j := ReadConfigJson(u.value, readLocal, fetch, decode);
        if j.Ok? {
          LoadFromFixedSound(u.value, j.value, platform);
        }
      }
    }
  }

  /** With the corrected loader, a `null` config reports the first required field. */
  lemma NullConfigFixed(u: Urls.Url, platform: string)
    ensures LoadFromFixed(u, JNull, platform) == LoadFailed("'id' is required")
  {
  }

  /** Apart from `null`, the corrected loader behaves as the source does. */
  lemma LoadConfigAgrees(
    configPath: string, projectPath: Result<string, string>,
    readLocal: string -> Result<string, string>, fetch: Urls.Url -> Result<string, string>,
    decode: string -> Result<Json, string>, platform: string)
    ensures !LoadConfig(configPath, projectPath, readLocal, fetch, decode, platform).LoadPanicked? ==>
      LoadConfigFixed(configPath, projectPath, readLocal, fetch, decode, platform)
        == LoadConfig(configPath, projectPath, readLocal, fetch, decode, platform)
  {
  }
}
