/**
 * The resolver plugin that remote apps compile with
 * (compile/plugins/resolverPlugin.go): which importers it accepts, how a bare
 * module specifier splits into the package name and the file inside the
 * package, and the versioned path it asks the app's host for.
 *
 * Reading files goes through `AppConfig.ReadFile`; its disk and HTTP reads,
 * and the JSON parse of package.json, are parameters.
 */
module ResolverPlugin {
  import opened Results
  import opened Strs
  import opened Splits
  import Urls
  import AppConfig

  /** Apps read from disk get no resolver plugin. */
  function HasResolver(configPath: Urls.Url): (r: bool)
  {
    configPath.scheme != "file"
  }

  /** Of the configurations LoadConfig accepts, exactly the ones served over https get the plugin. */
  lemma HasResolverIffHttps(configPath: string, projectPath: string)
    requires AppConfig.NormalizeConfigPath(configPath, projectPath).Ok?
    ensures var u := AppConfig.NormalizeConfigPath(configPath, projectPath).value;
      HasResolver(u) <==> u.scheme == "https"
  {
    var u0 := Urls.Parse(configPath).value;
    var a := AppConfig.Anchored(u0, projectPath);
    assert AppConfig.Finish(a).Ok?;
  }

  // ---------------------------------------------------------------------
  // The module specifier

  /** A specifier split into the package name (with its scope) and the path inside the package. */
  datatype Specifier = Specifier(name: string, source: string)

  /** The split, an empty first segment, or the index panic of a scope without a package name. */
  datatype SplitOutcome = Split(spec: Specifier) | EmptyName | ScopeIndexPanic

  predicate Scoped(first: string) {
    first != "" && first[0] == '@'
  }

  function SplitSpecifier(path: string): (r: SplitOutcome)
  {
    var pieces := Strs.Split(path, '/');
    var first := pieces[0];
    if first == "" then EmptyName
    else if Scoped(first) then
      if |pieces| < 2 then ScopeIndexPanic
      else Split(Specifier(first + "/" + pieces[1], Join(pieces[2..], '/')))
    else Split(Specifier(first, Join(pieces[1..], '/')))
  }

  /** The first segment of a path is empty exactly when the path is empty or starts with '/'. */
  lemma FirstPieceEmpty(path: string)
    ensures Strs.Split(path, '/')[0] == "" <==> path == "" || path[0] == '/'
  {
    var i := IndexChar(path, '/');
    if i > 0 {
      assert path[..i][0] == path[0];
    }
  }

  /** Splitting refuses exactly the specifiers that are empty or rooted. */
  lemma SplitEmptyIff(path: string)
    ensures SplitSpecifier(path).EmptyName? <==> path == "" || path[0] == '/'
  {
    FirstPieceEmpty(path);
  }

  /** A scoped specifier panics exactly when it has no '/'. */
  lemma SplitPanicIff(path: string)
    ensures SplitSpecifier(path).ScopeIndexPanic? <==> path != "" && path[0] == '@' && '/' !in path
  {
    var pieces := Strs.Split(path, '/');
    FirstPieceEmpty(path);
    var i := IndexChar(path, '/');
    if i < 0 {
      assert pieces == [path];
    } else {
      assert |pieces| >= 2;
      assert path[i] in path;
      if i > 0 { assert pieces[0][0] == path[0]; }
    }
  }

  /**
   * The name, followed by '/' and the source when there is more than the
   * name, gives back the specifier; the name has one segment, or two when it
   * is scoped.
   */
  lemma {:induction false} SplitRoundTrip(path: string)
    requires SplitSpecifier(path).Split?
    ensures var sp := SplitSpecifier(path).spec;
      (path == sp.name && sp.source == "") || path == sp.name + "/" + sp.source
    ensures var sp := SplitSpecifier(path).spec;
      if Scoped(sp.name) then CountSlashes(sp.name) == 1 else '/' !in sp.name
  {
    var pieces := Strs.Split(path, '/');
    JoinSplit(path, '/');
    var first := pieces[0];
    assert '/' !in first;
    if Scoped(first) {
      assert |pieces| >= 2;
      assert '/' !in pieces[1];
      JoinTwoHeads(pieces);
      CountSlashesPair(first, pieces[1]);
    } else if |pieces| == 1 {
      assert path == first;
    } else {
      assert Join(pieces, '/') == first + ['/'] + Join(pieces[1..], '/');
    }
  }

  function CountSlashes(s: string): nat {
    if s == "" then 0 else (if s[0] == '/' then 1 else 0) + CountSlashes(s[1..])
  }

  lemma {:induction false} CountSlashesNone(s: string)
    requires '/' !in s
    ensures CountSlashes(s) == 0
    decreases |s|
  {
    if s != "" {
      CountSlashesNone(s[1..]);
    }
  }

  lemma {:induction false} CountSlashesConcat(a: string, b: string)
    ensures CountSlashes(a + b) == CountSlashes(a) + CountSlashes(b)
    decreases |a|
  {
    if a != "" {
      assert (a + b)[1..] == a[1..] + b;
      CountSlashesConcat(a[1..], b);
    } else {
      assert a + b == b;
    }
  }

  lemma CountSlashesPair(a: string, b: string)
    requires '/' !in a && '/' !in b
    ensures CountSlashes(a + "/" + b) == 1
  {
    CountSlashesConcat(a + "/", b);
    CountSlashesConcat(a, "/");
    CountSlashesNone(a);
    CountSlashesNone(b);
  }

  /** Joined pieces start with the first two pieces, then the rest if there is any. */
  lemma JoinTwoHeads(pieces: seq<string>)
    requires |pieces| >= 2
    ensures var head := pieces[0] + ['/'] + pieces[1];
      (|pieces| == 2 && Join(pieces, '/') == head && Join(pieces[2..], '/') == "")
      || Join(pieces, '/') == head + ['/'] + Join(pieces[2..], '/')
  {
    var tail := pieces[1..];
    assert Join(pieces, '/') == pieces[0] + ['/'] + Join(tail, '/');
    if |pieces| > 2 {
      assert tail[1..] == pieces[2..];
      JoinCons(pieces[1], tail[1..]);
      assert Join(tail, '/') == pieces[1] + ['/'] + Join(pieces[2..], '/');
      Regroup(pieces[0], pieces[1], Join(pieces[2..], '/'));
    }
  }

  lemma JoinCons(a: string, rest: seq<string>)
    requires |rest| >= 1
    ensures Join([a] + rest, '/') == a + ['/'] + Join(rest, '/')
  {
    assert ([a] + rest)[1..] == rest;
  }

  lemma Regroup(a: string, b: string, c: string)
    ensures a + ['/'] + (b + ['/'] + c) == a + ['/'] + b + ['/'] + c
  {
  }

  /** A plain package name and any path inside it split back apart. */
  lemma SplitOfUnscoped(name: string, source: string)
    requires name != "" && name[0] != '@' && '/' !in name
    ensures SplitSpecifier(name) == Split(Specifier(name, ""))
    ensures SplitSpecifier(name + "/" + source) == Split(Specifier(name, source))
  {
    assert Strs.Split(name, '/') == [name];
    var p := name + "/" + source;
    assert p == name + ['/'] + source;
    SplitAfterHead(name, source);
    JoinSplit(source, '/');
  }

  /** Splitting "head/rest" for a slash-free head. */
  lemma SplitAfterHead(head: string, rest: string)
    requires '/' !in head
    ensures Strs.Split(head + "/" + rest, '/') == [head] + Strs.Split(rest, '/')
  {
    var p := head + "/" + rest;
    assert p[|head|] == '/';
    assert p[..|head|] == head;
    assert IndexChar(p, '/') == |head|;
    assert p[|head| + 1..] == rest;
  }

  /** A scoped package name and any path inside it split back apart. */
  lemma SplitOfScoped(scope: string, pkg: string, source: string)
    requires scope != "" && scope[0] == '@' && '/' !in scope && '/' !in pkg
    ensures SplitSpecifier(scope + "/" + pkg) == Split(Specifier(scope + "/" + pkg, ""))
    ensures SplitSpecifier(scope + "/" + pkg + "/" + source) == Split(Specifier(scope + "/" + pkg, source))
  {
    ScopedBarePieces(scope, pkg);
    ScopedPathPieces(scope, pkg, source);
    var pieces := Strs.Split(scope + "/" + pkg + "/" + source, '/');
    assert pieces[2..] == Strs.Split(source, '/');
    JoinSplit(source, '/');
  }

  lemma ScopedBarePieces(scope: string, pkg: string)
    requires '/' !in scope && '/' !in pkg
    ensures Strs.Split(scope + "/" + pkg, '/') == [scope, pkg]
  {
    SplitAfterHead(scope, pkg);
    assert Strs.Split(pkg, '/') == [pkg];
  }

  lemma ScopedPathPieces(scope: string, pkg: string, source: string)
    requires '/' !in scope && '/' !in pkg
    ensures Strs.Split(scope + "/" + pkg + "/" + source, '/') == [scope, pkg] + Strs.Split(source, '/')
  {
    var rest := pkg + "/" + source;
    Regroup5(scope, "/", pkg, "/", source);
    SplitAfterHead(scope, rest);
    SplitAfterHead(pkg, source);
    assert [scope] + ([pkg] + Strs.Split(source, '/')) == [scope, pkg] + Strs.Split(source, '/');
  }

  lemma Regroup5(a: string, b: string, c: string, d: string, e: string)
    ensures a + b + c + d + e == a + b + (c + d + e)
  {
  }

  // ---------------------------------------------------------------------
  // OnResolve

  /** The path a package file is requested under. */
  function RequestPath(name: string, version: string, source: string): string {
    "/" + name + "@" + version + "/" + source
  }

  /** A `Resolved` module always lands in the "http" namespace, so the namespace is not a field. */
  datatype ResolveOutcome =
    | Resolved(path: string, moduleName: string, version: string)
    | Rejected(error: string)
    | Panicked

  /** The importer check: it must parse, be https, and come from the app's host. */
  function CheckImporter(configHost: string, importer: string): (r: Option<string>)
  {
    var parsed := Urls.Parse(importer);
    if parsed.Err? then Some("expected source to be a valid URL: " + AppConfig.ParseError(importer, parsed.error))
    else if parsed.value.scheme != "https" then Some("expected source to be a valid URL: " + Urls.Format(parsed.value))
    else if parsed.value.host != configHost then
      Some("expected all app imports to come from the same host: " + Urls.Format(parsed.value))
    else None
  }

  /** An importer passes exactly when it parses to an https URL on the app's host. */
  lemma CheckImporterIff(configHost: string, importer: string)
    ensures CheckImporter(configHost, importer).None? <==>
      var parsed := Urls.Parse(importer);
      parsed.Ok? && parsed.value.scheme == "https" && parsed.value.host == configHost
  {
  }

  /** The part of OnResolve after the specifier is split: the version lookup and the request. */
  function Lookup(
    config: AppConfig.AppConfig, name: string, source: string,
    readLocal: string -> Result<string, string>,
    get: string -> Result<(string, string), string>,
    parseDeps: string -> Result<map<string, string>, string>): (r: ResolveOutcome)
  {
    var pkg := AppConfig.ReadFile(config, "package.json", readLocal, get);
    if pkg.Err? then Rejected(pkg.error)
    else
      var deps := parseDeps(pkg.value.1);
      if deps.Err? then Rejected("failed to unmarshal package.json file: " + deps.error)
      else if name !in deps.value then
        Rejected("cannot resolve module '" + name + "' (not found in package.json)")
      else
        var version := deps.value[name];
        var req := AppConfig.ReadFile(config, RequestPath(name, version, source), readLocal, get);
        if req.Err? then
          Rejected("failed to get module " + name + "@" + version + "/" + source + ": " + req.error)
        else if req.value.0.None? then Panicked
        else Resolved(Urls.Format(req.value.0.value), name, version)
  }

  /**
   * The plugin's OnResolve callback. Imports from the virtual toolkit count as
   * imports from the page's own source.
   */
  function OnResolve(
    config: AppConfig.AppConfig, fromToolkit: bool, pageSource: string, importer0: string, specifier: string,
    readLocal: string -> Result<string, string>,
    get: string -> Result<(string, string), string>,
    parseDeps: string -> Result<map<string, string>, string>): (r: ResolveOutcome)
  {
    var importer := if fromToolkit then pageSource else importer0;
    var bad := CheckImporter(config.configPath.host, importer);
    if bad.Some? then Rejected(bad.value)
    else
      var split := SplitSpecifier(specifier);
      if split.EmptyName? then Rejected("expected module name to be non-empty in: " + specifier)
      else if split.ScopeIndexPanic? then Panicked
      else Lookup(config, split.spec.name, split.spec.source, readLocal, get, parseDeps)
  }

  /** A resolved import came from an accepted importer and a specifier that splits. */
  lemma ResolvedAccepted(
    config: AppConfig.AppConfig, fromToolkit: bool, pageSource: string, importer0: string, specifier: string,
    readLocal: string -> Result<string, string>,
    get: string -> Result<(string, string), string>,
    parseDeps: string -> Result<map<string, string>, string>)
    ensures OnResolve(config, fromToolkit, pageSource, importer0, specifier, readLocal, get, parseDeps).Resolved? ==>
      && CheckImporter(config.configPath.host, if fromToolkit then pageSource else importer0).None?
      && SplitSpecifier(specifier).Split?
      && OnResolve(config, fromToolkit, pageSource, importer0, specifier, readLocal, get, parseDeps)
        == Lookup(config, SplitSpecifier(specifier).spec.name, SplitSpecifier(specifier).spec.source, readLocal, get, parseDeps)
  {
  }

  /**
   * A resolved lookup names a dependency of the app at the version
   * package.json gives, and is the file the host served for the versioned path.
   */
  lemma LookupResolved(
    config: AppConfig.AppConfig, name: string, source: string,
    readLocal: string -> Result<string, string>,
    get: string -> Result<(string, string), string>,
    parseDeps: string -> Result<map<string, string>, string>)
    ensures var r := Lookup(config, name, source, readLocal, get, parseDeps);
      var pkg := AppConfig.ReadFile(config, "package.json", readLocal, get);
      r.Resolved? ==>
        && r.moduleName == name
        && pkg.Ok? && parseDeps(pkg.value.1).Ok? && name in parseDeps(pkg.value.1).value
        && parseDeps(pkg.value.1).value[name] == r.version
    ensures var r := Lookup(config, name, source, readLocal, get, parseDeps);
      r.Resolved? ==>
        var req := AppConfig.ReadFile(config, RequestPath(name, r.version, source), readLocal, get);
        req.Ok? && req.value.0.Some? && r.path == Urls.Format(req.value.0.value)
  {
  }

  /** A module missing from package.json is refused, naming the module, without a second read. */
  lemma MissingDependency(
    config: AppConfig.AppConfig, importer: string, name: string, source: string,
    readLocal: string -> Result<string, string>,
    get: string -> Result<(string, string), string>,
    parseDeps: string -> Result<map<string, string>, string>)
    requires name != "" && name[0] != '@' && '/' !in name
    ensures var pkg := AppConfig.ReadFile(config, "package.json", readLocal, get);
      (CheckImporter(config.configPath.host, importer).None?
       && pkg.Ok? && parseDeps(pkg.value.1).Ok? && name !in parseDeps(pkg.value.1).value)
      ==>
        OnResolve(config, false, "", importer, name + "/" + source, readLocal, get, parseDeps)
          == Rejected("cannot resolve module '" + name + "' (not found in package.json)")
  {
    SplitOfUnscoped(name, source);
  }

  /** A known dependency is requested at "/name@version/source" on the app's host. */
  lemma VersionedRequest(
    config: AppConfig.AppConfig, importer: string, name: string, source: string,
    readLocal: string -> Result<string, string>,
    get: string -> Result<(string, string), string>,
    parseDeps: string -> Result<map<string, string>, string>)
    requires name != "" && name[0] != '@' && '/' !in name
    ensures var pkg := AppConfig.ReadFile(config, "package.json", readLocal, get);
      (CheckImporter(config.configPath.host, importer).None?
       && pkg.Ok? && parseDeps(pkg.value.1).Ok? && name in parseDeps(pkg.value.1).value)
      ==>
        var version := parseDeps(pkg.value.1).value[name];
        var req := AppConfig.ReadFile(config, RequestPath(name, version, source), readLocal, get);
        req.Ok? && req.value.0.Some? ==>
          OnResolve(config, false, "", importer, name + "/" + source, readLocal, get, parseDeps)
            == Resolved(Urls.Format(req.value.0.value), name, version)
  {
    SplitOfUnscoped(name, source);
  }
}
