/**
 * Locating the project root (config/project_path.go): the directory that
 * holds a robin.json that is not a directory, found by walking up from the working
 * directory, or given explicitly. The file system is a map from paths to what
 * `os.Stat` reports about them; the working directory and the PROJECT_PATH
 * environment variable are parameters.
 */
module ProjectPath {
  import opened Results
  import opened Strs
  import GoPath

  /**
   * What os.Stat reports for a path that is present; an absent path is
   * IsNotExist. NonDirectory is any entry whose FileInfo says !IsDir(): a
   * regular file, a device, a socket.
   */
  datatype Entry = NonDirectory | Directory | StatFails

  type FileSystem = map<string, Entry>

  const ProjectFile := "robin.json"

  /**
   * fileExists as written: a stat error other than IsNotExist leaves `info`
   * nil and `info.IsDir()` panics; None stands for that panic.
   */
  function FileExists(fs: FileSystem, name: string): (r: Option<bool>)
    ensures r == Some(true) <==> name in fs && fs[name] == NonDirectory
    ensures r.None? <==> name in fs && fs[name] == StatFails
  {
    if name !in fs then Some(false)
    else match fs[name]
      case StatFails => None
      case Directory => Some(false)
      case NonDirectory => Some(true)
  }

  /** fileExists as its name promises: a path that cannot be stat'ed is not a file. */
  function FileExistsFixed(fs: FileSystem, name: string): (r: bool)
    ensures r <==> name in fs && fs[name] == NonDirectory
  {
    name in fs && fs[name] == NonDirectory
  }

  /** A path that cannot be stat'ed makes fileExists panic, where the intended answer is false. */
  lemma StatFailurePanics(fs: FileSystem, name: string)
    requires name in fs && fs[name] == StatFails
    ensures FileExists(fs, name).None?
    ensures !FileExistsFixed(fs, name)
  {
  }

  /** Wherever fileExists answers, it agrees with the corrected check. */
  lemma FileExistsAgrees(fs: FileSystem, name: string)
    requires FileExists(fs, name).Some?
    ensures FileExists(fs, name).value == FileExistsFixed(fs, name)
  {
  }

  /** Whether `dir` holds a robin.json that is not a directory: the answer fileExists means to give. */
  predicate HasProjectFile(fs: FileSystem, dir: string) {
    FileExistsFixed(fs, GoPath.Join([dir, ProjectFile]))
  }

  /** fileExists on `dir`'s robin.json, as written: None is its panic. */
  function Probe(fs: FileSystem, dir: string): (r: Option<bool>)
    ensures r == Some(true) <==> HasProjectFile(fs, dir)
    ensures r.None? <==> GoPath.Join([dir, ProjectFile]) in fs && fs[GoPath.Join([dir, ProjectFile])] == StatFails
  {
    FileExists(fs, GoPath.Join([dir, ProjectFile]))
  }

  /** A directory named robin.json does not make its parent a project. */
  lemma DirectoryDoesNotCount(fs: FileSystem, dir: string)
    requires GoPath.Join([dir, ProjectFile]) in fs && fs[GoPath.Join([dir, ProjectFile])] == Directory
    ensures !HasProjectFile(fs, dir)
    ensures Probe(fs, dir) == Some(false)
  {
  }

  // ---------------------------------------------------------------------
  // The upward search

  /** The directories findProjectPath checks from `dir`: `dir`, then each Dir above it, stopping before "/". */
  function Ancestors(dir: string): (r: seq<string>)
    requires GoPath.IsAbs(dir)
    ensures forall i :: 0 <= i < |r| ==> r[i] != "/" && GoPath.IsAbs(r[i])
    ensures dir == "/" <==> r == []
    ensures r != [] ==> r[0] == dir
    decreases |dir|
  {
    if dir == "/" then []
    else
      GoPath.DirShortens(dir);
      [dir] + Ancestors(GoPath.Dir(dir))
  }

  /**
   * The search's failures: the not-found error listing every directory it
   * checked, nearest first; any other error's message; and the panic of
   * fileExists on `file`, which is no error value but ends the call.
   */
  datatype PathError = NotFound(visited: seq<string>) | Failure(message: string) | StatPanic(file: string)

  /** The index of the first directory in `dirs` where fileExists does not answer false: it holds robin.json or it panics. */
  function FirstStop(fs: FileSystem, dirs: seq<string>): (r: Option<nat>)
    ensures r.Some? ==> r.value < |dirs| && Probe(fs, dirs[r.value]) != Some(false)
    ensures r.Some? ==> forall j :: 0 <= j < r.value ==> Probe(fs, dirs[j]) == Some(false)
    ensures r.None? <==> forall j :: 0 <= j < |dirs| ==> Probe(fs, dirs[j]) == Some(false)
  {
    if dirs == [] then None
    else if Probe(fs, dirs[0]) != Some(false) then Some(0)
    else match FirstStop(fs, dirs[1..])
      case None => None
      case Some(i) => Some(i + 1)
  }

  /** Where the search stops at `dir`: the project, or the panic on its robin.json. */
  function StopAt(fs: FileSystem, dir: string): Result<string, PathError> {
    if HasProjectFile(fs, dir) then Ok(dir) else Err(StatPanic(GoPath.Join([dir, ProjectFile])))
  }

  /**
   * findProjectPath from an absolute directory. "/" itself is never checked;
   * the error lists the directories checked after those already visited.
   */
  function FindProjectPath(fs: FileSystem, dir: string, visited: seq<string>): (r: Result<string, PathError>)
    requires GoPath.IsAbs(dir)
    ensures r.Ok? ==> HasProjectFile(fs, r.value) && r.value != "/"
    ensures r.Err? && r.error.NotFound? ==> |r.error.visited| >= |visited|
    ensures r.Err? ==> r.error.NotFound? || (r.error.StatPanic? && FileExists(fs, r.error.file).None?)
    decreases |dir|
  {
    if dir == "/" then Err(NotFound(visited))
    else match Probe(fs, dir)
      case None => Err(StatPanic(GoPath.Join([dir, ProjectFile])))
      case Some(false) =>
        GoPath.DirShortens(dir);
        FindProjectPath(fs, GoPath.Dir(dir), visited + [dir])
      case Some(true) => Ok(dir)
  }

  /**
   * The search stops at the nearest directory on the way up where fileExists
   * does not answer false: it returns that directory when it holds
   * robin.json, and panics when its robin.json cannot be stat'ed. When every
   * answer is false it reports every directory it checked, nearest first.
   */
  lemma {:induction false} FindIsNearest(fs: FileSystem, dir: string, visited: seq<string>)
    requires GoPath.IsAbs(dir)
    ensures var i := FirstStop(fs, Ancestors(dir));
      i.Some? ==> FindProjectPath(fs, dir, visited) == StopAt(fs, Ancestors(dir)[i.value])
    ensures FirstStop(fs, Ancestors(dir)).None? ==>
      FindProjectPath(fs, dir, visited) == Err(NotFound(visited + Ancestors(dir)))
    decreases |dir|
  {
    if dir == "/" {
      FindAtRoot(fs, visited);
    } else {
      GoPath.DirShortens(dir);
      var up := GoPath.Dir(dir);
      FindIsNearest(fs, up, visited + [dir]);
      FindStep(fs, dir, visited);
      FirstStopCons(fs, dir, Ancestors(up));
      AppendVisited(visited, dir, Ancestors(up));
    }
  }

  /** When every robin.json on the way up can be stat'ed, the search succeeds exactly when some directory on the way is a project. */
  lemma FindWithoutStatFailures(fs: FileSystem, dir: string, visited: seq<string>)
    requires GoPath.IsAbs(dir)
    requires forall j :: 0 <= j < |Ancestors(dir)| ==> Probe(fs, Ancestors(dir)[j]).Some?
    ensures var r := FindProjectPath(fs, dir, visited);
      r.Ok? <==> exists j :: 0 <= j < |Ancestors(dir)| && HasProjectFile(fs, Ancestors(dir)[j])
    ensures var r := FindProjectPath(fs, dir, visited);
      r.Ok? ==> r.value in Ancestors(dir)
  {
    FindIsNearest(fs, dir, visited);
    var a := Ancestors(dir);
    var i := FirstStop(fs, a);
    if i.Some? {
      assert Probe(fs, a[i.value]).Some?;
      assert HasProjectFile(fs, a[i.value]);
    }
  }

  lemma FindAtRoot(fs: FileSystem, visited: seq<string>)
    ensures Ancestors("/") == []
    ensures FindProjectPath(fs, "/", visited) == Err(NotFound(visited + []))
  {
    assert visited + [] == visited;
  }

  lemma FindStep(fs: FileSystem, dir: string, visited: seq<string>)
    requires GoPath.IsAbs(dir) && dir != "/"
    ensures GoPath.IsAbs(GoPath.Dir(dir))
    ensures Ancestors(dir) == [dir] + Ancestors(GoPath.Dir(dir))
    ensures FindProjectPath(fs, dir, visited) ==
      if Probe(fs, dir) != Some(false) then StopAt(fs, dir) else FindProjectPath(fs, GoPath.Dir(dir), visited + [dir])
  {
    GoPath.DirShortens(dir);
  }

  lemma FirstStopCons(fs: FileSystem, d: string, rest: seq<string>)
    ensures FirstStop(fs, [d] + rest) ==
      if Probe(fs, d) != Some(false) then Some(0)
      else match FirstStop(fs, rest)
        case None => None
        case Some(i) => Some(i + 1)
  {
    assert ([d] + rest)[1..] == rest;
  }

  lemma AppendVisited(visited: seq<string>, d: string, rest: seq<string>)
    ensures visited + ([d] + rest) == (visited + [d]) + rest
    ensures forall i :: 0 <= i < |rest| ==> ([d] + rest)[i + 1] == rest[i]
  {
  }

  // ---------------------------------------------------------------------
  // The error text

  const NotFoundHeader := "Could not find a robin.json file\n\nChecked:\n"

  /** One tab-indented line per checked directory, in order. */
  function Lines(dirs: seq<string>): (r: string)
    ensures dirs == [] ==> r == ""
  {
    if dirs == [] then "" else Lines(dirs[..|dirs| - 1]) + Line(dirs[|dirs| - 1])
  }

  /** A checked directory's line: a tab, the directory, a newline. */
  function Line(dir: string): string {
    "\t" + dir + "\n"
  }

  /** ProjectPathNotFoundError.Error, and the text of every other error; a panic has no error text. */
  function ErrorText(e: PathError): (r: string)
    requires !e.StatPanic?
    ensures e.NotFound? ==> HasPrefix(r, NotFoundHeader) && HasSuffix(r, "\n")
  {
    match e
    case NotFound(visited) => NotFoundHeader + Lines(visited) + "\n"
    case Failure(message) => message
  }

  lemma {:induction false} LinesConcat(a: seq<string>, b: seq<string>)
    ensures Lines(a + b) == Lines(a) + Lines(b)
    decreases |b|
  {
    if b == [] {
      assert a + b == a;
    } else {
      var b' := b[..|b| - 1];
      assert (a + b)[..|a + b| - 1] == a + b';
      assert (a + b)[|a + b| - 1] == b[|b| - 1];
      LinesConcat(a, b');
    }
  }

  /** The error names every checked directory on a line of its own, in the order they were checked. */
  lemma ErrorListsVisited(visited: seq<string>, i: nat)
    requires i < |visited|
    ensures ErrorText(NotFound(visited))
      == NotFoundHeader + Lines(visited[..i]) + ("\t" + visited[i] + "\n") + Lines(visited[i + 1..]) + "\n"
  {
    var pre, line, post := Lines(visited[..i]), Line(visited[i]), Lines(visited[i + 1..]);
    calc {
      ErrorText(NotFound(visited));
      NotFoundHeader + Lines(visited) + "\n";
      { LinesAround(visited, i); }
      NotFoundHeader + (pre + line + post) + "\n";
      { Regroup(NotFoundHeader, pre, line, post, "\n"); }
      NotFoundHeader + pre + line + post + "\n";
    }
  }

  lemma LinesAround(ms: seq<string>, i: nat)
    requires i < |ms|
    ensures Lines(ms) == Lines(ms[..i]) + Line(ms[i]) + Lines(ms[i + 1..])
  {
    var pre, x, post := ms[..i], ms[i], ms[i + 1..];
    calc {
      Lines(ms);
      { Around(ms, i); }
      Lines((pre + [x]) + post);
      { LinesConcat(pre + [x], post); }
      Lines(pre + [x]) + Lines(post);
      { LinesSnoc(pre, x); }
      Lines(pre) + Line(x) + Lines(post);
    }
  }

  lemma LinesSnoc(pre: seq<string>, x: string)
    ensures Lines(pre + [x]) == Lines(pre) + Line(x)
  {
    assert (pre + [x])[..|pre|] == pre;
  }

  lemma Regroup(h: string, a: string, b: string, c: string, t: string)
    ensures h + (a + b + c) + t == h + a + b + c + t
  {
  }

  // ---------------------------------------------------------------------
  // SetProjectPath and GetProjectPath

  /**
   * SetProjectPath: a relative path is joined onto the working directory
   * (`cwd`, os.Getwd's answer), the result is cleaned, and it is accepted
   * only if fileExists finds robin.json there; fileExists may panic instead.
   */
  function SetProjectPath(fs: FileSystem, cwd: Result<string, string>, given: string): (r: Result<string, PathError>)
    ensures r.Err? && r.error.Failure? <==> !GoPath.IsAbs(given) && cwd.Err?
    ensures r.Ok? ==> HasProjectFile(fs, r.value)
    ensures r.Err? && r.error.NotFound? ==> |r.error.visited| == 1 && Probe(fs, r.error.visited[0]) == Some(false)
    ensures r.Err? && r.error.StatPanic? ==> FileExists(fs, r.error.file).None?
  {
    if !GoPath.IsAbs(given) && cwd.Err? then Err(Failure("error: failed to get cwd: " + cwd.error))
    else
      var joined := if GoPath.IsAbs(given) then given else GoPath.Join([cwd.value, given]);
      var p := GoPath.Clean(joined);
      match Probe(fs, p)
      case None => Err(StatPanic(GoPath.Join([p, ProjectFile])))
      case Some(found) => if found then Ok(p) else Err(NotFound([p]))
  }

  /** With an absolute working directory, every path it accepts or refuses is absolute. */
  lemma SetProjectPathResult(fs: FileSystem, cwd: Result<string, string>, given: string)
    requires cwd.Ok? ==> GoPath.IsAbs(cwd.value)
    ensures var r := SetProjectPath(fs, cwd, given);
      r.Ok? ==> HasProjectFile(fs, r.value) && GoPath.IsAbs(r.value)
    ensures var r := SetProjectPath(fs, cwd, given);
      r.Err? && r.error.NotFound? ==> |r.error.visited| == 1 && GoPath.IsAbs(r.error.visited[0])
  {
    if GoPath.IsAbs(given) {
      GoPath.CleanRooted(given);
    } else if cwd.Ok? {
      GoPath.JoinPair(cwd.value, given);
      var x := cwd.value + "/" + given;
      assert GoPath.IsAbs(x);
      GoPath.CleanRooted(x);
      GoPath.CleanRooted(GoPath.Clean(x));
    }
  }

  /** An absolute path is checked the same whatever the working directory. */
  lemma SetAbsoluteIgnoresCwd(fs: FileSystem, cwd1: Result<string, string>, cwd2: Result<string, string>, given: string)
    requires GoPath.IsAbs(given)
    ensures SetProjectPath(fs, cwd1, given) == SetProjectPath(fs, cwd2, given)
  {
  }

  /**
   * GetProjectPath's answer: a path, an error, or a panic: os.Getwd failing
   * before the search, or fileExists on a robin.json that cannot be stat'ed.
   */
  datatype GetOutcome = Got(path: string) | GetFailed(error: PathError) | GetPanicked

  /**
   * GetProjectPath over the remembered project path `saved` ("" when unset):
   * the remembered path wins, then PROJECT_PATH, then the upward search from
   * the working directory. The second component is the remembered path after the call.
   */
  function GetProjectPath(saved: string, env: string, cwd: Result<string, string>, fs: FileSystem): (r: (GetOutcome, string))
    requires cwd.Ok? ==> GoPath.IsAbs(cwd.value)
    ensures saved != "" ==> r == (Got(saved), saved)
    ensures r.0.Got? ==> r.1 == r.0.path && (saved == "" ==> HasProjectFile(fs, r.0.path))
    ensures !r.0.Got? ==> r.1 == saved
    ensures r.0.GetFailed? ==> !r.0.error.StatPanic?
    ensures saved == "" && env == "" && cwd.Err? ==> r.0.GetPanicked?
  {
    if saved != "" then (Got(saved), saved)
    else if env != "" then Remember(SetProjectPath(fs, cwd, env), saved)
    else if cwd.Err? then (GetPanicked, saved)
    else match FindProjectPath(fs, cwd.value, [])
      case Err(e) => Remember(Err(e), saved)
      case Ok(found) => Remember(SetProjectPath(fs, cwd, found), saved)
  }

  /** SetProjectPath stores the path it accepts; a panic passes through as a panic. */
  function Remember(r: Result<string, PathError>, saved: string): (out: (GetOutcome, string))
    ensures r.Ok? ==> out == (Got(r.value), r.value)
    ensures r.Err? && r.error.StatPanic? ==> out == (GetPanicked, saved)
    ensures r.Err? && !r.error.StatPanic? ==> out == (GetFailed(r.error), saved)
  {
    match r
    case Ok(p) => (Got(p), p)
    case Err(StatPanic(_)) => (GetPanicked, saved)
    case Err(e) => (GetFailed(e), saved)
  }

  /** A robin.json that cannot be stat'ed on the way up makes GetProjectPath panic before any project above it is seen. */
  lemma GetPanicsOnStatFailure(env: string, cwd: string, fs: FileSystem)
    requires GoPath.IsAbs(cwd) && env == ""
    requires var i := FirstStop(fs, Ancestors(cwd));
      i.Some? && Probe(fs, Ancestors(cwd)[i.value]).None?
    ensures GetProjectPath("", env, Ok(cwd), fs) == (GetPanicked, "")
  {
    FindIsNearest(fs, cwd, []);
  }

  /**
   * A path GetProjectPath hands out holds robin.json, is absolute and is
   * remembered: every later call returns it without looking at the
   * environment, the working directory or the file system again.
   */
  lemma GetProjectPathRemembers(saved: string, env: string, cwd: Result<string, string>, fs: FileSystem,
                                env': string, cwd': Result<string, string>, fs': FileSystem)
    requires saved == ""
    requires cwd.Ok? ==> GoPath.IsAbs(cwd.value)
    requires cwd'.Ok? ==> GoPath.IsAbs(cwd'.value)
    requires GetProjectPath(saved, env, cwd, fs).0.Got?
    ensures var (out, saved') := GetProjectPath(saved, env, cwd, fs);
      HasProjectFile(fs, out.path) && GoPath.IsAbs(out.path) && saved' == out.path
    ensures var (out, saved') := GetProjectPath(saved, env, cwd, fs);
      GetProjectPath(saved', env', cwd', fs') == (out, saved')
  {
    if env != "" {
      SetProjectPathResult(fs, cwd, env);
    } else {
      var found := FindProjectPath(fs, cwd.value, []).value;
      SetProjectPathResult(fs, cwd, found);
    }
  }
}
