/**
 * Module resolution over an abstract file system: the regular files are a
 * map from slash-separated relative path to contents (a directory, or a path
 * `fs.FS` rejects, is simply not a key). `ReadFile` memoises every lookup in
 * the resolver's cache. `resolveModule` walks up with `Dir` until it reaches
 * "/", which a relative source never does; the walk is given `fuel`, and
 * running out of it is reported as `Diverges`.
 */
module Resolve {
  import opened Results
  import opened Strs
  import GoPath

  datatype Lookup = Lookup(found: bool, content: string)

  datatype Resolver = Resolver(
    fs: Option<map<string, string>>,
    extensions: Option<seq<string>>,
    cache: map<string, Lookup>)

  datatype Outcome =
    | Resolved(path: string)
    | Failed(message: string)
    | Diverges
    | IndexPanic

  /** The extension list used when `Extensions` is nil. */
  const DefaultExtensions: seq<string> := [".js", ".jsx", ".ts", ".tsx", ".json", ".css"]

  /** What opening and reading `path` in `files` gives. */
  function FsLookup(files: map<string, string>, path: string): (l: Lookup)
    ensures l.found <==> path in files
  {
    if path in files then Lookup(true, files[path]) else Lookup(false, "")
  }

  /** Every memoised lookup agrees with the file system. */
  ghost predicate Consistent(res: Resolver) {
    res.fs.Some? ==> forall k :: k in res.cache ==> res.cache[k] == FsLookup(res.fs.value, k)
  }

  /** `ReadFile`: the memoised answer when there is one, otherwise the file system's, remembered. */
  function ReadFile(res: Resolver, target: string): (r: (Resolver, Lookup))
    requires res.fs.Some?
    ensures r.0.fs == res.fs && r.0.extensions == res.extensions
    ensures target in r.0.cache && r.0.cache[target] == r.1
    ensures r.0.cache.Keys == res.cache.Keys + {target}
    ensures target in res.cache ==> r == (res, res.cache[target])
    ensures Consistent(res) ==> Consistent(r.0) && r.1 == FsLookup(res.fs.value, target)
  {
    if target in res.cache then (res, res.cache[target])
    else
      var l := FsLookup(res.fs.value, target);
      (res.(cache := res.cache[target := l]), l)
  }

  function SearchExtensions(res: Resolver): seq<string> {
    if res.extensions.None? then DefaultExtensions else res.extensions.value
  }

  function WithExtensions(t: string, exts: seq<string>): (r: seq<string>)
    ensures |r| == |exts| && forall i :: 0 <= i < |exts| ==> r[i] == t + exts[i]
  {
    if exts == [] then [] else [t + exts[0]] + WithExtensions(t, exts[1..])
  }

  function IndexFiles(t: string, exts: seq<string>): (r: seq<string>)
    ensures |r| == |exts|
  {
    if exts == [] then [] else [GoPath.Join([t, "index" + exts[0]])] + IndexFiles(t, exts[1..])
  }

  /** The paths `resolveLocal` tries, in order: exact, then with each extension, then each index file. */
  function Candidates(t: string, exts: seq<string>): (r: seq<string>)
    ensures |r| == 1 + 2 * |exts| && r[0] == t
    ensures forall i :: 0 <= i < |exts| ==> r[1 + i] == t + exts[i]
  {
    [t] + WithExtensions(t, exts) + IndexFiles(t, exts)
  }

  /** The `i`-th index file candidate, `<t>/index<ext>`. */
  lemma {:induction false} IndexFileAt(t: string, exts: seq<string>, i: nat)
    requires i < |exts|
    ensures IndexFiles(t, exts)[i] == GoPath.Join([t, "index" + exts[i]])
    decreases |exts|
  {
    if i > 0 {
      IndexFileAt(t, exts[1..], i - 1);
    }
  }

  /** The position of the first candidate from `i` on that is a file; the reference for every search. */
  function FirstFrom(cands: seq<string>, files: map<string, string>, i: nat): (r: Option<nat>)
    ensures r.Some? ==> i <= r.value < |cands|
    decreases |cands| - i
  {
    if i >= |cands| then None
    else if cands[i] in files then Some(i)
    else FirstFrom(cands, files, i + 1)
  }

  /** Looks the candidates from `i` on up one by one through `ReadFile` and stops at the first file. */
  function Probe(res: Resolver, cands: seq<string>, i: nat): (r: (Resolver, Option<string>))
    requires res.fs.Some?
    ensures r.0.fs == res.fs && r.0.extensions == res.extensions
    ensures Consistent(res) ==> Consistent(r.0)
    ensures Consistent(res) ==>
      var first := FirstFrom(cands, res.fs.value, i);
      r.1 == if first.None? then None else Some(cands[first.value])
    decreases |cands| - i
  {
    if i >= |cands| then (res, None)
    else
      var read := ReadFile(res, cands[i]);
      if read.1.found then (read.0, Some(cands[i]))
      else Probe(read.0, cands, i + 1)
  }

  /** The answer of `resolveLocal` computed from the file system alone. */
  function LocalAnswer(files: map<string, string>, exts: seq<string>, target: string): Outcome {
    var cands := Candidates(GoPath.Clean(target), exts);
    var first := FirstFrom(cands, files, 0);
    if first.None? then Failed("could not resolve: " + GoPath.Clean(target)) else Resolved(cands[first.value])
  }

  /** `resolveLocal`. */
  function ResolveLocal(res: Resolver, target: string): (r: (Resolver, Outcome))
    ensures r.0.fs == res.fs && r.0.extensions == res.extensions
    ensures Consistent(res) ==> Consistent(r.0)
    ensures r.1.Resolved? || r.1.Failed?
    ensures res.fs.None? ==> r == (res, Failed("resolver has no FS to resolve within"))
    ensures res.fs.Some? && Consistent(res) ==> r.1 == LocalAnswer(res.fs.value, SearchExtensions(res), target)
  {
    if res.fs.None? then (res, Failed("resolver has no FS to resolve within"))
    else
      var t := GoPath.Clean(target);
      var p := Probe(res, Candidates(t, SearchExtensions(res)), 0);
      if p.1.None? then (p.0, Failed("could not resolve: " + t)) else (p.0, Resolved(p.1.value))
  }

  /** Where the walk looks for `target` from `dir`: `<dir>/node_modules/<target>`. */
  function ModulePath(dir: string, target: string): string {
    GoPath.Join([GoPath.Join([dir, "node_modules"]), target])
  }

  /** The answer of the upward walk computed from the file system alone. */
  function SearchUpAnswer(files: map<string, string>, exts: seq<string>, dir: string, target: string, fuel: nat): Outcome
    decreases fuel
  {
    if dir == "/" then Failed("could not resolve: " + target)
    else if fuel == 0 then Diverges
    else
      var local := LocalAnswer(files, exts, ModulePath(dir, target));
      if local.Resolved? then local else SearchUpAnswer(files, exts, GoPath.Dir(dir), target, fuel - 1)
  }

  /** Whether `resolveModule`'s loop, stepping to `Dir` each time, meets "/" within `fuel` iterations. */
  function ReachesRoot(dir: string, fuel: nat): bool
    decreases fuel
  {
    if dir == "/" then true
    else if fuel == 0 then false
    else ReachesRoot(GoPath.Dir(dir), fuel - 1)
  }

  /** The loop of `resolveModule`, from `dir` upward, with at most `fuel` iterations. */
  function SearchUp(res: Resolver, dir: string, target: string, fuel: nat): (r: (Resolver, Outcome))
    ensures r.0.fs == res.fs && r.0.extensions == res.extensions
    ensures Consistent(res) ==> Consistent(r.0)
    ensures r.1.Resolved? || r.1.Failed? || r.1.Diverges?
    ensures Consistent(res) && res.fs.Some? ==>
      r.1 == SearchUpAnswer(res.fs.value, SearchExtensions(res), dir, target, fuel)
    ensures r.1.Diverges? ==> !ReachesRoot(dir, fuel)
    decreases fuel
  {
    if dir == "/" then (res, Failed("could not resolve: " + target))
    else if fuel == 0 then (res, Diverges)
    else
      var local := ResolveLocal(res, ModulePath(dir, target));
      if local.1.Resolved? then local
      else SearchUp(local.0, GoPath.Dir(dir), target, fuel - 1)
  }

  /** `resolveModule`. */
  function ResolveModule(res: Resolver, source: string, target: string, fuel: nat): (r: (Resolver, Outcome))
    ensures Consistent(res) ==> Consistent(r.0)
    ensures r.1.Resolved? || r.1.Failed? || r.1.Diverges?
  {
    SearchUp(res, GoPath.Dir(source), target, fuel)
  }

  /** `Resolve`: bare names are modules looked up from the root; anything else is local. */
  function ResolveRoot(res: Resolver, target: string, fuel: nat): (r: (Resolver, Outcome))
    ensures Consistent(res) ==> Consistent(r.0)
    ensures r.1.IndexPanic? <==> target == ""
    ensures target != "" && target[0] == '.' ==> r == ResolveLocal(res, target)
    ensures target != "" && target[0] != '.' ==> r == ResolveModule(res, "./index.js", target, fuel)
  {
    if target == "" then (res, IndexPanic)
    else if target[0] != '.' then ResolveModule(res, "./index.js", target, fuel)
    else ResolveLocal(res, target)
  }

  /** `ResolveFrom`: dispatch on the target's first character. */
  function ResolveFrom(res: Resolver, source: string, target: string, fuel: nat): (r: (Resolver, Outcome))
    ensures Consistent(res) ==> Consistent(r.0)
    ensures source == "" ==> r == (res, Failed("source path is empty"))
    ensures source != "" && target == "" ==> r == (res, Failed("target path is empty"))
    ensures source != "" && target != "" && target[0] == '/' ==> r == ResolveLocal(res, target[1..])
    ensures source != "" && target != "" && target[0] != '/' && target[0] != '.' ==>
      r == ResolveModule(res, source, target, fuel)
    ensures source != "" && target != "" && target[0] == '.' ==>
      var l := ResolveLocal(res, "./" + GoPath.Join([GoPath.Dir(source), target]));
      r == (l.0, if l.1.Failed? then Failed("could not resolve: " + target) else l.1)
    ensures !r.1.IndexPanic?
  {
    if source == "" then (res, Failed("source path is empty"))
    else if target == "" then (res, Failed("target path is empty"))
    else if target[0] != '.' && target[0] != '/' then ResolveModule(res, source, target, fuel)
    else if target[0] == '/' then ResolveLocal(res, target[1..])
    else
      var rel := "./" + GoPath.Join([GoPath.Dir(source), target]);
      var r := ResolveRoot(res, rel, fuel);
      if r.1.Failed? then (r.0, Failed("could not resolve: " + target)) else r
  }

  // ---------------------------------------------------------------------
  // Properties

  /** A memoised lookup does not consult the file system: any other file system gives the same answer. */
  lemma ReadFileMemoised(res: Resolver, target: string, other: map<string, string>)
    requires res.fs.Some? && target in res.cache
    ensures ReadFile(res.(fs := Some(other)), target).1 == ReadFile(res, target).1 == res.cache[target]
  {
  }

  /** The cache never changes an answer: a resolver with an empty cache resolves the same way. */
  lemma CacheIsTransparent(res: Resolver, target: string)
    requires Consistent(res) && res.fs.Some?
    ensures ResolveLocal(res, target).1 == ResolveLocal(res.(cache := map[]), target).1
  {
  }

  /** The reference walk never leaves a directory that is its own `Dir`, so a miss there exhausts every fuel. */
  lemma {:induction false} FixedPointAnswer(files: map<string, string>, exts: seq<string>, dir: string, target: string, fuel: nat)
    requires dir != "/" && GoPath.Dir(dir) == dir
    requires LocalAnswer(files, exts, ModulePath(dir, target)).Failed?
    ensures SearchUpAnswer(files, exts, dir, target, fuel) == Diverges
    decreases fuel
  {
    if fuel > 0 {
      FixedPointAnswer(files, exts, dir, target, fuel - 1);
    }
  }

  /**
   * A directory that is its own `Dir` and is not "/" never ends the walk:
   * if the search there misses, every amount of fuel runs out.
   */
  lemma FixedPointMissDiverges(res: Resolver, dir: string, target: string, fuel: nat)
    requires Consistent(res) && res.fs.Some?
    requires dir != "/" && GoPath.Dir(dir) == dir
    requires ResolveLocal(res, ModulePath(dir, target)).1.Failed?
    ensures SearchUp(res, dir, target, fuel).1 == Diverges
  {
    FixedPointAnswer(res.fs.value, SearchExtensions(res), dir, target, fuel);
  }

  /** A relative source whose search misses in "." never reaches "/". */
  lemma RelativeMissDiverges(res: Resolver, target: string, fuel: nat)
    requires Consistent(res) && res.fs.Some?
    requires ResolveLocal(res, ModulePath(".", target)).1.Failed?
    ensures SearchUp(res, ".", target, fuel).1 == Diverges
  {
    GoPath.DirOfDot();
    FixedPointMissDiverges(res, ".", target, fuel);
  }

  /** From an absolute directory the loop meets "/" within |dir| iterations: `Dir` strictly shortens it. */
  lemma {:induction false} AbsoluteReachesRoot(dir: string, fuel: nat)
    requires GoPath.IsAbs(dir) && fuel >= |dir|
    ensures ReachesRoot(dir, fuel)
    decreases fuel
  {
    if dir != "/" {
      GoPath.DirShortens(dir);
      AbsoluteReachesRoot(GoPath.Dir(dir), fuel - 1);
    }
  }

  /** So a search from an absolute directory never needs more than |dir| iterations. */
  lemma AbsoluteTerminates(res: Resolver, dir: string, target: string, fuel: nat)
    requires GoPath.IsAbs(dir) && fuel >= |dir|
    ensures SearchUp(res, dir, target, fuel).1 != Diverges
  {
    AbsoluteReachesRoot(dir, fuel);
  }

  /** The first candidate that is a file is the one every earlier candidate is not. */
  lemma {:induction false} FirstFromAt(cands: seq<string>, files: map<string, string>, i: nat, m: nat)
    requires i <= m < |cands| && cands[m] in files
    requires forall j :: i <= j < m ==> cands[j] !in files
    ensures FirstFrom(cands, files, i) == Some(m)
    decreases m - i
  {
    if i < m {
      FirstFromAt(cands, files, i + 1, m);
    }
  }

  /** The answer is the `m`-th candidate exactly when it is the first that is a file. */
  lemma LocalAnswerAt(files: map<string, string>, exts: seq<string>, target: string, m: nat)
    requires m < |Candidates(GoPath.Clean(target), exts)|
    requires Candidates(GoPath.Clean(target), exts)[m] in files
    requires forall j :: 0 <= j < m ==> Candidates(GoPath.Clean(target), exts)[j] !in files
    ensures LocalAnswer(files, exts, target) == Resolved(Candidates(GoPath.Clean(target), exts)[m])
  {
    FirstFromAt(Candidates(GoPath.Clean(target), exts), files, 0, m);
  }

  /**
   * The exact path is tried before any extension, and extensions in their
   * order: a target that is missing but whose `k`-th extension is the first
   * present resolves to that file.
   */
  lemma FirstExtensionWins(files: map<string, string>, exts: seq<string>, target: string, k: nat)
    requires k < |exts|
    requires GoPath.Clean(target) !in files
    requires forall j :: 0 <= j < k ==> GoPath.Clean(target) + exts[j] !in files
    requires GoPath.Clean(target) + exts[k] in files
    ensures LocalAnswer(files, exts, target) == Resolved(GoPath.Clean(target) + exts[k])
  {
    var t := GoPath.Clean(target);
    var cands := Candidates(t, exts);
    forall j | 0 <= j < 1 + k ensures cands[j] !in files {
      if j > 0 {
        assert cands[j] == t + exts[j - 1];
      }
    }
    LocalAnswerAt(files, exts, target, 1 + k);
  }

  /** An exact file wins over every extension and index file. */
  lemma ExactFileWins(files: map<string, string>, exts: seq<string>, target: string)
    requires GoPath.Clean(target) in files
    ensures LocalAnswer(files, exts, target) == Resolved(GoPath.Clean(target))
  {
  }

  /** Every candidate before the `k`-th index file misses when the exact path, every extension and the earlier index files miss. */
  lemma IndexPrefixMisses(files: map<string, string>, t: string, exts: seq<string>, k: nat)
    requires k < |exts|
    requires t !in files
    requires forall j :: 0 <= j < |exts| ==> t + exts[j] !in files
    requires forall j :: 0 <= j < k ==> IndexFiles(t, exts)[j] !in files
    ensures Candidates(t, exts)[1 + |exts| + k] == IndexFiles(t, exts)[k]
    ensures forall j :: 0 <= j < 1 + |exts| + k ==> Candidates(t, exts)[j] !in files
  {
    var cands := Candidates(t, exts);
    var ix := IndexFiles(t, exts);
    var n := |exts|;
    forall j | 0 <= j < 1 + n + k ensures cands[j] !in files {
      if 0 < j <= n {
        assert cands[j] == t + exts[j - 1];
      } else if j > n {
        assert cands[j] == ix[j - 1 - n];
      }
    }
  }

  /** With no file and no extended file, a directory's index file is chosen, again in extension order. */
  lemma IndexFileWins(files: map<string, string>, exts: seq<string>, target: string, k: nat)
    requires k < |exts|
    requires GoPath.Clean(target) !in files
    requires forall j :: 0 <= j < |exts| ==> GoPath.Clean(target) + exts[j] !in files
    requires forall j :: 0 <= j < k ==> IndexFiles(GoPath.Clean(target), exts)[j] !in files
    requires IndexFiles(GoPath.Clean(target), exts)[k] in files
    ensures LocalAnswer(files, exts, target) == Resolved(IndexFiles(GoPath.Clean(target), exts)[k])
  {
    IndexPrefixMisses(files, GoPath.Clean(target), exts, k);
    LocalAnswerAt(files, exts, target, 1 + |exts| + k);
  }

  /** `resolveLocal` fails exactly when none of its candidates is a file. */
  lemma {:induction false} FailsIffNoCandidate(files: map<string, string>, exts: seq<string>, target: string)
    ensures LocalAnswer(files, exts, target).Failed? <==>
      forall j :: 0 <= j < |Candidates(GoPath.Clean(target), exts)| ==> Candidates(GoPath.Clean(target), exts)[j] !in files
  {
    var cands := Candidates(GoPath.Clean(target), exts);
    FirstFromNone(cands, files, 0);
  }

  /** No hit from `i` on exactly when every candidate from `i` on misses. */
  lemma {:induction false} FirstFromNone(cands: seq<string>, files: map<string, string>, i: nat)
    ensures FirstFrom(cands, files, i).None? <==> forall j :: i <= j < |cands| ==> cands[j] !in files
    decreases |cands| - i
  {
    if i < |cands| {
      FirstFromNone(cands, files, i + 1);
    }
  }

  /**
   * Restricting the extensions to ".js" hides a ".json" file: a target whose
   * only match would be `<t>.json` does not resolve.
   */
  lemma JsOnlyMissesJson(files: map<string, string>, target: string)
    requires GoPath.Clean(target) !in files && GoPath.Clean(target) + ".js" !in files
    requires IndexFiles(GoPath.Clean(target), [".js"])[0] !in files
    requires GoPath.Clean(target) + ".json" in files
    ensures LocalAnswer(files, [".js"], target).Failed?
  {
    var t := GoPath.Clean(target);
    var cands := Candidates(t, [".js"]);
    assert cands[2] == IndexFiles(t, [".js"])[0];
    FailsIffNoCandidate(files, [".js"], target);
  }

  /**
   * A relative target is resolved as a local path against the source's
   * directory, and a miss names the target as written.
   */
  lemma RelativeAgainstSourceDir(res: Resolver, source: string, target: string, fuel: nat)
    requires Consistent(res) && res.fs.Some?
    requires source != "" && target != "" && target[0] == '.'
    ensures var a := LocalAnswer(res.fs.value, SearchExtensions(res), "./" + GoPath.Join([GoPath.Dir(source), target]));
      ResolveFrom(res, source, target, fuel).1 == if a.Failed? then Failed("could not resolve: " + target) else a
  {
  }
}
