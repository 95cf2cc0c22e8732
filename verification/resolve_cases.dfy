/**
 * The relative cases of resolve_test.go: `ResolveFrom` over the file sets of
 * TestFileResolvers and TestDirResolvers. Each literal path is unfolded in a
 * small lemma of its own, and generic lemmas glue the steps together.
 */
module ResolveCases {
  import opened Results
  import opened Strs
  import GoPath
  import Splits
  import opened Resolve

  /** The file system of TestFileResolvers. */
  const FileTestFiles: map<string, string> :=
    map["index.js" := "", "bar.js" := "", "src/index.js" := "", "src/foo.js" := "", "src/data.json" := ""]

  /** The file system of TestDirResolvers. */
  const DirTestFiles: map<string, string> :=
    map["index.js" := "", "bar.js" := "", "src/index.js" := "", "src/foo.js" := "", "src/bar/index.ts" := "", "src/json/foo.json" := ""]

  /** A resolver over `files` with the default extensions and nothing cached. */
  function Fresh(files: map<string, string>): (res: Resolver)
    ensures Consistent(res) && res.fs == Some(files) && SearchExtensions(res) == DefaultExtensions
  {
    Resolver(Some(files), None, map[])
  }

  /** A plain segment with a trailing slash cleans to itself. */
  lemma CleanTrailingSlash(a: string)
    requires GoPath.Plain(a)
    ensures GoPath.Clean(a + ['/']) == a
  {
    assert [a, ""][1..] == [""];
    assert [""][1..] == [];
    assert Strs.Join([a, ""], '/') == a + ['/'];
    SplitJoin([a, ""], '/');
    assert a[0] in a;
    calc {
      GoPath.Segments(a + ['/']);
      GoPath.NormFrom([], [a, ""], false);
      GoPath.NormFrom([a], [""], false);
      GoPath.NormFrom([a], [], false);
    }
  }

  lemma SrcFileLiterals()
    ensures "./src" + ['/'] + "index.js" == "./src/index.js"
    ensures "./src" + ['/'] + "foo.js" == "./src/foo.js"
    ensures "./" + ("src" + ['/']) == "./src" + ['/']
  {
  }

  /** A file directly under "./src" has the directory "src". */
  lemma DirOfSrcFile(p: string, name: string)
    requires GoPath.Plain(name)
    requires p == "./src" + ['/'] + name
    ensures GoPath.Dir(p) == "src"
  {
    GoPath.DirOfSlashName("./src", name);
    SrcFileLiterals();
    GoPath.CleanDotSlash("src" + ['/']);
    CleanTrailingSlash("src");
  }


  /** The segments of "a/b/c" when none of the three holds a '/'. */
  lemma SplitThree(a: string, b: string, c: string)
    requires '/' !in a && '/' !in b && '/' !in c
    ensures Split(a + "/" + b + "/" + c, '/') == [a, b, c]
  {
    assert [a, b, c][1..] == [b, c];
    assert [b, c][1..] == [c];
    calc {
      Strs.Join([a, b, c], '/');
      a + ['/'] + Strs.Join([b, c], '/');
      a + ['/'] + (b + ['/'] + Strs.Join([c], '/'));
      a + "/" + b + "/" + c;
    }
    SplitJoin([a, b, c], '/');
  }

  /** Cleaning scans three segments one step at a time. */
  lemma NormThree(a: string, b: string, c: string)
    ensures GoPath.NormFrom([], [a, b, c], false)
      == GoPath.Step(GoPath.Step(GoPath.Step([], a, false), b, false), c, false)
  {
    var s1 := GoPath.Step([], a, false);
    var s2 := GoPath.Step(s1, b, false);
    assert [a, b, c][1..] == [b, c];
    assert [b, c][1..] == [c];
    assert [c][1..] == [];
    calc {
      GoPath.NormFrom([], [a, b, c], false);
      GoPath.NormFrom(s1, [b, c], false);
      GoPath.NormFrom(s2, [c], false);
      GoPath.NormFrom(GoPath.Step(s2, c, false), [], false);
    }
  }

  /** A relative path that keeps some segment cleans to its surviving segments joined by '/'. */
  lemma CleanRelative(p: string, segs: seq<string>)
    requires p != "" && p[0] != '/'
    requires GoPath.Segments(p) == segs && segs != []
    ensures GoPath.Clean(p) == Strs.Join(segs, '/')
  {
  }

  /** Cleaning "a/b/c", a relative path, when the scan keeps `segs`. */
  lemma CleanThree(a: string, b: string, c: string, segs: seq<string>)
    requires '/' !in a && '/' !in b && '/' !in c && a != ""
    requires GoPath.Step(GoPath.Step(GoPath.Step([], a, false), b, false), c, false) == segs && segs != []
    ensures GoPath.Clean(a + "/" + b + "/" + c) == Strs.Join(segs, '/')
  {
    var p := a + "/" + b + "/" + c;
    assert p[0] == a[0];
    assert a[0] in a;
    SplitThree(a, b, c);
    NormThree(a, b, c);
    CleanRelative(p, segs);
  }

  lemma JoinLiterals()
    ensures "src" + "/" + "../bar" == "src" + "/" + ".." + "/" + "bar"
    ensures "src" + "/" + "./foo" == "src" + "/" + "." + "/" + "foo"
    ensures "src" + "/" + "./" == "src" + "/" + "." + "/" + ""
    ensures Strs.Join(["bar"], '/') == "bar" && Strs.Join(["src"], '/') == "src"
  {
  }

  lemma SrcFooJoined()
    ensures Strs.Join(["src", "foo"], '/') == "src/foo"
  {
    assert ["src", "foo"][1..] == ["foo"];
  }

  lemma CleanSrcParentBar()
    ensures GoPath.Join(["src", "../bar"]) == "bar"
  {
    GoPath.JoinPair("src", "../bar");
    JoinLiterals();
    CleanThree("src", "..", "bar", ["bar"]);
  }

  lemma CleanSrcDotFoo()
    ensures GoPath.Join(["src", "./foo"]) == "src/foo"
  {
    GoPath.JoinPair("src", "./foo");
    JoinLiterals();
    CleanThree("src", ".", "foo", ["src", "foo"]);
    SrcFooJoined();
  }

  lemma CleanSrcDot()
    ensures GoPath.Join(["src", "./"]) == "src"
  {
    GoPath.JoinPair("src", "./");
    JoinLiterals();
    CleanThree("src", ".", "", ["src"]);
  }

  /** A plain relative path is already clean, with or without a leading "./". */
  lemma CleanDotted(ps: seq<string>)
    requires |ps| >= 1
    requires forall i :: 0 <= i < |ps| ==> GoPath.Plain(ps[i])
    ensures GoPath.Clean("./" + Strs.Join(ps, '/')) == Strs.Join(ps, '/')
  {
    var s := Strs.Join(ps, '/');
    GoPath.CleanPlainJoin(ps);
    Splits.JoinHead(ps, '/');
    assert ps[0][0] in ps[0];
    GoPath.CleanDotSlash(s);
  }

  /** A relative test case: the joined path and what resolving it locally gives. */
  lemma RelativeCase(files: map<string, string>, source: string, target: string, rel: string, answer: string, fuel: nat)
    requires source != "" && target != "" && target[0] == '.'
    requires "./" + GoPath.Join([GoPath.Dir(source), target]) == rel
    requires LocalAnswer(files, DefaultExtensions, rel) == Resolved(answer)
    ensures ResolveFrom(Fresh(files), source, target, fuel).1 == Resolved(answer)
  {
    RelativeAgainstSourceDir(Fresh(files), source, target, fuel);
  }

  lemma JoinedRel(source: string, target: string, d: string, j: string)
    requires GoPath.Dir(source) == d && GoPath.Join([d, target]) == j
    ensures "./" + GoPath.Join([GoPath.Dir(source), target]) == "./" + j
  {
  }

  lemma DotSlashLiterals()
    ensures "./" + "bar" == "./bar"
    ensures "./" + "src/foo" == "./src/foo"
    ensures "./" + "src" == "./src"
  {
  }

  lemma ParentPath()
    ensures "./" + GoPath.Join([GoPath.Dir("./src/index.js"), "../bar"]) == "./bar"
  {
    SrcFileLiterals();
    DirOfSrcFile("./src/index.js", "index.js");
    CleanSrcParentBar();
    JoinedRel("./src/index.js", "../bar", "src", "bar");
    DotSlashLiterals();
  }

  /** A target that cleans to a missing `t` whose ".js" file exists resolves to that file. */
  lemma JsExtensionCase(files: map<string, string>, target: string, t: string, file: string)
    requires GoPath.Clean(target) == t && t !in files
    requires t + ".js" == file && file in files
    ensures LocalAnswer(files, DefaultExtensions, target) == Resolved(file)
  {
    FirstExtensionWins(files, DefaultExtensions, target, 0);
  }

  lemma BarLiterals()
    ensures Strs.Join(["bar"], '/') == "bar" && "./" + "bar" == "./bar" && "bar" + ".js" == "bar.js"
    ensures "bar" !in FileTestFiles && "bar.js" in FileTestFiles
  {
  }

  lemma BarAnswer()
    ensures LocalAnswer(FileTestFiles, DefaultExtensions, "./bar") == Resolved("bar.js")
  {
    BarLiterals();
    CleanDotted(["bar"]);
    JsExtensionCase(FileTestFiles, "./bar", "bar", "bar.js");
  }

  /** resolve_test.go: "../bar" from "./src/index.js" is "bar.js". */
  lemma ResolveFromParent(fuel: nat)
    ensures ResolveFrom(Fresh(FileTestFiles), "./src/index.js", "../bar", fuel).1 == Resolved("bar.js")
  {
    ParentPath();
    BarAnswer();
    RelativeCase(FileTestFiles, "./src/index.js", "../bar", "./bar", "bar.js", fuel);
  }

  lemma SiblingPath()
    ensures "./" + GoPath.Join([GoPath.Dir("./src/foo.js"), "./foo"]) == "./src/foo"
  {
    SrcFileLiterals();
    DirOfSrcFile("./src/foo.js", "foo.js");
    CleanSrcDotFoo();
    JoinedRel("./src/foo.js", "./foo", "src", "src/foo");
    DotSlashLiterals();
  }

  lemma SrcFooLiterals()
    ensures Strs.Join(["src", "foo"], '/') == "src/foo" && "./" + "src/foo" == "./src/foo" && "src/foo" + ".js" == "src/foo.js"
    ensures "src/foo" !in FileTestFiles && "src/foo.js" in FileTestFiles
  {
    assert ["src", "foo"][1..] == ["foo"];
  }

  lemma SrcFooAnswer()
    ensures LocalAnswer(FileTestFiles, DefaultExtensions, "./src/foo") == Resolved("src/foo.js")
  {
    SrcFooLiterals();
    CleanDotted(["src", "foo"]);
    JsExtensionCase(FileTestFiles, "./src/foo", "src/foo", "src/foo.js");
  }

  /** resolve_test.go: "./foo" from "./src/foo.js" is "src/foo.js". */
  lemma ResolveFromSibling(fuel: nat)
    ensures ResolveFrom(Fresh(FileTestFiles), "./src/foo.js", "./foo", fuel).1 == Resolved("src/foo.js")
  {
    SiblingPath();
    SrcFooAnswer();
    RelativeCase(FileTestFiles, "./src/foo.js", "./foo", "./src/foo", "src/foo.js", fuel);
  }

  lemma DirIndexPath()
    ensures "./" + GoPath.Join([GoPath.Dir("./src/foo.js"), "./"]) == "./src"
  {
    SrcFileLiterals();
    DirOfSrcFile("./src/foo.js", "foo.js");
    CleanSrcDot();
    JoinedRel("./src/foo.js", "./", "src", "src");
    DotSlashLiterals();
  }

  /** Joining two plain segments gives a clean path. */
  lemma CleanTwo(a: string, b: string)
    requires GoPath.Plain(a) && GoPath.Plain(b)
    ensures GoPath.Clean(a + "/" + b) == a + "/" + b
  {
    assert [a, b][1..] == [b];
    assert Strs.Join([a, b], '/') == a + "/" + b;
    GoPath.CleanPlainJoin([a, b]);
  }

  lemma IndexLiterals()
    ensures DefaultExtensions[0] == ".js" && "index" + ".js" == "index.js"
    ensures "src" + "/" + "index.js" == "src/index.js"
    ensures GoPath.Plain("src") && GoPath.Plain("index.js")
  {
  }

  lemma SrcIndexFile()
    ensures IndexFiles("src", DefaultExtensions)[0] == "src/index.js"
  {
    IndexFileAt("src", DefaultExtensions, 0);
    IndexLiterals();
    GoPath.JoinPair("src", "index.js");
    CleanTwo("src", "index.js");
  }


  /** A target that cleans to `t`, with neither `t` nor any extended `t` present, resolves to its first index file when that exists. */
  lemma IndexCase(files: map<string, string>, target: string, t: string, file: string)
    requires GoPath.Clean(target) == t && t !in files
    requires forall j :: 0 <= j < |DefaultExtensions| ==> t + DefaultExtensions[j] !in files
    requires IndexFiles(t, DefaultExtensions)[0] == file && file in files
    ensures LocalAnswer(files, DefaultExtensions, target) == Resolved(file)
  {
    IndexFileWins(files, DefaultExtensions, target, 0);
  }

  lemma SrcMisses()
    ensures forall j :: 0 <= j < |DefaultExtensions| ==> "src" + DefaultExtensions[j] !in DirTestFiles
  {
    forall j | 0 <= j < |DefaultExtensions|
      ensures "src" + DefaultExtensions[j] !in DirTestFiles
    {
      var c := "src" + DefaultExtensions[j];
      assert DefaultExtensions[j][0] == '.';
      assert c[0] == 's' && c[3] == '.';
    }
  }

  lemma SrcLiterals()
    ensures Strs.Join(["src"], '/') == "src" && "./" + "src" == "./src"
    ensures "src" !in DirTestFiles && "src/index.js" in DirTestFiles
  {
  }

  lemma SrcIndexAnswer()
    ensures LocalAnswer(DirTestFiles, DefaultExtensions, "./src") == Resolved("src/index.js")
  {
    SrcLiterals();
    CleanDotted(["src"]);
    SrcMisses();
    SrcIndexFile();
    IndexCase(DirTestFiles, "./src", "src", "src/index.js");
  }

  /** resolve_test.go: "./" from "./src/foo.js" is the directory's index file "src/index.js". */
  lemma ResolveFromDirIndex(fuel: nat)
    ensures ResolveFrom(Fresh(DirTestFiles), "./src/foo.js", "./", fuel).1 == Resolved("src/index.js")
  {
    DirIndexPath();
    SrcIndexAnswer();
    RelativeCase(DirTestFiles, "./src/foo.js", "./", "./src", "src/index.js", fuel);
  }
}
