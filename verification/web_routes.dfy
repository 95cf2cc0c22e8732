/**
 * The routes the production web server registers for the embedded Next.js
 * export (server/web_prod.go, inside loadRoutes): the URL patterns an asset
 * path is served under, and the content type it is served with. Walking the
 * embedded file system and serving the file are not part of this model.
 */
module WebRoutes {
  import opened Results
  import opened Strs
  import GoPath

  // ---------------------------------------------------------------------
  // Dynamic segments

  /**
   * regexp `\[([^\]]+)\]` replaced by ":$1", scanning left to right: a '['
   * followed by at least one character before the next ']' is a parameter.
   */
  function ReplaceParams(s: string): (r: string)
    ensures '[' !in s ==> r == s
    decreases |s|
  {
    if s == "" then ""
    else
      var j := IndexChar(s[1..], ']');
      if s[0] == '[' && j > 0 then ":" + s[1..1 + j] + ReplaceParams(s[j + 2..])
      else [s[0]] + ReplaceParams(s[1..])
  }

  /** Text without '[' passes through unchanged, whatever follows it. */
  lemma {:induction false} PlainPrefix(a: string, u: string)
    requires '[' !in a
    ensures ReplaceParams(a + u) == a + ReplaceParams(u)
    decreases |a|
  {
    if a != "" {
      var s := a + u;
      assert s[0] == a[0];
      assert s[1..] == a[1..] + u;
      PlainPrefix(a[1..], u);
      assert a == [a[0]] + a[1..];
    } else {
      assert a + u == u;
    }
  }

  /** A "[name]" segment becomes ":name" and the text before it, which has no '[', is kept. */
  lemma ParamBecomesColon(a: string, name: string, b: string)
    requires '[' !in a && ']' !in name && name != ""
    ensures ReplaceParams(a + "[" + name + "]" + b) == a + (":" + name + ReplaceParams(b))
  {
    var t := "[" + name + "]" + b;
    calc {
      ReplaceParams(a + "[" + name + "]" + b);
      { assert a + "[" + name + "]" + b == a + t; }
      ReplaceParams(a + t);
      { PlainPrefix(a, t); }
      a + ReplaceParams(t);
      { ParamAtStart(name, b); }
      a + (":" + name + ReplaceParams(b));
    }
  }

  lemma ParamAtStart(name: string, b: string)
    requires ']' !in name && name != ""
    ensures ReplaceParams("[" + name + "]" + b) == ":" + name + ReplaceParams(b)
  {
    var s := "[" + name + "]" + b;
    assert s[1..] == name + "]" + b;
    FirstClose(name, b);
    assert s[1..1 + |name|] == name;
    assert s[|name| + 2..] == b;
  }

  lemma FirstClose(name: string, b: string)
    requires ']' !in name
    ensures IndexChar(name + "]" + b, ']') == |name|
  {
    var t := name + "]" + b;
    assert t[|name|] == ']';
    assert t[..|name|] == name;
  }

  // ---------------------------------------------------------------------
  // Routes of one asset

  /** The first route of a page before index trimming: parameters renamed, ".html" dropped. */
  function PageRoute(route: string): string {
    TrimSuffix(ReplaceParams(route), ".html")
  }

  /**
   * One turn of the loop over the routes: the route at `idx` is rewritten,
   * then loses a trailing "index" when the first route, as it stands at that
   * moment, ends in "/index".
   */
  function RewriteAt(routes: seq<string>, idx: nat): (r: seq<string>)
    requires idx < |routes|
    ensures |r| == |routes|
    ensures forall i :: 0 <= i < |routes| && i != idx ==> r[i] == routes[i]
  {
    var rs := routes[idx := PageRoute(routes[idx])];
    if HasSuffix(rs[0], "/index") then rs[idx := TrimSuffix(rs[idx], "index")] else rs
  }

  /** The loop over the routes from `idx` on. */
  function RewriteFrom(routes: seq<string>, idx: nat): (r: seq<string>)
    requires idx <= |routes|
    ensures |r| == |routes|
    decreases |routes| - idx
  {
    if idx == |routes| then routes else RewriteFrom(RewriteAt(routes, idx), idx + 1)
  }

  /** Every route rewritten; only the first loses its trailing "index", when it ends in "/index". */
  function FirstTrimmed(routes: seq<string>): (r: seq<string>)
    requires |routes| >= 1
    ensures |r| == |routes|
  {
    var pages := seq(|routes|, i requires 0 <= i < |routes| => PageRoute(routes[i]));
    if HasSuffix(pages[0], "/index") then pages[0 := TrimSuffix(pages[0], "index")] else pages
  }

  /** A route trimmed of "index" after "/index" ends in '/', so it no longer ends in "/index". */
  lemma TrimmedEndsInSlash(s: string)
    requires HasSuffix(s, "/index")
    ensures !HasSuffix(TrimSuffix(s, "index"), "/index")
  {
    var t := TrimSuffix(s, "index");
    assert s[|s| - 6..][0] == '/';
    assert t == s[..|s| - 5];
    assert t[|t| - 1] == '/';
    assert "/index"[5] == 'x';
  }

  /** The first turn gives the first route its final form, which does not end in "/index". */
  lemma FirstTurn(routes: seq<string>)
    requires |routes| >= 1
    ensures RewriteAt(routes, 0)[0] == FirstTrimmed(routes)[0]
    ensures !HasSuffix(RewriteAt(routes, 0)[0], "/index")
  {
    var p := PageRoute(routes[0]);
    if HasSuffix(p, "/index") {
      TrimmedEndsInSlash(p);
    }
  }

  /** Once the first route does not end in "/index", the later turns only rewrite. */
  lemma {:induction false} LaterTurnsOnlyRewrite(routes: seq<string>, idx: nat)
    requires 1 <= idx <= |routes|
    requires !HasSuffix(routes[0], "/index")
    ensures var r := RewriteFrom(routes, idx);
      && r[..idx] == routes[..idx]
      && forall i :: idx <= i < |routes| ==> r[i] == PageRoute(routes[i])
    decreases |routes| - idx
  {
    if idx < |routes| {
      var next := LaterTurn(routes, idx);
      LaterTurnsOnlyRewrite(next, idx + 1);
      LaterTurnsGlue(routes, next, RewriteFrom(next, idx + 1), idx);
    }
  }

  lemma LaterTurnsGlue(routes: seq<string>, next: seq<string>, r: seq<string>, idx: nat)
    requires idx < |routes| && next == routes[idx := PageRoute(routes[idx])] && |r| == |routes|
    requires r[..idx + 1] == next[..idx + 1]
    requires forall i :: idx + 1 <= i < |next| ==> r[i] == PageRoute(next[i])
    ensures r[..idx] == routes[..idx]
    ensures forall i :: idx <= i < |routes| ==> r[i] == PageRoute(routes[i])
  {
    assert r[..idx] == r[..idx + 1][..idx];
    assert r[idx] == r[..idx + 1][idx];
  }

  /** A later turn, with the first route already final, rewrites only its own route. */
  lemma LaterTurn(routes: seq<string>, idx: nat) returns (next: seq<string>)
    requires 1 <= idx < |routes|
    requires !HasSuffix(routes[0], "/index")
    ensures next == RewriteAt(routes, idx) && RewriteFrom(routes, idx) == RewriteFrom(next, idx + 1)
    ensures next == routes[idx := PageRoute(routes[idx])]
    ensures next[..idx] == routes[..idx] && next[0] == routes[0]
  {
    next := RewriteAt(routes, idx);
    assert next[..idx] == routes[..idx];
  }

  lemma FirstTrimmedLater(routes: seq<string>, i: nat)
    requires 1 <= i < |routes|
    ensures FirstTrimmed(routes)[i] == PageRoute(routes[i])
  {
  }

  /** The loop over all routes is the first turn followed by the loop from the second route. */
  lemma LoopSplits(routes: seq<string>)
    requires |routes| >= 1
    ensures RewriteFrom(routes, 0) == RewriteFrom(RewriteAt(routes, 0), 1)
  {
  }

  lemma LoopHead(routes: seq<string>)
    requires |routes| >= 1
    ensures RewriteFrom(routes, 0)[0] == FirstTrimmed(routes)[0]
  {
    var first := RewriteAt(routes, 0);
    FirstTurn(routes);
    LaterTurnsOnlyRewrite(first, 1);
    LoopSplits(routes);
    var r := RewriteFrom(first, 1);
    assert r[..1][0] == r[0] && first[..1][0] == first[0];
  }

  lemma LoopTail(routes: seq<string>)
    requires |routes| >= 1
    ensures forall i :: 1 <= i < |routes| ==> RewriteFrom(routes, 0)[i] == FirstTrimmed(routes)[i]
  {
    var first := RewriteAt(routes, 0);
    FirstTurn(routes);
    LaterTurnsOnlyRewrite(first, 1);
    LoopSplits(routes);
    forall i | 1 <= i < |routes|
      ensures RewriteFrom(routes, 0)[i] == FirstTrimmed(routes)[i]
    {
      FirstTrimmedLater(routes, i);
      assert first[i] == routes[i];
    }
  }

  lemma SameRoutes(r: seq<string>, f: seq<string>)
    requires |r| == |f| >= 1 && r[0] == f[0]
    requires forall i :: 1 <= i < |r| ==> r[i] == f[i]
    ensures r == f
  {
    assert forall i :: 0 <= i < |r| ==> r[i] == f[i];
  }

  /**
   * The loop as a whole: every route is rewritten, and only the first can lose
   * its "index", because the check on the first route sees it already trimmed.
   */
  lemma LoopTrimsOnlyFirst(routes: seq<string>)
    requires |routes| >= 1
    ensures RewriteFrom(routes, 0) == FirstTrimmed(routes)
  {
    LoopHead(routes);
    LoopTail(routes);
    SameRoutes(RewriteFrom(routes, 0), FirstTrimmed(routes));
  }

  /** Where a catch-all "[[..." starts in a route, if anywhere. */
  function WildcardStart(route: string): int {
    Index(route, "[[...")
  }

  /**
   * The routes an asset is served under. None stands for the slice panics of
   * a catch-all page whose "[[..." is at the very start or whose remainder is
   * shorter than "]].html".
   */
  function Routes(assetPath: string): (r: Option<seq<string>>)
    ensures !HasSuffix(assetPath, ".html") ==> r == Some([TrimPrefix(assetPath, "web")])
    ensures r.Some? ==> 1 <= |r.value| <= 2
  {
    var base := TrimPrefix(assetPath, "web");
    if !HasSuffix(assetPath, ".html") then Some([base])
    else
      var w := WildcardStart(base);
      if w == -1 then Some(RewriteFrom([base], 0))
      else if w == 0 || |base| - (w + 5) < 7 then None
      else
        var name := base[w + 5..][..|base| - (w + 5) - 7];
        Some(RewriteFrom([base[..w - 1], base[..w] + "*" + name], 0))
  }

  /** A page without a catch-all gets one route; a catch-all page gets the route of its directory and a wildcard route. */
  lemma RoutesOfPage(assetPath: string)
    requires HasSuffix(assetPath, ".html")
    requires Routes(assetPath).Some?
    ensures var base := TrimPrefix(assetPath, "web");
      WildcardStart(base) == -1 <==> |Routes(assetPath).value| == 1
  {
  }

  /** An index page is served under its directory, with the trailing slash. */
  lemma IndexPageRoute(dir: string)
    requires '[' !in dir
    ensures Routes("web" + dir + "/index.html") == Some([dir + "/"])
  {
    var base := dir + "/index.html";
    IndexPagePath(dir);
    NoBracketNoWildcard(base);
    IndexPageTrim(dir);
    assert PageRoute(base) == dir + "/index";
    LoopTrimsOnlyFirst([base]);
    var t := FirstTrimmed([base]);
    assert |t| == 1 && t[0] == dir + "/";
    assert t == [dir + "/"];
  }

  lemma IndexPagePath(dir: string)
    ensures TrimPrefix("web" + dir + "/index.html", "web") == dir + "/index.html"
    ensures HasSuffix("web" + dir + "/index.html", ".html")
    ensures '[' !in dir ==> '[' !in dir + "/index.html"
  {
    var p := "web" + dir + "/index.html";
    assert p[..3] == "web";
    assert p[3..] == dir + "/index.html";
    assert p[|p| - 5..] == ".html";
  }

  lemma IndexPageTrim(dir: string)
    ensures TrimSuffix(dir + "/index.html", ".html") == dir + "/index"
    ensures HasSuffix(dir + "/index", "/index")
    ensures TrimSuffix(dir + "/index", "index") == dir + "/"
  {
    var p := dir + "/index.html";
    assert p[|p| - 5..] == ".html";
    assert p[..|p| - 5] == dir + "/index";
    var q := dir + "/index";
    assert q[|q| - 6..] == "/index";
    assert q[|q| - 5..] == "index";
    assert q[..|q| - 5] == dir + "/";
  }

  lemma NoBracketNoWildcard(s: string)
    requires '[' !in s
    ensures WildcardStart(s) == -1
  {
    forall j | 0 <= j && j + 5 <= |s|
      ensures !OccursAt(s, "[[...", j)
    {
      assert s[j] in s;
      assert s[j..j + 5][0] == s[j];
    }
  }

  /** The routes of a catch-all page "<dir>/[[...<name>]].html". */
  lemma CatchAllRoutes(dir: string, name: string)
    requires dir != "" && Index(dir + "/", "[[...") == -1
    ensures var base := dir + "/[[..." + name + "]].html";
      Routes("web" + base) == Some(FirstTrimmed([dir, dir + "/*" + name]))
  {
    var base := dir + "/[[..." + name + "]].html";
    LoopTrimsOnlyFirst([dir, dir + "/*" + name]);
    CatchAllPath(dir, name);
    CatchAllStart(dir, name);
    CatchAllSlices(dir, name);
  }

  lemma CatchAllPath(dir: string, name: string)
    ensures var base := dir + "/[[..." + name + "]].html";
      TrimPrefix("web" + base, "web") == base && HasSuffix("web" + base, ".html")
  {
    var base := dir + "/[[..." + name + "]].html";
    var p := "web" + base;
    assert p[..3] == "web";
    assert p[|p| - 5..] == ".html";
  }

  lemma CatchAllStart(dir: string, name: string)
    requires Index(dir + "/", "[[...") == -1
    ensures WildcardStart(dir + "/[[..." + name + "]].html") == |dir| + 1
  {
    var base := dir + "/[[..." + name + "]].html";
    var w := |dir| + 1;
    assert base[w..w + 5] == "[[...";
    assert OccursAt(base, "[[...", w);
    forall j | 0 <= j < w
      ensures !OccursAt(base, "[[...", j)
    {
      NoEarlierWildcard(dir, name, j);
    }
  }

  lemma CatchAllSlices(dir: string, name: string)
    ensures var base := dir + "/[[..." + name + "]].html";
      var w := |dir| + 1;
      && base[w + 5..][..|base| - (w + 5) - 7] == name
      && base[..w - 1] == dir
      && base[..w] + "*" + name == dir + "/*" + name
  {
    var base := dir + "/[[..." + name + "]].html";
    var w := |dir| + 1;
    assert base[w + 5..] == name + "]].html";
    assert (name + "]].html")[..|name|] == name;
    assert base[..w] == dir + "/";
  }

  lemma NoEarlierWildcard(dir: string, name: string, j: int)
    requires Index(dir + "/", "[[...") == -1
    requires 0 <= j < |dir| + 1
    ensures !OccursAt(dir + "/[[..." + name + "]].html", "[[...", j)
  {
    var base := dir + "/[[..." + name + "]].html";
    if j + 5 <= |dir| + 1 {
      assert !OccursAt(dir + "/", "[[...", j);
      assert base[j..j + 5] == (dir + "/")[j..j + 5];
    } else {
      assert base[j..j + 5][|dir| - j] == '/';
      assert "[[..."[|dir| - j] != '/';
    }
  }

  // ---------------------------------------------------------------------
  // Content types

  /** The content type an asset is served with: CSS and JavaScript by extension, HTML otherwise. */
  function MimeType(assetPath: string): (r: string)
    ensures r in {"text/css", "text/javascript", "text/html"}
    ensures r == "text/css" <==> GoPath.Ext(assetPath) == ".css"
    ensures r == "text/javascript" <==> GoPath.Ext(assetPath) == ".js"
  {
    var ext := GoPath.Ext(assetPath);
    if ext == ".css" then "text/css"
    else if ext == ".js" then "text/javascript"
    else "text/html"
  }

  /** The extension of "x.suffix" for a suffix without '.' or '/' is ".suffix". */
  lemma {:induction false} ExtOfSuffix(x: string, suffix: string)
    requires '.' !in suffix && '/' !in suffix
    ensures GoPath.Ext(x + "." + suffix) == "." + suffix
    decreases |suffix|
  {
    if suffix == "" {
      ExtOfDot(x);
    } else {
      var pre := suffix[..|suffix| - 1];
      var c := suffix[|suffix| - 1];
      assert suffix[|suffix| - 1] in suffix;
      assert suffix == pre + [c];
      ExtOfSuffix(x, pre);
      ExtOfSuffixStep(x, pre, c);
    }
  }

  lemma ExtOfDot(x: string)
    ensures GoPath.Ext(x + "." + "") == "." + ""
  {
    var q := x + "." + "";
    assert q[|q| - 1] == '.';
  }

  lemma ExtOfSuffixStep(x: string, pre: string, c: char)
    requires c != '.' && c != '/'
    requires GoPath.Ext(x + "." + pre) == "." + pre
    ensures GoPath.Ext(x + "." + (pre + [c])) == "." + (pre + [c])
  {
    var q := x + "." + pre;
    ExtAppend(q, c);
    SnocAssoc(x + ".", pre, c);
    SnocAssoc(".", pre, c);
  }

  lemma SnocAssoc(a: string, b: string, c: char)
    ensures a + (b + [c]) == (a + b) + [c]
  {
  }

  /** Appending a character other than '.' or '/' extends a non-empty extension by it. */
  lemma ExtAppend(q: string, c: char)
    requires c != '.' && c != '/'
    ensures GoPath.Ext(q + [c]) == if GoPath.Ext(q) == "" then "" else GoPath.Ext(q) + [c]
  {
    assert (q + [c])[..|q|] == q;
  }

  /** Stylesheets, scripts and pages get their content types by file name. */
  lemma MimeTypeByName(x: string)
    ensures MimeType(x + ".css") == "text/css"
    ensures MimeType(x + ".js") == "text/javascript"
    ensures MimeType(x + ".html") == "text/html"
  {
    ExtOfSuffix(x, "css");
    ExtOfSuffix(x, "js");
    ExtOfSuffix(x, "html");
    assert x + ".css" == x + "." + "css";
    assert x + ".js" == x + "." + "js";
    assert x + ".html" == x + "." + "html";
  }
}
