/**
 * The parts of Go's `net/url` the core relies on: `Parse` (scheme, opaque
 * part, user@host authority, path, query and fragment), `ResolveReference`
 * for a reference that carries only a path (RFC 3986 section 5.2, with the
 * dot-segment removal of section 5.2.4), and `JoinPath`. Percent-escapes are
 * kept as written: the model never unescapes and never rejects a bad escape.
 */
module Urls {
  import opened Results
  import opened Strs
  import opened Splits
  import GoPath

  datatype Url = Url(
    scheme: string,
    opaquePart: string,
    user: Option<string>,
    host: string,
    path: string,
    forceQuery: bool,
    rawQuery: string,
    fragment: string)

  /** A URL that is nothing but a path, the shape `&url.URL{Path: p}` builds. */
  function PathOnly(p: string): Url {
    Url("", "", None, "", p, false, "", "")
  }

  predicate IsLetter(c: char) {
    'a' <= c <= 'z' || 'A' <= c <= 'Z'
  }

  /** The characters allowed in a scheme after its first letter. */
  predicate SchemeChar(c: char) {
    IsLetter(c) || IsDigit(c) || c == '+' || c == '-' || c == '.'
  }

  predicate ValidScheme(s: string) {
    s != "" && IsLetter(s[0]) && forall i :: 0 <= i < |s| ==> SchemeChar(s[i])
  }

  /** getScheme's scan from `i`: the position of the ':' ending a scheme, or -1 when there is none. */
  function SchemeColon(s: string, i: nat): (r: int)
    requires i <= |s|
    requires forall j :: 0 <= j < i ==> SchemeChar(s[j])
    requires i > 0 ==> IsLetter(s[0])
    ensures -1 <= r < |s|
    ensures r == -1 || r >= i
    ensures r >= i ==> (s[r] == ':' && ValidScheme(s[..r])) || (r == 0 && s[0] == ':')
    decreases |s| - i
  {
    if i >= |s| then -1
    else if IsLetter(s[i]) then SchemeColon(s, i + 1)
    else if IsDigit(s[i]) || s[i] == '+' || s[i] == '-' || s[i] == '.' then
      (if i == 0 then -1 else SchemeColon(s, i + 1))
    else if s[i] == ':' then i
    else -1
  }

  /** getScheme: the scheme and the rest, no scheme at all, or an error for a leading ':'. */
  function GetScheme(s: string): (r: Result<(string, string), string>)
    ensures r.Err? <==> s != "" && s[0] == ':'
    ensures r.Ok? && r.value.0 != "" ==> ValidScheme(r.value.0) && s == r.value.0 + ":" + r.value.1
    ensures r.Ok? && r.value.0 == "" ==> r.value.1 == s
  {
    var i := SchemeColon(s, 0);
    if i == 0 then Err("missing protocol scheme")
    else if i < 0 then Ok(("", s))
    else Ok((s[..i], s[i + 1..]))
  }

  function ToLowerChar(c: char): char {
    if 'A' <= c <= 'Z' then (c as int + 32) as char else c
  }

  function ToLower(s: string): (r: string)
    ensures |r| == |s|
    ensures forall i :: 0 <= i < |s| ==> r[i] == ToLowerChar(s[i])
  {
    if s == "" then "" else [ToLowerChar(s[0])] + ToLower(s[1..])
  }

  /** Control characters, which `Parse` refuses anywhere. */
  predicate IsCtl(c: char) {
    c < ' ' || c == 0x7f as char
  }

  /** strings.Cut on one character: the text before the first `c`, the text after it, and whether it occurs. */
  function Cut(s: string, c: char): (r: (string, string, bool))
    ensures r.2 <==> c in s
    ensures r.2 ==> s == r.0 + [c] + r.1 && c !in r.0
    ensures !r.2 ==> r.0 == s && r.1 == ""
  {
    var i := IndexChar(s, c);
    if i < 0 then (s, "", false) else (s[..i], s[i + 1..], true)
  }

  function CountChar(s: string, c: char): nat {
    if s == "" then 0 else (if s[0] == c then 1 else 0) + CountChar(s[1..], c)
  }

  /** parseAuthority without host validation: userinfo is what precedes the last '@'. */
  function SplitAuthority(authority: string): (r: (Option<string>, string))
    ensures r.0.None? <==> '@' !in authority
    ensures r.0.Some? ==> authority == r.0.value + "@" + r.1 && '@' !in r.1
    ensures r.0.None? ==> r.1 == authority
  {
    var i := LastIndexChar(authority, '@');
    if i < 0 then (None, authority) else (Some(authority[..i]), authority[i + 1..])
  }

  /** Parse's query step: a lone trailing '?' forces an empty query, otherwise the query follows the first '?'. */
  function SplitQuery(rest0: string): (r: (string, string, bool))
    ensures r.2 ==> rest0 == r.0 + "?" && r.1 == ""
    ensures !r.2 && '?' in rest0 ==> rest0 == r.0 + "?" + r.1
    ensures !r.2 && '?' !in rest0 ==> r.0 == rest0 && r.1 == ""
    ensures '?' !in r.0
  {
    if HasSuffix(rest0, "?") && CountChar(rest0, '?') == 1 then
      CountSplit(rest0[..|rest0| - 1], "?", '?');
      CountZero(rest0[..|rest0| - 1], '?');
      assert rest0 == rest0[..|rest0| - 1] + "?";
      (rest0[..|rest0| - 1], "", true)
    else
      var q := Cut(rest0, '?');
      (q.0, q.1, false)
  }

  /** What Parse does once the scheme and the query are split off: opaque text, authority, or a bare path. */
  function ParseHier(scheme: string, rest: string, query: string, force: bool): (r: Result<Url, string>)
    ensures r.Ok? ==> r.value.scheme == scheme && r.value.fragment == ""
    ensures r.Ok? ==> r.value.rawQuery == query && r.value.forceQuery == force
  {
    if !HasPrefix(rest, "/") && scheme != "" then
      Ok(Url(scheme, rest, None, "", "", force, query, ""))
    else if !HasPrefix(rest, "/") && ':' in Cut(rest, '/').0 then
      Err("first path segment in URL cannot contain colon")
    else if (scheme != "" || !HasPrefix(rest, "///")) && HasPrefix(rest, "//") then
      var a := Cut(rest[2..], '/');
      var auth := SplitAuthority(a.0);
      var p := if a.2 then "/" + a.1 else "";
      Ok(Url(scheme, "", auth.0, auth.1, p, force, query, ""))
    else
      Ok(Url(scheme, "", None, "", rest, force, query, ""))
  }

  /** Everything Parse does after the scheme is known, for a text without '#'. */
  function ParseRest(scheme: string, rest0: string): (r: Result<Url, string>)
    ensures r.Ok? ==> r.value.scheme == scheme && r.value.fragment == ""
  {
    var q := SplitQuery(rest0);
    ParseHier(scheme, q.0, q.1, q.2)
  }

  /** Go's unexported parse: the text before any '#'. */
  function ParseReference(u: string): (r: Result<Url, string>)
    ensures r.Ok? ==> r.value.fragment == ""
    ensures (exists i :: 0 <= i < |u| && IsCtl(u[i])) ==> r.Err?
  {
    if exists i :: 0 <= i < |u| && IsCtl(u[i]) then Err("net/url: invalid control character in URL")
    else if u == "*" then Ok(PathOnly("*"))
    else
      var sch := GetScheme(u);
      if sch.Err? then Err(sch.error)
      else ParseRest(ToLower(sch.value.0), sch.value.1)
  }

  /** url.Parse: the fragment is cut off first, the rest is parsed. */
  function Parse(raw: string): (r: Result<Url, string>)
    ensures r.Ok? && '#' !in raw ==> r.value.fragment == ""
  {
    var cut := Cut(raw, '#');
    var parsed := ParseReference(cut.0);
    if parsed.Err? then parsed else Ok(parsed.value.(fragment := cut.1))
  }

  function SchemePart(u: Url): string {
    if u.scheme != "" then u.scheme + ":" else ""
  }

  function UserPart(u: Url): string {
    UserText(u.user)
  }

  function QueryPart(u: Url): string {
    if u.forceQuery || u.rawQuery != "" then "?" + u.rawQuery else ""
  }

  function FragmentPart(u: Url): string {
    if u.fragment != "" then "#" + u.fragment else ""
  }

  /** URL.String for a URL whose parts need no percent-escaping. */
  function Format(u: Url): string {
    var body :=
      if u.opaquePart != "" then u.opaquePart
      else
        var auth :=
          if u.scheme != "" || u.host != "" || u.user.Some? then
            (if u.host != "" || u.path != "" || u.user.Some? then "//" else "") + UserPart(u) + u.host
          else "";
        var slash := if u.path != "" && u.path[0] != '/' && u.host != "" then "/" else "";
        var dotSlash := if SchemePart(u) + auth == "" && ':' in Cut(u.path, '/').0 then "./" else "";
        auth + slash + dotSlash + u.path;
    SchemePart(u) + body + QueryPart(u) + FragmentPart(u)
  }

  /** No control character and none of `banned`. */
  predicate Clear(s: string, banned: set<char>) {
    forall i :: 0 <= i < |s| ==> s[i] !in banned && !IsCtl(s[i])
  }

  predicate IsLowerScheme(s: string) {
    ValidScheme(s) && forall i :: 0 <= i < |s| ==> ToLowerChar(s[i]) == s[i]
  }

  /** A hierarchical URL with a host whose printed form needs no escaping. */
  predicate WellFormed(u: Url) {
    && (u.scheme == "" || IsLowerScheme(u.scheme))
    && u.opaquePart == ""
    && u.host != "" && Clear(u.host, {'/', '?', '#', '@'})
    && (u.user.Some? ==> Clear(u.user.value, {'/', '?', '#'}))
    && (u.path == "" || u.path[0] == '/') && Clear(u.path, {'?', '#'})
    && Clear(u.rawQuery, {'#'})
    && (u.forceQuery ==> u.rawQuery == "")
  }

  // ---------------------------------------------------------------------
  // Facts about cutting and counting

  lemma CutAt(a: string, b: string, c: char)
    requires c !in a
    ensures Cut(a + [c] + b, c) == (a, b, true)
  {
    var s := a + [c] + b;
    assert s[|a|] == c;
    assert s[..|a|] == a;
    assert s[|a| + 1..] == b;
  }

  lemma CutNone(a: string, c: char)
    requires c !in a
    ensures Cut(a, c) == (a, "", false)
  {
  }

  lemma {:induction false} CountSplit(a: string, b: string, c: char)
    ensures CountChar(a + b, c) == CountChar(a, c) + CountChar(b, c)
    decreases |a|
  {
    if a == "" {
      assert a + b == b;
    } else {
      assert (a + b)[1..] == a[1..] + b;
      CountSplit(a[1..], b, c);
    }
  }

  lemma {:induction false} CountZero(a: string, c: char)
    ensures CountChar(a, c) == 0 <==> c !in a
    decreases |a|
  {
    if a != "" {
      CountZero(a[1..], c);
      assert a == [a[0]] + a[1..];
    }
  }

  // ---------------------------------------------------------------------
  // Dot-segment removal (Go's resolvePath)

  /** One segment of resolvePath's scan; `dst` always starts with '/'. */
  function DotStep(dst: string, first: bool, elem: string): (r: (string, bool))
    requires dst != "" && dst[0] == '/'
    ensures r.0 != "" && r.0[0] == '/'
  {
    if elem == "." then (dst, false)
    else if elem == ".." then
      var str := dst[1..];
      var index := LastIndexChar(str, '/');
      if index == -1 then ("/", true) else ("/" + str[..index], first)
    else if !first then (dst + "/" + elem, false)
    else (dst + elem, false)
  }

  function DotScan(dst: string, first: bool, elems: seq<string>): (r: (string, bool))
    requires dst != "" && dst[0] == '/'
    ensures r.0 != "" && r.0[0] == '/'
    decreases |elems|
  {
    if elems == [] then (dst, first)
    else
      var st := DotStep(dst, first, elems[0]);
      DotScan(st.0, st.1, elems[1..])
  }

  /** The first half of resolvePath: a relative reference replaces the last element of the base. */
  function MergePath(base: string, ref: string): (full: string)
    ensures ref != "" ==> full != ""
  {
    if ref == "" then base
    else if ref[0] != '/' then base[..LastIndexChar(base, '/') + 1] + ref
    else ref
  }

  /** The second half of resolvePath: dot segments are removed, a leading '/' is kept. */
  function RemoveDots(full: string): (r: string)
    ensures r == "" <==> full == ""
    ensures r == "" || r[0] == '/'
  {
    if full == "" then ""
    else
      var elems := Split(full, '/');
      FinishDots(DotScan("/", true, elems).0, elems[|elems| - 1])
  }

  /** resolvePath's last steps: a final "." or ".." leaves a trailing '/', and a doubled leading '/' is dropped. */
  function FinishDots(dst: string, last: string): (r: string)
    requires dst != "" && dst[0] == '/'
    ensures r != "" && r[0] == '/'
  {
    var d := if last == "." || last == ".." then dst + "/" else dst;
    if |d| > 1 && d[1] == '/' then d[1..] else d
  }

  /** resolvePath(base, ref). */
  function ResolvePath(base: string, ref: string): (r: string)
    ensures r == "" || r[0] == '/'
  {
    RemoveDots(MergePath(base, ref))
  }

  /** `u.ResolveReference(&url.URL{Path: p})`. */
  function ResolveReference(u: Url, p: string): (r: Url)
    ensures p != "" ==> r.scheme == u.scheme && r.host == u.host && r.user == u.user
    ensures p != "" ==> r.rawQuery == "" && r.fragment == "" && r.opaquePart == ""
    ensures r.path == "" || r.path[0] == '/'
  {
    var base := Url(u.scheme, "", None, "", p, false, "", "");
    var withQuery :=
      if p == "" then base.(rawQuery := u.rawQuery, fragment := u.fragment) else base;
    if p == "" && u.opaquePart != "" then withQuery.(opaquePart := u.opaquePart, path := "")
    else withQuery.(host := u.host, user := u.user, path := ResolvePath(u.path, p))
  }

  /** The path URL.JoinPath builds for one element: path.Join, kept relative when the URL's path is. */
  function JoinedPath(path: string, elem: string): string {
    if HasPrefix(path, "/") then GoPath.Join([path, elem])
    else
      var j := GoPath.Join(["/" + path, elem]);
      assert j == GoPath.Clean("/" + path + "/" + elem) by { GoPath.JoinPair("/" + path, elem); }
      j[1..]
  }

  /** `u.JoinPath(elem)` for one element without a trailing slash. */
  function JoinPath(u: Url, elem: string): (r: Url)
    ensures r == u.(path := r.path)
  {
    u.(path := JoinedPath(u.path, elem))
  }

  // ---------------------------------------------------------------------
  // Parse is a left inverse of Format on well-formed URLs

  lemma {:induction false} SchemeColonAt(s: string, n: nat, i: nat)
    requires n < |s| && s[n] == ':' && ValidScheme(s[..n])
    requires i <= n
    requires forall j :: 0 <= j < i ==> SchemeChar(s[j])
    requires i > 0 ==> IsLetter(s[0])
    ensures SchemeColon(s, i) == n
    decreases n - i
  {
    if i < n {
      assert s[i] == s[..n][i];
      assert SchemeChar(s[i]);
      assert i == 0 ==> IsLetter(s[i]) by { assert s[0] == s[..n][0]; }
      SchemeColonAt(s, n, i + 1);
    }
  }

  /** GetScheme recovers a valid scheme written before ':'. */
  lemma SchemeOf(sc: string, rest: string)
    requires ValidScheme(sc)
    ensures GetScheme(sc + ":" + rest) == Ok((sc, rest))
  {
    var s := sc + ":" + rest;
    assert s[..|sc|] == sc;
    SchemeColonAt(s, |sc|, 0);
    assert s[|sc| + 1..] == rest;
  }

  lemma {:induction false} LowerOfLower(s: string)
    requires forall i :: 0 <= i < |s| ==> ToLowerChar(s[i]) == s[i]
    ensures ToLower(s) == s
  {
  }

  lemma ClearConcat(a: string, b: string, banned: set<char>)
    requires Clear(a, banned) && Clear(b, banned)
    ensures Clear(a + b, banned)
  {
    forall i | 0 <= i < |a + b|
      ensures (a + b)[i] !in banned && !IsCtl((a + b)[i])
    {
      if i < |a| { assert (a + b)[i] == a[i]; } else { assert (a + b)[i] == b[i - |a|]; }
    }
  }

  lemma ClearFewer(s: string, banned: set<char>, fewer: set<char>)
    requires Clear(s, banned) && fewer <= banned
    ensures Clear(s, fewer)
  {
  }

  lemma SplitQueryForced(body: string)
    requires body != "" && '?' !in body
    ensures SplitQuery(body + "?") == (body, "", true)
  {
    var rest0 := body + "?";
    CountZero(body, '?');
    CountSplit(body, "?", '?');
    assert rest0[..|rest0| - 1] == body;
  }

  lemma SplitQueryGiven(body: string, rq: string)
    requires body != "" && '?' !in body && rq != ""
    ensures SplitQuery(body + "?" + rq) == (body, rq, false)
  {
    var rest0 := body + "?" + rq;
    assert !(HasSuffix(rest0, "?") && CountChar(rest0, '?') == 1) by {
      if HasSuffix(rest0, "?") {
        assert rq[|rq| - 1] == rest0[|rest0| - 1];
        CountZero(rq, '?');
        CountZero(body, '?');
        CountSplit(body, "?", '?');
        CountSplit(body + "?", rq, '?');
        assert CountChar(rest0, '?') == 1 + CountChar(rq, '?');
      }
    }
    assert rest0 == body + ['?'] + rq;
    CutAt(body, rq, '?');
  }

  lemma SplitQueryNone(body: string)
    requires body != "" && '?' !in body
    ensures SplitQuery(body) == (body, "", false)
  {
    assert body[|body| - 1] in body;
    CutNone(body, '?');
  }

  /** The query step on "body" followed by the printed query. */
  lemma SplitQueryOf(body: string, u: Url)
    requires body != "" && '?' !in body
    requires u.forceQuery ==> u.rawQuery == ""
    ensures SplitQuery(body + QueryPart(u)) == (body, u.rawQuery, u.forceQuery)
  {
    if u.forceQuery {
      assert body + QueryPart(u) == body + "?";
      SplitQueryForced(body);
    } else if u.rawQuery != "" {
      assert body + QueryPart(u) == body + "?" + u.rawQuery;
      SplitQueryGiven(body, u.rawQuery);
    } else {
      assert body + QueryPart(u) == body;
      SplitQueryNone(body);
    }
  }

  lemma AuthorityThenPath(ah: string, path: string)
    requires '/' !in ah && (path == "" || path[0] == '/')
    ensures var a := Cut(ah + path, '/');
      a.0 == ah && (if a.2 then "/" + a.1 else "") == path
  {
    if path != "" {
      assert ah + path == ah + ['/'] + path[1..];
      CutAt(ah, path[1..], '/');
    } else {
      assert ah + path == ah;
      CutNone(ah, '/');
    }
  }

  lemma SplitUserInfo(ui: string, host: string)
    requires '@' !in host
    ensures SplitAuthority(ui + "@" + host) == (Some(ui), host)
  {
    var ah := ui + "@" + host;
    var i := LastIndexChar(ah, '@');
    assert ah[|ui|] == '@';
    assert ah[|ui| + 1..] == host;
    assert i == |ui|;
    assert ah[..i] == ui;
  }

  function UserText(user: Option<string>): string {
    if user.Some? then user.value + "@" else ""
  }

  /** The authority and path step on "//user@host/path". */
  lemma AuthorityOf(user: Option<string>, host: string, path: string)
    requires '/' !in host && '@' !in host
    requires user.Some? ==> '/' !in user.value
    requires path == "" || path[0] == '/'
    ensures
      var rest := "//" + UserText(user) + host + path;
      var a := Cut(rest[2..], '/');
      var auth := SplitAuthority(a.0);
      auth == (user, host) && (if a.2 then "/" + a.1 else "") == path
  {
    var rest := "//" + UserText(user) + host + path;
    var ah := UserText(user) + host;
    assert rest[2..] == ah + path;
    if user.Some? {
      assert ah == user.value + "@" + host;
      assert '/' !in user.value + "@";
      SplitUserInfo(user.value, host);
    } else {
      assert ah == host;
    }
    AuthorityThenPath(ah, path);
  }

  /** The "//user@host/path" text a well-formed URL prints after its scheme. */
  function HierPart(u: Url): string {
    "//" + UserPart(u) + u.host + u.path
  }

  lemma NoDoubleRoot(ah: string, path: string)
    requires ah != "" && '/' !in ah
    ensures !HasPrefix("//" + ah + path, "///")
  {
    assert ("//" + ah + path)[2] == ah[0];
  }

  lemma ParseHierOf(scheme: string, user: Option<string>, host: string, path: string, query: string, force: bool)
    requires host != "" && '/' !in host && '@' !in host
    requires user.Some? ==> '/' !in user.value
    requires path == "" || path[0] == '/'
    ensures ParseHier(scheme, "//" + UserText(user) + host + path, query, force)
      == Ok(Url(scheme, "", user, host, path, force, query, ""))
  {
    var rest := "//" + UserText(user) + host + path;
    AuthorityNoSlash(user, host);
    NoDoubleRoot(UserText(user) + host, path);
    DoubleSlashLead(UserText(user) + host, path);
    ParseHierAuthority(scheme, rest, query, force);
    AuthorityOf(user, host, path);
  }

  /** A text behind "//", but not "///", is read as an authority and a path. */
  lemma ParseHierAuthority(scheme: string, rest: string, query: string, force: bool)
    requires HasPrefix(rest, "//") && HasPrefix(rest, "/") && !HasPrefix(rest, "///")
    ensures var a := Cut(rest[2..], '/');
      var auth := SplitAuthority(a.0);
      ParseHier(scheme, rest, query, force) == Ok(Url(scheme, "", auth.0, auth.1, if a.2 then "/" + a.1 else "", force, query, ""))
  {
  }

  lemma AuthorityNoSlash(user: Option<string>, host: string)
    requires host != "" && '/' !in host
    requires user.Some? ==> '/' !in user.value
    ensures UserText(user) + host != "" && '/' !in UserText(user) + host
  {
    if user.Some? { assert UserText(user) + host == user.value + "@" + host; }
  }

  lemma DoubleSlashLead(ah: string, path: string)
    ensures HasPrefix("//" + ah + path, "//") && HasPrefix("//" + ah + path, "/")
  {
    var body := "//" + ah + path;
    assert body[..2] == "//";
    assert body[..1] == "/";
  }

  lemma ParseRestHier(u: Url)
    requires WellFormed(u)
    requires '?' !in HierPart(u)
    ensures ParseRest(u.scheme, HierPart(u) + QueryPart(u)) == Ok(u.(fragment := ""))
  {
    SplitQueryOf(HierPart(u), u);
    assert '/' !in u.host && '@' !in u.host;
    assert u.user.Some? ==> '/' !in u.user.value;
    ParseHierOf(u.scheme, u.user, u.host, u.path, u.rawQuery, u.forceQuery);
  }

  lemma FormatClear(u: Url)
    requires WellFormed(u)
    ensures '?' !in HierPart(u)
    ensures Clear(SchemePart(u) + HierPart(u) + QueryPart(u), {'#'})
  {
    var banned: set<char> := {'?', '#'};
    assert Clear(UserPart(u), banned) by {
      if u.user.Some? {
        ClearFewer(u.user.value, {'/', '?', '#'}, banned);
        ClearConcat(u.user.value, "@", banned);
      }
    }
    ClearFewer(u.host, {'/', '?', '#', '@'}, banned);
    ClearConcat("//", UserPart(u), banned);
    ClearConcat("//" + UserPart(u), u.host, banned);
    ClearConcat("//" + UserPart(u) + u.host, u.path, banned);
    var body := HierPart(u);
    assert Clear(body, banned);
    assert Clear(SchemePart(u), banned);
    ClearConcat(SchemePart(u), body, banned);
    ClearFewer(SchemePart(u) + body, banned, {'#'});
    ClearConcat(SchemePart(u) + body, QueryPart(u), {'#'});
  }

  lemma ClearHasNoCtl(s: string, banned: set<char>)
    requires Clear(s, banned)
    ensures !(exists i :: 0 <= i < |s| && IsCtl(s[i]))
  {
  }

  /** GetScheme on the printed form splits off the scheme, or finds none when the text starts with "//". */
  lemma SchemeOfFormat(u: Url)
    requires u.scheme == "" || ValidScheme(u.scheme)
    requires HasPrefix(HierPart(u), "//")
    ensures GetScheme(SchemePart(u) + HierPart(u) + QueryPart(u)) == Ok((u.scheme, HierPart(u) + QueryPart(u)))
  {
    var rest := HierPart(u) + QueryPart(u);
    if u.scheme != "" {
      assert SchemePart(u) + HierPart(u) + QueryPart(u) == u.scheme + ":" + rest;
      SchemeOf(u.scheme, rest);
    } else {
      assert SchemePart(u) + HierPart(u) + QueryPart(u) == rest;
      assert rest[0] == '/';
    }
  }

  lemma ParseReferenceOf(u: Url)
    requires WellFormed(u)
    ensures ParseReference(SchemePart(u) + HierPart(u) + QueryPart(u)) == Ok(u.(fragment := ""))
  {
    var pre := SchemePart(u) + HierPart(u) + QueryPart(u);
    FormatClear(u);
    ClearHasNoCtl(pre, {'#'});
    assert pre != "*" by { assert |pre| >= 3; }
    SchemeOfFormat(u);
    if u.scheme != "" {
      LowerOfLower(u.scheme);
    }
    ParseRestHier(u);
  }

  /** A well-formed URL prints as scheme, "//user@host/path", query and fragment. */
  lemma FormatHier(u: Url)
    requires WellFormed(u)
    ensures Format(u) == SchemePart(u) + HierPart(u) + QueryPart(u) + FragmentPart(u)
  {
  }

  /** Parse cuts the printed fragment off and parses what precedes it. */
  lemma ParseWithFragment(pre: string, u: Url)
    requires '#' !in pre
    requires ParseReference(pre) == Ok(u.(fragment := ""))
    ensures Parse(pre + FragmentPart(u)) == Ok(u)
  {
    if u.fragment != "" {
      assert pre + FragmentPart(u) == pre + ['#'] + u.fragment;
      CutAt(pre, u.fragment, '#');
    } else {
      assert pre + FragmentPart(u) == pre;
      CutNone(pre, '#');
    }
  }

  /** Printing a well-formed URL and parsing the text gives the URL back. */
  lemma ParseFormat(u: Url)
    requires WellFormed(u)
    ensures Parse(Format(u)) == Ok(u)
  {
    var pre := SchemePart(u) + HierPart(u) + QueryPart(u);
    FormatHier(u);
    FormatClear(u);
    ParseReferenceOf(u);
    ParseWithFragment(pre, u);
  }

  // ---------------------------------------------------------------------
  // Dot-segment removal leaves clean paths alone

  /** Plain segments are appended one by one after a written '/'. */
  lemma {:induction false} DotScanPlain(dst: string, ps: seq<string>)
    requires dst != "" && dst[0] == '/'
    requires |ps| >= 1
    requires forall i :: 0 <= i < |ps| ==> GoPath.Plain(ps[i])
    ensures DotScan(dst, false, ps) == (dst + "/" + Join(ps, '/'), false)
    decreases |ps|
  {
    assert GoPath.Plain(ps[0]);
    var next := dst + "/" + ps[0];
    if |ps| == 1 {
      assert DotScan(next, false, ps[1..]) == (next, false);
    } else {
      DotScanPlain(next, ps[1..]);
      assert next + "/" + Join(ps[1..], '/') == dst + "/" + (ps[0] + "/" + Join(ps[1..], '/'));
    }
  }

  lemma RemoveDotsBySegments(full: string, elems: seq<string>)
    requires full != "" && Split(full, '/') == elems
    ensures |elems| >= 1
    ensures RemoveDots(full) == FinishDots(DotScan("/", true, elems).0, elems[|elems| - 1])
  {
  }

  /** Split of a slash-joined list of plain segments gives them back, after a leading "" when rooted. */
  lemma SplitPlain(ps: seq<string>)
    requires |ps| >= 1
    requires forall i :: 0 <= i < |ps| ==> GoPath.Plain(ps[i])
    ensures Split(Join(ps, '/'), '/') == ps
    ensures Split("/" + Join(ps, '/'), '/') == [""] + ps
  {
    var full := "/" + Join(ps, '/');
    GoPath.SplitLeadingSep(full);
    assert full[1..] == Join(ps, '/');
    SplitJoin(ps, '/');
  }

  /** A plain segment is appended, straight after `dst` while `first` holds and after a '/' otherwise. */
  lemma PlainStep(dst: string, first: bool, e: string)
    requires dst != "" && dst[0] == '/'
    requires GoPath.Plain(e)
    ensures DotStep(dst, first, e) == (if first then dst + e else dst + "/" + e, false)
  {
  }

  lemma ScanCons(dst: string, first: bool, e: string, rest: seq<string>)
    requires dst != "" && dst[0] == '/'
    ensures var st := DotStep(dst, first, e);
      DotScan(dst, first, [e] + rest) == DotScan(st.0, st.1, rest)
  {
    assert ([e] + rest)[0] == e && ([e] + rest)[1..] == rest;
  }

  /** An empty first segment only clears `first`, so that the next segment is written after a '/'. */
  lemma DotScanRooted(dst: string, ps: seq<string>)
    requires dst != "" && dst[0] == '/'
    requires |ps| >= 1
    requires forall i :: 0 <= i < |ps| ==> GoPath.Plain(ps[i])
    ensures DotScan(dst, true, [""] + ps) == (dst + ("/" + Join(ps, '/')), false)
  {
    calc {
      DotScan(dst, true, [""] + ps);
      { EmptyFirst(dst, ps); }
      DotScan(dst, false, ps);
      { DotScanPlain(dst, ps); }
      (dst + "/" + Join(ps, '/'), false);
      { StrAssoc(dst, "/", Join(ps, '/')); }
      (dst + ("/" + Join(ps, '/')), false);
    }
  }

  lemma StrAssoc(a: string, b: string, c: string)
    ensures a + b + c == a + (b + c)
  {
  }

  lemma StrAssoc4(a: string, b: string, c: string, d: string)
    ensures a + b + c + d == a + (b + c + d)
  {
  }

  lemma EmptyFirst(dst: string, ps: seq<string>)
    requires dst != "" && dst[0] == '/'
    ensures DotScan(dst, true, [""] + ps) == DotScan(dst, false, ps)
  {
    ScanCons(dst, true, "", ps);
    assert dst + "" == dst;
  }

  lemma PlainFirst(dst: string, ps: seq<string>)
    requires dst != "" && dst[0] == '/'
    requires |ps| >= 1 && GoPath.Plain(ps[0])
    ensures DotScan(dst, true, ps) == DotScan(dst + ps[0], false, ps[1..])
  {
    assert ps == [ps[0]] + ps[1..];
    ScanCons(dst, true, ps[0], ps[1..]);
    PlainStep(dst, true, ps[0]);
  }

  lemma DropHead(a: string, b: string)
    requires |a| == 1
    ensures (a + b)[1..] == b
  {
  }

  /** A first plain segment is written straight after the leading '/'. */
  lemma DotScanRelative(dst: string, ps: seq<string>)
    requires dst != "" && dst[0] == '/'
    requires |ps| >= 1
    requires forall i :: 0 <= i < |ps| ==> GoPath.Plain(ps[i])
    ensures DotScan(dst, true, ps) == (dst + Join(ps, '/'), false)
  {
    var rest := ps[1..];
    if |ps| == 1 {
      calc {
        DotScan(dst, true, ps);
        { PlainFirst(dst, ps); }
        DotScan(dst + ps[0], false, rest);
        { assert rest == []; }
        (dst + Join(ps, '/'), false);
      }
    } else {
      calc {
        DotScan(dst, true, ps);
        { PlainFirst(dst, ps); }
        DotScan(dst + ps[0], false, rest);
        { DotScanPlain(dst + ps[0], rest); }
        (dst + ps[0] + "/" + Join(rest, '/'), false);
        { StrAssoc4(dst, ps[0], "/", Join(rest, '/')); }
        (dst + (ps[0] + "/" + Join(rest, '/')), false);
        { JoinCons(ps[0], rest, '/'); assert [ps[0]] + rest == ps; }
        (dst + Join(ps, '/'), false);
      }
    }
  }

  /** After a plain last segment only the doubled leading '/' goes. */
  lemma FinishPlain(dst: string, last: string)
    requires dst != "" && dst[0] == '/'
    requires GoPath.Plain(last)
    ensures FinishDots(dst, last) == if |dst| > 1 && dst[1] == '/' then dst[1..] else dst
  {
  }

  lemma RootedScanFinish(root: string, ps: seq<string>)
    requires root == "/"
    requires |ps| >= 1
    requires forall i :: 0 <= i < |ps| ==> GoPath.Plain(ps[i])
    ensures |[""] + ps| >= 1 && ([""] + ps)[|ps|] == ps[|ps| - 1]
    ensures FinishDots(DotScan(root, true, [""] + ps).0, ps[|ps| - 1]) == root + Join(ps, '/')
  {
    var full := root + Join(ps, '/');
    DotScanRooted(root, ps);
    FinishPlain(root + full, ps[|ps| - 1]);
    DropHead(root, full);
  }

  /** A rooted path made of plain segments has no dot segments to remove. */
  lemma RemoveDotsRootedPlain(ps: seq<string>)
    requires |ps| >= 1
    requires forall i :: 0 <= i < |ps| ==> GoPath.Plain(ps[i])
    ensures RemoveDots("/" + Join(ps, '/')) == "/" + Join(ps, '/')
  {
    RootedScanFinish("/", ps);
    SplitPlain(ps);
    RemoveDotsBySegments("/" + Join(ps, '/'), [""] + ps);
  }

  /** Plain segments joined by '/' start with the first segment's first character. */
  lemma JoinPlainHead(ps: seq<string>)
    requires |ps| >= 1
    requires forall i :: 0 <= i < |ps| ==> GoPath.Plain(ps[i])
    ensures Join(ps, '/') != "" && Join(ps, '/')[0] != '/'
  {
    var p0 := ps[0];
    assert GoPath.Plain(p0);
    assert p0[0] in p0;
    JoinHead(ps, '/');
  }

  lemma RelativeScanFinish(root: string, ps: seq<string>)
    requires root == "/"
    requires |ps| >= 1
    requires forall i :: 0 <= i < |ps| ==> GoPath.Plain(ps[i])
    ensures Join(ps, '/') != ""
    ensures FinishDots(DotScan(root, true, ps).0, ps[|ps| - 1]) == root + Join(ps, '/')
  {
    var full := Join(ps, '/');
    JoinPlainHead(ps);
    DotScanRelative(root, ps);
    FinishPlain(root + full, ps[|ps| - 1]);
    assert (root + full)[1] == full[0];
  }

  /** A relative path made of plain segments only gains the leading '/'. */
  lemma RemoveDotsRelativePlain(ps: seq<string>)
    requires |ps| >= 1
    requires forall i :: 0 <= i < |ps| ==> GoPath.Plain(ps[i])
    ensures RemoveDots(Join(ps, '/')) == "/" + Join(ps, '/')
  {
    RelativeScanFinish("/", ps);
    SplitPlain(ps);
    RemoveDotsBySegments(Join(ps, '/'), ps);
  }

  /** A rooted reference made of plain segments resolves to itself, whatever the base. */
  lemma ResolveRootedPlain(base: string, ps: seq<string>)
    requires |ps| >= 1
    requires forall i :: 0 <= i < |ps| ==> GoPath.Plain(ps[i])
    ensures ResolvePath(base, "/" + Join(ps, '/')) == "/" + Join(ps, '/')
  {
    assert MergePath(base, "/" + Join(ps, '/')) == "/" + Join(ps, '/');
    RemoveDotsRootedPlain(ps);
  }

  /** A relative reference made of plain segments, against a base with no directory, becomes rooted. */
  lemma ResolveRelativePlain(base: string, ps: seq<string>)
    requires '/' !in base
    requires |ps| >= 1
    requires forall i :: 0 <= i < |ps| ==> GoPath.Plain(ps[i])
    ensures ResolvePath(base, Join(ps, '/')) == "/" + Join(ps, '/')
  {
    JoinPlainHead(ps);
    assert MergePath(base, Join(ps, '/')) == Join(ps, '/');
    RemoveDotsRelativePlain(ps);
  }

  lemma JoinedPathBase(path: string, elem: string)
    requires GoPath.Plain(elem)
    ensures GoPath.Base(JoinedPath(path, elem)) == elem
  {
    if HasPrefix(path, "/") {
      GoPath.JoinPair(path, elem);
      GoPath.BaseAfterJoin(path, elem);
    } else {
      GoPath.JoinPair("/" + path, elem);
      GoPath.BaseAfterJoin("/" + path, elem);
    }
  }

  /** Joining a plain name onto a URL's path makes that name the last element of the path. */
  lemma JoinPathBase(u: Url, elem: string)
    requires GoPath.Plain(elem)
    ensures GoPath.Base(JoinPath(u, elem).path) == elem
  {
    JoinedPathBase(u.path, elem);
  }

  // ---------------------------------------------------------------------
  // Text without a scheme

  /** Text that starts with '/' or holds no ':' has no scheme. */
  lemma NoSchemeIn(u: string)
    requires (|u| > 0 && u[0] == '/') || ':' !in u
    ensures GetScheme(u) == Ok(("", u))
  {
  }

  /** The text before the first '#' keeps the first character and adds no ':'. */
  lemma CutKeeps(raw: string)
    ensures var u := Cut(raw, '#').0;
      (':' !in raw ==> ':' !in u) && (|raw| > 0 && raw[0] == '/' ==> |u| > 0 && u[0] == '/')
  {
    var r := Cut(raw, '#');
    if '#' in raw {
      assert raw == r.0 + ['#'] + r.1;
      assert forall k :: 0 <= k < |r.0| ==> r.0[k] == raw[k];
    }
  }

  /** Parsing a rooted path, or text without ':', never yields a scheme. */
  lemma ParseNoScheme(raw: string)
    requires (|raw| > 0 && raw[0] == '/') || ':' !in raw
    ensures Parse(raw).Ok? ==> Parse(raw).value.scheme == ""
  {
    var u := Cut(raw, '#').0;
    CutKeeps(raw);
    NoSchemeIn(u);
    assert ToLower("") == "";
  }
}
