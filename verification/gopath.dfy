/**
 * Go's slash-separated path functions (`path` and, on Unix, `path/filepath`):
 * Clean, Join, Dir, Base, Ext and IsAbs. Clean is stated through the segment
 * stack that Go's implementation maintains: empty and "." segments vanish, ".."
 * pops the previous real segment, and a rooted path cannot climb above "/".
 */
module GoPath {
  import opened Strs
  import opened Splits

  /** One segment of Clean's scan applied to the stack of surviving segments. */
  function Step(stack: seq<string>, seg: string, rooted: bool): seq<string> {
    if seg == "" || seg == "." then stack
    else if seg == ".." then
      if |stack| > 0 && stack[|stack| - 1] != ".." then stack[..|stack| - 1]
      else if rooted then stack
      else stack + [".."]
    else stack + [seg]
  }

  /** Clean's scan over the remaining segments, left to right. */
  function NormFrom(stack: seq<string>, segs: seq<string>, rooted: bool): seq<string>
    decreases |segs|
  {
    if segs == [] then stack else NormFrom(Step(stack, segs[0], rooted), segs[1..], rooted)
  }

  /** The segments that survive cleaning `p`. */
  function Segments(p: string): seq<string> {
    NormFrom([], Split(p, '/'), |p| > 0 && p[0] == '/')
  }

  function Clean(p: string): string {
    if p == "" then "."
    else if p[0] == '/' then "/" + Strs.Join(Segments(p), '/')
    else if Segments(p) == [] then "."
    else Strs.Join(Segments(p), '/')
  }

  predicate IsAbs(p: string) {
    |p| > 0 && p[0] == '/'
  }

  /** The buffer path.Join builds before cleaning: empty elements are skipped until the first non-empty one. */
  function JoinBuffer(elems: seq<string>, buf: string): string
    decreases |elems|
  {
    if elems == [] then buf
    else if |buf| > 0 then JoinBuffer(elems[1..], buf + "/" + elems[0])
    else JoinBuffer(elems[1..], elems[0])
  }

  /** path.Join: "" when every element is empty, otherwise the cleaned slash-joined elements. */
  function Join(elems: seq<string>): string {
    var buf := JoinBuffer(elems, "");
    if buf == "" then "" else Clean(buf)
  }

  /** Joining two elements of which the first is non-empty cleans their slash-joined text. */
  lemma JoinPair(a: string, b: string)
    requires a != ""
    ensures Join([a, b]) == Clean(a + "/" + b)
  {
    assert JoinBuffer([a, b], "") == JoinBuffer([b], a);
    assert JoinBuffer([b], a) == JoinBuffer([], a + "/" + b);
  }

  /** path.Dir: everything up to the last slash, cleaned. */
  function Dir(p: string): string {
    Clean(p[..LastIndexChar(p, '/') + 1])
  }

  function TrimTrailingSlashes(p: string): (r: string)
    ensures |r| <= |p|
    ensures r == [] || r[|r| - 1] != '/'
    ensures r == p[..|r|]
  {
    if |p| > 0 && p[|p| - 1] == '/' then TrimTrailingSlashes(p[..|p| - 1]) else p
  }

  /** path.Base: the last element after trailing slashes are removed. */
  function Base(p: string): string {
    if p == "" then "."
    else
      var t := TrimTrailingSlashes(p);
      if t == "" then "/" else t[LastIndexChar(t, '/') + 1..]
  }

  /** path.Ext: the suffix from the final dot of the final element, or "". */
  function Ext(p: string): (r: string)
    ensures r == "" || (r[0] == '.' && HasSuffix(p, r) && '/' !in r)
  {
    if p == [] || p[|p| - 1] == '/' then ""
    else if p[|p| - 1] == '.' then "."
    else
      var e := Ext(p[..|p| - 1]);
      if e == "" then "" else e + [p[|p| - 1]]
  }

  // ---------------------------------------------------------------------
  // Length accounting: every segment costs its length plus one separator.

  function Cost(ss: seq<string>): nat {
    if ss == [] then 0 else Cost(ss[..|ss| - 1]) + |ss[|ss| - 1]| + 1
  }

  lemma {:induction false} CostCons(a: string, rest: seq<string>)
    ensures Cost([a] + rest) == |a| + 1 + Cost(rest)
    decreases |rest|
  {
    if rest != [] {
      var l := rest[|rest| - 1];
      assert ([a] + rest)[..|rest|] == [a] + rest[..|rest| - 1];
      CostCons(a, rest[..|rest| - 1]);
    } else {
      assert [a] + rest == [a];
      assert [a][..0] == [];
    }
  }

  lemma {:induction false} CostPush(ss: seq<string>, a: string)
    ensures Cost(ss + [a]) == Cost(ss) + |a| + 1
  {
    assert (ss + [a])[..|ss|] == ss;
  }

  lemma {:induction false} CostConcat(a: seq<string>, b: seq<string>)
    ensures Cost(a + b) == Cost(a) + Cost(b)
    decreases |b|
  {
    if b == [] {
      assert a + b == a;
    } else {
      var b' := b[..|b| - 1];
      assert a + b == (a + b') + [b[|b| - 1]];
      assert b == b' + [b[|b| - 1]];
      CostConcat(a, b');
      CostPush(a + b', b[|b| - 1]);
      CostPush(b', b[|b| - 1]);
    }
  }

  lemma {:induction false} JoinLength(ss: seq<string>, c: char)
    requires |ss| >= 1
    ensures |Strs.Join(ss, c)| + 1 == Cost(ss)
  {
    if |ss| == 1 {
      assert ss == [ss[0]] + [];
      CostCons(ss[0], []);
    } else {
      JoinLength(ss[1..], c);
      assert ss == [ss[0]] + ss[1..];
      CostCons(ss[0], ss[1..]);
    }
  }

  lemma {:induction false} StepCost(stack: seq<string>, seg: string, rooted: bool)
    ensures Cost(Step(stack, seg, rooted)) <= Cost(stack) + |seg| + 1
  {
    if seg == "" || seg == "." {
    } else if seg == ".." {
      if |stack| > 0 && stack[|stack| - 1] != ".." {
      } else if !rooted {
        CostPush(stack, "..");
      }
    } else {
      CostPush(stack, seg);
    }
  }

  lemma {:induction false} NormCost(stack: seq<string>, segs: seq<string>, rooted: bool)
    ensures Cost(NormFrom(stack, segs, rooted)) <= Cost(stack) + Cost(segs)
    decreases |segs|
  {
    if segs != [] {
      StepCost(stack, segs[0], rooted);
      NormCost(Step(stack, segs[0], rooted), segs[1..], rooted);
      assert segs == [segs[0]] + segs[1..];
      CostCons(segs[0], segs[1..]);
    }
  }

  lemma {:induction false} NormConcat(stack: seq<string>, a: seq<string>, b: seq<string>, rooted: bool)
    ensures NormFrom(stack, a + b, rooted) == NormFrom(NormFrom(stack, a, rooted), b, rooted)
    decreases |a|
  {
    if a == [] {
      assert a + b == b;
    } else {
      assert (a + b)[0] == a[0];
      assert (a + b)[1..] == a[1..] + b;
      NormConcat(Step(stack, a[0], rooted), a[1..], b, rooted);
    }
  }

  lemma {:induction false} SplitLeadingSep(x: string)
    requires |x| > 0 && x[0] == '/'
    ensures Split(x, '/')[0] == ""
    ensures Split(x, '/')[1..] == Split(x[1..], '/')
  {
    assert IndexChar(x, '/') == 0;
  }

  lemma {:induction false} SplitTrailingSep(x: string)
    requires |x| > 0 && x[|x| - 1] == '/'
    ensures |Split(x, '/')| >= 2
    ensures Split(x, '/')[|Split(x, '/')| - 1] == ""
  {
    var pre := x[..|x| - 1];
    assert x == pre + ['/'] + "";
    SplitConcat(pre, "", '/');
    assert Split("", '/') == [""];
  }

  lemma {:induction false} SplitCost(x: string)
    ensures Cost(Split(x, '/')) == |x| + 1
  {
    JoinSplit(x, '/');
    JoinLength(Split(x, '/'), '/');
  }

  /** Cleaning never lengthens a non-empty path. */
  lemma {:induction false} CleanNoLonger(x: string)
    requires x != ""
    ensures |Clean(x)| <= |x|
  {
    var segs := Split(x, '/');
    var rooted := x[0] == '/';
    var st := Segments(x);
    SplitCost(x);
    if rooted {
      SplitLeadingSep(x);
      assert segs == [segs[0]] + segs[1..];
      CostCons("", segs[1..]);
      NormCost([], segs[1..], rooted);
      if st != [] { JoinLength(st, '/'); }
    } else {
      NormCost([], segs, rooted);
      if st != [] { JoinLength(st, '/'); }
    }
  }

  /** Cleaning a rooted path that ends in a slash (other than "/" itself) strictly shortens it. */
  lemma {:induction false} CleanShortensTrailingSlash(x: string)
    requires |x| >= 2 && x[0] == '/' && x[|x| - 1] == '/'
    ensures |Clean(x)| < |x|
  {
    var mid := TrailingSegs(x);
    var st := Segments(x);
    NormCost([], mid, true);
    assert Cost(st) <= |x| - 1;
    assert Clean(x) == "/" + Strs.Join(st, '/');
    if st != [] { JoinLength(st, '/'); }
  }

  /** A rooted path ending in '/' splits into "", the inner segments, and "". */
  lemma TrailingSegs(x: string) returns (mid: seq<string>)
    requires |x| >= 2 && x[0] == '/' && x[|x| - 1] == '/'
    ensures Cost(mid) == |x| - 1
    ensures Segments(x) == NormFrom([], mid, true)
  {
    var segs := Split(x, '/');
    SplitCost(x);
    SplitLeadingSep(x);
    SplitTrailingSep(x);
    mid := segs[1..|segs| - 1];
    Wrapped(segs);
    WrappedCost(mid);
    WrappedNorm(mid);
  }

  lemma Wrapped<T>(s: seq<T>)
    requires |s| >= 2
    ensures s == [s[0]] + s[1..|s| - 1] + [s[|s| - 1]]
  {
  }

  lemma WrappedCost(mid: seq<string>)
    ensures Cost([""] + mid + [""]) == Cost(mid) + 2
  {
    CostPush([""] + mid, "");
    CostCons("", mid);
  }

  lemma WrappedNorm(mid: seq<string>)
    ensures NormFrom([], [""] + mid + [""], true) == NormFrom([], mid, true)
  {
    NormConcat([], [""] + mid, [""], true);
    var pre := NormFrom([], [""] + mid, true);
    assert NormFrom(pre, [""], true) == pre;
    assert pre == NormFrom([], mid, true) by {
      assert ([""] + mid)[0] == "" && ([""] + mid)[1..] == mid;
    }
  }

  lemma {:induction false} CleanRooted(x: string)
    requires IsAbs(x)
    ensures IsAbs(Clean(x))
  {
  }

  /** Walking up with Dir from an absolute path other than "/" yields a shorter absolute path. */
  lemma {:induction false} DirShortens(p: string)
    requires IsAbs(p) && p != "/"
    ensures IsAbs(Dir(p)) && |Dir(p)| < |p|
  {
    var i := LastIndexChar(p, '/');
    assert i >= 0;
    var pre := p[..i + 1];
    assert pre[0] == '/' && pre[|pre| - 1] == '/';
    if i == 0 {
      assert pre == "/";
      assert Split(pre, '/') == ["", ""] by {
        assert IndexChar(pre, '/') == 0;
        assert pre[1..] == "";
      }
      assert NormFrom([], ["", ""], true) == NormFrom([], [""], true) == NormFrom([], [], true) == [];
      assert Clean(pre) == "/";
    } else {
      CleanShortensTrailingSlash(pre);
    }
  }

  // ---------------------------------------------------------------------
  // Plain segments: non-empty, slash-free and neither "." nor "..".

  predicate Plain(seg: string) {
    seg != "" && seg != "." && seg != ".." && '/' !in seg
  }

  lemma {:induction false} NormPlain(stack: seq<string>, ps: seq<string>, rooted: bool)
    requires forall i :: 0 <= i < |ps| ==> Plain(ps[i])
    ensures NormFrom(stack, ps, rooted) == stack + ps
    decreases |ps|
  {
    if ps != [] {
      NormPlain(stack + [ps[0]], ps[1..], rooted);
      assert stack + [ps[0]] + ps[1..] == stack + ps;
    }
  }

  /** Joining plain segments with slashes already yields a clean path. */
  lemma {:induction false} CleanPlainJoin(ps: seq<string>)
    requires |ps| >= 1
    requires forall i :: 0 <= i < |ps| ==> Plain(ps[i])
    ensures Clean(Strs.Join(ps, '/')) == Strs.Join(ps, '/')
  {
    var s := Strs.Join(ps, '/');
    SplitJoin(ps, '/');
    NormPlain([], ps, false);
    assert s[..|ps[0]|] == ps[0] by {
      if |ps| > 1 { assert s == ps[0] + "/" + Strs.Join(ps[1..], '/'); }
    }
    assert s[0] == ps[0][0];
    assert ps[0][0] in ps[0];
    assert s[0] != '/';
    assert Segments(s) == ps;
  }

  lemma SplitAtJoint(x: string, y: string, c: char)
    requires IndexChar(x, c) < 0
    ensures Split(x + [c] + y, c) == [x] + Split(y, c)
  {
    var s := x + [c] + y;
    assert s[..|x|] == x;
    IndexCharAt(s, c, |x|);
    assert s[|x| + 1..] == y;
  }

  lemma SplitBeforeJoint(x: string, y: string, c: char)
    requires IndexChar(x, c) >= 0
    ensures var i := IndexChar(x, c);
      Split(x + [c] + y, c) == [x[..i]] + Split(x[i + 1..] + [c] + y, c)
  {
    var s := x + [c] + y;
    var i := IndexChar(x, c);
    JointIndex(x, y, c);
    SplitStep(s, c);
    JointSlices(x, y, c, i);
    calc {
      Split(s, c);
      [s[..i]] + Split(s[i + 1..], c);
      [x[..i]] + Split(x[i + 1..] + [c] + y, c);
    }
  }

  lemma JointIndex(x: string, y: string, c: char)
    requires IndexChar(x, c) >= 0
    ensures IndexChar(x + [c] + y, c) == IndexChar(x, c)
  {
    var s := x + [c] + y;
    var i := IndexChar(x, c);
    assert s[..i] == x[..i] && s[i] == c;
    IndexCharAt(s, c, i);
  }

  lemma JointSlices(x: string, y: string, c: char, i: nat)
    requires i < |x|
    ensures (x + [c] + y)[..i] == x[..i]
    ensures (x + [c] + y)[i + 1..] == x[i + 1..] + [c] + y
  {
  }

  lemma {:induction false} SplitConcat(x: string, y: string, c: char)
    ensures Split(x + [c] + y, c) == Split(x, c) + Split(y, c)
    decreases |x|
  {
    var i := IndexChar(x, c);
    if i < 0 {
      SplitAtJoint(x, y, c);
      assert Split(x, c) == [x];
    } else {
      var rest := x[i + 1..];
      SplitBeforeJoint(x, y, c);
      SplitConcat(rest, y, c);
      SplitStep(x, c);
      var head, mid, tail := x[..i], Split(rest, c), Split(y, c);
      calc {
        Split(x + [c] + y, c);
        [head] + Split(rest + [c] + y, c);
        [head] + (mid + tail);
        { ConsAssoc(head, mid, tail); }
        ([head] + mid) + tail;
        Split(x, c) + tail;
      }
    }
  }

  /** Cleaning "x/name" for a plain final name keeps that name as the last segment. */
  lemma {:induction false} SegmentsEndWith(x: string, name: string)
    requires Plain(name)
    ensures var st := Segments(x + "/" + name);
      |st| >= 1 && st[|st| - 1] == name
  {
    var s := x + "/" + name;
    assert s == x + ['/'] + name;
    SplitConcat(x, name, '/');
    assert Split(name, '/') == [name];
    var rooted := |s| > 0 && s[0] == '/';
    NormConcat([], Split(x, '/'), [name], rooted);
  }

  lemma {:induction false} SegmentsHaveNoSlash(stack: seq<string>, segs: seq<string>, rooted: bool)
    requires forall i :: 0 <= i < |stack| ==> stack[i] != "" && '/' !in stack[i]
    requires forall i :: 0 <= i < |segs| ==> '/' !in segs[i]
    ensures var r := NormFrom(stack, segs, rooted);
      forall i :: 0 <= i < |r| ==> r[i] != "" && '/' !in r[i]
    decreases |segs|
  {
    if segs != [] {
      var next := Step(stack, segs[0], rooted);
      assert '/' !in "..";
      assert forall i :: 0 <= i < |next| ==> next[i] != "" && '/' !in next[i];
      SegmentsHaveNoSlash(next, segs[1..], rooted);
      assert NormFrom(stack, segs, rooted) == NormFrom(next, segs[1..], rooted);
    }
  }

  lemma {:induction false} BaseOfSlashName(a: string, name: string)
    requires Plain(name)
    ensures Base(a + "/" + name) == name
  {
    var s := a + "/" + name;
    assert TrimTrailingSlashes(s) == s;
    var i := LastIndexChar(s, '/');
    assert s[|a|] == '/';
    assert s[|a| + 1..] == name;
    assert i == |a|;
  }

  lemma {:induction false} BaseOfName(name: string)
    requires Plain(name)
    ensures Base(name) == name
  {
    assert TrimTrailingSlashes(name) == name;
  }

  /** Segments ending in a plain name join to a path whose base is that name, rooted or not. */
  lemma {:induction false} JoinedBase(st: seq<string>, name: string)
    requires |st| >= 1 && st[|st| - 1] == name && Plain(name)
    ensures Base(Strs.Join(st, '/')) == name
    ensures Base("/" + Strs.Join(st, '/')) == name
    ensures HasSuffix(Strs.Join(st, '/'), name)
  {
    var n := |st|;
    if n == 1 {
      assert Strs.Join(st, '/') == name;
      JoinedBaseOne(name);
    } else {
      var pre := Strs.Join(st[..n - 1], '/');
      assert st == st[..n - 1] + [name];
      JoinAppend(st[..n - 1], name, '/');
      JoinedBaseMany(pre, name);
    }
  }

  lemma JoinedBaseOne(name: string)
    requires Plain(name)
    ensures Base(name) == name && Base("/" + name) == name && HasSuffix(name, name)
  {
    BaseOfName(name);
    assert "/" + name == "" + "/" + name;
    BaseOfSlashName("", name);
  }

  lemma JoinedBaseMany(pre: string, name: string)
    requires Plain(name)
    ensures var j := pre + ['/'] + name;
      Base(j) == name && Base("/" + j) == name && HasSuffix(j, name)
  {
    var j := pre + ['/'] + name;
    assert j == pre + "/" + name;
    BaseOfSlashName(pre, name);
    assert "/" + j == ("/" + pre) + "/" + name;
    BaseOfSlashName("/" + pre, name);
    assert j[|j| - |name|..] == name;
  }

  /** Joining a directory with a plain file name and cleaning keeps that name as the base. */
  lemma {:induction false} BaseAfterJoin(x: string, name: string)
    requires Plain(name)
    ensures Base(Clean(x + "/" + name)) == name
    ensures HasSuffix(Clean(x + "/" + name), name)
    ensures IsAbs(x) ==> Base(Clean(x + "/" + name)[1..]) == name
  {
    var s := x + "/" + name;
    var st := Segments(s);
    SegmentsEndWith(x, name);
    JoinedBase(st, name);
    var j := Strs.Join(st, '/');
    if s[0] == '/' {
      RootedClean(s, j);
      SuffixPrepend("/", j, name);
    } else {
      assert Clean(s) == j;
    }
  }

  lemma RootedClean(s: string, j: string)
    requires s != "" && s[0] == '/' && j == Strs.Join(Segments(s), '/')
    ensures Clean(s) == "/" + j && Clean(s)[1..] == j
  {
  }

  lemma SuffixPrepend(a: string, j: string, name: string)
    requires HasSuffix(j, name)
    ensures HasSuffix(a + j, name)
  {
    assert (a + j)[|a + j| - |name|..] == j[|j| - |name|..];
  }

  // ---------------------------------------------------------------------
  // Joining elements that are empty or plain segments

  /** The non-empty elements, in order. */
  function NonEmpty(elems: seq<string>): (r: seq<string>)
    ensures forall i :: 0 <= i < |r| ==> r[i] != "" && r[i] in elems
  {
    if elems == [] then []
    else if elems[0] == "" then NonEmpty(elems[1..])
    else [elems[0]] + NonEmpty(elems[1..])
  }

  /** The elements from the first non-empty one on. */
  function DropLeadingEmpty(elems: seq<string>): (r: seq<string>)
    ensures r == [] || r[0] != ""
    ensures NonEmpty(r) == NonEmpty(elems)
    ensures forall i :: 0 <= i < |r| ==> r[i] in elems
  {
    if elems == [] || elems[0] != "" then elems else DropLeadingEmpty(elems[1..])
  }

  lemma {:induction false} JoinBufferFrom(elems: seq<string>, buf: string)
    requires buf != "" && elems != []
    ensures JoinBuffer(elems, buf) == buf + "/" + Strs.Join(elems, '/')
    decreases |elems|
  {
    if |elems| > 1 {
      JoinBufferFrom(elems[1..], buf + "/" + elems[0]);
    }
  }

  /** Before the first non-empty element nothing is written; after it, every element is. */
  lemma {:induction false} JoinBufferFromEmpty(elems: seq<string>)
    ensures JoinBuffer(elems, "") == Strs.Join(DropLeadingEmpty(elems), '/')
    decreases |elems|
  {
    if elems != [] {
      if elems[0] == "" {
        JoinBufferFromEmpty(elems[1..]);
      } else if |elems| > 1 {
        JoinBufferFrom(elems[1..], elems[0]);
      }
    }
  }

  predicate EmptyOrPlain(seg: string) {
    seg == "" || Plain(seg)
  }

  lemma StepEmptyOrPlain(stack: seq<string>, seg: string, rooted: bool)
    requires EmptyOrPlain(seg)
    ensures Step(stack, seg, rooted) == if seg == "" then stack else stack + [seg]
  {
  }

  lemma ConsAssocRight(a: seq<string>, x: string, b: seq<string>)
    ensures a + [x] + b == a + ([x] + b)
  {
  }

  lemma {:induction false} NormEmptyOrPlain(stack: seq<string>, ps: seq<string>, rooted: bool)
    requires forall i :: 0 <= i < |ps| ==> EmptyOrPlain(ps[i])
    ensures NormFrom(stack, ps, rooted) == stack + NonEmpty(ps)
    decreases |ps|
  {
    if ps != [] {
      var next := Step(stack, ps[0], rooted);
      NormEmptyOrPlain(next, ps[1..], rooted);
      StepEmptyOrPlain(stack, ps[0], rooted);
      if ps[0] != "" {
        ConsAssocRight(stack, ps[0], NonEmpty(ps[1..]));
      }
    }
  }

  /**
   * path.Join of elements that are empty or plain segments is just the non-empty
   * ones joined by '/': cleaning has nothing to pop or drop.
   */
  lemma JoinEmptyOrPlain(elems: seq<string>)
    requires forall i :: 0 <= i < |elems| ==> EmptyOrPlain(elems[i])
    ensures Join(elems) == Strs.Join(NonEmpty(elems), '/')
  {
    JoinBufferFromEmpty(elems);
    var d := DropLeadingEmpty(elems);
    if d != [] {
      CleanJoinFromPlain(d);
    }
  }

  lemma CleanJoinFromPlain(d: seq<string>)
    requires d != [] && d[0] != ""
    requires forall i :: 0 <= i < |d| ==> EmptyOrPlain(d[i])
    ensures Strs.Join(d, '/') != ""
    ensures Clean(Strs.Join(d, '/')) == Strs.Join(NonEmpty(d), '/')
  {
    var buf := Strs.Join(d, '/');
    JoinHead(d, '/');
    assert d[0][0] in d[0];
    SegmentsOfPlainJoin(d);
    assert NonEmpty(d) == [d[0]] + NonEmpty(d[1..]);
  }

  lemma SegmentsOfPlainJoin(d: seq<string>)
    requires d != [] && Strs.Join(d, '/') != "" && Strs.Join(d, '/')[0] != '/'
    requires forall i :: 0 <= i < |d| ==> EmptyOrPlain(d[i])
    ensures Segments(Strs.Join(d, '/')) == NonEmpty(d)
  {
    forall i | 0 <= i < |d| ensures '/' !in d[i] {
      assert EmptyOrPlain(d[i]);
    }
    SplitJoin(d, '/');
    NormEmptyOrPlain([], d, false);
    assert [] + NonEmpty(d) == NonEmpty(d);
  }

  /** A leading "./" does not change what a relative path cleans to. */
  lemma CleanDotSlash(s: string)
    requires s == "" || s[0] != '/'
    ensures Clean("./" + s) == Clean(s)
  {
    assert "./" + s == "." + ['/'] + s;
    SplitConcat(".", s, '/');
    assert Split(".", '/') == ["."];
    NormConcat([], ["."], Split(s, '/'), false);
    assert Segments("./" + s) == Segments(s) by {
      if s != "" {
        assert (|s| > 0 && s[0] == '/') == false;
      }
    }
  }

  /** "." is its own directory. */
  lemma DirOfDot()
    ensures Dir(".") == "."
  {
    assert LastIndexChar(".", '/') == -1;
    assert "."[..0] == "";
  }

  // ---------------------------------------------------------------------
  // Rooted paths made of plain segments

  /** Joining two non-empty lists of segments puts one separator between their joins. */
  lemma {:induction false} JoinConcat(a: seq<string>, b: seq<string>)
    requires |a| >= 1 && |b| >= 1
    ensures Strs.Join(a + b, '/') == Strs.Join(a, '/') + ['/'] + Strs.Join(b, '/')
    decreases |a|
  {
    if |a| == 1 {
      assert (a + b)[0] == a[0];
      assert (a + b)[1..] == b;
    } else {
      assert (a + b)[0] == a[0];
      assert (a + b)[1..] == a[1..] + b;
      JoinConcat(a[1..], b);
    }
  }

  lemma SplitRooted(j: string)
    ensures Split(['/'] + j, '/') == [""] + Split(j, '/')
  {
    SplitLeadingSep(['/'] + j);
    assert (['/'] + j)[1..] == j;
  }

  lemma SplitEmpty()
    ensures Split("", '/') == [""]
  {
  }

  lemma SplitSlashEnded(j: string)
    ensures Split(j + ['/'], '/') == Split(j, '/') + [""]
  {
    SplitConcat(j, "", '/');
    assert j + ['/'] + "" == j + ['/'];
    SplitEmpty();
  }

  /** The segments of a rooted path of plain segments are those segments. */
  lemma SegmentsRootedPlain(ps: seq<string>)
    requires |ps| >= 1
    requires forall i :: 0 <= i < |ps| ==> Plain(ps[i])
    ensures Segments(['/'] + Strs.Join(ps, '/')) == ps
  {
    SplitJoin(ps, '/');
    SplitRooted(Strs.Join(ps, '/'));
    NormConcat([], [""], ps, true);
    NormPlain([], ps, true);
  }

  /** A rooted path of plain segments is already clean. */
  lemma CleanRootedPlain(ps: seq<string>)
    requires |ps| >= 1
    requires forall i :: 0 <= i < |ps| ==> Plain(ps[i])
    ensures Clean(['/'] + Strs.Join(ps, '/')) == ['/'] + Strs.Join(ps, '/')
  {
    SegmentsRootedPlain(ps);
  }

  /** Empty segments are skipped. */
  lemma NormSkipEmpty(stack: seq<string>, rest: seq<string>, rooted: bool)
    ensures NormFrom(stack, [""] + rest, rooted) == NormFrom(stack, rest, rooted)
  {
    assert ([""] + rest)[0] == "";
    assert ([""] + rest)[1..] == rest;
  }

  /** Plain segments followed by an empty one survive as they are. */
  lemma NormPlainThenEmpty(d: seq<string>, rooted: bool)
    requires forall i :: 0 <= i < |d| ==> Plain(d[i])
    ensures NormFrom([], d + [""], rooted) == d
  {
    NormConcat([], d, [""], rooted);
    NormPlain([], d, rooted);
    assert [] + d == d;
    NormSkipEmpty(d, [], rooted);
    assert [""] + [] == [""];
  }

  /** The segments of "/" + d + "/" are those of d. */
  lemma SegmentsSlashEnded(d: seq<string>)
    requires |d| >= 1
    requires forall i :: 0 <= i < |d| ==> Plain(d[i])
    ensures Segments(['/'] + Strs.Join(d, '/') + ['/']) == d
  {
    SplitSlashEndedPlain(d);
    NormSkipEmpty([], d + [""], true);
    NormPlainThenEmpty(d, true);
  }

  lemma SplitSlashEndedPlain(d: seq<string>)
    requires |d| >= 1
    requires forall i :: 0 <= i < |d| ==> Plain(d[i])
    ensures Split(['/'] + Strs.Join(d, '/') + ['/'], '/') == [""] + (d + [""])
  {
    SplitJoin(d, '/');
    SplitSlashWrapped(Strs.Join(d, '/'));
  }

  lemma SplitSlashWrapped(j: string)
    ensures Split(['/'] + j + ['/'], '/') == [""] + (Split(j, '/') + [""])
  {
    SplitSlashEnded(j);
    SplitRooted(j + ['/']);
    assert ['/'] + j + ['/'] == ['/'] + (j + ['/']);
  }

  /** The root is clean. */
  lemma CleanRoot(root: string)
    requires root == ['/']
    ensures Clean(root) == root
  {
    SplitRooted("");
    SplitEmpty();
    assert root == ['/'] + "";
    assert Split(root, '/') == [""] + [""];
    NormSkipEmpty([], [""], true);
    NormSkipEmpty([], [], true);
    assert [""] + [] == [""];
  }

  /** Dir of "x/c" for a plain name c cleans "x/". */
  lemma DirOfSlashName(x: string, c: string)
    requires Plain(c)
    ensures Dir(x + ['/'] + c) == Clean(x + ['/'])
  {
    var s := x + ['/'] + c;
    assert s[|x|] == '/';
    assert s[|x| + 1..] == c;
    assert LastIndexChar(s, '/') == |x|;
    assert s[..|x| + 1] == x + ['/'];
  }

  /** Cleaning "/" + d + "/" drops the trailing slash. */
  lemma CleanSlashEnded(d: seq<string>)
    requires |d| >= 1
    requires forall i :: 0 <= i < |d| ==> Plain(d[i])
    ensures Clean(['/'] + Strs.Join(d, '/') + ['/']) == ['/'] + Strs.Join(d, '/')
  {
    SegmentsSlashEnded(d);
  }

  /** Dir of a rooted path of plain segments drops the last segment. */
  lemma DirOfRootedPlain(d: seq<string>, c: string)
    requires Plain(c)
    requires forall i :: 0 <= i < |d| ==> Plain(d[i])
    ensures Dir(['/'] + Strs.Join(d + [c], '/')) == ['/'] + Strs.Join(d, '/')
  {
    if d == [] {
      DirOfRootedPlainTop(d, c);
    } else {
      DirOfRootedPlainDeep(d, c);
    }
  }

  lemma DirOfRootedPlainTop(d: seq<string>, c: string)
    requires Plain(c) && d == []
    ensures Dir(['/'] + Strs.Join(d + [c], '/')) == ['/'] + Strs.Join(d, '/')
  {
    assert d + [c] == [c];
    DirOfRootChild(c);
  }

  lemma Regroup(a: string, b: string, c: string, e: string)
    ensures a + (b + c + e) == (a + b) + (c + e)
  {
  }

  lemma DirOfRootedPlainDeep(d: seq<string>, c: string)
    requires Plain(c) && d != []
    requires forall i :: 0 <= i < |d| ==> Plain(d[i])
    ensures Dir(['/'] + Strs.Join(d + [c], '/')) == ['/'] + Strs.Join(d, '/')
  {
    var j := Strs.Join(d, '/');
    JoinAppend(d, c, '/');
    Regroup(['/'], j, ['/'], c);
    DirOfDeepChild(['/'] + j, c);
    CleanSlashEnded(d);
  }

  lemma DirOfRootChild(c: string)
    requires Plain(c)
    ensures Dir(['/'] + c) == "/"
  {
    DirOfSlashName([], c);
    assert [] + ['/'] + c == ['/'] + c;
    assert [] + ['/'] == ['/'];
    CleanRoot(['/']);
  }

  lemma DirOfDeepChild(x: string, c: string)
    requires Plain(c)
    ensures Dir(x + ([ '/'] + c)) == Clean(x + ['/'])
  {
    DirOfSlashName(x, c);
    assert x + (['/'] + c) == x + ['/'] + c;
  }

  /** "//" followed by plain segments cleans to a single leading slash. */
  lemma CleanDoubleRootPlain(ps: seq<string>)
    requires |ps| >= 1
    requires forall i :: 0 <= i < |ps| ==> Plain(ps[i])
    ensures Clean(['/'] + ['/'] + Strs.Join(ps, '/')) == ['/'] + Strs.Join(ps, '/')
  {
    SplitJoin(ps, '/');
    SplitDoubleRooted(Strs.Join(ps, '/'));
    NormSkipEmpty([], [""] + ps, true);
    NormSkipEmpty([], ps, true);
    NormPlain([], ps, true);
    assert [] + ps == ps;
  }

  lemma SplitDoubleRooted(j: string)
    ensures Split(['/'] + ['/'] + j, '/') == [""] + ([""] + Split(j, '/'))
  {
    SplitRooted(j);
    SplitRooted(['/'] + j);
    assert ['/'] + ['/'] + j == ['/'] + (['/'] + j);
  }

  /** Joining a rooted directory of plain segments with a relative path of plain segments concatenates them. */
  lemma JoinRootedPlain(d: seq<string>, ps: seq<string>)
    requires |ps| >= 1
    requires forall i :: 0 <= i < |d| ==> Plain(d[i])
    requires forall i :: 0 <= i < |ps| ==> Plain(ps[i])
    ensures Join([['/'] + Strs.Join(d, '/'), Strs.Join(ps, '/')]) == ['/'] + Strs.Join(d + ps, '/')
  {
    JoinPair(['/'] + Strs.Join(d, '/'), Strs.Join(ps, '/'));
    if d == [] {
      JoinRootTop(d, ps);
    } else {
      JoinRootDeep(d, ps);
    }
  }

  lemma JoinRootTop(d: seq<string>, ps: seq<string>)
    requires |ps| >= 1 && d == []
    requires forall i :: 0 <= i < |ps| ==> Plain(ps[i])
    ensures Clean(['/'] + Strs.Join(d, '/') + "/" + Strs.Join(ps, '/')) == ['/'] + Strs.Join(d + ps, '/')
  {
    assert d + ps == ps;
    assert Strs.Join(d, '/') == "";
    EmptyMiddle(['/'], ['/'], Strs.Join(ps, '/'));
    CleanDoubleRootPlain(ps);
  }

  lemma EmptyMiddle(a: string, b: string, c: string)
    ensures a + "" + b + c == a + b + c
  {
  }

  lemma JoinRootDeep(d: seq<string>, ps: seq<string>)
    requires |ps| >= 1 && |d| >= 1
    requires forall i :: 0 <= i < |d| ==> Plain(d[i])
    requires forall i :: 0 <= i < |ps| ==> Plain(ps[i])
    ensures Clean(['/'] + Strs.Join(d, '/') + "/" + Strs.Join(ps, '/')) == ['/'] + Strs.Join(d + ps, '/')
  {
    JoinConcat(d, ps);
    Regroup3(['/'], Strs.Join(d, '/'), ['/'], Strs.Join(ps, '/'));
    forall i | 0 <= i < |d + ps|
      ensures Plain((d + ps)[i])
    {
      if i >= |d| { assert (d + ps)[i] == ps[i - |d|]; }
    }
    CleanRootedPlain(d + ps);
  }

  lemma Regroup3(a: string, b: string, c: string, e: string)
    ensures a + b + c + e == a + (b + c + e)
  {
  }
}
