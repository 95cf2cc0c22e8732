/**
 * The CDN-backed file system of the module resolver (compile/resolve/http.go):
 * the base URL it keeps, the node built-in polyfill path recogniser, the file
 * entries it hands out, and what `io.ReadAll` gets back from such an entry.
 */
module HttpResolve {
  import opened Results
  import opened Strs
  import GoPath
  import Urls

  /** The resolver's file system: only the base URL's scheme, host and user matter. */
  datatype HttpFs = HttpFs(baseUrl: Urls.Url)

  /** A fetched file: the name it was opened with and the response body. */
  datatype HttpFileEntry = HttpFileEntry(path: string, contents: string)

  /** NewHttpResolver: the path, query and fragment of the given URL are dropped. */
  function NewHttpFs(given: Urls.Url): (r: HttpFs)
    ensures r.baseUrl.scheme == given.scheme && r.baseUrl.host == given.host && r.baseUrl.user == given.user
    ensures r.baseUrl.path == "" && r.baseUrl.opaquePart == "" && r.baseUrl.rawQuery == "" && r.baseUrl.fragment == ""
    ensures !r.baseUrl.forceQuery
  {
    HttpFs(Urls.Url(given.scheme, "", given.user, given.host, "", false, "", ""))
  }

  /** HttpFileEntry.Name. */
  function Name(e: HttpFileEntry): string {
    GoPath.Base(e.path)
  }

  /** Stripping a base URL twice is the same as stripping it once. */
  lemma NewHttpFsIdempotent(given: Urls.Url)
    ensures NewHttpFs(NewHttpFs(given).baseUrl) == NewHttpFs(given)
  {
  }

  /** An entry opened under a directory and a plain file name is named after that file name. */
  lemma NameOfJoined(dir: string, name: string, contents: string)
    requires GoPath.Plain(name)
    ensures Name(HttpFileEntry(GoPath.Clean(dir + "/" + name), contents)) == name
  {
    GoPath.BaseAfterJoin(dir, name);
  }

  // ---------------------------------------------------------------------
  // isNodeBuiltinPath

  /** The first index from `i` on whose character is not a decimal digit, or |q| when there is none. */
  function SkipDigits(q: string, i: nat): (r: nat)
    requires i <= |q|
    ensures i <= r <= |q|
    ensures forall j :: i <= j < r ==> IsDigit(q[j])
    ensures r < |q| ==> !IsDigit(q[r])
    decreases |q| - i
  {
    if i == |q| then |q|
    else if !IsDigit(q[i]) then i
    else SkipDigits(q, i + 1)
  }

  /**
   * isNodeBuiltinPath: after dropping the first character, "v", digits, "/"
   * and a final element starting with "node_". None stands for the index
   * panic on a path shorter than two characters.
   */
  function IsNodeBuiltinPath(p: string): (r: Option<bool>)
    ensures r.None? <==> |p| < 2
  {
    if |p| < 2 then None
    else
      var q := p[1..];
      if q[0] != 'v' then Some(false)
      else
        var i := SkipDigits(q, 1);
        var q' := if i < |q| then q[i..] else q;
        if q'[0] != '/' then Some(false)
        else
          var name := q'[1..];
          Some(HasPrefix(name, "node_") && '/' !in name)
  }

  /** The shape the check accepts: any first character, "v", digits, "/", then "node_..." with no further '/'. */
  predicate BuiltinShape(p: string, k: nat) {
    && 2 <= k < |p|
    && p[1] == 'v'
    && AllDigits(p[2..k])
    && p[k] == '/'
    && HasPrefix(p[k + 1..], "node_")
    && '/' !in p[k + 1..]
  }

  lemma {:induction false} SkipDigitsStops(q: string, i: nat, k: nat)
    requires i <= k < |q|
    requires forall j :: i <= j < k ==> IsDigit(q[j])
    requires !IsDigit(q[k])
    ensures SkipDigits(q, i) == k
    decreases k - i
  {
    if i < k {
      SkipDigitsStops(q, i + 1, k);
    }
  }

  /** Every path the check accepts has the built-in shape. */
  lemma AcceptedHasShape(p: string)
    requires IsNodeBuiltinPath(p) == Some(true)
    ensures BuiltinShape(p, SkipDigits(p[1..], 1) + 1)
  {
    var q := p[1..];
    var i := SkipDigits(q, 1);
    assert i < |q|;
    var k := i + 1;
    SliceOfTail(p, 2, k);
    assert p[k] == q[i];
    SliceOfTail(p, k + 1, |p|);
    assert q[i..][1..] == q[i + 1..];
  }

  /** A slice of `p` is the slice one position earlier of `p[1..]`. */
  lemma SliceOfTail(p: string, a: nat, b: nat)
    requires 1 <= a <= b <= |p|
    ensures p[a..b] == p[1..][a - 1..b - 1]
  {
  }

  /** Every path of the built-in shape is accepted. */
  lemma ShapeIsAccepted(p: string, k: nat)
    requires BuiltinShape(p, k)
    ensures IsNodeBuiltinPath(p) == Some(true)
  {
    var q := p[1..];
    forall j | 1 <= j < k - 1
      ensures IsDigit(q[j])
    {
      assert q[j] == p[2..k][j - 1];
    }
    assert q[k - 1] == p[k];
    SkipDigitsStops(q, 1, k - 1);
    assert q[k - 1..][1..] == p[k + 1..];
  }

  /** The check answers true exactly for the paths of the built-in shape. */
  lemma NodeBuiltinIff(p: string)
    ensures IsNodeBuiltinPath(p) == Some(true) <==> exists k: nat :: BuiltinShape(p, k)
  {
    if IsNodeBuiltinPath(p) == Some(true) {
      AcceptedHasShape(p);
    }
    if exists k: nat :: BuiltinShape(p, k) {
      var k: nat :| BuiltinShape(p, k);
      ShapeIsAccepted(p, k);
    }
  }

  /** A digit run may be empty: "/v/node_fs" counts as a built-in path. */
  lemma EmptyVersionAccepted(first: char, name: string)
    requires HasPrefix(name, "node_") && '/' !in name
    ensures IsNodeBuiltinPath([first, 'v', '/'] + name) == Some(true)
  {
    var p := [first, 'v', '/'] + name;
    assert p[2..2] == [];
    assert p[3..] == name;
    ShapeIsAccepted(p, 2);
  }

  // ---------------------------------------------------------------------
  // Reading an entry

  /** Readers of a file body: an HttpFileEntry as written, and a reader that remembers its offset. */
  datatype Reader = Whole(contents: string) | Cursor(contents: string, offset: nat)

  /** HttpFileEntry.Read copies from the start of the body on every call and always reports io.EOF. */
  function Read(r: Reader, room: nat): (res: (Reader, string, bool))
    requires r.Cursor? ==> r.offset <= |r.contents|
    ensures res.0.Cursor? ==> res.0.offset <= |res.0.contents| && res.0.contents == r.contents
    ensures r.Whole? ==> res.0 == r && res.2 && res.1 == r.contents[..Min(room, |r.contents|)]
    ensures r.Cursor? ==> res.0.Cursor? && res.0.offset == r.offset + |res.1|
    ensures r.Cursor? ==> res.1 == r.contents[r.offset..res.0.offset] && |res.1| <= room
    ensures r.Cursor? ==> (res.2 <==> r.offset == |r.contents|)
    ensures r.Cursor? && room > 0 && !res.2 ==> |res.1| > 0
  {
    match r
    case Whole(c) => (r, c[..Min(room, |c|)], true)
    case Cursor(c, off) =>
      if off == |c| then (r, "", true)
      else
        var n := Min(room, |c| - off);
        (Cursor(c, off + n), c[off..off + n], false)
  }

  function Min(a: nat, b: nat): nat {
    if a < b then a else b
  }

  /** How many more successful reads a reader can give at most. */
  function Pending(r: Reader): nat {
    match r
    case Whole(_) => 1
    case Cursor(c, off) => if off <= |c| then |c| - off + 1 else 0
  }

  /** The buffer size io.ReadAll starts with. */
  const ReadAllStart: nat := 512

  /**
   * io.ReadAll: read into the free capacity of a buffer that starts with 512
   * bytes, grow the buffer when it is full, and stop at the first error,
   * where io.EOF is not an error.
   */
  method ReadAll(r0: Reader) returns (b: string)
    requires r0.Cursor? ==> r0.offset <= |r0.contents|
    ensures r0.Whole? ==> b == r0.contents[..Min(ReadAllStart, |r0.contents|)]
    ensures r0.Cursor? ==> b == r0.contents[r0.offset..]
  {
    var r := r0;
    var cap := ReadAllStart;
    b := "";
    while true
      invariant r.Cursor? ==> r.offset <= |r.contents|
      invariant |b| < cap
      invariant r0.Whole? ==> r == r0 && b == "" && cap == ReadAllStart
      invariant r0.Cursor? ==> r.Cursor? && r.contents == r0.contents && r0.offset <= r.offset
      invariant r0.Cursor? ==> b == r0.contents[r0.offset..r.offset]
      decreases Pending(r)
    {
      var res := Read(r, cap - |b|);
      var r', data, eof := res.0, res.1, res.2;
      b := b + data;
      if eof {
        return;
      }
      r := r';
      if |b| == cap {
        cap := cap * 2;
      }
    }
  }

  /** The file name's contents as the resolver receives them from an HttpFileEntry: cut at 512 bytes. */
  method ReadEntry(e: HttpFileEntry) returns (b: string)
    ensures |e.contents| <= ReadAllStart ==> b == e.contents
    ensures |e.contents| > ReadAllStart ==> b == e.contents[..ReadAllStart] && b != e.contents
  {
    b := ReadAll(Whole(e.contents));
  }

  /** A reader that keeps its offset hands io.ReadAll the whole body. */
  method ReadEntryFromStart(e: HttpFileEntry) returns (b: string)
    ensures b == e.contents
  {
    b := ReadAll(Cursor(e.contents, 0));
    assert e.contents[0..] == e.contents;
  }
}
