/**
 * The text of a failed build (compilerServer/build_error.go): one line per
 * esbuild error message, naming the plugin that raised it and the place it
 * points at, under a header that counts the errors.
 */
module BuildError {
  import opened Results
  import opened Strs

  /** The place an esbuild message points at; the file may carry a "namespace:" prefix. */
  datatype Location = Location(file: string, line: int, column: int)

  /** An esbuild message: its text, the plugin that raised it ("" for esbuild itself), its location. */
  datatype Message = Message(text: string, pluginName: string, location: Option<Location>)

  /** The file part of a location: everything after the first ':' when there is one. */
  function FilePart(file: string): (r: string)
    ensures ':' !in file ==> r == file
    ensures ':' in file ==> exists ns :: ':' !in ns && file == ns + ":" + r
  {
    var i := IndexChar(file, ':');
    if i == -1 then file
    else
      assert file == file[..i] + ":" + file[i + 1..];
      file[i + 1..]
  }

  /** The message text, behind "PluginName: " when a plugin raised it. */
  function Head(m: Message): string {
    if m.pluginName != "" then m.pluginName + ": " + m.text else m.text
  }

  /** getEsbuildErrorString. */
  function EsbuildErrorString(m: Message): (r: string)
    ensures HasPrefix(r, Head(m))
    ensures m.location.None? ==> r == Head(m)
    ensures m.location.Some? ==>
      HasSuffix(r, ":" + IntToString(m.location.value.line) + ":" + IntToString(m.location.value.column))
    ensures m.location.Some? ==>
      r == Head(m) + " in " + FilePart(m.location.value.file)
        + ":" + IntToString(m.location.value.line) + ":" + IntToString(m.location.value.column)
  {
    match m.location
    case None => Head(m)
    case Some(loc) =>
      var l, c := IntToString(loc.line), IntToString(loc.column);
      LocatedShape(Head(m), FilePart(loc.file), l, c);
      Head(m) + " in " + FilePart(loc.file) + ":" + l + ":" + c
  }

  /** A located message starts with its head and ends with ":line:column". */
  lemma LocatedShape(head: string, file: string, l: string, c: string)
    ensures var r := head + " in " + file + ":" + l + ":" + c;
      HasPrefix(r, head) && HasSuffix(r, ":" + l + ":" + c)
  {
    var r := head + " in " + file + ":" + l + ":" + c;
    var tail := ":" + l + ":" + c;
    assert r == (head + " in " + file) + tail;
    assert r == head + (" in " + file + tail);
    assert r[..|head|] == head;
    assert r[|r| - |tail|..] == tail;
  }

  /** A plugin's name heads the line exactly when there is one. */
  lemma HeadNamesPlugin(m: Message)
    ensures m.pluginName != "" ==> HasPrefix(EsbuildErrorString(m), m.pluginName + ": ")
    ensures m.pluginName == "" ==> HasPrefix(EsbuildErrorString(m), m.text)
  {
    if m.pluginName != "" {
      var p := m.pluginName + ": ";
      assert Head(m) == p + m.text;
      assert Head(m)[..|p|] == p;
    }
  }

  /** A location's file loses exactly the namespace before its first ':'. */
  lemma FilePartDropsNamespace(ns: string, path: string)
    requires ':' !in ns
    ensures FilePart(ns + ":" + path) == path
  {
    var f := ns + ":" + path;
    assert f[|ns|] == ':';
    assert f[..|ns|] == ns;
    assert f[|ns| + 1..] == path;
  }

  /** A location in a namespaced file names only the path after the namespace. */
  lemma LocationNamesPath(m: Message, ns: string, path: string)
    requires ':' !in ns
    requires m.location.Some? && m.location.value.file == ns + ":" + path
    ensures EsbuildErrorString(m) == Head(m) + " in " + path
      + ":" + IntToString(m.location.value.line) + ":" + IntToString(m.location.value.column)
  {
    FilePartDropsNamespace(ns, path);
  }

  /** The rendered messages, in order. */
  function Rendered(errors: seq<Message>): (r: seq<string>)
    ensures |r| == |errors|
    ensures forall i :: 0 <= i < |errors| ==> r[i] == EsbuildErrorString(errors[i])
  {
    seq(|errors|, i requires 0 <= i < |errors| => EsbuildErrorString(errors[i]))
  }

  /** Each rendered message on a new line, behind " - ". */
  function Lines(ms: seq<string>): string {
    if ms == [] then "" else Lines(ms[..|ms| - 1]) + ("\n - " + ms[|ms| - 1])
  }

  /** BuildError.Error. */
  function ErrorText(errors: seq<Message>): (r: string)
    ensures errors == [] <==> r == "Unknown error"
  {
    if errors == [] then "Unknown error"
    else
      var header := "Build failed with " + IntToString(|errors|) + " errors:\n";
      assert header[0] == 'B';
      header + Lines(Rendered(errors))
  }

  lemma {:induction false} LinesConcat(a: seq<string>, b: seq<string>)
    ensures Lines(a + b) == Lines(a) + Lines(b)
    decreases |b|
  {
    if b == [] {
      assert a + b == a;
    } else {
      var b' := b[..|b| - 1];
      assert (a + b)[..|a + b| - 1] == a + b';
      assert (a + b)[|a + b| - 1] == b[|b| - 1];
      LinesConcat(a, b');
    }
  }

  /** Every error has its own line, in order, after the header that counts them. */
  lemma ErrorListsEach(errors: seq<Message>, i: nat)
    requires i < |errors|
    ensures ErrorText(errors) == "Build failed with " + IntToString(|errors|) + " errors:\n"
      + (Lines(Rendered(errors[..i])) + ("\n - " + EsbuildErrorString(errors[i])) + Lines(Rendered(errors[i + 1..])))
  {
    LinesAround(Rendered(errors), i);
    RenderedSlices(errors, i);
  }

  lemma RenderedSlices(errors: seq<Message>, i: nat)
    requires i < |errors|
    ensures Rendered(errors[..i]) == Rendered(errors)[..i]
    ensures Rendered(errors[i + 1..]) == Rendered(errors)[i + 1..]
    ensures Rendered(errors)[i] == EsbuildErrorString(errors[i])
  {
  }

  lemma LinesAround(ms: seq<string>, i: nat)
    requires i < |ms|
    ensures Lines(ms) == Lines(ms[..i]) + ("\n - " + ms[i]) + Lines(ms[i + 1..])
  {
    var pre, x, post := ms[..i], ms[i], ms[i + 1..];
    calc {
      Lines(ms);
      { Around(ms, i); }
      Lines((pre + [x]) + post);
      { LinesConcat(pre + [x], post); }
      Lines(pre + [x]) + Lines(post);
      { LinesSnoc(pre, x); }
      Lines(pre) + ("\n - " + x) + Lines(post);
    }
  }

  lemma LinesSnoc(pre: seq<string>, x: string)
    ensures Lines(pre + [x]) == Lines(pre) + ("\n - " + x)
  {
    assert (pre + [x])[..|pre|] == pre;
  }
}
