/**
 * The JSON-backed row store (model/store.go) as the rows it holds in memory:
 * insertion at the end, first-match lookup, deletion by a matcher, copying out
 * and in-place updates. Locking and the flush to disk are not part of the model;
 * every operation is one atomic step on the row sequence.
 */
module RowStore {
  import opened Results

  /** A store: the file it persists to and its rows, in insertion order. */
  datatype Store<M> = Store(filePath: string, data: seq<M>)

  /** WHandle.Insert: the row is appended after the existing ones. */
  function Insert<M>(s: Store<M>, row: M): (r: Store<M>)
    ensures r.filePath == s.filePath
    ensures |r.data| == |s.data| + 1
    ensures r.data[..|s.data|] == s.data && r.data[|s.data|] == row
  {
    s.(data := s.data + [row])
  }

  // ---------------------------------------------------------------------
  // Find

  /** The index of the first row from `i` on that the matcher accepts. */
  function FindFrom<M>(data: seq<M>, matcher: M -> bool, i: nat): (r: Option<nat>)
    requires i <= |data|
    ensures r.Some? ==> i <= r.value < |data| && matcher(data[r.value])
    ensures r.Some? ==> forall j :: i <= j < r.value ==> !matcher(data[j])
    ensures r.None? ==> forall j :: i <= j < |data| ==> !matcher(data[j])
    decreases |data| - i
  {
    if i == |data| then None
    else if matcher(data[i]) then Some(i)
    else FindFrom(data, matcher, i + 1)
  }

  /** RHandle.Find (and the store's and WHandle's Find): the first matching row; None is Go's (zero, false). */
  function Find<M>(s: Store<M>, matcher: M -> bool): (r: Option<M>)
    ensures r.None? <==> forall j :: 0 <= j < |s.data| ==> !matcher(s.data[j])
    ensures r.Some? ==> matcher(r.value)
    ensures r.Some? ==>
      exists i :: 0 <= i < |s.data| && s.data[i] == r.value && (forall j :: 0 <= j < i ==> !matcher(s.data[j]))
  {
    match FindFrom(s.data, matcher, 0)
    case None => None
    case Some(i) => Some(s.data[i])
  }

  /** A matching row is found once inserted; the first earlier match still wins. */
  lemma InsertThenFind<M>(s: Store<M>, row: M, matcher: M -> bool)
    requires matcher(row)
    ensures Find(Insert(s, row), matcher).Some?
    ensures Find(s, matcher).Some? ==> Find(Insert(s, row), matcher) == Find(s, matcher)
    ensures Find(s, matcher).None? ==> Find(Insert(s, row), matcher) == Some(row)
  {
    var d := Insert(s, row).data;
    assert d[|s.data|] == row;
    FindPrefix(s.data, [row], matcher, 0);
  }

  /** Appending rows never changes a match found in the existing ones. */
  lemma {:induction false} FindPrefix<M>(a: seq<M>, b: seq<M>, matcher: M -> bool, i: nat)
    requires i <= |a|
    ensures FindFrom(a, matcher, i).Some? ==> FindFrom(a + b, matcher, i) == FindFrom(a, matcher, i)
    ensures FindFrom(a, matcher, i).None? ==> FindFrom(a + b, matcher, i) == FindFrom(a + b, matcher, |a|)
    decreases |a| - i
  {
    if i < |a| {
      assert (a + b)[i] == a[i];
      FindPrefix(a, b, matcher, i + 1);
    }
  }

  // ---------------------------------------------------------------------
  // Delete

  /** The rows the matcher rejects, in their order: the reference for Delete. */
  function Keep<M>(data: seq<M>, matcher: M -> bool): (r: seq<M>)
    ensures |r| <= |data|
    ensures forall i :: 0 <= i < |r| ==> !matcher(r[i])
    ensures forall x :: x in r ==> x in data
    ensures forall i :: 0 <= i < |data| && !matcher(data[i]) ==> data[i] in r
  {
    if data == [] then []
    else
      var last := data[|data| - 1];
      var rest := Keep(data[..|data| - 1], matcher);
      if matcher(last) then rest else rest + [last]
  }

  /** Keep works piece by piece, so the kept rows stay in their original order. */
  lemma {:induction false} KeepConcat<M>(a: seq<M>, b: seq<M>, matcher: M -> bool)
    ensures Keep(a + b, matcher) == Keep(a, matcher) + Keep(b, matcher)
    decreases |b|
  {
    if b == [] {
      assert a + b == a;
    } else {
      var b' := b[..|b| - 1];
      assert (a + b)[..|a + b| - 1] == a + b';
      assert (a + b)[|a + b| - 1] == b[|b| - 1];
      KeepConcat(a, b', matcher);
    }
  }

  /** A single row is kept exactly when the matcher rejects it. */
  lemma KeepOne<M>(x: M, matcher: M -> bool)
    ensures Keep([x], matcher) == if matcher(x) then [] else [x]
  {
    assert [x][..0] == [];
  }

  /** Rows the matcher rejects everywhere come back unchanged. */
  lemma {:induction false} KeepNoMatch<M>(data: seq<M>, matcher: M -> bool)
    requires forall i :: 0 <= i < |data| ==> !matcher(data[i])
    ensures Keep(data, matcher) == data
    decreases |data|
  {
    if data != [] {
      var d' := data[..|data| - 1];
      KeepNoMatch(d', matcher);
      assert d' + [data[|data| - 1]] == data;
    }
  }

  /** WHandle.Delete without the flush: a new sequence of the rows the matcher rejects. */
  method Delete<M>(s: Store<M>, matcher: M -> bool) returns (r: Store<M>)
    ensures r.filePath == s.filePath
    ensures r.data == Keep(s.data, matcher)
  {
    var kept: seq<M> := [];
    var i := 0;
    while i < |s.data|
      invariant 0 <= i <= |s.data|
      invariant kept == Keep(s.data[..i], matcher)
    {
      assert s.data[..i + 1][..i] == s.data[..i];
      if !matcher(s.data[i]) {
        kept := kept + [s.data[i]];
      }
      i := i + 1;
    }
    assert s.data[..i] == s.data;
    r := s.(data := kept);
  }

  /** After deleting what a matcher accepts, finding with it fails. */
  lemma DeleteThenFind<M>(s: Store<M>, matcher: M -> bool)
    ensures Find(s.(data := Keep(s.data, matcher)), matcher).None?
  {
  }

  /** Deleting with a matcher no row satisfies changes nothing. */
  lemma DeleteAbsent<M>(s: Store<M>, matcher: M -> bool)
    requires Find(s, matcher).None?
    ensures s.(data := Keep(s.data, matcher)) == s
  {
    KeepNoMatch(s.data, matcher);
  }

  /** Deleting an inserted row's matches removes it and keeps the older rows that do not match, in order. */
  lemma DeleteInserted<M>(s: Store<M>, row: M, matcher: M -> bool)
    requires matcher(row)
    ensures Keep(Insert(s, row).data, matcher) == Keep(s.data, matcher)
  {
    KeepConcat(s.data, [row], matcher);
    KeepOne(row, matcher);
  }

  // ---------------------------------------------------------------------
  // Copying out and updating in place

  /** ShallowCopyOutData: a fresh sequence holding the current rows. */
  method ShallowCopyOutData<M>(s: Store<M>) returns (out: seq<M>)
    ensures out == s.data
  {
    out := [];
    var i := 0;
    while i < |s.data|
      invariant 0 <= i <= |s.data|
      invariant out == s.data[..i]
    {
      assert s.data[..i + 1] == s.data[..i] + [s.data[i]];
      out := out + [s.data[i]];
      i := i + 1;
    }
  }

  /**
   * WHandle.ForEach without the flush: `f` replaces each row in turn, from the
   * first to the last. The callback's in-place update through *Model is a
   * function from the old row to the new one.
   */
  method ForEach<M>(s: Store<M>, f: M -> M) returns (r: Store<M>)
    ensures r.filePath == s.filePath
    ensures |r.data| == |s.data|
    ensures forall i :: 0 <= i < |s.data| ==> r.data[i] == f(s.data[i])
  {
    var data := s.data;
    var i := 0;
    while i < |data|
      invariant 0 <= i <= |data| && |data| == |s.data|
      invariant forall j :: 0 <= j < i ==> data[j] == f(s.data[j])
      invariant forall j :: i <= j < |data| ==> data[j] == s.data[j]
    {
      data := data[i := f(data[i])];
      i := i + 1;
    }
    r := s.(data := data);
  }
}
