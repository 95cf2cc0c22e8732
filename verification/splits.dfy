/** Lemmas relating strings.Split and strings.Join for a one-character separator. */
module Splits {
  import opened Strs

  /** No part of a split contains the separator. */
  lemma {:induction false} SplitPartsNoSep(s: string, sep: char)
    ensures forall k :: 0 <= k < |Split(s, sep)| ==> sep !in Split(s, sep)[k]
    decreases |s|
  {
    if IndexChar(s, sep) >= 0 {
      SplitStep(s, sep);
      var i := IndexChar(s, sep);
      var rest := s[i + 1..];
      SplitPartsNoSep(rest, sep);
      NoSepCons(s[..i], Split(rest, sep), sep);
    } else {
      assert Split(s, sep) == [s];
    }
  }

  lemma NoSepCons(head: string, tail: seq<string>, sep: char)
    requires sep !in head
    requires forall k :: 0 <= k < |tail| ==> sep !in tail[k]
    ensures forall k :: 0 <= k < |[head] + tail| ==> sep !in ([head] + tail)[k]
  {
    forall k | 0 <= k < |[head] + tail| ensures sep !in ([head] + tail)[k] {
      if k > 0 { assert ([head] + tail)[k] == tail[k - 1]; }
    }
  }

  lemma ConsAssoc<T>(h: T, a: seq<T>, b: seq<T>)
    ensures [h] + (a + b) == ([h] + a) + b
  {
  }

  /** One step of Split: the part before the first separator, then the split of the rest. */
  lemma SplitStep(s: string, sep: char)
    requires IndexChar(s, sep) >= 0
    ensures var i := IndexChar(s, sep);
      0 <= i < |s| && Split(s, sep) == [s[..i]] + Split(s[i + 1..], sep)
  {
  }

  /** The first occurrence is the one with no earlier occurrence before it. */
  lemma {:induction false} JoinSplit(s: string, sep: char)
    ensures Join(Split(s, sep), sep) == s
    decreases |s|
  {
    if IndexChar(s, sep) >= 0 {
      SplitStep(s, sep);
      var i := IndexChar(s, sep);
      JoinSplit(s[i + 1..], sep);
      JoinSplitGlue(s, sep, i, Split(s[i + 1..], sep));
    } else {
      assert Split(s, sep) == [s];
    }
  }

  lemma JoinSplitGlue(s: string, sep: char, i: nat, tail: seq<string>)
    requires i < |s| && s[i] == sep
    requires Split(s, sep) == [s[..i]] + tail && |tail| >= 1
    requires Join(tail, sep) == s[i + 1..]
    ensures Join(Split(s, sep), sep) == s
  {
    JoinCons(s[..i], tail, sep);
    assert s == s[..i] + [sep] + s[i + 1..];
  }

  lemma JoinCons(h: string, tail: seq<string>, sep: char)
    requires |tail| >= 1
    ensures Join([h] + tail, sep) == h + [sep] + Join(tail, sep)
  {
    assert ([h] + tail)[1..] == tail;
  }

  /** A join whose first part is non-empty starts with that part's first character. */
  lemma JoinHead(d: seq<string>, sep: char)
    requires |d| >= 1 && d[0] != ""
    ensures Join(d, sep) != "" && Join(d, sep)[0] == d[0][0]
  {
    if |d| > 1 {
      JoinCons(d[0], d[1..], sep);
      assert [d[0]] + d[1..] == d;
      var rest := [sep] + Join(d[1..], sep);
      assert d[0] + [sep] + Join(d[1..], sep) == d[0] + rest;
    }
  }
}
