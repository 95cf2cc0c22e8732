/**
 * The project alias (project/config.go): the project's name with every run of
 * characters outside [a-zA-Z0-9] removed, so it can serve as a directory name.
 */
module ProjectAlias {
  import opened Strs

  /** GetProjectAlias: replacing each maximal run of non-alphanumerics by "" keeps exactly the alphanumerics. */
  function Alias(name: string): (r: string)
    ensures |r| <= |name|
    ensures forall i :: 0 <= i < |r| ==> IsAsciiAlnum(r[i])
  {
    if name == "" then ""
    else
      var rest := Alias(name[..|name| - 1]);
      var c := name[|name| - 1];
      if IsAsciiAlnum(c) then rest + [c] else rest
  }

  /** The alias of a concatenation is the concatenation of the aliases: the kept characters stay in order. */
  lemma {:induction false} AliasConcat(a: string, b: string)
    ensures Alias(a + b) == Alias(a) + Alias(b)
    decreases |b|
  {
    if b == "" {
      assert a + b == a;
    } else {
      var b' := b[..|b| - 1];
      assert (a + b)[..|a + b| - 1] == a + b';
      assert (a + b)[|a + b| - 1] == b[|b| - 1];
      AliasConcat(a, b');
    }
  }

  /** One character is kept exactly when it is an ASCII letter or digit. */
  lemma AliasOfChar(c: char)
    ensures Alias([c]) == if IsAsciiAlnum(c) then [c] else []
  {
    assert [c][..0] == [];
  }

  /** A name that is already alphanumeric is its own alias. */
  lemma {:induction false} AliasOfAlnum(name: string)
    requires forall i :: 0 <= i < |name| ==> IsAsciiAlnum(name[i])
    ensures Alias(name) == name
    decreases |name|
  {
    if name != "" {
      AliasOfAlnum(name[..|name| - 1]);
      assert name[..|name| - 1] + [name[|name| - 1]] == name;
    }
  }

  /** Taking the alias twice is the same as taking it once. */
  lemma AliasIdempotent(name: string)
    ensures Alias(Alias(name)) == Alias(name)
  {
    AliasOfAlnum(Alias(name));
  }

  /** Every alphanumeric character of the name survives: the alias keeps as many as the name has. */
  lemma {:induction false} AliasKeepsAlnum(name: string)
    ensures |Alias(name)| == CountAlnum(name)
    decreases |name|
  {
    if name != "" {
      AliasKeepsAlnum(name[..|name| - 1]);
    }
  }

  function CountAlnum(s: string): nat {
    if s == "" then 0 else CountAlnum(s[..|s| - 1]) + (if IsAsciiAlnum(s[|s| - 1]) then 1 else 0)
  }
}
