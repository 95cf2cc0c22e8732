/** String helpers with the semantics of Go's `strings` package, on `seq<char>`. */
module Strs {
  import opened Results

  predicate HasPrefix(s: string, p: string) {
    |p| <= |s| && s[..|p|] == p
  }

  predicate HasSuffix(s: string, p: string) {
    |p| <= |s| && s[|s| - |p|..] == p
  }

  function TrimPrefix(s: string, p: string): (r: string)
    ensures HasPrefix(s, p) ==> p + r == s
    ensures !HasPrefix(s, p) ==> r == s
  {
    if HasPrefix(s, p) then s[|p|..] else s
  }

  function TrimSuffix(s: string, p: string): (r: string)
    ensures HasSuffix(s, p) ==> r + p == s
    ensures !HasSuffix(s, p) ==> r == s
  {
    if HasSuffix(s, p) then s[..|s| - |p|] else s
  }

  /** True when `p` occurs in `s` starting at position `i`. */
  predicate OccursAt(s: string, p: string, i: int) {
    0 <= i && i + |p| <= |s| && s[i..i + |p|] == p
  }

  /** strings.Index: the first position where `p` occurs, or -1. */
  function Index(s: string, p: string): (r: int)
    ensures -1 <= r <= |s|
    ensures r >= 0 ==> OccursAt(s, p, r)
    ensures forall j :: 0 <= j < (if r < 0 then |s| + 1 else r) ==> !OccursAt(s, p, j)
  {
    IndexFrom(s, p, 0)
  }

  function IndexFrom(s: string, p: string, k: nat): (r: int)
    requires k <= |s| + 1
    ensures r == -1 || k <= r <= |s|
    ensures r >= 0 ==> OccursAt(s, p, r)
    ensures forall j :: k <= j < (if r < 0 then |s| + 1 else r) ==> !OccursAt(s, p, j)
    decreases |s| + 1 - k
  {
    if k + |p| > |s| then -1
    else if s[k..k + |p|] == p then k
    else IndexFrom(s, p, k + 1)
  }

  predicate Contains(s: string, p: string) {
    Index(s, p) >= 0
  }

  /** strings.IndexByte / IndexRune for one character. */
  function IndexChar(s: string, c: char): (r: int)
    ensures -1 <= r < |s|
    ensures r >= 0 ==> s[r] == c && c !in s[..r]
    ensures r < 0 ==> c !in s
  {
    if |s| == 0 then -1
    else if s[0] == c then 0
    else
      var r := IndexChar(s[1..], c);
      assert s[1..][..if r < 0 then 0 else r] == s[1..if r < 0 then 1 else r + 1];
      if r < 0 then -1 else r + 1
  }

  /** strings.LastIndexByte for one character. */
  function LastIndexChar(s: string, c: char): (r: int)
    ensures -1 <= r < |s|
    ensures r >= 0 ==> s[r] == c && forall j :: r < j < |s| ==> s[j] != c
    ensures r < 0 ==> forall j :: 0 <= j < |s| ==> s[j] != c
  {
    if |s| == 0 then -1
    else if s[|s| - 1] == c then |s| - 1
    else LastIndexChar(s[..|s| - 1], c)
  }

  /** strings.Split(s, sep) for a one-character separator: never empty. */
  function Split(s: string, sep: char): (parts: seq<string>)
    ensures |parts| >= 1
    decreases |s|
  {
    var i := IndexChar(s, sep);
    if i < 0 then [s] else [s[..i]] + Split(s[i + 1..], sep)
  }

  /** strings.Join(parts, sep) for a one-character separator (the empty list joins to ""). */
  function Join(parts: seq<string>, sep: char): string {
    if |parts| == 0 then ""
    else if |parts| == 1 then parts[0]
    else parts[0] + [sep] + Join(parts[1..], sep)
  }

  lemma {:induction false} SplitJoin(parts: seq<string>, sep: char)
    requires |parts| >= 1
    requires forall i :: 0 <= i < |parts| ==> sep !in parts[i]
    ensures Split(Join(parts, sep), sep) == parts
  {
    if |parts| > 1 {
      SplitJoin(parts[1..], sep);
      assert Join(parts, sep) == parts[0] + [sep] + Join(parts[1..], sep);
      SplitAfterFirst(parts[0], Join(parts[1..], sep), sep);
    } else {
      assert Join(parts, sep) == parts[0];
    }
  }

  /** Splitting "h<sep>rest" for a separator-free `h`. */
  lemma SplitAfterFirst(h: string, rest: string, sep: char)
    requires sep !in h
    ensures Split(h + [sep] + rest, sep) == [h] + Split(rest, sep)
  {
    var s := h + [sep] + rest;
    assert s[..|h|] == h;
    IndexCharAt(s, sep, |h|);
    assert s[|h| + 1..] == rest;
  }

  /** The first occurrence of `c` is at `k` when `c` is there and nowhere before. */
  lemma IndexCharAt(s: string, c: char, k: nat)
    requires k < |s| && s[k] == c && c !in s[..k]
    ensures IndexChar(s, c) == k
  {
    assert s[k] in s;
  }

  lemma {:induction false} JoinAppend(parts: seq<string>, x: string, sep: char)
    requires |parts| >= 1
    ensures Join(parts + [x], sep) == Join(parts, sep) + [sep] + x
  {
    if |parts| == 1 {
      assert parts + [x] == [parts[0], x];
    } else {
      assert (parts + [x])[1..] == parts[1..] + [x];
      JoinAppend(parts[1..], x, sep);
    }
  }

  /** Decimal digits of a natural number, most significant first. */
  function NatToString(n: nat): (r: string)
    ensures |r| >= 1
    ensures forall i :: 0 <= i < |r| ==> '0' <= r[i] <= '9'
  {
    if n < 10 then [DigitChar(n)] else NatToString(n / 10) + [DigitChar(n % 10)]
  }

  function DigitChar(d: nat): (c: char)
    requires d < 10
    ensures '0' <= c <= '9'
  {
    ('0' as int + d) as char
  }

  /** fmt's `%d`: a leading '-' for negative numbers. */
  function IntToString(n: int): (r: string)
    ensures |r| >= 1
  {
    if n < 0 then "-" + NatToString(-n) else NatToString(n)
  }

  predicate IsDigit(c: char) { '0' <= c <= '9' }

  predicate IsAsciiAlnum(c: char) {
    'a' <= c <= 'z' || 'A' <= c <= 'Z' || '0' <= c <= '9'
  }

  predicate AllDigits(s: string) {
    forall i :: 0 <= i < |s| ==> IsDigit(s[i])
  }

  /** The value of a run of decimal digits, most significant first. */
  function DigitsValue(s: string): (v: nat)
    requires AllDigits(s)
  {
    if s == [] then 0 else DigitsValue(s[..|s| - 1]) * 10 + (s[|s| - 1] as int - '0' as int)
  }

  const MaxInt64: int := 0x7fff_ffff_ffff_ffff

  /** strconv.ParseInt(s, 10, 64): an optional sign, at least one digit, and the int64 range. */
  function ParseInt(s: string): (r: Option<int>)
    ensures r.Some? ==> -MaxInt64 - 1 <= r.value <= MaxInt64
    ensures r.Some? ==> s != "" && AllDigits(if s[0] == '+' || s[0] == '-' then s[1..] else s)
    ensures AllDigits(s) && s != "" ==> (r.Some? <==> DigitsValue(s) <= MaxInt64)
  {
    if s == "" then None
    else
      var digits := if s[0] == '+' || s[0] == '-' then s[1..] else s;
      if digits == "" || !AllDigits(digits) then None
      else
        var v: int := DigitsValue(digits);
        if s[0] == '-' then (if v > MaxInt64 + 1 then None else Some(0 - v))
        else if v > MaxInt64 then None
        else Some(v)
  }

  lemma {:induction false} DigitsOfNat(n: nat)
    ensures AllDigits(NatToString(n)) && DigitsValue(NatToString(n)) == n
  {
    var r := NatToString(n);
    if n >= 10 {
      var pre := NatToString(n / 10);
      DigitsOfNat(n / 10);
      assert r[..|r| - 1] == pre;
      assert DigitsValue(r) == DigitsValue(pre) * 10 + n % 10;
    }
  }

  /** Printing a natural number with `%d` and parsing it back gives the number. */
  lemma ParseNatToString(n: nat)
    requires n <= MaxInt64
    ensures ParseInt(NatToString(n)) == Some(n)
  {
    DigitsOfNat(n);
  }

  /** A sequence is its prefix before `i`, its element at `i`, and the rest. */
  lemma Around<T>(ms: seq<T>, i: nat)
    requires i < |ms|
    ensures ms == (ms[..i] + [ms[i]]) + ms[i + 1..]
  {
  }
}
