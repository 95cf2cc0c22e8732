/**
 * Topic and process identifiers: an `Id` is a category path plus a free-form
 * key, printed as "category#key". `Category` builds a category from
 * user-supplied parts by percent-encoding each one as a URL path segment
 * (section 2.1 of RFC 3986) and additionally encoding '.', so that the final
 * `path.Join` can neither pop nor merge segments.
 *
 * Go strings are byte strings; a Dafny string stands for its UTF-8 encoding.
 */
module Identity {
  import opened Results
  import opened Strs
  import GoPath

  datatype Id = Id(category: string, key: string)

  /** `Id.String`. */
  function IdString(id: Id): (r: string)
    ensures |r| == |id.category| + 1 + |id.key|
    ensures r[|id.category|] == '#'
  {
    id.category + "#" + id.key
  }

  /** Splits an id string at its first '#'; the inverse of `IdString` for categories without '#'. */
  function ParseId(s: string): (r: Option<Id>)
    ensures r.Some? <==> '#' in s
  {
    var i := IndexChar(s, '#');
    if i < 0 then None else Some(Id(s[..i], s[i + 1..]))
  }

  /** Splitting at the first '#' recovers category and key whenever the category has no '#'. */
  lemma ParseIdString(id: Id)
    requires '#' !in id.category
    ensures ParseId(IdString(id)) == Some(id)
  {
    var s := IdString(id);
    assert s[..|id.category|] == id.category;
    assert s[|id.category| + 1..] == id.key;
  }

  // ---------------------------------------------------------------------
  // UTF-8 and percent-encoding

  /** The UTF-8 encoding of one Unicode scalar value. */
  function Utf8Char(c: char): (bs: seq<nat>)
    ensures 1 <= |bs| <= 4
    ensures forall i :: 0 <= i < |bs| ==> bs[i] < 256
    ensures (c as int < 128) <==> (|bs| == 1 && bs[0] < 128)
    ensures c as int < 128 ==> bs == [c as int]
  {
    var n := c as int;
    if n < 0x80 then [n]
    else if n < 0x800 then [0xC0 + n / 64, 0x80 + n % 64]
    else if n < 0x10000 then [0xE0 + n / 4096, 0x80 + (n / 64) % 64, 0x80 + n % 64]
    else [0xF0 + n / 262144, 0x80 + (n / 4096) % 64, 0x80 + (n / 64) % 64, 0x80 + n % 64]
  }

  function Utf8(s: string): (bs: seq<nat>)
    ensures forall i :: 0 <= i < |bs| ==> bs[i] < 256
  {
    if s == [] then [] else Utf8Char(s[0]) + Utf8(s[1..])
  }

  predicate IsAlnumByte(b: nat) {
    (48 <= b <= 57) || (65 <= b <= 90) || (97 <= b <= 122)
  }

  /** `shouldEscape(c, encodePathSegment)` of net/url. */
  predicate ShouldEscape(b: nat) {
    if IsAlnumByte(b) then false
    else if b == '-' as int || b == '_' as int || b == '.' as int || b == '~' as int then false
    else if b == '$' as int || b == '&' as int || b == '+' as int || b == ',' as int || b == '/' as int
         || b == ':' as int || b == ';' as int || b == '=' as int || b == '?' as int || b == '@' as int then
      b == '/' as int || b == ';' as int || b == ',' as int || b == '?' as int
    else true
  }

  function HexDigit(d: nat): (c: char)
    requires d < 16
  {
    "0123456789ABCDEF"[d]
  }

  /** One byte of `url.PathEscape`: itself, or "%XX" with upper-case hex. */
  function EscapeByte(b: nat): (r: string)
    requires b < 256
    ensures !ShouldEscape(b) ==> r == [b as char]
    ensures ShouldEscape(b) ==> |r| == 3 && r[0] == '%'
  {
    if ShouldEscape(b) then ['%', HexDigit(b / 16), HexDigit(b % 16)] else [b as char]
  }

  function EscapeBytes(bs: seq<nat>): string
    requires forall i :: 0 <= i < |bs| ==> bs[i] < 256
  {
    if bs == [] then [] else EscapeByte(bs[0]) + EscapeBytes(bs[1..])
  }

  /** `url.PathEscape`. */
  function PathEscape(s: string): string {
    EscapeBytes(Utf8(s))
  }

  /** `strings.ReplaceAll(s, ".", "%2E")`. */
  function ReplaceDots(s: string): (r: string)
    ensures '.' !in r
    ensures '.' !in s ==> r == s
  {
    if s == [] then [] else (if s[0] == '.' then "%2E" else [s[0]]) + ReplaceDots(s[1..])
  }

  /** One part of a category: path-escaped, then every '.' written as "%2E". */
  function EscapePart(id: string): (r: string)
    ensures (r == "") <==> (id == "")
    ensures forall i :: 0 <= i < |r| ==> EscapedChar(r[i]) && r[i] != '.'
  {
    var e := PathEscape(id);
    EscapedAlphabet(Utf8(id));
    ReplaceDotsKeeps(e);
    Utf8NonEmpty(id);
    EscapeBytesNonEmpty(Utf8(id));
    ReplaceDotsNonEmpty(e);
    ReplaceDots(e)
  }

  /** No part holds '/', '.' or '#', so `path.Join` keeps it as one segment. */
  lemma PartIsSegment(id: string)
    ensures var r := EscapePart(id);
      '#' !in r && '.' !in r && '/' !in r && GoPath.EmptyOrPlain(r)
  {
    var r := EscapePart(id);
    forall c | c in r ensures c != '#' && c != '.' && c != '/' {
      var i :| 0 <= i < |r| && r[i] == c;
      assert EscapedChar(r[i]);
    }
    if r != "" {
      assert r[0] in r;
    }
  }

  /** The characters `PathEscape` can output. */
  predicate EscapedChar(c: char) {
    IsAsciiAlnum(c) || c == '-' || c == '_' || c == '.' || c == '~' || c == '$' || c == '&'
    || c == '+' || c == ':' || c == '=' || c == '@' || c == '%'
  }

  lemma {:induction false} EscapedAlphabet(bs: seq<nat>)
    requires forall i :: 0 <= i < |bs| ==> bs[i] < 256
    ensures forall i :: 0 <= i < |EscapeBytes(bs)| ==> EscapedChar(EscapeBytes(bs)[i])
  {
    if bs != [] {
      EscapedAlphabet(bs[1..]);
      EscapeByteAlphabet(bs[0]);
      EscapedConcat(EscapeByte(bs[0]), EscapeBytes(bs[1..]));
    }
  }

  /** One escaped byte uses only the escaped alphabet. */
  lemma EscapeByteAlphabet(b: nat)
    requires b < 256
    ensures forall i :: 0 <= i < |EscapeByte(b)| ==> EscapedChar(EscapeByte(b)[i])
  {
  }

  lemma EscapedConcat(a: string, b: string)
    requires forall i :: 0 <= i < |a| ==> EscapedChar(a[i])
    requires forall i :: 0 <= i < |b| ==> EscapedChar(b[i])
    ensures forall i :: 0 <= i < |a + b| ==> EscapedChar((a + b)[i])
  {
    forall i | 0 <= i < |a + b| ensures EscapedChar((a + b)[i]) {
      if i >= |a| { assert (a + b)[i] == b[i - |a|]; }
    }
  }

  lemma {:induction false} ReplaceDotsKeeps(s: string)
    requires forall i :: 0 <= i < |s| ==> EscapedChar(s[i])
    ensures forall i :: 0 <= i < |ReplaceDots(s)| ==> EscapedChar(ReplaceDots(s)[i]) && ReplaceDots(s)[i] != '.'
  {
    if s != [] {
      ReplaceDotsKeeps(s[1..]);
      var h := if s[0] == '.' then "%2E" else [s[0]];
      var all := ReplaceDots(s);
      forall i | 0 <= i < |all| ensures EscapedChar(all[i]) && all[i] != '.' {
        if i >= |h| { assert all[i] == ReplaceDots(s[1..])[i - |h|]; }
      }
    }
  }

  lemma Utf8NonEmpty(s: string)
    ensures (Utf8(s) == []) <==> (s == [])
  {
  }

  lemma EscapeBytesNonEmpty(bs: seq<nat>)
    requires forall i :: 0 <= i < |bs| ==> bs[i] < 256
    ensures (EscapeBytes(bs) == []) <==> (bs == [])
  {
  }

  lemma ReplaceDotsNonEmpty(s: string)
    ensures (ReplaceDots(s) == []) <==> (s == [])
  {
  }

  // ---------------------------------------------------------------------
  // Decoding, to show that escaping loses nothing

  predicate IsHex(c: char) {
    ('0' <= c <= '9') || ('A' <= c <= 'F') || ('a' <= c <= 'f')
  }

  function HexValue(c: char): (v: nat)
    requires IsHex(c)
    ensures v < 16
  {
    if '0' <= c <= '9' then c as int - '0' as int
    else if 'A' <= c <= 'F' then c as int - 'A' as int + 10
    else c as int - 'a' as int + 10
  }

  /** `url.PathUnescape` on well-formed input: "%XX" is a byte, any other character its own code. */
  function Unescape(s: string): seq<nat>
  {
    if s == [] then []
    else if |s| >= 3 && s[0] == '%' && IsHex(s[1]) && IsHex(s[2]) then
      [HexValue(s[1]) * 16 + HexValue(s[2])] + Unescape(s[3..])
    else [s[0] as int] + Unescape(s[1..])
  }

  lemma HexRoundTrip(d: nat)
    requires d < 16
    ensures IsHex(HexDigit(d)) && HexValue(HexDigit(d)) == d
  {
  }

  /** The encoding of one byte as `EscapePart` writes it. */
  function PartByte(b: nat): string
    requires b < 256
  {
    ReplaceDots(EscapeByte(b))
  }

  lemma {:induction false} ReplaceDotsConcat(a: string, b: string)
    ensures ReplaceDots(a + b) == ReplaceDots(a) + ReplaceDots(b)
  {
    if a == [] {
      assert a + b == b;
    } else {
      assert (a + b)[0] == a[0];
      assert (a + b)[1..] == a[1..] + b;
      ReplaceDotsConcat(a[1..], b);
    }
  }

  lemma {:induction false} EscapePartBytes(bs: seq<nat>)
    requires forall i :: 0 <= i < |bs| ==> bs[i] < 256
    ensures Unescape(ReplaceDots(EscapeBytes(bs))) == bs
  {
    if bs != [] {
      var b := bs[0];
      ReplaceDotsConcat(EscapeByte(b), EscapeBytes(bs[1..]));
      EscapePartBytes(bs[1..]);
      var tok := ReplaceDots(EscapeByte(b));
      var rest := ReplaceDots(EscapeBytes(bs[1..]));
      UnescapeToken(b, rest);
    }
  }

  lemma UnescapeToken(b: nat, rest: string)
    requires b < 256
    ensures Unescape(ReplaceDots(EscapeByte(b)) + rest) == [b] + Unescape(rest)
  {
    if ShouldEscape(b) {
      var tok := ['%', HexDigit(b / 16), HexDigit(b % 16)];
      assert EscapeByte(b) == tok;
      HexRoundTrip(b / 16);
      HexRoundTrip(b % 16);
      UnescapeHex(tok, rest);
    } else if b == '.' as int {
      assert ReplaceDots(EscapeByte(b)) == "%2E";
      UnescapeHex("%2E", rest);
    } else {
      assert ReplaceDots(EscapeByte(b)) == [b as char];
      UnescapePlain(b as char, rest);
    }
  }

  /** A well-formed "%XX" at the head decodes to one byte. */
  lemma UnescapeHex(t: string, rest: string)
    requires |t| == 3 && t[0] == '%' && IsHex(t[1]) && IsHex(t[2])
    ensures Unescape(t + rest) == [HexValue(t[1]) * 16 + HexValue(t[2])] + Unescape(rest)
  {
    assert (t + rest)[..3] == t;
    assert (t + rest)[3..] == rest;
  }

  /** Any character other than '%' at the head decodes to its own code. */
  lemma UnescapePlain(c: char, rest: string)
    requires c != '%'
    ensures Unescape([c] + rest) == [c as int] + Unescape(rest)
  {
    assert ([c] + rest)[1..] == rest;
  }

  /** Escaping a part is lossless: unescaping it gives back the part's UTF-8 bytes. */
  lemma EscapePartRoundTrip(id: string)
    ensures Unescape(EscapePart(id)) == Utf8(id)
  {
    EscapePartBytes(Utf8(id));
  }

  // ---------------------------------------------------------------------
  // Categories

  function EscapeAll(ids: seq<string>): (parts: seq<string>)
    ensures |parts| == |ids|
    ensures forall i :: 0 <= i < |ids| ==> parts[i] == EscapePart(ids[i])
    ensures forall i :: 0 <= i < |parts| ==> GoPath.EmptyOrPlain(parts[i]) && '#' !in parts[i]
  {
    assert forall i :: 0 <= i < |ids| ==> GoPath.EmptyOrPlain(EscapePart(ids[i])) && '#' !in EscapePart(ids[i]) by {
      forall i | 0 <= i < |ids| ensures GoPath.EmptyOrPlain(EscapePart(ids[i])) && '#' !in EscapePart(ids[i]) {
        PartIsSegment(ids[i]);
      }
    }
    if ids == [] then [] else [EscapePart(ids[0])] + EscapeAll(ids[1..])
  }

  /** `Category(ids...)`: "/" followed by the escaped parts joined with `path.Join`. */
  function Category(ids: seq<string>): string {
    "/" + GoPath.Join(EscapeAll(ids))
  }

  /**
   * A category is "/" followed by the escaped non-empty parts in argument order:
   * no part can pop or merge segments, and the result never holds '#'.
   */
  lemma CategoryShape(ids: seq<string>)
    ensures Category(ids) == "/" + Strs.Join(GoPath.NonEmpty(EscapeAll(ids)), '/')
    ensures Category(ids)[0] == '/'
    ensures '#' !in Category(ids)
  {
    var parts := EscapeAll(ids);
    GoPath.JoinEmptyOrPlain(parts);
    var ne := GoPath.NonEmpty(parts);
    NoHashJoin(ne);
  }

  lemma {:induction false} NoHashJoin(ps: seq<string>)
    requires forall i :: 0 <= i < |ps| ==> '#' !in ps[i]
    ensures '#' !in Strs.Join(ps, '/')
  {
    if |ps| > 1 {
      NoHashJoin(ps[1..]);
    }
  }

  /** The id of a category built by `Category` always parses back. */
  lemma CategoryIdRoundTrip(ids: seq<string>, key: string)
    ensures ParseId(IdString(Id(Category(ids), key))) == Some(Id(Category(ids), key))
  {
    CategoryShape(ids);
    ParseIdString(Id(Category(ids), key));
  }

  // ---------------------------------------------------------------------
  // Worked examples

  /** Characters `EscapePart` writes unchanged. */
  predicate Unreserved(c: char) {
    IsAsciiAlnum(c) || c == '-' || c == '_' || c == '~' || c == '$' || c == '&'
    || c == '+' || c == ':' || c == '=' || c == '@'
  }

  lemma {:induction false} EscapePartConcat(a: string, b: string)
    ensures EscapePart(a + b) == EscapePart(a) + EscapePart(b)
  {
    Utf8Concat(a, b);
    EscapeBytesConcat(Utf8(a), Utf8(b));
    ReplaceDotsConcat(EscapeBytes(Utf8(a)), EscapeBytes(Utf8(b)));
  }

  lemma {:induction false} Utf8Concat(a: string, b: string)
    ensures Utf8(a + b) == Utf8(a) + Utf8(b)
  {
    if a == [] {
      assert a + b == b;
    } else {
      assert (a + b)[0] == a[0];
      assert (a + b)[1..] == a[1..] + b;
      Utf8Concat(a[1..], b);
    }
  }

  lemma {:induction false} EscapeBytesConcat(a: seq<nat>, b: seq<nat>)
    requires forall i :: 0 <= i < |a| ==> a[i] < 256
    requires forall i :: 0 <= i < |b| ==> b[i] < 256
    ensures EscapeBytes(a + b) == EscapeBytes(a) + EscapeBytes(b)
  {
    if a == [] {
      assert a + b == b;
    } else {
      assert (a + b)[0] == a[0];
      assert (a + b)[1..] == a[1..] + b;
      EscapeBytesConcat(a[1..], b);
    }
  }

  /** A string of unreserved characters is its own escaped part. */
  lemma {:induction false} EscapePartUnreserved(id: string)
    requires forall i :: 0 <= i < |id| ==> Unreserved(id[i])
    ensures EscapePart(id) == id
  {
    if id != [] {
      EscapePartUnreserved(id[1..]);
      EscapePartConcat([id[0]], id[1..]);
      EscapeUnreservedChar(id[0]);
      assert [id[0]] + id[1..] == id;
    }
  }

  /** An unreserved character escapes to itself. */
  lemma EscapeUnreservedChar(c: char)
    requires Unreserved(c)
    ensures EscapePart([c]) == [c]
  {
    assert Utf8([c]) == [c as int];
    assert EscapeBytes([c as int]) == [c];
  }

  lemma EscapeDot()
    ensures EscapePart(".") == "%2E"
  {
    assert Utf8(".") == [46];
  }

  lemma EscapeSlash()
    ensures EscapePart("/") == "%2F"
  {
    assert Utf8("/") == [47];
    assert EscapeBytes([47]) == "%2F";
  }

  /** With no empty part, a category is "/" and the escaped parts joined by '/'. */
  lemma CategoryOfParts(ids: seq<string>, parts: seq<string>)
    requires |parts| == |ids|
    requires forall i :: 0 <= i < |ids| ==> parts[i] == EscapePart(ids[i]) && ids[i] != ""
    ensures Category(ids) == "/" + Strs.Join(parts, '/')
  {
    CategoryShape(ids);
    assert EscapeAll(ids) == parts;
    NonEmptyKeeps(parts);
  }

  lemma {:induction false} NonEmptyKeeps(elems: seq<string>)
    requires forall i :: 0 <= i < |elems| ==> elems[i] != ""
    ensures GoPath.NonEmpty(elems) == elems
  {
    if elems != [] {
      NonEmptyKeeps(elems[1..]);
    }
  }

  /** Ids made only of unreserved characters appear in the category unchanged. */
  lemma CategoryUnreserved(ids: seq<string>)
    requires forall i :: 0 <= i < |ids| ==> ids[i] != ""
    requires forall i, j :: 0 <= i < |ids| && 0 <= j < |ids[i]| ==> Unreserved(ids[i][j])
    ensures Category(ids) == "/" + Strs.Join(ids, '/')
  {
    forall i | 0 <= i < |ids| ensures ids[i] == EscapePart(ids[i]) {
      EscapePartUnreserved(ids[i]);
    }
    CategoryOfParts(ids, ids);
  }

  lemma EscapeDotDot()
    ensures EscapePart("..") == "%2E%2E"
  {
    EscapeDot();
    EscapePartConcat(".", ".");
    assert "." + "." == "..";
  }
}
