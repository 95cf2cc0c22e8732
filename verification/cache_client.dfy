/**
 * The caching HTTP client: the `Cache-Control` and `Age` header parsers and
 * the decisions of `Get` and `Head`. The network round trip is a parameter
 * (what the server would answer); it is consulted only on a cache miss, and
 * the `requested` result says whether it was.
 */
module CacheClient {
  import opened Results
  import opened Strs
  import HttpCache

  const NanosPerSecond: int := 1_000_000_000

  /**
   * The outcome of `parseCacheControl`: a deadline offset in seconds (absent
   * for immutable resources) and whether to cache. `IndexPanic` is the
   * out-of-range read when "max-age=" ends the header.
   */
  datatype Directive = Directive(maxAge: Option<int>, shouldCache: bool) | IndexPanic

  const NotCacheable := Directive(None, false)

  /** The index just past the max-age value: the first ',' or '"' from `start`, else the end. */
  function ValueEnd(s: string, start: nat): (e: nat)
    requires start <= |s|
    ensures start <= e <= |s|
    ensures e < |s| ==> s[e] == ',' || s[e] == '"'
    ensures forall i :: start <= i < e ==> s[i] != ',' && s[i] != '"'
    decreases |s| - start
  {
    if start == |s| then start
    else if s[start] == ',' || s[start] == '"' then start
    else ValueEnd(s, start + 1)
  }

  /** `parseCacheControl`. */
  function ParseCacheControl(cc: string): (r: Directive)
    ensures cc == "" ==> r == NotCacheable
    ensures cc != "" && Contains(cc, "immutable") ==> r == Directive(None, true)
    ensures r.Directive? && r.maxAge.Some? ==> r.shouldCache && 0 < r.maxAge.value <= MaxInt64
    ensures r.Directive? && r.shouldCache && r.maxAge.None? ==> Contains(cc, "immutable")
    ensures !Contains(cc, "max-age=") && !Contains(cc, "immutable") ==> r == NotCacheable
    ensures r.IndexPanic? <==>
      cc != "" && !Contains(cc, "immutable") && Index(cc, "max-age=") >= 0 &&
      Index(cc, "max-age=") + |"max-age="| == |cc|
  {
    if cc == "" then NotCacheable
    else if Contains(cc, "immutable") then Directive(None, true)
    else
      var found := Index(cc, "max-age=");
      if found == -1 then NotCacheable
      else
        var start := found + |"max-age="|;
        if start >= |cc| then IndexPanic
        else
          var from := if cc[start] == '"' then start + 1 else start;
          var value := ParseInt(cc[from..ValueEnd(cc, from)]);
          if value.None? || value.value <= 0 then NotCacheable
          else Directive(Some(value.value), true)
  }

  /** `parseAge`: the `Age` header in seconds; 0 for empty, malformed or non-positive input. */
  function ParseAge(age: string): (r: nat)
    ensures r > 0 <==> ParseInt(age).Some? && ParseInt(age).value > 0
    ensures r > 0 ==> r == ParseInt(age).value
  {
    if age == "" then 0
    else
      var v := ParseInt(age);
      if v.None? || v.value <= 0 then 0 else v.value
  }

  // ---------------------------------------------------------------------
  // Requests

  datatype Response = Response(statusCode: int, status: string, body: string, cacheControl: string, age: string)

  /** What the server would answer, or the transport error the request would hit. */
  datatype Fetch = FetchFailed(reason: string) | Fetched(resp: Response)

  datatype GetOutcome =
    | Body(body: string, fromCache: bool)
    | HttpError(url: string, statusCode: int, status: string)
    | TransportError(reason: string)
    | Panicked

  datatype HeadOutcome =
    | Exists(found: bool)
    | HeadHttpError(url: string, statusCode: int, status: string)
    | HeadTransportError(reason: string)

  /** The entry `Get` stores for a fresh response: deadline now + max-age − age, unless immutable. */
  function EntryFor(resp: Response, maxAge: Option<int>, now: int): (e: HttpCache.Entry)
    ensures e.value == resp.body && e.statusCode == resp.statusCode
    ensures e.deadline.Some? <==> maxAge.Some?
    ensures maxAge.Some? ==> e.deadline.value + ParseAge(resp.age) * NanosPerSecond == now + maxAge.value * NanosPerSecond
  {
    HttpCache.Entry(
      resp.statusCode, resp.body, false,
      if maxAge.Some? then Some(now + (maxAge.value - ParseAge(resp.age)) * NanosPerSecond) else None,
      0)
  }

  /** The answer `Get` gives for a cached entry. */
  function FromCache(url: string, e: HttpCache.Entry): (r: GetOutcome)
    ensures r.Body? <==> e.statusCode == 200
    ensures r.Body? ==> r == Body(e.value, true)
    ensures r.HttpError? ==> r.url == url && r.statusCode == e.statusCode
  {
    if e.statusCode != 200 then HttpError(url, e.statusCode, "HTTP " + IntToString(e.statusCode))
    else Body(e.value, true)
  }

  /** `CacheClient.Get`. */
  method Get(c: HttpCache.Cache, url: string, now: int, fetch: Fetch)
    returns (r: HttpCache.Cache, out: GetOutcome, requested: bool)
    requires HttpCache.Valid(c)
    ensures HttpCache.Valid(r)
    ensures var (looked, hit) := HttpCache.Get(c, url, now);
      && (requested <==> hit.None?)
      && (hit.Some? ==> r == looked && out == FromCache(url, hit.value))
      && (requested && fetch.FetchFailed? ==> r == looked && out == TransportError(fetch.reason))
      && (requested && fetch.Fetched? ==> GetFetched(looked, url, now, fetch.resp, r, out))
  {
    var looked := HttpCache.Get(c, url, now);
    if looked.1.Some? {
      return looked.0, FromCache(url, looked.1.value), false;
    }
    requested := true;
    r := looked.0;
    if fetch.FetchFailed? {
      return r, TransportError(fetch.reason), true;
    }
    var resp := fetch.resp;
    var d := ParseCacheControl(resp.cacheControl);
    if d.IndexPanic? {
      return r, Panicked, true;
    }
    if d.shouldCache {
      r := HttpCache.Set(r, url, EntryFor(resp, d.maxAge, now), now);
    }
    out := if resp.statusCode != 200 then HttpError(url, resp.statusCode, resp.status) else Body(resp.body, false);
  }

  /**
   * After a miss with a response: only cacheable responses are stored, and
   * non-200 answers are errors even when cached.
   */
  ghost predicate GetFetched(looked: HttpCache.Cache, url: string, now: int, resp: Response, r: HttpCache.Cache, out: GetOutcome) {
    var d := ParseCacheControl(resp.cacheControl);
    if d.IndexPanic? then r == looked && out == Panicked
    else
      && (!d.shouldCache ==> r == looked)
      && (d.shouldCache && url in r.values ==> r.values[url] == EntryFor(resp, d.maxAge, now).(lastUsed := now))
      && (forall k :: k in r.values && k != url ==> k in looked.values && r.values[k] == looked.values[k])
      && out == (if resp.statusCode != 200 then HttpError(url, resp.statusCode, resp.status) else Body(resp.body, false))
  }

  /**
   * `CacheClient.Head`: a cached URL exists without a request; otherwise a
   * transport failure is returned as is, 404 is absent, 200 present, and any
   * other status an HTTP error naming the URL and the status.
   */
  function Head(c: HttpCache.Cache, url: string, now: int, fetch: Fetch): (r: (HttpCache.Cache, HeadOutcome, bool))
    requires HttpCache.Valid(c)
    ensures HttpCache.Valid(r.0)
    ensures r.0 == HttpCache.Get(c, url, now).0
    ensures !r.2 <==> HttpCache.Get(c, url, now).1.Some?
    ensures !r.2 ==> r.1 == Exists(true)
    ensures r.2 && fetch.Fetched? ==>
      (r.1 == Exists(false) <==> fetch.resp.statusCode == 404) &&
      (r.1 == Exists(true) <==> fetch.resp.statusCode == 200)
    ensures r.2 && fetch.FetchFailed? ==> r.1 == HeadTransportError(fetch.reason)
    ensures r.2 && fetch.Fetched? && fetch.resp.statusCode != 200 && fetch.resp.statusCode != 404 ==>
      r.1 == HeadHttpError(url, fetch.resp.statusCode, fetch.resp.status)
  {
    var looked := HttpCache.Get(c, url, now);
    if looked.1.Some? then (looked.0, Exists(true), false)
    else if fetch.FetchFailed? then (looked.0, HeadTransportError(fetch.reason), true)
    else if fetch.resp.statusCode == 404 then (looked.0, Exists(false), true)
    else if fetch.resp.statusCode == 200 then (looked.0, Exists(true), true)
    else (looked.0, HeadHttpError(url, fetch.resp.statusCode, fetch.resp.status), true)
  }

  // ---------------------------------------------------------------------
  // Properties of the header parsers

  /** A positive max-age written as "max-age=<n>", alone or before a ',', parses back to n. */
  lemma MaxAgeRoundTrip(n: nat, rest: string)
    requires 0 < n <= MaxInt64
    requires rest == "" || rest[0] == ','
    requires !Contains("max-age=" + NatToString(n) + rest, "immutable")
    ensures ParseCacheControl("max-age=" + NatToString(n) + rest) == Directive(Some(n), true)
  {
    var digits := NatToString(n);
    var cc := "max-age=" + digits + rest;
    MaxAgeToken(cc, digits, rest);
    ParseNatToString(n);
  }

  /** With "max-age=" leading the header, the value parsed is the digit run after it. */
  lemma MaxAgeToken(cc: string, digits: string, rest: string)
    requires cc == "max-age=" + digits + rest && digits != ""
    requires forall i :: 0 <= i < |digits| ==> IsDigit(digits[i])
    requires rest == "" || rest[0] == ','
    requires !Contains(cc, "immutable")
    ensures ParseCacheControl(cc) ==
      (var v := ParseInt(digits); if v.None? || v.value <= 0 then NotCacheable else Directive(Some(v.value), true))
  {
    IndexAtStart(cc, "max-age=");
    assert cc[8..] == digits + rest;
    assert cc[8] == digits[0];
    ValueEndAfterDigits(cc, 8, digits, rest);
    assert cc[8..8 + |digits|] == digits;
  }

  lemma IndexAtStart(s: string, p: string)
    requires OccursAt(s, p, 0)
    ensures Index(s, p) == 0
  {
  }

  lemma ValueEndAfterDigits(cc: string, start: nat, digits: string, rest: string)
    requires start + |digits| + |rest| == |cc| && cc[start..] == digits + rest
    requires forall i :: 0 <= i < |digits| ==> IsDigit(digits[i])
    requires rest == "" || rest[0] == ','
    ensures ValueEnd(cc, start) == start + |digits|
    decreases |digits|
  {
    if digits != "" {
      assert cc[start] == digits[0];
      assert cc[start + 1..] == digits[1..] + rest;
      ValueEndAfterDigits(cc, start + 1, digits[1..], rest);
    } else {
      assert cc[start..] == rest;
    }
  }

  /** max-age=0 is not cacheable. */
  lemma MaxAgeZero(rest: string)
    requires rest == "" || rest[0] == ','
    requires !Contains("max-age=0" + rest, "immutable")
    ensures ParseCacheControl("max-age=0" + rest) == NotCacheable
  {
    var cc := "max-age=0" + rest;
    MaxAgeToken(cc, "0", rest);
    assert DigitsValue("0") == 0;
  }

  /** `p` cannot occur where its first character does not. */
  lemma NotContains(s: string, p: string)
    requires p != ""
    requires forall j :: 0 <= j <= |s| - |p| ==> s[j] != p[0]
    ensures !Contains(s, p)
  {
    forall j | 0 <= j <= |s| - |p|
      ensures !OccursAt(s, p, j)
    {
      assert s[j..j + |p|][0] == s[j];
    }
  }

  /** The parser's cases from the package tests. */
  lemma CacheControlEmpty()
    ensures ParseCacheControl("") == NotCacheable
  {
  }

  lemma CacheControlNoCache()
    ensures ParseCacheControl("no-cache") == NotCacheable
  {
    NotContains("no-cache", "immutable");
    NotContains("no-cache", "max-age=");
  }

  lemma CacheControlZero()
    ensures ParseCacheControl("max-age=0") == NotCacheable
  {
    NotContains("max-age=0", "immutable");
    MaxAgeZero("");
    assert "max-age=0" + "" == "max-age=0";
  }

  lemma CacheControlThousand()
    ensures ParseCacheControl("max-age=1000") == Directive(Some(1000), true)
  {
    assert NatToString(1000) == "1000";
    assert "max-age=" + "1000" + "" == "max-age=1000";
    NotContains("max-age=1000", "immutable");
    MaxAgeRoundTrip(1000, "");
  }

  lemma CacheControlThousandRevalidate()
    ensures ParseCacheControl("max-age=1000, must-revalidate") == Directive(Some(1000), true)
  {
    RevalidateHeader();
    RevalidateNotImmutable();
    MaxAgeRoundTrip(1000, ", must-revalidate");
  }

  lemma RevalidateHeader()
    ensures "max-age=" + NatToString(1000) + ", must-revalidate" == "max-age=1000, must-revalidate"
  {
    ThousandDigits();
    RevalidateLiteral();
  }

  lemma ThousandDigits()
    ensures NatToString(1000) == "1000"
  {
  }

  lemma RevalidateLiteral()
    ensures "max-age=" + "1000" + ", must-revalidate" == "max-age=1000, must-revalidate"
  {
  }

  lemma RevalidateNotImmutable()
    ensures !Contains("max-age=1000, must-revalidate", "immutable")
  {
    NotContains("max-age=1000, must-revalidate", "immutable");
  }
}
