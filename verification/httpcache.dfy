/**
 * The size-bounded HTTP response cache. Entries are keyed by URL; `size` is
 * the sum of the lengths of the stored bodies. The clock is a parameter:
 * `now` stands for `time.Now().UnixNano()` at the call.
 */
module HttpCache {
  import opened Results

  /** `CacheEntry`; `deadline` is absent for immutable resources. */
  datatype Entry = Entry(
    statusCode: int,
    value: string,
    contentCached: bool,
    deadline: Option<int>,
    lastUsed: int)

  datatype Cache = Cache(maxSize: int, size: int, values: map<string, Entry>)

  /** The sum of the body lengths of the entries of `m`. */
  ghost function Total(m: map<string, Entry>): int
    decreases |m|
  {
    if m == map[] then 0
    else
      var k :| k in m;
      |m[k].value| + Total(m - {k})
  }

  /** The size-accounting invariant. */
  ghost predicate Valid(c: Cache) {
    c.size == Total(c.values)
  }

  predicate Stale(e: Entry, now: int) {
    e.deadline.Some? && e.deadline.value < now
  }

  /** An empty cache, as `New` builds it before reading the cache file. */
  function New(maxSize: int): (c: Cache)
    ensures Valid(c) && c.values == map[]
  {
    Cache(maxSize, 0, map[])
  }

  lemma {:induction false} TotalRemove(m: map<string, Entry>, k: string)
    requires k in m
    ensures Total(m) == |m[k].value| + Total(m - {k})
    decreases |m|
  {
    var j :| j in m && Total(m) == |m[j].value| + Total(m - {j});
    if j != k {
      TotalRemove(m - {j}, k);
      TotalRemove(m - {k}, j);
      assert m - {j} - {k} == m - {k} - {j};
    }
  }

  lemma TotalNonNegative(m: map<string, Entry>)
    ensures Total(m) >= 0
    decreases |m|
  {
    if m != map[] {
      var k :| k in m && Total(m) == |m[k].value| + Total(m - {k});
      TotalNonNegative(m - {k});
    }
  }

  /** `delete`: subtracts exactly the removed body's length; an absent key changes nothing. */
  function Delete(c: Cache, key: string): (r: Cache)
    requires Valid(c)
    ensures Valid(r) && r.maxSize == c.maxSize
    ensures r.values == c.values - {key}
    ensures key !in c.values ==> r == c
    ensures key in c.values ==> r.size == c.size - |c.values[key].value|
  {
    if key in c.values then
      TotalRemove(c.values, key);
      c.(size := c.size - |c.values[key].value|, values := c.values - {key})
    else
      assert c.values - {key} == c.values;
      c
  }

  /** The store step of `Set`: the old entry out, the new one in, stamped with `now`. */
  function Put(c: Cache, key: string, entry: Entry, now: int): (r: Cache)
    requires Valid(c)
    ensures Valid(r) && r.maxSize == c.maxSize
    ensures r.values == c.values[key := entry.(lastUsed := now)]
    ensures r.size == c.size - (if key in c.values then |c.values[key].value| else 0) + |entry.value|
  {
    var d := Delete(c, key);
    var m := d.values[key := entry.(lastUsed := now)];
    TotalRemove(m, key);
    assert m - {key} == d.values;
    d.(size := d.size + |entry.value|, values := m)
  }

  /** The entries that survive the stale sweep of `compact`. */
  function Fresh(m: map<string, Entry>, now: int): (r: map<string, Entry>)
    ensures forall k :: k in r <==> k in m && !Stale(m[k], now)
    ensures forall k :: k in r ==> r[k] == m[k]
  {
    map k | k in m && !Stale(m[k], now) :: m[k]
  }

  /** Every entry of `m` other than its key was used no earlier than `m[key]`. */
  predicate LeastRecent(m: map<string, Entry>, key: string)
    requires key in m
  {
    forall k :: k in m ==> m[key].lastUsed <= m[k].lastUsed
  }

  /** The inner loop of `compact`: a least-recently-used key. */
  method LeastRecentKey(m: map<string, Entry>) returns (key: string)
    requires m != map[]
    ensures key in m && LeastRecent(m, key)
  {
    var rest := m.Keys;
    key :| key in rest;
    rest := rest - {key};
    while rest != {}
      invariant key in m && rest <= m.Keys
      invariant forall k :: k in m && k !in rest ==> m[key].lastUsed <= m[k].lastUsed
      decreases |rest|
    {
      var k :| k in rest;
      if m[k].lastUsed < m[key].lastUsed {
        key := k;
      }
      rest := rest - {k};
    }
  }

  /** The stale sweep of `compact`, one `delete` per expired entry. */
  method DropStale(c: Cache, now: int) returns (r: Cache)
    requires Valid(c)
    ensures Valid(r) && r.maxSize == c.maxSize
    ensures r.values == Fresh(c.values, now)
  {
    r := c;
    var todo := c.values.Keys;
    while todo != {}
      invariant Valid(r) && r.maxSize == c.maxSize && todo <= c.values.Keys
      invariant forall k :: k in r.values <==> k in c.values && (k in todo || !Stale(c.values[k], now))
      invariant forall k :: k in r.values ==> r.values[k] == c.values[k]
      decreases |todo|
    {
      var k :| k in todo;
      if Stale(c.values[k], now) {
        r := Delete(r, k);
      }
      todo := todo - {k};
    }
  }

  /** `compact`: no-op below `maxSize`; otherwise drop expired entries, then evict least recently used. */
  method Compact(c: Cache, now: int) returns (r: Cache)
    requires Valid(c)
    ensures Valid(r) && r.maxSize == c.maxSize
    ensures c.size < c.maxSize ==> r == c
    ensures c.size >= c.maxSize ==> Compacted(Fresh(c.values, now), r)
  {
    if c.size < c.maxSize {
      return c;
    }
    var swept := DropStale(c, now);
    r := swept;
    ghost var evicted := false;
    while r.size > r.maxSize
      invariant Valid(r) && r.maxSize == c.maxSize
      invariant Evicting(swept.values, r)
      invariant evicted <==> r.values != swept.values
      invariant evicted ==> exists e :: e in swept.values && e !in r.values && r.size + |swept.values[e].value| > r.maxSize
      decreases |r.values|
    {
      if r.values == map[] {
        break;
      }
      var key := LeastRecentKey(r.values);
      EvictKeeps(swept.values, r, key);
      r := Delete(r, key);
      evicted := true;
      assert key in swept.values && key !in r.values && r.size + |swept.values[key].value| > r.maxSize;
    }
    TotalNonNegative(r.values);
  }

  /**
   * Eviction so far: every survivor is unchanged from `swept`, and every
   * evicted entry was used no later than any survivor.
   */
  ghost predicate Evicting(swept: map<string, Entry>, r: Cache) {
    && (forall k :: k in r.values ==> k in swept && r.values[k] == swept[k])
    && (forall e, k :: e in swept && e !in r.values && k in r.values ==> swept[e].lastUsed <= r.values[k].lastUsed)
  }

  /** Evicting a least recently used survivor keeps both halves of `Evicting`. */
  lemma EvictKeeps(swept: map<string, Entry>, r: Cache, key: string)
    requires Valid(r) && Evicting(swept, r) && key in r.values && LeastRecent(r.values, key)
    ensures Evicting(swept, Delete(r, key))
  {
    var d := Delete(r, key);
    forall e, k | e in swept && e !in d.values && k in d.values
      ensures swept[e].lastUsed <= d.values[k].lastUsed
    {
      assert k in r.values && d.values[k] == r.values[k];
    }
  }

  /**
   * What the sweep and eviction leave of `swept`: a sub-map, within bounds
   * unless empty, whose evicted entries were all used no later than any
   * survivor, and which stops evicting as soon as it fits.
   */
  ghost predicate Compacted(swept: map<string, Entry>, r: Cache) {
    && Evicting(swept, r)
    && (r.size <= r.maxSize || r.values == map[])
    && (r.values != swept ==> exists e :: e in swept && e !in r.values && r.size + |swept[e].value| > r.maxSize)
  }

  /** `Set`: refuse bodies of at least `maxSize` bytes, otherwise store and compact. */
  method Set(c: Cache, key: string, entry: Entry, now: int) returns (r: Cache)
    requires Valid(c)
    ensures Valid(r) && r.maxSize == c.maxSize
    ensures |entry.value| >= c.maxSize ==> r == c
    ensures |entry.value| < c.maxSize ==> r.size <= r.maxSize
    ensures |entry.value| < c.maxSize ==>
      forall k :: k in r.values ==>
        (k in c.values[key := entry.(lastUsed := now)] && r.values[k] == c.values[key := entry.(lastUsed := now)][k])
  {
    if |entry.value| >= c.maxSize {
      return c;
    }
    var put := Put(c, key, entry, now);
    r := Compact(put, now);
    if r.values == map[] {
      assert r.size == 0;
      TotalNonNegative(map[]);
    }
  }

  /** `Get`: an expired entry is deleted and missed; a hit refreshes only its `lastUsed`. */
  function Get(c: Cache, key: string, now: int): (r: (Cache, Option<Entry>))
    requires Valid(c)
    ensures Valid(r.0) && r.0.maxSize == c.maxSize
    ensures r.1.Some? <==> key in c.values && !Stale(c.values[key], now)
    ensures key !in c.values ==> r.0 == c
    ensures key in c.values && Stale(c.values[key], now) ==> r.0 == Delete(c, key)
    ensures r.1.Some? ==>
      && r.1.value == c.values[key].(lastUsed := now)
      && r.0.values == c.values[key := r.1.value]
      && r.0.size == c.size
  {
    if key !in c.values then (c, None)
    else
      var e := c.values[key];
      if Stale(e, now) then (Delete(c, key), None)
      else
        var hit := e.(lastUsed := now);
        var p := Put(c, key, hit, now);
        (p, Some(hit))
  }

  // ---------------------------------------------------------------------
  // Properties

  /** An entry with no deadline never expires. */
  lemma ImmutableNeverExpires(c: Cache, key: string, now: int)
    requires Valid(c) && key in c.values && c.values[key].deadline.None?
    ensures Get(c, key, now).1 == Some(c.values[key].(lastUsed := now))
  {
  }

  /** Deleting an absent key, or deleting twice, changes nothing more. */
  lemma DeleteIdempotent(c: Cache, key: string)
    requires Valid(c)
    ensures Delete(Delete(c, key), key) == Delete(c, key)
  {
  }

  /** Replacing an entry counts its body once: the size changes by the difference in length. */
  lemma PutReplaces(c: Cache, key: string, prior: Entry, entry: Entry, now: int)
    requires Valid(c) && key in c.values && c.values[key] == prior
    ensures Put(c, key, entry, now).size == c.size - |prior.value| + |entry.value|
    ensures Put(c, key, entry, now).values[key] == entry.(lastUsed := now)
  {
  }

  /**
   * Ten 1000-byte entries fill a 10000-byte cache exactly; storing an eleventh
   * evicts the least recently used one and keeps every other entry.
   */
  method EleventhInsert(c: Cache, oldest: string, key: string, entry: Entry, now: int) returns (r: Cache)
    requires Valid(c) && c.maxSize == 10000 && |c.values| == 10
    requires forall k :: k in c.values ==> |c.values[k].value| == 1000 && c.values[k].deadline.None?
    requires oldest in c.values
    requires forall k :: k in c.values && k != oldest ==> c.values[oldest].lastUsed < c.values[k].lastUsed
    requires key !in c.values && |entry.value| == 1000 && entry.deadline.None?
    requires forall k :: k in c.values ==> c.values[k].lastUsed < now
    ensures r.values.Keys == c.values.Keys + {key} - {oldest}
  {
    var put := Put(c, key, entry, now);
    EleventhPut(c, key, entry, now);
    r := Compact(put, now);
    KeysOfCompacted(put.values, r, oldest, key, now);
  }

  /** Storing the eleventh entry overfills the cache, and nothing in it is stale. */
  lemma EleventhPut(c: Cache, key: string, entry: Entry, now: int)
    requires Valid(c) && |c.values| == 10
    requires forall k :: k in c.values ==> |c.values[k].value| == 1000 && c.values[k].deadline.None?
    requires key !in c.values && |entry.value| == 1000 && entry.deadline.None?
    ensures Put(c, key, entry, now).size == 11000
    ensures Fresh(Put(c, key, entry, now).values, now) == Put(c, key, entry, now).values
  {
    SizeOfUniform(c.values, 1000);
  }

  lemma {:induction false} SizeOfUniform(m: map<string, Entry>, n: int)
    requires forall k :: k in m ==> |m[k].value| == n
    ensures Total(m) == n * |m|
    decreases |m|
  {
    if m != map[] {
      var k :| k in m;
      TotalRemove(m, k);
      SizeOfUniform(m - {k}, n);
      assert |m - {k}| == |m| - 1;
      assert n * |m| == n + n * (|m| - 1);
    }
  }

  lemma KeysOfCompacted(swept: map<string, Entry>, r: Cache, oldest: string, key: string, now: int)
    requires Compacted(swept, r) && Valid(r) && r.maxSize == 10000
    requires |swept| == 11 && oldest in swept && key in swept
    requires forall k :: k in swept ==> |swept[k].value| == 1000
    requires forall k :: k in swept && k != oldest ==> swept[oldest].lastUsed < swept[k].lastUsed
    ensures r.values.Keys == swept.Keys - {oldest}
  {
    SizeOfUniform(r.values, 1000);
    assert r.values.Keys <= swept.Keys;
    assert |r.values| <= 10 by {
      if r.values != map[] {
        assert r.size <= 10000;
      }
    }
    assert r.values != swept by {
      assert |r.values| < |swept|;
    }
    var e :| e in swept && e !in r.values && r.size + |swept[e].value| > r.maxSize;
    assert |r.values| == 10;
    var rest := swept.Keys - {e};
    assert |rest| == 10;
    SubsetSameSize(r.values.Keys, rest);
  }

  lemma SubsetSameSize(a: set<string>, b: set<string>)
    requires a <= b && |a| == |b|
    ensures a == b
  {
    if a != b {
      var x :| x in b && x !in a;
      SubsetSize(a, b - {x});
    }
  }

  lemma {:induction false} SubsetSize(a: set<string>, b: set<string>)
    requires a <= b
    ensures |a| <= |b|
    decreases |b|
  {
    if a != {} {
      var x :| x in a;
      SubsetSize(a - {x}, b - {x});
    }
  }
}
