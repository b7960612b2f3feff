/**
 The gateway's cache of revoked tokens and its counters
 (services/gateway/src/tokens/revocation-cache.ts, services/gateway/src/tokens/cache-metrics.ts).
 */
module RevocationCache {
  import opened Wrappers
  import opened Sorting

  class CacheMetrics {
    var hits: nat
    var misses: nat
    var evictions: nat
    var size: nat

    constructor ()
      ensures hits == misses == evictions == size == 0
    {
      hits, misses, evictions, size := 0, 0, 0, 0;
    }

    method RecordHit()
      modifies this`hits
      ensures hits == old(hits) + 1
    {
      hits := hits + 1;
    }

    method RecordMiss()
      modifies this`misses
      ensures misses == old(misses) + 1
    {
      misses := misses + 1;
    }

    method RecordEviction(count: nat)
      modifies this`evictions
      ensures evictions == old(evictions) + count
    {
      evictions := evictions + count;
    }

    method SetSize(newSize: nat)
      modifies this`size
      ensures size == newSize
    {
      size := newSize;
    }

    /** The share of lookups that hit; 0 when there were none. */
    function HitRate(): (rate: real)
      reads this
      ensures 0.0 <= rate <= 1.0
      ensures rate * (hits + misses) as real == hits as real
      ensures hits + misses == 0 ==> rate == 0.0
    {
      var total := hits + misses;
      if total > 0 then hits as real / total as real else 0.0
    }
  }

  datatype RevokedEntry = RevokedEntry(jti: string, revokedAt: int, expiresAt: int, reason: Option<string>)

  type Entries = map<string, RevokedEntry>

  ghost predicate Keyed(cache: Entries) {
    forall k :: k in cache ==> cache[k].jti == k
  }

  /** Part of `before` is left; what is gone is `n` entries, none newer than any entry that is left. */
  ghost predicate OldestGone(before: Entries, after: Entries, n: int) {
    && (forall k :: k in after ==> k in before && after[k] == before[k])
    && |before| - |after| == n
    && (forall gone, kept :: gone in before && gone !in after && kept in after ==>
                               before[gone].revokedAt <= before[kept].revokedAt)
  }

  /** How many entries `add` drops first: a tenth, at least one, when the cache is full. */
  function Quota(size: nat, maxSize: int): (quota: nat)
    ensures size < maxSize ==> quota == 0
    ensures size >= maxSize ==> quota >= 1 && quota <= Max(1, size) && (size >= 10 ==> 10 * quota <= size) && size < 10 * quota + 10
  {
    if size < maxSize then 0 else Max(1, size / 10)
  }

  function Min(a: nat, b: nat): (m: nat)
    ensures m <= a && m <= b && (m == a || m == b)
  {
    if a < b then a else b
  }

  /** What a list of stored revocations leaves in the cache: the unexpired ones, later ones over earlier ones. */
  function Loaded(cache: Entries, entries: seq<RevokedEntry>, now: int): Entries {
    if entries == [] then cache
    else
      var last := |entries| - 1;
      var before := Loaded(cache, entries[..last], now);
      if entries[last].expiresAt > now then before[entries[last].jti := entries[last]] else before
  }

  function Unexpired(cache: Entries, now: int): Entries {
    map k | k in cache && cache[k].expiresAt > now :: cache[k]
  }

  lemma {:induction false} LoadedNext(cache: Entries, entries: seq<RevokedEntry>, i: nat, now: int)
    requires i < |entries|
    ensures var before := Loaded(cache, entries[..i], now);
            Loaded(cache, entries[..i + 1], now)
            == if entries[i].expiresAt > now then before[entries[i].jti := entries[i]] else before
  {
    assert entries[..i + 1][..i] == entries[..i];
  }

  /** Of the entries there were, those expired and no longer to do are gone, and no others. */
  ghost predicate Swept(before: Entries, todo: set<string>, cache: Entries, now: int) {
    && todo <= before.Keys && cache.Keys <= before.Keys
    && (forall k :: k in cache ==> cache[k] == before[k])
    && (forall k :: k in before ==> (k in cache <==> k in todo || now < before[k].expiresAt))
  }

  lemma {:induction false} SweptNext(before: Entries, todo: set<string>, cache: Entries, now: int, k: string)
    requires Swept(before, todo, cache, now) && k in todo
    ensures k in cache
    ensures Swept(before, todo - {k}, if cache[k].expiresAt <= now then cache - {k} else cache, now)
  {
  }

  lemma {:induction false} SweptEnd(before: Entries, cache: Entries, now: int)
    requires Swept(before, {}, cache, now)
    ensures cache == Unexpired(before, now)
    ensures Keyed(before) ==> Keyed(cache)
  {
    assert cache.Keys == Unexpired(before, now).Keys;
  }

  // ------------------------------------------------------------ choosing the oldest

  /** The keys of the first `n` entries. */
  ghost function FirstKeys(entries: seq<RevokedEntry>, n: nat): set<string>
    requires n <= |entries|
  {
    set i | 0 <= i < n :: entries[i].jti
  }

  /** The first `i` of the listed entries are gone, and no others. */
  ghost predicate Dropped(entries: seq<RevokedEntry>, before: Entries, cache: Entries, i: nat)
    requires i <= |entries|
  {
    && cache == before - FirstKeys(entries, i)
    && |cache| == |before| - i
  }

  ghost predicate DistinctKeys(entries: seq<RevokedEntry>) {
    forall i, j :: 0 <= i < j < |entries| ==> entries[i].jti != entries[j].jti
  }

  /** A list of the cache's entries, each once. */
  ghost predicate Lists(entries: seq<RevokedEntry>, cache: Entries) {
    && DistinctKeys(entries)
    && (forall i :: 0 <= i < |entries| ==> entries[i].jti in cache && cache[entries[i].jti] == entries[i])
    && (forall k :: k in cache ==> cache[k] in entries)
  }

  lemma {:induction false} SortedStillLists(entries: seq<RevokedEntry>, sorted: seq<RevokedEntry>, cache: Entries)
    requires Lists(entries, cache) && multiset(sorted) == multiset(entries)
    ensures Lists(sorted, cache)
  {
    forall i | 0 <= i < |sorted|
      ensures sorted[i].jti in cache && cache[sorted[i].jti] == sorted[i]
    {
      SameMembers(sorted, entries, sorted[i]);
    }
    forall k | k in cache ensures cache[k] in sorted {
      SameMembers(sorted, entries, cache[k]);
    }
    forall i, j | 0 <= i < j < |sorted| ensures sorted[i].jti != sorted[j].jti {
      if sorted[i].jti == sorted[j].jti {
        TwiceCounted(sorted, i, j);
        OnceCounted(entries, sorted[i]);
      }
    }
  }

  lemma {:induction false} SameMembers<T>(a: seq<T>, b: seq<T>, x: T)
    requires multiset(a) == multiset(b)
    ensures x in a <==> x in b
  {
    assert x in a <==> x in multiset(a);
    assert x in b <==> x in multiset(b);
  }

  lemma {:induction false} TwiceCounted<T>(s: seq<T>, i: int, j: int)
    requires 0 <= i < j < |s| && s[i] == s[j]
    ensures multiset(s)[s[i]] >= 2
  {
    assert s == s[..i] + [s[i]] + s[i + 1..j] + [s[j]] + s[j + 1..];
  }

  lemma {:induction false} OnceCounted(entries: seq<RevokedEntry>, e: RevokedEntry)
    requires DistinctKeys(entries)
    ensures multiset(entries)[e] <= 1
    decreases |entries|
  {
    if entries != [] {
      var last := |entries| - 1;
      assert entries == entries[..last] + [entries[last]];
      OnceCounted(entries[..last], e);
      if e == entries[last] {
        assert e !in entries[..last];
        assert e !in multiset(entries[..last]);
      }
    }
  }

  lemma {:induction false} FirstGone(sorted: seq<RevokedEntry>, cache: Entries, after: Entries, n: nat)
    requires Lists(sorted, cache) && Keyed(cache) && SortedBy(sorted, (e: RevokedEntry) => e.revokedAt)
    requires n <= |sorted| && after == cache - FirstKeys(sorted, n)
    requires |cache| - |after| == n
    ensures OldestGone(cache, after, n)
  {
    forall gone, kept | gone in cache && gone !in after && kept in after
      ensures cache[gone].revokedAt <= cache[kept].revokedAt
    {
      var i := ListedAt(sorted, cache, gone);
      var j := ListedAt(sorted, cache, kept);
      assert gone in FirstKeys(sorted, n) && kept !in FirstKeys(sorted, n);
      assert n <= j;
      var p :| 0 <= p < n && sorted[p].jti == gone;
      assert p == i;
      assert ((e: RevokedEntry) => e.revokedAt)(sorted[i]) <= ((e: RevokedEntry) => e.revokedAt)(sorted[j]);
    }
  }

  lemma {:induction false} ListedAt(entries: seq<RevokedEntry>, cache: Entries, k: string) returns (i: nat)
    requires Lists(entries, cache) && Keyed(cache) && k in cache
    ensures i < |entries| && entries[i] == cache[k] && entries[i].jti == k
  {
    i :| 0 <= i < |entries| && entries[i] == cache[k];
  }

  class Cache {
    const maxSize: int
    const metrics: CacheMetrics
    var cache: Entries

    // What happened so far, for the accounts.
    ghost var inserted: nat  // keys newly put in by add
    ghost var loaded: nat    // keys newly put in by loadFromStore
    ghost var lapsed: nat    // entries dropped by a lookup that found them expired
    ghost var removed: nat   // entries dropped by remove
    ghost var lookups: nat   // calls of isRevoked
    ghost var phantoms: nat  // evictions counted while there was nothing to evict

    /** The counters agree with the map and with everything that happened. */
    ghost predicate Valid()
      reads this, metrics
    {
      && Keyed(cache)
      && metrics.size == |cache|
      && metrics.hits + metrics.misses == lookups
      && inserted + loaded + phantoms == |cache| + metrics.evictions + lapsed + removed
      && (maxSize >= 1 ==> phantoms == 0)
    }

    constructor (maxSize: int)
      ensures Valid() && fresh(metrics) && cache == map[] && this.maxSize == maxSize
    {
      this.maxSize := maxSize;
      metrics := new CacheMetrics();
      cache := map[];
      inserted, loaded, lapsed, removed, lookups, phantoms := 0, 0, 0, 0, 0, 0;
    }

    /** `Array.from(cache.values())`, in any order. */
    method Values() returns (entries: seq<RevokedEntry>)
      requires Keyed(cache)
      ensures Lists(entries, cache) && |entries| == |cache|
    {
      entries := [];
      var todo := cache.Keys;
      while todo != {}
        invariant todo <= cache.Keys
        invariant DistinctKeys(entries)
        invariant forall i :: 0 <= i < |entries| ==>
                                entries[i].jti in cache && entries[i].jti !in todo && cache[entries[i].jti] == entries[i]
        invariant forall k :: k in cache && k !in todo ==> cache[k] in entries
        invariant |entries| + |todo| == |cache|
        decreases |todo|
      {
        var k :| k in todo;
        entries := entries + [cache[k]];
        todo := todo - {k};
      }
    }

    /** The entries sorted by the instant of their revocation. */
    method OldestFirst() returns (entries: seq<RevokedEntry>)
      requires Keyed(cache)
      ensures Lists(entries, cache) && |entries| == |cache|
      ensures SortedBy(entries, (e: RevokedEntry) => e.revokedAt)
    {
      var values := Values();
      entries := StableSort(values, (e: RevokedEntry) => e.revokedAt);
      StableSortSorts(values, (e: RevokedEntry) => e.revokedAt);
      SortedStillLists(values, entries, cache);
    }

    method DropFirst(entries: seq<RevokedEntry>, toEvict: nat)
      requires DistinctKeys(entries) && forall i :: 0 <= i < |entries| ==> entries[i].jti in cache
      modifies this`cache
      ensures Dropped(entries, old(cache), cache, Min(toEvict, |entries|))
    {
      var i := 0;
      assert FirstKeys(entries, 0) == {};
      while i < toEvict && i < |entries|
        invariant 0 <= i <= toEvict && i <= |entries|
        invariant Dropped(entries, old(cache), cache, i)
        decreases |entries| - i
      {
        DropNext(entries, old(cache), cache, i);
        cache := cache - {entries[i].jti};
        i := i + 1;
      }
    }

    method EvictIfNeeded()
      requires Keyed(cache)
      modifies this`cache, metrics`evictions
      ensures OldestGone(old(cache), cache, Min(Quota(|old(cache)|, maxSize), |old(cache)|))
      ensures metrics.evictions == old(metrics.evictions) + Quota(|old(cache)|, maxSize)
      ensures |old(cache)| < maxSize ==> cache == old(cache)
    {
      if |cache| < maxSize {
        return;
      }
      var entries := OldestFirst();
      var toEvict := Max(1, |cache| / 10);
      DropFirst(entries, toEvict);
      metrics.RecordEviction(toEvict);
      FirstGone(entries, old(cache), cache, Min(toEvict, |entries|));
    }

    method Add(jti: string, expiresAt: int, reason: Option<string>, now: int)
      requires Valid()
      modifies this`cache, this`inserted, this`phantoms, metrics`evictions, metrics`size
      ensures Valid()
      ensures exists mid ::
                && OldestGone(old(cache), mid, Min(Quota(|old(cache)|, maxSize), |old(cache)|))
                && cache == mid[jti := RevokedEntry(jti, now, expiresAt, reason)]
                && inserted == old(inserted) + (if jti in mid then 0 else 1)
      ensures phantoms == old(phantoms) + if |old(cache)| == 0 && maxSize <= 0 then 1 else 0
      ensures |cache| <= Max(Max(maxSize, |old(cache)|), 1)
      ensures |old(cache)| < maxSize ==> cache == old(cache)[jti := RevokedEntry(jti, now, expiresAt, reason)]
    {
      EvictIfNeeded();
      ghost var mid := cache;
      if jti !in cache {
        inserted := inserted + 1;
      }
      if |old(cache)| == 0 && maxSize <= 0 {
        phantoms := phantoms + 1;
      }
      cache := cache[jti := RevokedEntry(jti, now, expiresAt, reason)];
      metrics.SetSize(|cache|);
      PutCounts(mid, jti, RevokedEntry(jti, now, expiresAt, reason));
    }

    method IsRevoked(jti: string, now: int) returns (revoked: bool)
      requires Valid()
      modifies this`cache, this`lapsed, this`lookups, metrics`hits, metrics`misses, metrics`size
      ensures Valid() && lookups == old(lookups) + 1
      ensures revoked <==> jti in old(cache) && now < old(cache)[jti].expiresAt
      ensures cache == if jti in old(cache) && !revoked then old(cache) - {jti} else old(cache)
      ensures lapsed == old(lapsed) + if jti in old(cache) && !revoked then 1 else 0
      ensures metrics.hits == old(metrics.hits) + if revoked then 1 else 0
    {
      lookups := lookups + 1;
      if jti !in cache {
        metrics.RecordMiss();
        return false;
      }
      if cache[jti].expiresAt <= now {
        DropCounts(cache, jti);
        cache := cache - {jti};
        lapsed := lapsed + 1;
        metrics.SetSize(|cache|);
        metrics.RecordMiss();
        return false;
      }
      metrics.RecordHit();
      return true;
    }

    method Remove(jti: string) returns (deleted: bool)
      requires Valid()
      modifies this`cache, this`removed, metrics`size
      ensures Valid() && cache == old(cache) - {jti} && (deleted <==> jti in old(cache))
      ensures removed == old(removed) + if deleted then 1 else 0
    {
      deleted := jti in cache;
      if deleted {
        DropCounts(cache, jti);
        removed := removed + 1;
      }
      cache := cache - {jti};
      if deleted {
        metrics.SetSize(|cache|);
      }
    }

    method Cleanup(now: int) returns (count: nat)
      requires Valid()
      modifies this`cache, metrics`size, metrics`evictions
      ensures Valid() && cache == Unexpired(old(cache), now)
      ensures count == |old(cache)| - |cache|
      ensures metrics.evictions == old(metrics.evictions) + count
    {
      ghost var before := cache;
      count := 0;
      var todo := cache.Keys;
      while todo != {}
        modifies this`cache
        invariant Swept(before, todo, cache, now)
        invariant count + |cache| == |before|
        decreases |todo|
      {
        var jti :| jti in todo;
        SweptNext(before, todo, cache, now, jti);
        if cache[jti].expiresAt <= now {
          DropCounts(cache, jti);
          cache := cache - {jti};
          count := count + 1;
        }
        todo := todo - {jti};
      }
      SweptEnd(before, cache, now);
      if count > 0 {
        metrics.SetSize(|cache|);
        metrics.RecordEviction(count);
      }
    }

    method LoadFromStore(entries: seq<RevokedEntry>, now: int)
      requires Valid()
      modifies this`cache, this`loaded, metrics`size
      ensures Valid() && cache == Loaded(old(cache), entries, now)
      ensures loaded - old(loaded) == |cache| - |old(cache)|
    {
      var i := 0;
      while i < |entries|
        modifies this`cache, this`loaded
        invariant 0 <= i <= |entries|
        invariant cache == Loaded(old(cache), entries[..i], now)
        invariant Keyed(cache)
        invariant loaded - old(loaded) == |cache| - |old(cache)|
      {
        var entry := entries[i];
        LoadedNext(old(cache), entries, i, now);
        if entry.expiresAt > now {
          PutCounts(cache, entry.jti, entry);
          if entry.jti !in cache {
            loaded := loaded + 1;
          }
          cache := cache[entry.jti := entry];
        }
        i := i + 1;
      }
      assert entries[..i] == entries;
      metrics.SetSize(|cache|);
    }
  }

  lemma {:induction false} FirstKeysGrow(entries: seq<RevokedEntry>, i: nat)
    requires DistinctKeys(entries) && i < |entries|
    ensures FirstKeys(entries, i + 1) == FirstKeys(entries, i) + {entries[i].jti}
    ensures entries[i].jti !in FirstKeys(entries, i)
  {
  }

  lemma {:induction false} DropNext(entries: seq<RevokedEntry>, before: Entries, cache: Entries, i: nat)
    requires DistinctKeys(entries) && i < |entries| && entries[i].jti in before
    requires Dropped(entries, before, cache, i)
    ensures Dropped(entries, before, cache - {entries[i].jti}, i + 1)
  {
    FirstKeysGrow(entries, i);
    DropCounts(cache, entries[i].jti);
  }

  lemma {:induction false} DropCounts(cache: Entries, k: string)
    requires k in cache
    ensures |cache - {k}| == |cache| - 1
  {
    assert cache.Keys == (cache - {k}).Keys + {k};
  }

  lemma {:induction false} PutCounts(cache: Entries, k: string, e: RevokedEntry)
    ensures |cache[k := e]| == |cache| + if k in cache then 0 else 1
  {
    assert cache[k := e].Keys == cache.Keys + {k};
  }
}
