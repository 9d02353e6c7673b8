/**
 * The `video_info` response cache of app.py: entries keyed by the hash of
 * the normalised URL, each holding the response and the clock reading at
 * which it was stored. A lookup serves an entry younger than 300 s; an insert
 * that takes the cache past 100 entries evicts an entry with the smallest
 * timestamp.
 */
module VideoCache {
  import opened Wrappers
  import Tasks

  const FreshFor: real := 300.0
  const MaxEntries: nat := 100

  /** `{'data': ..., 'cached_at': ...}` */
  datatype Entry<D> = Entry(data: D, cachedAt: real)

  /** What a lookup gives the route: the cached response, or nothing (the route then asks the fetcher). */
  datatype Lookup<D> = Hit(data: D) | Miss

  /** `k` holds a smallest timestamp of `m`: the key `min(..., key=cached_at)` may return. */
  ghost predicate IsOldest<D>(m: map<string, Entry<D>>, k: string) {
    k in m && forall j :: j in m ==> m[k].cachedAt <= m[j].cachedAt
  }

  /** Dropping one key of a cache of at most `MaxEntries + 1` entries brings it back within the bound. */
  lemma EvictionRestoresBound<D>(m: map<string, Entry<D>>, k: string)
    requires k in m && |m| <= MaxEntries + 1
    ensures |m - {k}| <= MaxEntries && |m - {k}| == |m| - 1
  {
    assert m.Keys == (m - {k}).Keys + {k};
  }

  /** Storing under one key grows the cache by at most one entry. */
  lemma InsertGrowsByOne<D>(m: map<string, Entry<D>>, key: string, e: Entry<D>)
    ensures |m[key := e]| == if key in m then |m| else |m| + 1
  {
    if key !in m {
      assert m[key := e].Keys == m.Keys + {key};
    } else {
      assert m[key := e].Keys == m.Keys;
    }
  }

  /**
   * An entry stored later than every other entry is never the one evicted:
   * another entry is older.
   */
  lemma NewestSurvives<D>(m: map<string, Entry<D>>, key: string, e: Entry<D>, k: string)
    requires forall j :: j in m && j != key ==> m[j].cachedAt < e.cachedAt
    requires |m[key := e]| > 1
    requires IsOldest(m[key := e], k)
    ensures k != key
  {
    var n := m[key := e];
    assert exists j :: j in n.Keys - {key} by {
      assert |n.Keys - {key}| == |n.Keys| - 1;
    }
    var other :| other in n && other != key;
    assert n[other].cachedAt < n[key].cachedAt;
  }

  /** The process-wide cache. */
  class VideoInfoCache<D> {
    var entries: map<string, Entry<D>>

    ghost predicate Valid()
      reads this
    {
      |entries| <= MaxEntries
    }

    constructor ()
      ensures Valid() && entries == map[]
    {
      entries := map[];
    }

    /** The freshness test: a hit exactly when the key is present and its entry is younger than 300 s. */
    method Get(key: string, now: real) returns (r: Lookup<D>)
      ensures r.Hit? <==> key in entries && now - entries[key].cachedAt < FreshFor
      ensures r.Hit? ==> r.data == entries[key].data
    {
      if key in entries && now - entries[key].cachedAt < FreshFor {
        r := Hit(entries[key].data);
      } else {
        r := Miss;
      }
    }

    /** `min(video_info_cache.keys(), key=lambda k: video_info_cache[k]['cached_at'])` */
    method OldestKey() returns (k: string)
      requires entries != map[]
      ensures IsOldest(entries, k)
    {
      var rest := entries.Keys;
      k :| k in rest;
      rest := rest - {k};
      while rest != {}
        invariant k in entries && rest <= entries.Keys
        invariant forall j :: j in entries && j !in rest ==> entries[k].cachedAt <= entries[j].cachedAt
        decreases |rest|
      {
        var j :| j in rest;
        if entries[j].cachedAt < entries[k].cachedAt {
          k := j;
        }
        rest := rest - {j};
      }
    }

    /**
     * Store a fresh response, then evict an oldest entry when the cache holds
     * more than 100; `evicted` names the key dropped.
     */
    method Put(key: string, data: D, now: real) returns (evicted: Option<string>)
      requires Valid()
      modifies this
      ensures Valid()
      ensures var m := old(entries)[key := Entry(data, now)];
        && (evicted.None? <==> |m| <= MaxEntries)
        && (evicted.None? ==> entries == m)
        && (evicted.Some? ==> IsOldest(m, evicted.value) && entries == m - {evicted.value})
      ensures (forall j :: j in old(entries) && j != key ==> old(entries)[j].cachedAt < now) ==>
        key in entries && entries[key] == Entry(data, now)
    {
      InsertGrowsByOne(entries, key, Entry(data, now));
      ghost var before := entries;
      entries := entries[key := Entry(data, now)];
      if |entries| > MaxEntries {
        var oldest := OldestKey();
        if forall j :: j in before && j != key ==> before[j].cachedAt < now {
          NewestSurvives(before, key, Entry(data, now), oldest);
        }
        EvictionRestoresBound(entries, oldest);
        entries := entries - {oldest};
        evicted := Some(oldest);
      } else {
        evicted := None;
      }
    }
  }
}
