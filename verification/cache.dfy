/**
 * The retrieval result cache: a map from key to (value, stamp) with a running
 * access counter. Every hit and every store takes a fresh stamp from the
 * counter; when a new key arrives and the cache is full, the entry with the
 * smallest stamp (the least recently used) is evicted first.
 */
module Cache {
  import opened Wrappers
  import opened Text

  /** The string `hash_query` digests: `"{query}:{match_threshold}:{match_count}"`. */
  function KeyString(floatRepr: real -> string, query: string, threshold: real, count: int): string {
    query + ":" + floatRepr(threshold) + ":" + IntToString(count)
  }

  /** `hash_query`: the MD5 hex digest of the key string, with MD5 supplied. */
  function HashQuery(md5: string -> string, floatRepr: real -> string, query: string, threshold: real, count: int): string {
    md5(KeyString(floatRepr, query, threshold, count))
  }

  lemma ColonJoin(a: string, b: string)
    ensures var s := a + ":" + b;
      |s| == |a| + 1 + |b| && s[|a|] == ':' && s[..|a|] == a && s[|a| + 1..] == b
  {
  }

  lemma NotColon(b: string, k: int)
    requires 0 <= k < |b| && ':' !in b
    ensures b[k] != ':'
  {
  }

  lemma SplitAtLastColon(a: string, b: string, a': string, b': string)
    requires a + ":" + b == a' + ":" + b'
    requires ':' !in b && ':' !in b'
    ensures a == a' && b == b'
  {
    ColonJoin(a, b);
    ColonJoin(a', b');
    if |a| < |a'| {
      NotColon(b, |a'| - |a| - 1);
    } else if |a'| < |a| {
      NotColon(b', |a| - |a'| - 1);
    }
  }

  lemma {:induction false} NatToStringInjective(m: nat, n: nat)
    requires NatToString(m) == NatToString(n)
    ensures m == n
  {
    NatToStringRoundTrip(m);
    NatToStringRoundTrip(n);
  }

  lemma IntToStringSign(i: int)
    ensures |IntToString(i)| >= 1
    ensures IntToString(i)[0] == '-' <==> i < 0
    ensures i < 0 ==> IntToString(i)[1..] == NatToString(-i)
    ensures i >= 0 ==> IntToString(i) == NatToString(i)
  {
  }

  lemma IntToStringInjective(i: int, j: int)
    requires IntToString(i) == IntToString(j)
    ensures i == j
  {
    IntToStringSign(i);
    IntToStringSign(j);
    if i < 0 && j < 0 {
      NatToStringInjective(-i, -j);
    } else if i >= 0 && j >= 0 {
      NatToStringInjective(i, j);
    }
  }

  lemma IntToStringHasNoColon(i: int)
    ensures ':' !in IntToString(i)
  {
    var s := IntToString(i);
    if i < 0 {
      assert s == "-" + NatToString(-i);
      assert forall k | 1 <= k < |s| :: IsDigit(s[k]);
    }
  }

  /**
   * The key string determines the request's query, threshold and count,
   * provided the two thresholds are rendered without a colon and differently
   * when they differ (Python's float repr round-trips): two different
   * requests share a cache key only through an MD5 collision.
   */
  lemma KeyStringInjective(floatRepr: real -> string, q1: string, t1: real, c1: int, q2: string, t2: real, c2: int)
    requires ':' !in floatRepr(t1) && ':' !in floatRepr(t2)
    requires floatRepr(t1) == floatRepr(t2) ==> t1 == t2
    requires KeyString(floatRepr, q1, t1, c1) == KeyString(floatRepr, q2, t2, c2)
    ensures q1 == q2 && t1 == t2 && c1 == c2
  {
    IntToStringHasNoColon(c1);
    IntToStringHasNoColon(c2);
    SplitAtLastColon(q1 + ":" + floatRepr(t1), IntToString(c1), q2 + ":" + floatRepr(t2), IntToString(c2));
    SplitAtLastColon(q1, floatRepr(t1), q2, floatRepr(t2));
    IntToStringInjective(c1, c2);
  }

  datatype Entry<V> = Entry(value: V, stamp: int)

  /** `k` holds the smallest stamp of `m`. */
  ghost predicate IsLru<V>(m: map<string, Entry<V>>, k: string) {
    k in m && forall j | j in m :: m[k].stamp <= m[j].stamp
  }

  ghost predicate StampsDistinct<V>(m: map<string, Entry<V>>) {
    forall k, j | k in m && j in m && k != j :: m[k].stamp != m[j].stamp
  }

  /** With distinct stamps there is only one least recently used key. */
  lemma LruIsUnique<V>(m: map<string, Entry<V>>, a: string, b: string)
    requires StampsDistinct(m) && IsLru(m, a) && IsLru(m, b)
    ensures a == b
  {
  }

  /** An entry stamped above every stamp so far keeps the stamps in range and distinct. */
  lemma FreshStamp<V>(m: map<string, Entry<V>>, m': map<string, Entry<V>>, key: string, e: Entry<V>, counter: int)
    requires forall k | k in m :: 1 <= m[k].stamp <= counter
    requires counter >= 0 && StampsDistinct(m) && e.stamp == counter + 1 && m' == m[key := e]
    ensures forall k | k in m' :: 1 <= m'[k].stamp <= counter + 1
    ensures StampsDistinct(m')
  {
    forall k | k in m' ensures 1 <= m'[k].stamp <= counter + 1 && (k != key ==> k in m && m'[k] == m[k]) {
      if k != key {
        assert k in m;
      }
    }
  }

  /** The size bound the cache keeps: its capacity, but never below one entry. */
  function SizeBound(capacity: int): (b: nat)
    ensures b >= 1 && (capacity >= 1 ==> b == capacity)
  {
    if capacity < 1 then 1 else capacity
  }

  /**
   * What storing `value` under `key` with stamp `stamp` leaves: the key
   * restamped or added, and, when a new key meets a full non-empty cache, the
   * least recently used entry gone.
   */
  ghost predicate PutOutcome<V>(before: map<string, Entry<V>>, after: map<string, Entry<V>>, key: string, value: V, stamp: int, capacity: int) {
    if key in before || |before| < capacity || before == map[] then after == before[key := Entry(value, stamp)]
    else exists victim :: IsLru(before, victim) && after == (before - {victim})[key := Entry(value, stamp)]
  }

  class LRUCache<V> {
    const capacity: int
    var cache: map<string, Entry<V>>
    var accessCounter: int

    ghost predicate Valid()
      reads this
    {
      && accessCounter >= 0
      && (forall k | k in cache :: 1 <= cache[k].stamp <= accessCounter)
      && StampsDistinct(cache)
      && |cache| <= SizeBound(capacity)
    }

    constructor(capacity: int)
      ensures this.capacity == capacity && cache == map[] && accessCounter == 0
      ensures Valid()
    {
      this.capacity := capacity;
      cache := map[];
      accessCounter := 0;
    }

    /** A hit returns the value and restamps it as the most recently used. */
    method Get(key: string) returns (v: Option<V>)
      requires Valid()
      modifies this
      ensures Valid()
      ensures key !in old(cache) ==> v == None && cache == old(cache) && accessCounter == old(accessCounter)
      ensures key in old(cache) ==>
        && v == Some(old(cache)[key].value)
        && accessCounter == old(accessCounter) + 1
        && cache == old(cache)[key := Entry(old(cache)[key].value, accessCounter)]
      ensures key in old(cache) ==> forall k | k in cache && k != key :: cache[k].stamp < cache[key].stamp
    {
      if key in cache {
        var value := cache[key].value;
        accessCounter := accessCounter + 1;
        cache := cache[key := Entry(value, accessCounter)];
        return Some(value);
      }
      return None;
    }

    /** Removes the entry with the smallest stamp, if there is any entry. */
    method EvictLru()
      requires Valid()
      modifies this
      ensures Valid()
      ensures accessCounter == old(accessCounter)
      ensures old(cache) == map[] ==> cache == map[]
      ensures old(cache) != map[] ==> exists victim :: IsLru(old(cache), victim) && cache == old(cache) - {victim}
      ensures |cache| == if old(cache) == map[] then 0 else |old(cache)| - 1
    {
      if cache == map[] {
        return;
      }
      var keys := cache.Keys;
      var lru :| lru in keys;
      keys := keys - {lru};
      while keys != {}
        invariant keys <= cache.Keys && lru in cache
        invariant forall j | j in cache && j !in keys :: cache[lru].stamp <= cache[j].stamp
        decreases |keys|
      {
        var k :| k in keys;
        if cache[k].stamp < cache[lru].stamp {
          lru := k;
        }
        keys := keys - {k};
      }
      assert IsLru(cache, lru);
      cache := cache - {lru};
    }

    /** Stores `value` under `key` with a fresh stamp, evicting the LRU entry when a new key finds the cache full. */
    method Put(key: string, value: V)
      requires Valid()
      modifies this
      ensures Valid()
      ensures accessCounter == old(accessCounter) + 1
      ensures key in cache && cache[key] == Entry(value, accessCounter)
      ensures key in old(cache) ==> cache == old(cache)[key := Entry(value, accessCounter)]
      ensures key !in old(cache) && |old(cache)| < capacity ==> cache == old(cache)[key := Entry(value, accessCounter)]
      ensures key !in old(cache) && |old(cache)| >= capacity && old(cache) == map[] ==>
        cache == map[key := Entry(value, accessCounter)]
      ensures key !in old(cache) && |old(cache)| >= capacity && old(cache) != map[] ==>
        exists victim :: IsLru(old(cache), victim) && cache == (old(cache) - {victim})[key := Entry(value, accessCounter)]
    ensures PutOutcome(old(cache), cache, key, value, accessCounter, capacity)
    {
      accessCounter := accessCounter + 1;
      if key in cache {
        FreshStamp(cache, cache[key := Entry(value, accessCounter)], key, Entry(value, accessCounter), accessCounter - 1);
        cache := cache[key := Entry(value, accessCounter)];
      } else {
        if |cache| >= capacity {
          EvictLru();
        }
        FreshStamp(cache, cache[key := Entry(value, accessCounter)], key, Entry(value, accessCounter), accessCounter - 1);
        cache := cache[key := Entry(value, accessCounter)];
      }
    }

    /** Empties the cache and restarts the counter. */
    method Clear()
      modifies this
      ensures cache == map[] && accessCounter == 0
      ensures Valid()
    {
      cache := map[];
      accessCounter := 0;
    }

    /** The number of stored keys, which never exceeds the capacity (or one, for a capacity below one). */
    function Size(): (n: nat)
      requires Valid()
      reads this
      ensures n == |cache.Keys|
      ensures n <= SizeBound(capacity)
    {
      |cache|
    }
  }
}
