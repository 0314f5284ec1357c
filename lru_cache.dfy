/** The bounded cache the gateway keeps in front of its store: a map from
    match id to state with a fixed capacity and least-recently-used eviction.
    `recency` lists the cached ids, most recently used first, which is also
    the order in which the cache enumerates its keys. */
module LruCache {
  import opened Values

  /** `s` without its occurrences of `k`, order kept. */
  function Without(s: seq<string>, k: string): (r: seq<string>)
    ensures forall x :: x in r <==> x in s && x != k
    ensures Distinct(s) ==> Distinct(r)
    ensures Distinct(s) && k in s ==> |r| == |s| - 1
    ensures k !in s ==> r == s
    ensures |r| <= |s|
  {
    if s == [] then []
    else if s[0] == k then Without(s[1..], k)
    else
      var rest := Without(s[1..], k);
      assert Distinct(s) ==> Distinct([s[0]] + rest) by {
        if Distinct(s) {
          DistinctTail(s);
          DistinctCons(s[0], rest);
        }
      }
      [s[0]] + rest
  }

  /** `s` with `k` moved (or added) to the front. */
  function Front(s: seq<string>, k: string): (r: seq<string>)
    requires Distinct(s)
    ensures Distinct(r) && |r| > 0 && r[0] == k
    ensures forall x :: x in r <==> x == k || x in s
    ensures |r| == if k in s then |s| else |s| + 1
  {
    var rest := Without(s, k);
    DistinctCons(k, rest);
    [k] + rest
  }

  /** Evicting the last entry of an over-full cache leaves a valid one. */
  lemma EvictLastIsValid(entries: map<string, Record>, r: seq<string>, max: nat)
    requires 0 < max && |r| == max + 1 && Distinct(r)
    requires forall x :: x in entries <==> x in r
    ensures Cache(entries - {r[|r| - 1]}, r[..|r| - 1], max).Valid()
  {
    DistinctDropLast(r);
  }

  datatype Cache = Cache(entries: map<string, Record>, recency: seq<string>, max: nat)
  {
    ghost predicate Valid()
    {
      && 0 < max
      && |recency| <= max
      && Distinct(recency)
      && (forall k :: k in entries <==> k in recency)
    }

    /** The cached value for `k`, if any. */
    function Get(k: string): Option<Record>
    {
      if k in entries then Some(entries[k]) else None
    }

    /** Looking `k` up marks it as the most recently used entry. */
    function Touch(k: string): (c: Cache)
      requires Valid()
      ensures c.Valid() && c.max == max && c.entries == entries
      ensures k in entries ==> c.recency[0] == k
      ensures k !in entries ==> c == this
    {
      if k in entries then Cache(entries, Front(recency, k), max) else this
    }

    /** Stores `v` under `k` as the most recently used entry, evicting the
        least recently used entry when the capacity would be exceeded. */
    function Set(k: string, v: Record): (c: Cache)
      requires Valid()
      ensures c.Valid() && c.max == max
      ensures c.Get(k) == Some(v) && c.recency[0] == k
      ensures forall j :: j in c.entries && j != k ==> j in entries && c.entries[j] == entries[j]
    {
      var r := Front(recency, k);
      if |r| > max then
        EvictLastIsValid(entries[k := v], r, max);
        Cache(entries[k := v] - {r[|r| - 1]}, r[..|r| - 1], max)
      else
        Cache(entries[k := v], r, max)
    }

    /** Drops the entry for `k`, if any. */
    function Del(k: string): (c: Cache)
      requires Valid()
      ensures c.Valid() && c.max == max
      ensures c.entries == entries - {k}
    {
      Cache(entries - {k}, Without(recency, k), max)
    }

    /** Empties the cache. */
    function Reset(): (c: Cache)
      requires Valid()
      ensures c.Valid() && c.max == max && c.entries == map[]
    {
      Cache(map[], [], max)
    }

    /** The cached ids, most recently used first. */
    function Keys(): seq<string>
    {
      recency
    }
  }

  /** An empty cache holding at most `max` entries. */
  function Empty(max: nat): (c: Cache)
    requires 0 < max
    ensures c.Valid() && c.max == max && c.entries == map[]
  {
    Cache(map[], [], max)
  }

  /** While the cache is not full, or `k` is already cached, `Set` evicts
      nothing. */
  lemma SetWithoutEviction(c: Cache, k: string, v: Record)
    requires c.Valid() && (k in c.entries || |c.recency| < c.max)
    ensures c.Set(k, v).entries == c.entries[k := v]
  {
    assert |Front(c.recency, k)| <= c.max;
  }

  /** With capacity one, the cache holds exactly the last entry set. */
  lemma {:induction false} SetCapacityOne(c: Cache, k: string, v: Record)
    requires c.Valid() && c.max == 1
    ensures c.Set(k, v).Keys() == [k]
    ensures c.Set(k, v).entries == map[k := v]
  {
    var c' := c.Set(k, v);
    assert |c'.recency| <= 1 && c'.recency[0] == k;
    assert c'.recency == [k];
    assert c'.entries.Keys == {k};
  }
}
