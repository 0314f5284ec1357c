/** The cache-coherent gateway: a bounded cache of game states in front of a
    store that maps match ids to states. Writes are refused when the cache
    already holds a state at least as new; reads are served from the cache
    when possible and fill it from the store only with a numeric, non-negative
    version. */
module BgioFirebase {
  import opened Values
  import opened LruCache

  /** Every cached state is the one the store holds for that id. */
  ghost predicate CoherentWith(c: Cache, store: map<string, Record>)
  {
    forall id :: id in c.entries ==> id in store && c.entries[id] == store[id]
  }

  /** Writing the same state to the cache and to the store keeps them coherent. */
  lemma WriteKeepsCoherence(c: Cache, store: map<string, Record>, id: string, s: Record)
    requires c.Valid() && CoherentWith(c, store)
    ensures CoherentWith(c.Touch(id).Set(id, s), store[id := s])
  {
    var c' := c.Touch(id).Set(id, s);
    forall j | j in c'.entries ensures j in store[id := s] && c'.entries[j] == store[id := s][j] {
      if j != id {
        assert j in c.entries;
      }
    }
  }

  class FirebaseDB {
    var cache: Cache
    /** The store behind the cache: one state document per match id.
        Its own `set` overwrites unconditionally. */
    var store: map<string, Record>

    ghost predicate Valid()
      reads this
    {
      cache.Valid()
    }

    ghost predicate Coherent()
      reads this
    {
      CoherentWith(cache, store)
    }

    constructor (cacheSize: nat, backing: map<string, Record>)
      requires cacheSize > 0
      ensures Valid() && Coherent()
      ensures cache == Empty(cacheSize) && store == backing
    {
      cache := Empty(cacheSize);
      store := backing;
    }

    /** Writes the state unless the cache holds one whose `_stateID` is at
        least the incoming one; the cache is updated before the store. */
    method Set(id: string, s: Record)
      requires Valid()
      modifies this
      ensures Valid()
      ensures var cached := old(cache.Get(id));
        if cached.Some? && JsAtLeast(StateID(cached.value), StateID(s)) then
          cache == old(cache).Touch(id) && cache.entries == old(cache.entries) && store == old(store)
        else
          cache == old(cache).Touch(id).Set(id, s) && store == old(store)[id := s]
      ensures var cached := old(cache.Get(id));
        cached.Some? && StateID(cached.value).Some? && StateID(s).Some? ==>
          id in cache.entries && StateID(cache.entries[id]).value >= StateID(cached.value).value
      ensures old(Coherent()) ==> Coherent()
    {
      var cacheValue := cache.Get(id);
      cache := cache.Touch(id);
      if cacheValue.Some? && JsAtLeast(StateID(cacheValue.value), StateID(s)) {
        return;
      }
      if old(Coherent()) {
        WriteKeepsCoherence(old(cache), old(store), id, s);
      }
      cache := cache.Set(id, s);
      store := store[id := s];
    }

    /** Serves a cached state directly. On a miss, reads the store and caches
        the document only when its `_stateID` is at least the version observed
        before the read (0: in this sequential model the re-check of the cache
        before the read always misses); a missing document counts as -1 and is
        never cached. */
    method Get(id: string) returns (r: Option<Record>)
      requires Valid()
      modifies this
      ensures Valid() && store == old(store)
      ensures old(cache.Get(id)).Some? ==>
        r == old(cache.Get(id)) && cache == old(cache).Touch(id)
      ensures old(cache.Get(id)).None? ==>
        && r == (if id in store then Some(store[id]) else None)
        && cache == (if id in store && JsAtLeast(StateID(store[id]), Some(0))
                     then old(cache).Set(id, store[id]) else old(cache))
      ensures old(Coherent()) ==>
        Coherent() && r == (if id in store then Some(store[id]) else None)
    {
      var cacheValue := cache.Get(id);
      cache := cache.Touch(id);
      if cacheValue.Some? {
        return cacheValue;
      }
      var oldStateID := Some(0);
      var doc := if id in store then Some(store[id]) else None;
      var newStateID := Some(-1);
      if doc.Some? {
        newStateID := StateID(doc.value);
      }
      if JsAtLeast(newStateID, oldStateID) {
        cache := cache.Set(id, doc.value);
      }
      r := doc;
    }

    /** True when the id is cached; otherwise the store's answer. */
    method Has(id: string) returns (b: bool)
      requires Valid()
      modifies this
      ensures Valid() && store == old(store) && cache == old(cache).Touch(id)
      ensures b == (id in old(cache.entries) || id in store)
      ensures old(Coherent()) ==> Coherent() && (b <==> id in store)
    {
      var cacheValue := cache.Get(id);
      cache := cache.Touch(id);
      if cacheValue.Some? {
        return true;
      }
      b := id in store;
    }

    /** Does nothing for an unknown id; otherwise deletes the store's document
        and drops the cache entry. Either way the id is gone afterwards, so a
        second call is a no-op. */
    method Remove(id: string)
      requires Valid()
      modifies this
      ensures Valid()
      ensures id !in cache.entries && id !in store
      ensures !(id in old(cache.entries) || id in old(store)) ==>
        cache == old(cache) && store == old(store)
      ensures (id in old(cache.entries) || id in old(store)) ==>
        store == old(store) - {id} && cache == old(cache).Touch(id).Del(id)
      ensures old(Coherent()) ==> Coherent()
    {
      var known := Has(id);
      if !known {
        return;
      }
      store := store - {id};
      cache := cache.Del(id);
    }

    /** All match ids in the store; the cache plays no part. */
    method List() returns (ids: set<string>)
      ensures ids == store.Keys
    {
      ids := store.Keys;
    }
  }
}
