/** The gateway's expected behaviour on the situations its test suite sets
    up, derived from the operations' contracts alone. */
module GatewayScenarios {
  import opened Values
  import opened LruCache
  import opened BgioFirebase

  const DefaultCacheSize := 1000

  /** Reading a match that was never written gives no state. */
  method MissingMatchReadsUndefined() returns (r: Option<Record>)
    ensures r == None
  {
    var db := new FirebaseDB(DefaultCacheSize, map[]);
    r := db.Get("gameID");
  }

  /** A state just written is read back from the cache, and `has` finds it. */
  method CacheHit() returns (r: Option<Record>, found: bool)
    ensures r == Some(map["a" := Num(1)]) && found
  {
    var db := new FirebaseDB(DefaultCacheSize, map[]);
    db.Set("gameID", map["a" := Num(1)]);
    r := db.Get("gameID");
    found := db.Has("gameID");
  }

  /** A state without `_stateID` written, the cache emptied: the read falls
      through to the store and `has` still finds the match. */
  method CacheMissReadsStore() returns (r: Option<Record>, found: bool)
    ensures r == Some(map["a" := Num(1)]) && found
  {
    var s := map["a" := Num(1)];
    var db := new FirebaseDB(DefaultCacheSize, map[]);
    db.Set("gameID", s);
    db.cache := db.cache.Reset();
    r := db.Get("gameID");
    db.cache := db.cache.Reset();
    found := db.Has("gameID");
  }

  /** With room for one entry, writing two matches leaves only the second
      one cached. */
  method CacheSizeOne() returns (keys: seq<string>)
    ensures keys == ["another"]
  {
    var db := new FirebaseDB(1, map[]);
    db.Set("gameID", map["a" := Num(1)]);
    var before := db.cache;
    db.Set("another", map["b" := Num(1)]);
    SetCapacityOne(before.Touch("another"), "another", map["b" := Num(1)]);
    keys := db.cache.Keys();
  }

  /** The race-condition test run as one sequence. Out-of-order writes
      (version 1, then 0) leave version 1 readable. The next write of version
      0 is refused too, so the store still holds version 1 when the cache is
      set to version 1 by hand: the cache is never fresher than the store
      here, and the read that follows is a hit that keeps it. A write of
      version 1 is refused as well; after the cache is emptied, the read
      returns version 1 from the store and caches it again. */
  method RaceConditions()
    returns (r1: Option<Record>, stored: Record, kept: Option<Record>,
             r2: Option<Record>, refilled: Option<Record>)
    ensures r1 == Some(Versioned(1)) && stored == Versioned(1)
    ensures kept == Some(Versioned(1))
    ensures r2 == Some(Versioned(1)) && refilled == Some(Versioned(1))
  {
    var db := new FirebaseDB(DefaultCacheSize, map[]);
    db.Set("gameID", Versioned(1));
    db.Set("gameID", Versioned(0));
    r1 := db.Get("gameID");

    db.Set("gameID", Versioned(0));
    stored := db.store["gameID"];
    db.cache := db.cache.Set("gameID", Versioned(1));
    var _ := db.Get("gameID");
    kept := db.cache.Get("gameID");

    db.Set("gameID", Versioned(1));
    db.cache := db.cache.Reset();
    r2 := db.Get("gameID");
    refilled := db.cache.Get("gameID");
  }

  /** The store behind the gateway overwrites without a version check, so
      once the cache has evicted a match an older write replaces a newer
      stored state: version 5 is written, evicted by another match, and a
      later write of version 1 lands in the store and is read back. */
  method StaleWriteAfterEviction() returns (stored: Record, r: Option<Record>)
    ensures stored == Versioned(1) && r == Some(Versioned(1))
  {
    var db := new FirebaseDB(1, map[]);
    db.Set("gameID", Versioned(5));
    var before := db.cache;
    db.Set("another", Versioned(0));
    SetCapacityOne(before.Touch("another"), "another", Versioned(0));
    assert "gameID" !in db.cache.entries;
    db.Set("gameID", Versioned(1));
    stored := db.store["gameID"];
    r := db.Get("gameID");
  }

  /** Removing one of two matches keeps the other; removing it again changes
      neither the cache nor the store. */
  method RemoveEntry() returns (kept: bool, removed: bool, secondIsNoop: bool)
    ensures kept && !removed && secondIsNoop
  {
    var db := new FirebaseDB(DefaultCacheSize, map[]);
    db.Set("gameID_0", map["a" := Num(0)]);
    db.Set("gameID_1", map["a" := Num(1)]);
    db.Remove("gameID_1");
    kept := db.Has("gameID_0");
    removed := db.Has("gameID_1");
    var cacheBefore, storeBefore := db.cache, db.store;
    db.Remove("gameID_1");
    secondIsNoop := db.cache == cacheBefore && db.store == storeBefore;
  }

  /** Listing returns every written id. */
  method ListEntries() returns (ids: set<string>)
    ensures ids == {"gameID_0", "gameID_1", "gameID_2"}
  {
    var db := new FirebaseDB(DefaultCacheSize, map[]);
    db.Set("gameID_0", map["a" := Num(0)]);
    assert db.store.Keys == {"gameID_0"};
    db.Set("gameID_2", map["a" := Num(2)]);
    assert db.store.Keys == {"gameID_0", "gameID_2"};
    db.Set("gameID_1", map["a" := Num(1)]);
    ids := db.List();
  }
}
