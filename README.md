# bgio-firebase, modelled in Dafny

bgio-firebase is a storage connector for boardgame.io. It keeps match data in
Google Firestore. This project models the three pieces of logic that sit above
the Firebase SDK calls, and proves properties of them.

- **The versioned match store** (`Firestore` in `src/firestore.ts`). A match is
  four documents keyed by match id: metadata, state, initialState and log.
  - `createMatch` writes all four in one batch that fails if any of them exists.
  - `setState` is a transaction that writes the incoming state only when
    nothing is stored or the stored `_stateID` is strictly older. When the
    write is accepted and a delta log is given, it also appends the delta log
    with `arrayUnion`.
  - `setMetadata` overwrites the metadata, adding the derived `isGameover` flag.
  - `fetch` returns the requested fields that exist.
  - `wipe` deletes all four documents.
  - `listMatches` plans a query. Range filters on `updatedAt` always go into
    the query. Equality filters on `gameName` and `isGameover` go into it only
    when composite indexes are enabled or no range filter is present.
    Otherwise they are applied in memory to the returned documents.
- **The cache-coherent gateway** (`FirebaseDB` in `src/bgio-firebase.ts`). It is
  a bounded least-recently-used cache of game states in front of a key→state
  store.
  - `set` refuses a write when the cache already holds a state that is at
    least as new.
  - `get` serves cache hits. On a miss it fills the cache from the store only
    with a numeric, non-negative version.
  - `has` answers from the cache first.
  - `remove` is guarded by `has`.
- **The match-data helpers** (`src/utils.ts`). `extendMatchData` adds
  `isGameover`, and `standardiseMatchData` removes it again.

## Layout

| file | module | contents |
|---|---|---|
| values.dfy | `Values` | JavaScript values and records, property access, the `_stateID` comparisons, `Distinct` |
| match_data.dfy | `MatchData` | `extendMatchData` / `standardiseMatchData` and their round trip |
| planner.dfy | `Planner` | the `listMatches` planner: query clauses, in-memory test, the intended filter |
| firestore.dfy | `FirestoreDb` | `arrayUnion`, pure snapshot functions for each operation, the `Firestore` class that updates four maps in place |
| firestore_props.dfy | `FirestoreProps` | lemmas about the store's snapshots |
| lru_cache.dfy | `LruCache` | the bounded cache as a value: entries, recency order, capacity |
| gateway.dfy | `BgioFirebase` | the `FirebaseDB` class over a cache and a store map, and its coherence invariant |
| gateway_scenarios.dfy, store_scenarios.dfy | `GatewayScenarios`, `StoreScenarios` | the repository's test cases as methods whose contracts state the expected outcome |

Each store method is tied to a pure function of the snapshot
(`Snapshot() == AfterSetState(old(Snapshot()), …)`). The properties are then
proved about those functions.

The gateway keeps a ghost invariant, `Coherent()`: every cached state equals
the store's state for that id. Every gateway operation preserves it. While it
holds, `get` returns exactly the store's state.

## Behaviours of the code worth knowing

- `setState` appends the delta log with Firestore's `arrayUnion`. That call
  adds only elements not already present, so a repeated log entry is dropped.
  A description of the log as plain concatenation holds only for entries that
  are pairwise distinct and new to the log. `FirestoreDb.ArrayUnionAppendsNew`
  states this condition, and `FirestoreDb.ArrayUnionAddsOnlyNew` and
  `FirestoreDb.ArrayUnionSkipsPresent` show the dropping.
- `setState` updates the log document with `update`, which fails on a missing
  document and aborts the whole transaction. On a match that was never
  created, a write carrying a delta log therefore stores nothing and fails.
  The same write without a delta log creates a lone state document.
  `setMetadata` can likewise create a lone metadata document. The
  "all four documents or none" invariant therefore holds for `createMatch`
  and `wipe` only (`FirestoreProps.CreateAndWipeKeepAllOrNone`,
  `FirestoreProps.SetStateAloneCreatesLoneState`).
- The gateway's store adapter (`src/db/firestore.ts:17-20`) overwrites
  unconditionally. The only version guard on the gateway path is the cache
  check in `FirebaseDB.set`. Once the cache has evicted a match, an older
  write replaces a newer stored state
  (`GatewayScenarios.StaleWriteAfterEviction`).
- In `FirebaseDB.get`, the second cache look-up (`src/bgio-firebase.ts:92-98`)
  can only hit under interleaving. In the sequential model it always misses,
  so the observed version is the default 0.

## Model

| member | source | states |
|---|---|---|
| MatchData.Extend | src/utils.ts:13-18 | `isGameover` is present and is `true` exactly when `gameover` is not undefined; the fields are the input's plus `isGameover`; every other field is unchanged |
| MatchData.Standardise | src/utils.ts:25-31 | the fields are the input's less `isGameover`; every kept field has its input value |
| MatchData.ExtendOverridesFlag | src/utils.ts:16-17 | a pre-existing `isGameover` field has no influence: extending a record with any value under that key equals extending the record |
| MatchData.StandardiseUndoesExtend | src/utils.ts:13-31 | standardising an extended record equals standardising the record, and gives back the record itself when it has no `isGameover` field |
| Planner.Query | src/firestore.ts:166-193 | an `updatedAt >`/`<` clause is in the query exactly when that range filter is requested; a `gameName`/`isGameover` equality clause is in it exactly when requested and composite indexes are on or no range filter is given |
| Planner.PlanIsExact | src/firestore.ts:162-212 | a metadata document is kept by query plus in-memory test exactly when it meets every requested filter |
| Planner.PlanIndependentOfCompositeIndexes | src/firestore.ts:181-207 | which documents are kept does not depend on `useCompositeIndexes` |
| Planner.EachFilterAppliedOnce | src/firestore.ts:181-207 | each requested equality filter is in the query exactly when no in-memory filtering is needed; with no equality filter requested, nothing is filtered in memory and the query holds range clauses only |
| FirestoreDb.ArrayUnion | src/firestore.ts:96-98 | the old log is a prefix of the result, and the result holds exactly the old entries and the new ones |
| FirestoreDb.ArrayUnionAppendsNew | src/firestore.ts:95-98 | new entries that are pairwise distinct and absent from the log are appended as they are, in order |
| FirestoreDb.ArrayUnionAddsOnlyNew | src/firestore.ts:96-98 | the entries added to the log are pairwise distinct and none of them was already in it |
| FirestoreDb.ArrayUnionSkipsPresent | src/firestore.ts:96-98 | an entry already in the log is not appended again |
| FirestoreDb.Firestore.CreateMatch | src/firestore.ts:66-77 | the outcome is `AlreadyExists` when any of the four documents exists, else `Ok`; the new state is `AfterCreateMatch` of the old one |
| FirestoreDb.Firestore.SetState | src/firestore.ts:79-102 | the outcome is `NotFound` when an accepted write with a delta log meets a missing log document, else `Ok`; the new state is `AfterSetState` of the old one |
| FirestoreDb.Firestore.SetMetadata | src/firestore.ts:104-107 | the new state is the old one with the extended metadata stored under the id |
| FirestoreDb.Firestore.Fetch | src/firestore.ts:109-150 | the loop over the four collections yields exactly `Fetched`: each requested field whose document exists, the log unwrapped, the metadata standardised |
| FirestoreDb.Firestore.Wipe | src/firestore.ts:152-160 | the new state is the old one without any of the id's four documents |
| FirestoreDb.Firestore.ListMatches | src/firestore.ts:162-212 | the returned ids have no repetitions and are exactly the ids whose metadata meets every requested filter, on either setting of `useCompositeIndexes` |
| FirestoreProps.SetStateStaleIsNoop | src/firestore.ts:91-100 | when the stored `_stateID` is not strictly less than the incoming one, state and log are unchanged and the call succeeds |
| FirestoreProps.SetStateWritesIffAccepted | src/firestore.ts:91-92 | the state becomes the incoming one exactly when the guard accepts it and the transaction commits; metadata, initial state and other matches' logs are untouched |
| FirestoreProps.LogAppendOnlyOnAcceptedWrite | src/firestore.ts:95-98 | the log changes only on an accepted write with a non-empty delta log, and the old log always stays a prefix of the new one |
| FirestoreProps.AcceptedWriteAppends | src/firestore.ts:91-98 | an accepted write with distinct and new entries stores the state and appends the delta log unchanged |
| FirestoreProps.TwoAcceptedWritesConcatenate | src/firestore.ts:91-98 | two accepted writes in version order leave the second state stored and the log as old log, first delta, second delta |
| FirestoreProps.MaxVersion | src/firestore.ts:91 | the largest `_stateID` of a non-empty sequence of numeric versions bounds every element and is attained by one |
| FirestoreProps.StoredVersionIsMax | src/firestore.ts:84-101 | after any non-empty sequence of writes with numeric versions, with or without delta logs, that can commit (the log document exists, or no write carries a delta log), and with a version stored before, if any, that is numeric, the stored version is the largest of them and of the version stored before |
| FirestoreProps.MaxVersionPermutation | src/firestore.ts:91 | reordering the writes keeps them numeric and keeps their largest version |
| FirestoreProps.FinalVersionOrderIndependent | src/firestore.ts:84-101 | for writes with numeric versions, with or without delta logs, that can commit, the final stored version does not depend on the order in which the writes arrive |
| FirestoreProps.WriteCommits | src/firestore.ts:84-101 | a write that can commit keeps the log document and stores its state exactly when the guard accepts it |
| FirestoreProps.UncommittableWriteStoresNothing | src/firestore.ts:95-98 | with no log document, a write carrying a delta log changes nothing, so the monotonicity lemmas need the log document to exist |
| FirestoreProps.AcceptedDeltas | src/firestore.ts:91-98 | the delta logs of the writes the guard accepts, in order: every entry comes from some write's delta log, and writes without delta logs contribute nothing |
| FirestoreProps.LogIsAcceptedDeltas | src/firestore.ts:84-101 | after any sequence of writes on a match whose log document exists, with distinct entries, the log is the old log followed by the accepted writes' delta logs in acceptance order; rejected writes' delta logs never appear |
| FirestoreProps.CreateMatchWritesAllFour | src/firestore.ts:70-76 | on a new id: extended metadata, the initial state under both state and initialState, and an empty log, so all four documents exist; on an existing id: `AlreadyExists` and nothing written |
| FirestoreProps.FetchReturnsRequestedExisting | src/firestore.ts:119-145 | each field is present exactly when requested and its document exists; metadata never carries `isGameover`; the log is the raw array; a match with no documents yields no fields |
| FirestoreProps.FetchAfterCreate | src/firestore.ts:66-150 | fetching every field of a newly created match returns the metadata and initial state passed in and an empty log |
| FirestoreProps.SetMetadataReadsBack | src/firestore.ts:104-107 | only the metadata changes, and it reads back exactly as given |
| FirestoreProps.WipeRemovesAll | src/firestore.ts:152-160 | afterwards no field of the match can be fetched, other matches read as before, and a second `wipe` changes nothing |
| FirestoreProps.CreateAndWipeKeepAllOrNone | src/firestore.ts:66-77 | `createMatch` and `wipe` keep a match's four documents all present or all absent |
| FirestoreProps.SetStateAloneCreatesLoneState | src/firestore.ts:91-92 | `setState` without a delta log on an empty store creates a state document with no companions |
| LruCache.Cache.Touch | src/bgio-firebase.ts:71 | a look-up keeps the entries and capacity and makes a cached key the most recently used |
| LruCache.Cache.Set | src/bgio-firebase.ts:76 | the cache stays within capacity, holds the new value as its most recently used entry, and keeps only entries it held before |
| LruCache.Cache.Del | src/bgio-firebase.ts:141 | the entry for the key is dropped and nothing else |
| LruCache.Cache.Reset | src/bgio-firebase.test.ts:75 | the cache is emptied and keeps its capacity |
| LruCache.Empty | src/bgio-firebase.ts:54 | a new cache is empty and has the given capacity |
| LruCache.SetWithoutEviction | src/bgio-firebase.ts:76 | when the key is cached or the cache is not full, `set` evicts nothing |
| LruCache.SetCapacityOne | src/bgio-firebase.test.ts:85-94 | with capacity one, the cache holds exactly the last key set |
| BgioFirebase.WriteKeepsCoherence | src/bgio-firebase.ts:76-77 | writing the same state to the cache and to the store keeps every cached state equal to the stored one |
| BgioFirebase.FirebaseDB.constructor | src/bgio-firebase.ts:43-55 | the gateway starts with an empty cache of the given size over the given store |
| BgioFirebase.FirebaseDB.Set | src/bgio-firebase.ts:70-78 | when the cached `_stateID` is at least the incoming one, only recency changes; otherwise the state goes into the cache and then the store; a numeric cached version never decreases; coherence is preserved |
| BgioFirebase.FirebaseDB.Get | src/bgio-firebase.ts:86-119 | a hit returns the cached state without a store read; a miss returns the store's document (none when missing) and caches it exactly when its `_stateID` is a number at least 0; under coherence the result is the store's state |
| BgioFirebase.FirebaseDB.Has | src/bgio-firebase.ts:126-132 | true when the id is cached, else whether the store has it; under coherence, exactly whether the store has it |
| BgioFirebase.FirebaseDB.Remove | src/bgio-firebase.ts:138-142 | an unknown id changes nothing; otherwise the store document and the cache entry are deleted; afterwards the id is in neither |
| BgioFirebase.FirebaseDB.List | src/bgio-firebase.ts:148-150 | the ids are exactly the store's ids |
| GatewayScenarios.MissingMatchReadsUndefined | src/bgio-firebase.test.ts:52-55 | reading a match never written gives no state |
| GatewayScenarios.CacheHit | src/bgio-firebase.test.ts:57-68 | a written state reads back, and `has` finds it |
| GatewayScenarios.CacheMissReadsStore | src/bgio-firebase.test.ts:70-83 | after the cache is emptied, the state is read from the store and `has` still finds it |
| GatewayScenarios.CacheSizeOne | src/bgio-firebase.test.ts:85-94 | with room for one entry, the cache's keys after two writes are the second id alone |
| GatewayScenarios.RaceConditions | src/bgio-firebase.test.ts:96-112 | run as one sequence: writing version 1 and then version 0 leaves version 1 readable; a further write of version 0 is refused, so the store still holds version 1; a cache entry set by hand to version 1 survives the read that follows; after the cache is emptied, a read returns version 1 from the store and caches it again |
| GatewayScenarios.StaleWriteAfterEviction | src/db/firestore.ts:17-20 | with capacity one, after version 5 is written and evicted by another match, a write of version 1 replaces it in the store and is what `get` returns: the store keeps no version guard of its own |
| GatewayScenarios.RemoveEntry | src/bgio-firebase.test.ts:126-135 | removing one of two matches keeps the other, and a second removal leaves cache and store unchanged |
| GatewayScenarios.ListEntries | src/bgio-firebase.test.ts:115-124 | listing returns exactly the three written ids |
| StoreScenarios.FetchNonexistent | test/bgio-firebase.test.ts:65-76 | every field of a match that does not exist is absent |
| StoreScenarios.FetchCreated | test/bgio-firebase.test.ts:78-109 | a created match reads back in full with an empty log; asking for no field gives none |
| StoreScenarios.CreatesStateDocument | test/bgio-firebase.test.ts:113-121 | `setState` on an unknown match stores its state, and no metadata appears |
| StoreScenarios.UpdatesState | test/bgio-firebase.test.ts:123-138 | a newer state replaces the stored one and the initial state stays |
| StoreScenarios.WontOverwriteNewer | test/bgio-firebase.test.ts:140-150 | an older state does not replace a newer one |
| StoreScenarios.TwoDeltasConcatenate | test/bgio-firebase.test.ts:152-171 | on a match at version 0 with an empty log, writes of versions 1 and 2 with distinct entries leave the three entries in order |
| StoreScenarios.ConcatenatesLog | test/bgio-firebase.test.ts:152-171 | the fetched log after the two writes is the three entries in order |
| StoreScenarios.ListByGameName | test/bgio-firebase.test.ts:192-206 | listing by game name returns the two matches of that game and not the third, with or without composite indexes |
| StoreScenarios.WipeRemovesEntry | test/bgio-firebase.test.ts:209-232 | a wiped match is no longer listed and none of its fields is fetched, while the other match is still listed |

## Left out

- Firebase app initialisation, `connect`, settings and the collection names
  built from the prefix are SDK setup.
- The gateway's store adapters (`src/db/firestore.ts`, `src/db/rtdb.ts`,
  `src/db/base.ts`) only forward to SDK calls. They are modelled as one
  key→state map that `set` overwrites and `remove` deletes from.
- The `lru-cache` library is external. It is modelled as a value: a map, a
  recency order (which `keys()` returns) and a capacity.
- BgioFirebase.FirebaseDB.constructor: requires a positive cache size, because
  the library's handling of a zero or negative `max` is outside the model.
- LruCache.Empty: requires a positive capacity, for the same reason.
- Concurrency is not modelled. This covers transaction isolation and retries,
  the `Promise.all` in `fetch`, and races between interleaved async calls,
  including the one the second cache look-up in `get` guards against. The
  model is sequential, and the collections in `fetch` are read one after
  another.
- Store failures other than `create` on an existing document and `update` on
  a missing one (network, permissions, quotas) are outside the model.
- JavaScript numbers are modelled as unbounded integers. A `_stateID` that is
  not a number is treated as `undefined`, so every comparison with it is
  false. JavaScript's coercion of `null`, strings or booleans in `<` and `>=`
  is not modelled.
- FirestoreDb.ArrayUnion: decides equality of log entries structurally and
  appends entries as given. Firestore compares and stores serialised values,
  and with `ignoreUndefinedProperties` (on by default, src/firestore.ts:34,
  52-53) serialising drops every property whose value is undefined. The two
  agree on entries that have no undefined property. An entry that differs
  from a logged one only in an undefined property is new here and a
  duplicate to Firestore. The same serialisation of stored states and
  metadata is not modelled either: records are stored as given.
- FirestoreDb.Firestore.ListMatches: states which ids are returned, not
  their order, because the order depends on the store's index.
- BgioFirebase.FirebaseDB.List: returns the store's ids as a set. The
  source returns an array in the store's order, which is not modelled.
- The store's query (`ref.get()`, src/firestore.ts:195) is a call into the
  SDK. `FirestoreDb.QueryDocs` models it as the set of metadata documents
  that satisfy every clause; it carries no contract of its own, and the
  promise about listing is stated by `FirestoreDb.Firestore.ListMatches` and
  `Planner.PlanIsExact`. Firestore's restrictions on which query
  combinations need an index are not modelled.
- `types/firebase-mock.d.ts` holds type declarations for a mock library.
  `src/constants.ts` and `src/db/shared.ts` hold constants only: the
  collection names and prefix (SDK setup) and the table order, which is
  inlined here as `FirestoreDb.TableOrder`. The flag's field name
  `isGameover` comes from src/utils.ts:17, and the default cache size of
  1000 from src/bgio-firebase.ts:47.
