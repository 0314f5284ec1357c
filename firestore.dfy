/** The versioned match store: four document collections keyed by match id
    (metadata, state, initialState, log). A value of `Tables` is one snapshot
    of the four collections; the functions below give the snapshot after each
    operation, and the class `Firestore` performs the operations in place. */
module FirestoreDb {
  import opened Values
  import opened MatchData
  import opened Planner

  /** The log document wraps the entries: `{ log: [...] }`. */
  datatype LogDoc = LogDoc(log: seq<Value>)

  datatype Tables = Tables(
    metadata: map<string, Record>,
    state: map<string, Record>,
    initialState: map<string, Record>,
    log: map<string, LogDoc>)

  /** How a batch or transaction that the store refuses ends. */
  datatype StoreError =
    | AlreadyExists  // `create` on a document that exists
    | NotFound       // `update` on a document that does not exist

  datatype Outcome = Ok | Err(error: StoreError)

  datatype Table = MetadataTable | StateTable | InitialStateTable | LogTable

  /** The order in which `fetch` visits the collections. */
  const TableOrder: seq<Table> := [MetadataTable, StateTable, InitialStateTable, LogTable]

  datatype FetchOpts = FetchOpts(metadata: bool, state: bool, initialState: bool, log: bool)
  {
    predicate Requests(t: Table)
    {
      match t
      case MetadataTable => metadata
      case StateTable => state
      case InitialStateTable => initialState
      case LogTable => log
    }
  }

  datatype FetchResult = FetchResult(
    metadata: Option<Record>,
    state: Option<Record>,
    initialState: Option<Record>,
    log: Option<seq<Value>>)

  const NoFields := FetchResult(None, None, None, None)
  const AllFields := FetchOpts(true, true, true, true)

  // ---------------------------------------------------------------------
  // Firestore's `arrayUnion`: append, in order, each element not yet present.

  function ArrayUnion(arr: seq<Value>, elems: seq<Value>): (r: seq<Value>)
    ensures |arr| <= |r| && r[..|arr|] == arr
    ensures forall x :: x in r <==> x in arr || x in elems
    decreases |elems|
  {
    if elems == [] then arr
    else ArrayUnion(if elems[0] in arr then arr else arr + [elems[0]], elems[1..])
  }

  /** Dropping the first of some distinct entries new to `arr` leaves
      distinct entries new to `arr` extended by that first entry. */
  lemma FreshAfterFirst(arr: seq<Value>, elems: seq<Value>)
    requires elems != [] && Distinct(elems)
    requires forall i :: 0 <= i < |elems| ==> elems[i] !in arr
    ensures Distinct(elems[1..])
    ensures forall i :: 0 <= i < |elems[1..]| ==> elems[1..][i] !in arr + [elems[0]]
  {
    DistinctTail(elems);
    forall i | 0 <= i < |elems[1..]| ensures elems[1..][i] !in arr + [elems[0]] {
      assert elems[1..][i] == elems[i + 1];
    }
  }

  /** Entries that are pairwise distinct and new to the log are appended as
      they are, in order. */
  lemma {:induction false} ArrayUnionAppendsNew(arr: seq<Value>, elems: seq<Value>)
    requires Distinct(elems)
    requires forall i :: 0 <= i < |elems| ==> elems[i] !in arr
    ensures ArrayUnion(arr, elems) == arr + elems
    decreases |elems|
  {
    if elems != [] {
      var next, rest := arr + [elems[0]], elems[1..];
      assert elems[0] !in arr;
      assert ArrayUnion(arr, elems) == ArrayUnion(next, rest);
      FreshAfterFirst(arr, elems);
      ArrayUnionAppendsNew(next, rest);
      assert next + rest == arr + elems;
    }
  }

  /** Putting an entry new to `arr` in front of added entries that are
      distinct and new to `arr + [e]` keeps them distinct and new to `arr`. */
  lemma AddedAfterNew(arr: seq<Value>, e: Value, r: seq<Value>)
    requires e !in arr && |arr| + 1 <= |r| && r[..|arr| + 1] == arr + [e]
    requires Distinct(r[|arr| + 1..])
    requires forall i :: |arr| + 1 <= i < |r| ==> r[i] !in arr + [e]
    ensures Distinct(r[|arr|..])
    ensures forall i :: |arr| <= i < |r| ==> r[i] !in arr
  {
    var tail := r[|arr| + 1..];
    assert r[|arr|] == e;
    assert r[|arr|..] == [e] + tail;
    forall i | 0 <= i < |tail| ensures tail[i] != e {
      assert tail[i] == r[|arr| + 1 + i];
    }
    DistinctCons(e, tail);
  }

  /** The entries `arrayUnion` adds are pairwise distinct and none of them was
      already in the log: repeated and already present entries are dropped. */
  lemma {:induction false} ArrayUnionAddsOnlyNew(arr: seq<Value>, elems: seq<Value>)
    ensures var r := ArrayUnion(arr, elems);
      && Distinct(r[|arr|..])
      && (forall i :: |arr| <= i < |r| ==> r[i] !in arr)
    decreases |elems|
  {
    if elems != [] {
      var e := elems[0];
      var next := if e in arr then arr else arr + [e];
      var r := ArrayUnion(next, elems[1..]);
      assert ArrayUnion(arr, elems) == r;
      ArrayUnionAddsOnlyNew(next, elems[1..]);
      if e !in arr {
        assert r[..|next|] == next;
        AddedAfterNew(arr, e, r);
      }
    }
  }

  /** An entry already in the log is not appended again. */
  lemma ArrayUnionSkipsPresent(arr: seq<Value>, x: Value)
    requires x in arr
    ensures ArrayUnion(arr, [x]) == arr
  {
    assert [x][1..] == [];
  }

  // ---------------------------------------------------------------------
  // Snapshots after each operation.

  predicate AnyExists(t: Tables, id: string)
  {
    id in t.metadata || id in t.state || id in t.initialState || id in t.log
  }

  /** All four documents of the match are present, or none is. */
  predicate AllOrNone(t: Tables, id: string)
  {
    (id in t.metadata && id in t.state && id in t.initialState && id in t.log)
    || !AnyExists(t, id)
  }

  /** The batch of four `create` calls fails as a unit if any document exists. */
  function CreateMatchOutcome(t: Tables, id: string): Outcome
  {
    if AnyExists(t, id) then Err(AlreadyExists) else Ok
  }

  function AfterCreateMatch(t: Tables, id: string, metadata: Record, initialState: Record): Tables
  {
    if AnyExists(t, id) then t
    else Tables(
      t.metadata[id := Extend(metadata)],
      t.state[id := initialState],
      t.initialState[id := initialState],
      t.log[id := LogDoc([])])
  }

  /** The `_stateID` guard: write when nothing is stored or the stored
      version is strictly older than the incoming one. */
  predicate Accepts(t: Tables, id: string, s: Record)
  {
    id !in t.state || JsLess(StateID(t.state[id]), StateID(s))
  }

  /** An accepted write with a non-empty delta log updates the log document;
      updating a missing document fails the whole transaction. */
  function SetStateOutcome(t: Tables, id: string, s: Record, deltalog: seq<Value>): Outcome
  {
    if Accepts(t, id, s) && |deltalog| > 0 && id !in t.log then Err(NotFound) else Ok
  }

  function AfterSetState(t: Tables, id: string, s: Record, deltalog: seq<Value>): Tables
  {
    if !Accepts(t, id, s) then t
    else if |deltalog| == 0 then t.(state := t.state[id := s])
    else if id !in t.log then t
    else t.(state := t.state[id := s],
            log := t.log[id := LogDoc(ArrayUnion(t.log[id].log, deltalog))])
  }

  function AfterSetMetadata(t: Tables, id: string, metadata: Record): Tables
  {
    t.(metadata := t.metadata[id := Extend(metadata)])
  }

  function AfterWipe(t: Tables, id: string): Tables
  {
    Tables(t.metadata - {id}, t.state - {id}, t.initialState - {id}, t.log - {id})
  }

  /** The result of `fetch`: the requested fields that exist, with the log
      unwrapped and the derived metadata flag stripped. */
  function Fetched(t: Tables, id: string, opts: FetchOpts): FetchResult
  {
    FetchResult(
      if opts.metadata && id in t.metadata then Some(Standardise(t.metadata[id])) else None,
      if opts.state && id in t.state then Some(t.state[id]) else None,
      if opts.initialState && id in t.initialState then Some(t.initialState[id]) else None,
      if opts.log && id in t.log then Some(t.log[id].log) else None)
  }

  /** The ids of documents a query over the metadata collection returns. */
  function QueryDocs(metadata: map<string, Record>, query: seq<Clause>): set<string>
  {
    set id | id in metadata && SatisfiesAll(metadata[id], query)
  }

  // ---------------------------------------------------------------------
  // The store, updated in place.

  class Firestore {
    var metadata: map<string, Record>
    var state: map<string, Record>
    var initialState: map<string, Record>
    var log: map<string, LogDoc>
    const useCompositeIndexes: bool

    function Snapshot(): Tables
      reads this
    {
      Tables(metadata, state, initialState, log)
    }

    constructor (existing: Tables, useCompositeIndexes: bool)
      ensures Snapshot() == existing
      ensures this.useCompositeIndexes == useCompositeIndexes
    {
      metadata := existing.metadata;
      state := existing.state;
      initialState := existing.initialState;
      log := existing.log;
      this.useCompositeIndexes := useCompositeIndexes;
    }

    method CreateMatch(id: string, matchMetadata: Record, initial: Record) returns (r: Outcome)
      modifies this
      ensures r == CreateMatchOutcome(old(Snapshot()), id)
      ensures Snapshot() == AfterCreateMatch(old(Snapshot()), id, matchMetadata, initial)
    {
      if id in metadata || id in state || id in initialState || id in log {
        return Err(AlreadyExists);
      }
      metadata := metadata[id := Extend(matchMetadata)];
      state := state[id := initial];
      initialState := initialState[id := initial];
      log := log[id := LogDoc([])];
      r := Ok;
    }

    method SetState(id: string, s: Record, deltalog: seq<Value>) returns (r: Outcome)
      modifies this
      ensures r == SetStateOutcome(old(Snapshot()), id, s, deltalog)
      ensures Snapshot() == AfterSetState(old(Snapshot()), id, s, deltalog)
    {
      var prevState := if id in state then Some(state[id]) else None;
      if prevState.None? || JsLess(StateID(prevState.value), StateID(s)) {
        if |deltalog| > 0 {
          if id !in log {
            return Err(NotFound);
          }
          log := log[id := LogDoc(ArrayUnion(log[id].log, deltalog))];
        }
        state := state[id := s];
      }
      r := Ok;
    }

    method SetMetadata(id: string, matchMetadata: Record)
      modifies this
      ensures Snapshot() == AfterSetMetadata(old(Snapshot()), id, matchMetadata)
    {
      metadata := metadata[id := Extend(matchMetadata)];
    }

    /** Visits the collections in order and fills in each requested field
        whose document exists. */
    method Fetch(id: string, opts: FetchOpts) returns (r: FetchResult)
      ensures r == Fetched(Snapshot(), id, opts)
    {
      ghost var want := Fetched(Snapshot(), id, opts);
      r := NoFields;
      var i := 0;
      while i < |TableOrder|
        invariant 0 <= i <= |TableOrder|
        invariant r.metadata == if i > 0 then want.metadata else None
        invariant r.state == if i > 1 then want.state else None
        invariant r.initialState == if i > 2 then want.initialState else None
        invariant r.log == if i > 3 then want.log else None
      {
        var table := TableOrder[i];
        i := i + 1;
        if !opts.Requests(table) {
          continue;
        }
        match table
        case MetadataTable =>
          if id in metadata { r := r.(metadata := Some(Standardise(metadata[id]))); }
        case StateTable =>
          if id in state { r := r.(state := Some(state[id])); }
        case InitialStateTable =>
          if id in initialState { r := r.(initialState := Some(initialState[id])); }
        case LogTable =>
          if id in log { r := r.(log := Some(log[id].log)); }
      }
    }

    method Wipe(id: string)
      modifies this
      ensures Snapshot() == AfterWipe(old(Snapshot()), id)
    {
      metadata := metadata - {id};
      state := state - {id};
      initialState := initialState - {id};
      log := log - {id};
    }

    /** Runs the planned query, then walks the returned documents and keeps
        those that pass the in-memory test when one is needed. The ids are
        exactly those whose metadata meets every requested filter. */
    method ListMatches(opts: ListOpts) returns (ids: seq<string>)
      ensures Distinct(ids)
      ensures forall id :: id in ids <==> id in metadata && MatchesFilter(opts, metadata[id])
    {
      var query := Query(opts, useCompositeIndexes);
      var docs := QueryDocs(metadata, query);
      var manual := NeedsManualFiltering(useCompositeIndexes, opts);
      ids := [];
      var pending := docs;
      while pending != {}
        invariant pending <= docs
        invariant Distinct(ids)
        invariant forall id :: id in ids <==>
          id in docs && id !in pending && (!manual || ManualKeep(opts, metadata[id]))
        decreases pending
      {
        var id :| id in pending;
        if !manual || ManualKeep(opts, metadata[id]) {
          ids := ids + [id];
        }
        pending := pending - {id};
      }
      forall id | id in metadata
        ensures KeptByPlan(opts, useCompositeIndexes, metadata[id]) <==> MatchesFilter(opts, metadata[id])
      {
        PlanIsExact(opts, useCompositeIndexes, metadata[id]);
      }
    }
  }
}
