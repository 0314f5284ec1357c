/** The match store's expected behaviour on the situations its test suite
    sets up, derived from the operations' contracts and the store lemmas. */
module StoreScenarios {
  import opened Values
  import opened MatchData
  import opened Planner
  import opened FirestoreDb
  import opened FirestoreProps

  const EmptyTables := Tables(map[], map[], map[], map[])
  const GameA: Record := map["gameName" := Str("A")]
  const GameB: Record := map["gameName" := Str("B")]
  const NoFilter := ListOpts(None, Where(None, None, None))

  /** Every field of a match that does not exist is absent. */
  method FetchNonexistent() returns (r: FetchResult)
    ensures r == NoFields
  {
    var db := new Firestore(EmptyTables, false);
    r := db.Fetch("nonexistentGameID", AllFields);
  }

  /** A created match reads back in full; asking for nothing gives nothing. */
  method FetchCreated(init: Record) returns (all: FetchResult, none: FetchResult)
    ensures all == FetchResult(Some(GameA), Some(init), Some(init), Some([]))
    ensures none == NoFields
  {
    var db := new Firestore(EmptyTables, false);
    var _ := db.CreateMatch("gameID", GameA, init);
    FetchAfterCreate(EmptyTables, "gameID", GameA, init);
    all := db.Fetch("gameID", AllFields);
    none := db.Fetch("gameID", FetchOpts(false, false, false, false));
  }

  /** `setState` on a match that was never created writes its state
      document alone. */
  method CreatesStateDocument(s: Record) returns (r: FetchResult)
    ensures r.state == Some(s) && r.metadata == None
  {
    var db := new Firestore(EmptyTables, false);
    var _ := db.SetState("A", s, []);
    r := db.Fetch("A", FetchOpts(true, true, false, false));
  }

  /** A newer state replaces the stored one; the initial state stays. */
  method UpdatesState() returns (r: FetchResult)
    ensures r.state == Some(Versioned(1)) && r.initialState == Some(Versioned(0))
  {
    var db := new Firestore(EmptyTables, false);
    var _ := db.CreateMatch("B", GameA, Versioned(0));
    var _ := db.SetState("B", Versioned(1), []);
    r := db.Fetch("B", FetchOpts(false, true, true, false));
  }

  /** An older state does not overwrite a newer one. */
  method WontOverwriteNewer() returns (r: FetchResult)
    ensures r.state == Some(Versioned(1))
  {
    var db := new Firestore(EmptyTables, false);
    var _ := db.SetState("C", Versioned(1), []);
    var _ := db.SetState("C", Versioned(0), []);
    r := db.Fetch("C", FetchOpts(false, true, false, false));
  }

  const CreatedD := AfterCreateMatch(EmptyTables, "D", GameA, Versioned(0))

  lemma CreatedDHolds()
    ensures "D" in CreatedD.state && CreatedD.state["D"] == Versioned(0)
    ensures "D" in CreatedD.log && CreatedD.log["D"].log == []
  {
  }

  /** Three pairwise distinct entries split as `[e1]` and `[e2, e3]` form two
      delta logs without repetitions whose entries are new to the log before
      them. */
  lemma FreshDeltas(e1: Value, e2: Value, e3: Value)
    requires e1 != e2 && e1 != e3 && e2 != e3
    ensures Distinct([e1]) && Distinct([e2, e3])
    ensures forall i :: 0 <= i < |[e1]| ==> [e1][i] !in []
    ensures forall i :: 0 <= i < |[e2, e3]| ==> [e2, e3][i] !in [] + [e1]
  {
    assert [] + [e1] == [e1];
  }

  /** On a match whose state is version 0 and whose log is empty, two
      accepted writes carrying distinct entries leave exactly those entries,
      in order. */
  lemma TwoDeltasConcatenate(t: Tables, e1: Value, e2: Value, e3: Value)
    requires "D" in t.state && t.state["D"] == Versioned(0)
    requires "D" in t.log && t.log["D"].log == []
    requires e1 != e2 && e1 != e3 && e2 != e3
    ensures var t' := AfterSetState(AfterSetState(t, "D", Versioned(1), [e1]), "D", Versioned(2), [e2, e3]);
      "D" in t'.log && t'.log["D"].log == [e1, e2, e3]
  {
    FreshDeltas(e1, e2, e3);
    TwoAcceptedWritesConcatenate(t, "D", Versioned(1), [e1], Versioned(2), [e2, e3]);
    assert [] + [e1] + [e2, e3] == [e1, e2, e3];
  }

  /** Delta logs of two accepted writes, holding distinct entries, are
      concatenated in order. */
  method ConcatenatesLog(e1: Value, e2: Value, e3: Value) returns (r: FetchResult)
    requires e1 != e2 && e1 != e3 && e2 != e3
    ensures r.log == Some([e1, e2, e3])
  {
    CreatedDHolds();
    TwoDeltasConcatenate(CreatedD, e1, e2, e3);
    var db := new Firestore(CreatedD, false);
    var _ := db.SetState("D", Versioned(1), [e1]);
    var _ := db.SetState("D", Versioned(2), [e2, e3]);
    r := db.Fetch("D", FetchOpts(false, false, false, true));
  }

  const ListedABC := AfterSetMetadata(AfterSetMetadata(AfterSetMetadata(
    EmptyTables, "gameID_3", GameA), "gameID_5", GameA), "gameID_4", GameB)

  lemma ListedABCHolds()
    ensures "gameID_3" in ListedABC.metadata && MatchesFilter(NoFilter.(gameName := Some("A")), ListedABC.metadata["gameID_3"])
    ensures "gameID_5" in ListedABC.metadata && MatchesFilter(NoFilter.(gameName := Some("A")), ListedABC.metadata["gameID_5"])
    ensures "gameID_4" in ListedABC.metadata && !MatchesFilter(NoFilter.(gameName := Some("A")), ListedABC.metadata["gameID_4"])
  {
    assert ListedABC.metadata["gameID_3"] == Extend(GameA);
    assert ListedABC.metadata["gameID_5"] == Extend(GameA);
    assert ListedABC.metadata["gameID_4"] == Extend(GameB);
    assert Field(Extend(GameA), "gameName") == Str("A");
    assert Field(Extend(GameB), "gameName") == Str("B");
  }

  /** Listing by game name returns the matches of that game only. */
  method ListByGameName(useCompositeIndexes: bool) returns (ids: seq<string>)
    ensures "gameID_3" in ids && "gameID_5" in ids && "gameID_4" !in ids
  {
    ListedABCHolds();
    var db := new Firestore(EmptyTables, useCompositeIndexes);
    db.SetMetadata("gameID_3", GameA);
    db.SetMetadata("gameID_5", GameA);
    db.SetMetadata("gameID_4", GameB);
    assert db.Snapshot() == ListedABC;
    ids := db.ListMatches(NoFilter.(gameName := Some("A")));
  }

  function CreatedTwoWipedOne(init: Record): Tables
  {
    AfterWipe(AfterCreateMatch(AfterCreateMatch(EmptyTables, "gameID_6", GameA, init),
                               "gameID_7", GameA, init), "gameID_7")
  }

  lemma CreatedTwoWipedOneHolds(init: Record)
    ensures var t := CreatedTwoWipedOne(init);
      && "gameID_6" in t.metadata && MatchesFilter(NoFilter, t.metadata["gameID_6"])
      && !AnyExists(t, "gameID_7")
  {
  }

  /** A wiped match is no longer listed and none of its fields is fetched. */
  method WipeRemovesEntry(init: Record) returns (ids: seq<string>, r: FetchResult)
    ensures "gameID_6" in ids && "gameID_7" !in ids
    ensures r == NoFields
  {
    CreatedTwoWipedOneHolds(init);
    var db := new Firestore(EmptyTables, false);
    var _ := db.CreateMatch("gameID_6", GameA, init);
    var _ := db.CreateMatch("gameID_7", GameA, init);
    db.Wipe("gameID_7");
    assert db.Snapshot() == CreatedTwoWipedOne(init);
    ids := db.ListMatches(NoFilter);
    r := db.Fetch("gameID_7", AllFields);
  }
}
